/** Every step of the engine keeps the invariant, so every read at the latest
    bound or at a live snapshot agrees with the history in every reachable state. */
module EngineSafety {
  import opened Records
  import opened Layers
  import opened Retention
  import opened MemTables
  import opened Wal
  import opened Engine

  // --------------------------------------------------------------------- writes

  lemma StampChronological(ops: seq<Op>, first: nat)
    ensures Chronological(Stamp(ops, first))
    ensures forall r :: r in Stamp(ops, first) ==> first <= r.seqno < first + |ops|
  {
  }

  /** Buffering newer records: the newest visible one of them wins, and where
      none is visible the MemTable answers as before. */
  lemma NewestInsertAll(active: seq<Record>, batch: seq<Record>, k: Key, h: nat)
    requires StrictlySorted(active) && Consistent(active + batch) && Chronological(batch)
    requires forall r, b :: r in active && b in batch ==> r.seqno < b.seqno
    ensures Newest(InsertAll(active, batch), k, h) ==
            if Lookup(batch, k, h).Some? then Lookup(batch, k, h) else Newest(active, k, h)
  {
    var active' := InsertAll(active, batch);
    InsertAllMembers(active, batch);
    LookupIsNewest(batch, k, h);
    var o := if Lookup(batch, k, h).Some? then Lookup(batch, k, h) else Newest(active, k, h);
    assert IsNewest(active', k, h, o);
    forall a, b | a in active' && b in active' && a.seqno == b.seqno
      ensures a == b
    {
      assert a in active + batch && b in active + batch;
    }
    NewestUnique(active', k, h, o);
  }

  lemma HistAppend(hist: seq<Record>, batch: seq<Record>, n: nat)
    requires Chronological(hist) && Chronological(batch)
    requires (forall r :: r in hist ==> r.seqno < n) && forall r :: r in batch ==> n <= r.seqno
    ensures Chronological(hist + batch)
  {
    var all := hist + batch;
    forall i, j | 0 <= i < j < |all|
      ensures all[i].seqno < all[j].seqno
    {
      if i < |hist| && |hist| <= j {
        assert all[i] in hist && all[j] in batch;
      }
    }
  }

  /** The part of a state that reads and writes touch. */
  lemma WriteLayers(below: seq<seq<Record>>, active: seq<Record>, hist: seq<Record>, batch: seq<Record>, n: nat)
    requires Layered(below + [active]) && Drawn(below + [active], hist) && StrictlySorted(active)
    requires Chronological(hist) && Chronological(batch)
    requires (forall r :: r in hist ==> r.seqno < n) && forall r :: r in batch ==> n <= r.seqno
    ensures Consistent(active + batch) && StrictlySorted(InsertAll(active, batch))
    ensures forall r, b :: r in active && b in batch ==> r.seqno < b.seqno
    ensures Layered(below + [InsertAll(active, batch)]) && Drawn(below + [InsertAll(active, batch)], hist + batch)
  {
    var active' := InsertAll(active, batch);
    var stack := below + [active];
    assert stack[|below|] == active;
    assert forall r :: r in active ==> r in hist;
    ChronologicalConsistent(hist);
    ChronologicalConsistent(batch);
    InsertAllMembers(active, batch);
    LayeredConcat(below, [active]);
    forall i | 0 <= i < |below|
      ensures Over(active', below[i])
    {
      assert stack[i] == below[i];
      assert Over([active][0], below[i]);
    }
    LayeredConcat(below, [active']);
    assert forall i, r :: 0 <= i < |below| && r in below[i] ==> r in stack[i];
  }

  lemma WriteShows(below: seq<seq<Record>>, active: seq<Record>, hist: seq<Record>, batch: seq<Record>, h: nat)
    requires StrictlySorted(active) && Consistent(active + batch) && Chronological(batch)
    requires forall r, b :: r in active && b in batch ==> r.seqno < b.seqno
    requires Shows(below + [active], hist, h)
    ensures Shows(below + [InsertAll(active, batch)], hist + batch, h)
  {
    forall k
      ensures Value(Get(below + [InsertAll(active, batch)], k, h)) == Value(Lookup(hist + batch, k, h))
    {
      NewestInsertAll(active, batch, k, h);
      GetPush(below, active, k, h);
      GetPush(below, InsertAll(active, batch), k, h);
      LookupConcat(hist, batch, k, h);
    }
  }

  lemma WriteInv(s: State, ops: seq<Op>, s': State)
    requires Inv(s) && Does(s, Write(ops), s')
    ensures Inv(s')
  {
    hide Layered, Drawn, Shows, BatchFits, IsCompaction;
    var batch := Stamp(ops, s.nextSeq);
    StampChronological(ops, s.nextSeq);
    HistAppend(s.hist, batch, s.nextSeq);
    WriteLayers(Below(s), s.active, s.hist, batch, s.nextSeq);
    assert Below(s') == Below(s);
    forall h | LiveBound(s', h)
      ensures Shows(Stack(s'), s'.hist, h)
    {
      assert LiveBound(s, h);
      WriteShows(Below(s), s.active, s.hist, batch, h);
    }
    assert CompactOk(s') by {
      assert forall h :: LiveBound(s', h) <==> LiveBound(s, h);
    }
  }

  // --------------------------------------------------------------------- flush

  /** An empty run on top of a stack is invisible. */
  lemma EmptyOnTop(stack: seq<seq<Record>>, hist: seq<Record>)
    requires Layered(stack) && Drawn(stack, hist)
    ensures Layered(stack + [[]]) && Drawn(stack + [[]], hist)
    ensures forall h :: Shows(stack, hist, h) ==> Shows(stack + [[]], hist, h)
  {
    LayeredConcat(stack, [[]]);
    forall k, h
      ensures Get(stack + [[]], k, h) == Get(stack, k, h)
    {
      GetPush(stack, [], k, h);
    }
  }

  /** A second copy of a layer right above the first changes nothing. */
  lemma Doubled(pre: seq<seq<Record>>, f: seq<Record>, post: seq<seq<Record>>, k: Key, h: nat)
    ensures Get(pre + [f] + [f] + post, k, h) == Get(pre + [f] + post, k, h)
  {
    GetConcat(pre + [f] + [f], post, k, h);
    GetConcat(pre + [f], post, k, h);
    GetPush(pre + [f], f, k, h);
    GetPush(pre, f, k, h);
  }

  lemma DoubledLayered(pre: seq<seq<Record>>, f: seq<Record>, post: seq<seq<Record>>)
    ensures Layered(pre + [f] + post) <==> Layered(pre + [f] + [f] + post)
  {
    hide Over;
    LayeredConcat(pre + [f], post);
    LayeredConcat(pre + [f] + [f], post);
    LayeredConcat(pre + [f], [f]);
    LayeredConcat(pre, [f]);
    AllOverConcat([f], pre, [f]);
    AllOverConcat(post, pre, [f]);
    AllOverConcat(post, pre + [f], [f]);
    OverSelf(f);
  }

  lemma OverSelf(f: seq<Record>)
    ensures AllOver([f], [f]) && Layered([f])
  {
  }

  lemma DoubledDrawn(pre: seq<seq<Record>>, f: seq<Record>, post: seq<seq<Record>>, hist: seq<Record>)
    ensures Drawn(pre + [f] + post, hist) <==> Drawn(pre + [f] + [f] + post, hist)
  {
    var one, two := pre + [f] + post, pre + [f] + [f] + post;
    assert forall i :: 0 <= i < |one| ==> one[i] == two[if i < |pre| then i else i + 1];
    assert forall i :: 0 <= i < |two| ==> two[i] == one[if i <= |pre| then i else i - 1];
  }

  /** A step that leaves the layers, the history and the snapshots alone keeps
      every statement about reads. */
  lemma SameLayers(s: State, s': State)
    requires s'.active == s.active && s'.frozen == s.frozen && s'.tables == s.tables
    requires s'.hist == s.hist && s'.nextSeq == s.nextSeq && s'.reserved == s.reserved && s'.snapshots == s.snapshots
    requires HistoryOk(s) && LayersOk(s) && ViewOk(s)
    ensures HistoryOk(s') && LayersOk(s') && ViewOk(s') && Stack(s') == Stack(s)
  {
    hide Layered, Drawn, Shows, Sorted, StrictlySorted, Chronological;
    assert forall h :: LiveBound(s', h) <==> LiveBound(s, h);
  }

  lemma FreezeInv(s: State, s': State)
    requires Inv(s) && Does(s, Freeze, s')
    ensures Inv(s')
  {
    hide Layered, Drawn, Shows, IsCompaction, Covers;
    assert Stack(s') == Stack(s) + [[]];
    EmptyOnTop(Stack(s), s.hist);
    assert forall h :: LiveBound(s', h) <==> LiveBound(s, h);
  }

  lemma PublishInv(s: State, s': State)
    requires Inv(s) && Does(s, Publish, s')
    ensures Inv(s')
  {
    hide Layered, Drawn, Shows, IsCompaction, Covers;
    var f := s.frozen.value;
    assert s'.tables == s.tables + [Table(s.flush.id, f)];
    assert Recs(s'.tables) == Recs(s.tables) + [f];
    assert Stack(s') == Recs(s.tables) + [f] + [f] + [s.active];
    DoubledLayered(Recs(s.tables), f, [s.active]);
    DoubledDrawn(Recs(s.tables), f, [s.active], s.hist);
    DoubledShows(Recs(s.tables), f, [s.active], s.hist);
    StrictIsSorted(f);
    assert forall h :: LiveBound(s', h) <==> LiveBound(s, h);
  }

  lemma DoubledShows(pre: seq<seq<Record>>, f: seq<Record>, post: seq<seq<Record>>, hist: seq<Record>)
    ensures forall h :: Shows(pre + [f] + post, hist, h) <==> Shows(pre + [f] + [f] + post, hist, h)
  {
    forall k, h
      ensures Get(pre + [f] + [f] + post, k, h) == Get(pre + [f] + post, k, h)
    {
      Doubled(pre, f, post, k, h);
    }
  }

  lemma ClearFrozenInv(s: State, s': State)
    requires Inv(s) && Does(s, ClearFrozen, s')
    ensures Inv(s')
  {
    hide Layered, Drawn, Shows, IsCompaction, Covers;
    var f, older := s.frozen.value, s.tables[..|s.tables| - 1];
    assert s.tables == older + [Table(s.flush.id, f)];
    assert Recs(s.tables) == Recs(older) + [f];
    assert Stack(s) == Recs(older) + [f] + [f] + [s.active];
    assert Stack(s') == Recs(older) + [f] + [s.active];
    DoubledLayered(Recs(older), f, [s.active]);
    DoubledDrawn(Recs(older), f, [s.active], s.hist);
    DoubledShows(Recs(older), f, [s.active], s.hist);
    assert forall h :: LiveBound(s', h) <==> LiveBound(s, h);
  }

  // ---------------------------------------------------------------- compaction

  lemma PickInv(s: State, start: nat, end: nat, s': State)
    requires Inv(s) && Does(s, Pick(start, end), s')
    ensures Inv(s')
  {
    hide HistoryOk, LayersOk, ViewOk, FlushOk;
    SameLayers(s, s');
    assert FlushOk(s') by { PickFlush(s, s'); }
  }

  lemma PickFlush(s: State, s': State)
    requires FlushOk(s) && s'.compact.Picked? && s.compact.NoCompaction? && s' == s.(compact := s'.compact)
    ensures FlushOk(s')
  {
  }

  /** The lowest horizon covers every live bound on a run of the live set. */
  lemma MinCovers(s: State, start: nat, run: seq<Table>, min: nat, h: nat)
    requires HistoryOk(s) && LayersOk(s) && RunAt(s, start, run) && IsMinSnapshot(s.snapshots, min) && LiveBound(s, h)
    ensures Covers(Recs(run), min, h)
  {
    hide Layered, Drawn, Sorted, StrictlySorted, Chronological;
    RunBelow(s, start, run);
  }

  lemma MergeRunInv(s: State, out: seq<Record>, s': State)
    requires Inv(s) && Does(s, MergeRun(out), s')
    ensures Inv(s')
  {
    hide HistoryOk, LayersOk, ViewOk, IsCompaction;
    SameLayers(s, s');
    assert forall h :: LiveBound(s', h) <==> LiveBound(s, h);
    assert s'.compact.Merged?;
    var m := s'.compact.m;
    forall h: nat | LiveBound(s', h)
      ensures Covers(Recs(m.run), m.min, h)
    {
      MinCovers(s, m.start, m.run, m.min, h);
    }
  }

  lemma RunBelow(s: State, start: nat, run: seq<Table>)
    requires HistoryOk(s) && LayersOk(s) && RunAt(s, start, run)
    ensures forall x :: Member(Recs(run), x) ==> x in s.hist && x.seqno < s.nextSeq
  {
    forall x | Member(Recs(run), x)
      ensures x in s.hist
    {
      var i :| 0 <= i < |Recs(run)| && x in Recs(run)[i];
      assert run[i] == s.tables[start + i];
      assert Stack(s)[start + i] == run[i].recs;
    }
  }

  /** A run of the live set, seen as a stack of its own. */
  lemma RunLayered(s: State, start: nat, run: seq<Table>)
    requires HistoryOk(s) && LayersOk(s) && RunAt(s, start, run)
    ensures Layered(Recs(run)) && ConsistentStack(Recs(run))
    ensures var pre, post := Recs(s.tables[..start]), Recs(s.tables[start + |run|..]) + FrozenLayer(s) + [s.active];
            Stack(s) == pre + Recs(run) + post
  {
    var pre, post := Recs(s.tables[..start]), Recs(s.tables[start + |run|..]) + FrozenLayer(s) + [s.active];
    assert Recs(s.tables) == pre + Recs(run) + Recs(s.tables[start + |run|..]);
    assert Stack(s) == pre + Recs(run) + post;
    assert Layered(Recs(run)) by {
      hide Over;
      LayeredConcat(pre + Recs(run), post);
      LayeredConcat(pre, Recs(run));
    }
    RunBelow(s, start, run);
    ChronologicalConsistent(s.hist);
  }

  lemma RenameOutInv(s: State, s': State)
    requires Inv(s) && Does(s, RenameOut, s')
    ensures Inv(s')
  {
    hide HistoryOk, LayersOk, ViewOk, IsCompaction, Covers;
    SameLayers(s, s');
    assert forall h :: LiveBound(s', h) <==> LiveBound(s, h);
  }

  lemma DeleteInputsInv(s: State, s': State)
    requires Inv(s) && Does(s, DeleteInputs, s')
    ensures Inv(s')
  {
    hide HistoryOk, LayersOk, ViewOk, IsCompaction, Covers;
    SameLayers(s, s');
    assert forall h :: LiveBound(s', h) <==> LiveBound(s, h);
  }

  lemma {:induction false} PositionFound(tables: seq<Table>, i: nat)
    requires i < |tables| && forall a, b :: 0 <= a < b < |tables| ==> tables[a].id < tables[b].id
    ensures Position(tables, tables[i].id) == Some(i)
    decreases i
  {
    if i > 0 {
      assert tables[0].id < tables[i].id;
      PositionFound(tables[1..], i - 1);
    }
  }

  /** The run is found by its highest id, as the contiguous block it was when it
      was picked, and one table takes its place. */
  lemma SpliceExact(s: State, m: Merge)
    requires IdsOk(s) && RunAt(s, m.start, m.run)
    ensures Position(s.tables, MaxId(m.run)) == Some(m.start + |m.run| - 1)
    ensures Splice(s.tables, m.start + |m.run| - 1, |m.run|, m.out) ==
            s.tables[..m.start] + [Table(MaxId(m.run), m.out)] + s.tables[m.start + |m.run|..]
  {
    var at := m.start + |m.run| - 1;
    assert s.tables[at] == m.run[|m.run| - 1];
    PositionFound(s.tables, at);
  }

  lemma SpliceTables(s: State, s': State)
    requires Inv(s) && Does(s, SpliceRun, s')
    ensures var m := s.compact.m;
            s'.tables == s.tables[..m.start] + [Table(MaxId(m.run), m.out)] + s.tables[m.start + |m.run|..]
  {
    SpliceExact(s, s.compact.m);
  }

  lemma SpliceInv(s: State, s': State)
    requires Inv(s) && Does(s, SpliceRun, s')
    ensures Inv(s')
  {
    hide Does, HistoryOk, LayersOk, ViewOk, IdsOk, FlushOk, CompactOk, Stack, MergeOk, Layered, ConsistentStack;
    SpliceRest(s, s');
    var m := s.compact.m;
    SpliceTables(s, s');
    var pre, post := Recs(s.tables[..m.start]), Recs(s.tables[m.start + |m.run|..]) + FrozenLayer(s) + [s.active];
    RunLayered(s, m.start, m.run);
    SpliceStack(s, s');
    SpliceLayersOk(s, s', pre, post);
    SpliceView(s, s', pre, post);
    SpliceIds(s, s');
  }

  /** What a splice leaves alone. */
  lemma SpliceRest(s: State, s': State)
    requires Inv(s) && Does(s, SpliceRun, s')
    ensures s' == s.(tables := s'.tables, compact := Spliced(s.compact.m))
    ensures s.compact.InputsDeleted? && MergeOk(s, s.compact.m) && RunAt(s, s.compact.m.start, s.compact.m.run)
    ensures s.compact.m.drop ==> s.compact.m.start == 0
    ensures HistoryOk(s') && FlushOk(s') && CompactOk(s')
  {
    hide Layered, Drawn, Shows, Chronological, Covers, IsCompaction, Sorted, StrictlySorted;
  }

  /** The live set around a run, before and after one table takes its place. */
  lemma SplitStack(tables: seq<Table>, start: nat, n: nat, t: Table, top: seq<seq<Record>>)
    requires start + n <= |tables|
    ensures Recs(tables) + top ==
            Recs(tables[..start]) + Recs(tables[start..start + n]) + (Recs(tables[start + n..]) + top)
    ensures Recs(tables[..start] + [t] + tables[start + n..]) + top ==
            Recs(tables[..start]) + [t.recs] + (Recs(tables[start + n..]) + top)
  {
    assert Recs(tables) == Recs(tables[..start]) + Recs(tables[start..start + n]) + Recs(tables[start + n..]);
    assert Recs(tables[..start] + [t] + tables[start + n..]) ==
      Recs(tables[..start]) + [t.recs] + Recs(tables[start + n..]);
  }

  lemma SpliceStack(s: State, s': State)
    requires s.compact.InputsDeleted? && RunAt(s, s.compact.m.start, s.compact.m.run)
    requires s' == s.(tables := s'.tables, compact := Spliced(s.compact.m))
    requires var m := s.compact.m;
             s'.tables == s.tables[..m.start] + [Table(MaxId(m.run), m.out)] + s.tables[m.start + |m.run|..]
    ensures var m := s.compact.m;
            Stack(s') ==
            Recs(s.tables[..m.start]) + [m.out] + (Recs(s.tables[m.start + |m.run|..]) + FrozenLayer(s) + [s.active])
  {
    var m := s.compact.m;
    assert Recs(s'.tables) == Recs(s.tables[..m.start]) + [m.out] + Recs(s.tables[m.start + |m.run|..]);
  }

  lemma SpliceLayersOk(s: State, s': State, pre: seq<seq<Record>>, post: seq<seq<Record>>)
    requires s.compact.InputsDeleted? && MergeOk(s, s.compact.m) && LayersOk(s)
    requires s' == s.(tables := s'.tables, compact := Spliced(s.compact.m))
    requires var m := s.compact.m;
             s'.tables == s.tables[..m.start] + [Table(MaxId(m.run), m.out)] + s.tables[m.start + |m.run|..]
    requires Stack(s) == pre + Recs(s.compact.m.run) + post && Stack(s') == pre + [s.compact.m.out] + post
    ensures LayersOk(s')
  {
    hide Layered, Drawn, Stack, IsCompaction, Covers, StrictlySorted, Sorted;
    var m := s.compact.m;
    SpliceKeepsLayers(pre, Recs(m.run), post, m.drop, m.min, m.out, 0, 0);
    assert pre + Recs(m.run)[0..0] + [m.out] + post == pre + [m.out] + post;
    SpliceDrawn(pre, Recs(m.run), post, m.drop, m.min, m.out, s.hist);
  }

  lemma SpliceDrawn(pre: seq<seq<Record>>, inputs: seq<seq<Record>>, post: seq<seq<Record>>,
                    drop: bool, min: nat, out: seq<Record>, hist: seq<Record>)
    requires Drawn(pre + inputs + post, hist) && IsCompaction(inputs, drop, min, out)
    ensures Drawn(pre + [out] + post, hist) && Sorted(out)
  {
    var whole, next := pre + inputs + post, pre + [out] + post;
    forall i, r | 0 <= i < |next| && r in next[i]
      ensures r in hist
    {
      if i < |pre| {
        assert r in whole[i];
      } else if i == |pre| {
        assert Kept(inputs, drop, min, r);
        var j :| 0 <= j < |inputs| && r in inputs[j];
        assert r in whole[|pre| + j];
      } else {
        assert r in whole[i - 1 + |inputs|];
      }
    }
  }

  lemma SpliceView(s: State, s': State, pre: seq<seq<Record>>, post: seq<seq<Record>>)
    requires ViewOk(s) && s.compact.InputsDeleted? && MergeOk(s, s.compact.m)
    requires Layered(Recs(s.compact.m.run)) && ConsistentStack(Recs(s.compact.m.run))
    requires s'.snapshots == s.snapshots && s'.hist == s.hist && (s.compact.m.start == 0 ==> pre == [])
    requires Stack(s) == pre + Recs(s.compact.m.run) + post && Stack(s') == pre + [s.compact.m.out] + post
    ensures ViewOk(s')
  {
    hide Layered, ConsistentStack, IsCompaction, Stack, Get, Lookup;
    var m := s.compact.m;
    forall h | LiveBound(s', h)
      ensures Shows(Stack(s'), s'.hist, h)
    {
      assert LiveBound(s, h);
      forall k
        ensures Value(Get(Stack(s'), k, h)) == Value(Lookup(s'.hist, k, h))
      {
        SpliceKeepsReads(pre, Recs(m.run), post, m.drop, m.min, m.out, k, h);
      }
    }
  }

  lemma SpliceIds(s: State, s': State)
    requires IdsOk(s) && s.compact.InputsDeleted? && RunAt(s, s.compact.m.start, s.compact.m.run)
    requires var m := s.compact.m;
             s'.tables == s.tables[..m.start] + [Table(MaxId(m.run), m.out)] + s.tables[m.start + |m.run|..]
    requires s'.nextSstId == s.nextSstId
    ensures IdsOk(s')
  {
    var m := s.compact.m;
    assert forall i :: 0 <= i < |s'.tables| ==>
      s'.tables[i].id == s.tables[if i < m.start then i else i + |m.run| - 1].id;
  }

  lemma UnlinkInv(s: State, step: Step, s': State)
    requires Inv(s) && Does(s, step, s') && (step.Unlink? || step.FinishCompaction?)
    ensures Inv(s')
  {
    hide HistoryOk, LayersOk, ViewOk, Does;
    UnlinkFields(s, step, s');
    SameLayers(s, s');
  }

  lemma UnlinkFields(s: State, step: Step, s': State)
    requires Does(s, step, s') && (step.Unlink? || step.FinishCompaction?)
    ensures s.compact.Spliced? && s' == s.(files := s'.files, compact := s'.compact)
    ensures s'.compact == s.compact || s'.compact.NoCompaction?
  {
  }

  // ----------------------------------------------------------------- snapshots

  /** A bound at or above every number in use sees what a latest read sees now. */
  lemma SnapshotShows(s: State, h: nat)
    requires HistoryOk(s) && LayersOk(s) && Shows(Stack(s), s.hist, U64_MAX) && s.nextSeq <= h
    ensures Shows(Stack(s), s.hist, h)
  {
    forall k
      ensures Value(Get(Stack(s), k, h)) == Value(Lookup(s.hist, k, h))
    {
      assert forall i, r :: 0 <= i < |Stack(s)| && r in Stack(s)[i] ==> r in s.hist;
      GetAbove(Stack(s), k, h, U64_MAX);
      LookupAbove(s.hist, k, h, U64_MAX);
    }
  }

  lemma SnapshotView(s: State, s': State)
    requires HistoryOk(s) && LayersOk(s) && ViewOk(s) && s' == s.(snapshots := s.snapshots + multiset{Counter(s)})
    ensures HistoryOk(s') && LayersOk(s') && ViewOk(s')
  {
    hide Layered, Drawn, Shows, Sorted, StrictlySorted, Chronological;
    assert Stack(s') == Stack(s);
    assert forall h :: LiveBound(s', h) ==> h == Counter(s) || LiveBound(s, h);
    SnapshotShows(s, Counter(s));
  }

  /** A horizon taken while a merge runs is above everything the merge reads. */
  lemma SnapshotMerge(s: State, s': State)
    requires HistoryOk(s) && LayersOk(s) && CompactOk(s) && s' == s.(snapshots := s.snapshots + multiset{Counter(s)})
    ensures CompactOk(s')
  {
    hide Layered, Drawn, Sorted, StrictlySorted, Chronological, IsCompaction;
    assert forall h :: LiveBound(s', h) ==> h == Counter(s) || LiveBound(s, h);
    if s.compact.Merged? || s.compact.OutRenamed? || s.compact.InputsDeleted? {
      RunBelow(s, s.compact.m.start, s.compact.m.run);
    }
  }

  lemma SnapshotRest(s: State, s': State)
    requires IdsOk(s) && FlushOk(s) && s' == s.(snapshots := s'.snapshots)
    ensures IdsOk(s') && FlushOk(s')
  {
  }

  lemma TakeSnapshotInv(s: State, s': State)
    requires Inv(s) && Does(s, TakeSnapshot, s')
    ensures Inv(s')
  {
    hide HistoryOk, LayersOk, ViewOk, CompactOk, IdsOk, FlushOk;
    SnapshotView(s, s');
    SnapshotMerge(s, s');
    assert IdsOk(s') && FlushOk(s') by { SnapshotRest(s, s'); }
  }

  lemma DropSnapshotInv(s: State, h: nat, s': State)
    requires Inv(s) && Does(s, DropSnapshot(h), s')
    ensures Inv(s')
  {
    hide Layered, Drawn, Shows, Sorted, StrictlySorted, Chronological, IsCompaction, Covers;
    assert Stack(s') == Stack(s);
    assert forall b :: LiveBound(s', b) ==> LiveBound(s, b);
  }

  /** Moving the counter ahead of a write changes no read and covers no less. */
  lemma ReserveInv(s: State, n: nat, s': State)
    requires Inv(s) && Does(s, Reserve(n), s')
    ensures Inv(s')
  {
    hide Layered, Drawn, Shows, Sorted, StrictlySorted, Chronological, IsCompaction, Covers;
    assert Stack(s') == Stack(s);
    assert forall h :: LiveBound(s', h) <==> LiveBound(s, h);
  }

  /** Steps that write a file or a log and leave every layer alone. */
  lemma QuietInv(s: State, step: Step, s': State)
    requires Inv(s) && Does(s, step, s') && (step.WriteTable? || step.LogTable? || step.RewriteLog?)
    ensures Inv(s')
  {
    hide HistoryOk, LayersOk, ViewOk, IsCompaction, Covers;
    SameLayers(s, s');
    assert forall h :: LiveBound(s', h) <==> LiveBound(s, h);
  }

  // ---------------------------------------------------------------------- runs

  lemma StepInv(s: State, step: Step, s': State)
    requires Inv(s) && Does(s, step, s')
    ensures Inv(s')
  {
    hide Inv, Does;
    match step
    case Reserve(n) => ReserveInv(s, n, s');
    case Write(ops) => WriteInv(s, ops, s');
    case Freeze => FreezeInv(s, s');
    case WriteTable => QuietInv(s, step, s');
    case LogTable => QuietInv(s, step, s');
    case Publish => PublishInv(s, s');
    case RewriteLog => QuietInv(s, step, s');
    case ClearFrozen => ClearFrozenInv(s, s');
    case Pick(start, end) => PickInv(s, start, end, s');
    case MergeRun(out) => MergeRunInv(s, out, s');
    case RenameOut => RenameOutInv(s, s');
    case DeleteInputs => DeleteInputsInv(s, s');
    case SpliceRun => SpliceInv(s, s');
    case Unlink(id) => UnlinkInv(s, step, s');
    case FinishCompaction => UnlinkInv(s, step, s');
    case TakeSnapshot => TakeSnapshotInv(s, s');
    case DropSnapshot(h) => DropSnapshotInv(s, h, s');
  }

  lemma InitInv(s: State)
    requires Init(s)
    ensures Inv(s)
  {
    hide Inv, Init;
    InitLayers(s);
    InitRest(s);
    InitCounter(s);
    NothingInv(s);
  }

  lemma NothingInv(s: State)
    requires s.active == [] && s.frozen.None? && s.tables == [] && s.hist == [] && s.snapshots == multiset{}
    requires Counter(s) <= U64_MAX && s.flush.NoFlush? && s.compact.NoCompaction?
    ensures Inv(s)
  {
    hide LayersOk, ViewOk;
    NothingLayers(s);
    NothingView(s);
  }

  lemma NothingLayers(s: State)
    requires s.active == [] && s.frozen.None? && s.tables == []
    ensures LayersOk(s)
  {
    hide Over;
    assert Stack(s) == [[]];
  }

  lemma NothingView(s: State)
    requires s.active == [] && s.frozen.None? && s.tables == [] && s.hist == []
    ensures ViewOk(s)
  {
    hide Shows;
    assert Stack(s) == [[]];
    EmptyShows();
  }

  lemma EmptyShows()
    ensures forall h :: Shows([[]], [], h)
  {
    forall h, k
      ensures Get([[]], k, h) == None
    {
      GetOne([], k, h);
    }
  }

  /** A run of the engine: a path of steps through `states`. */
  ghost predicate IsRun(states: seq<State>, steps: seq<Step>) {
    |states| == |steps| + 1 && forall i :: 0 <= i < |steps| ==> Does(states[i], steps[i], states[i + 1])
  }

  lemma {:induction false} RunInv(states: seq<State>, steps: seq<Step>, i: nat)
    requires IsRun(states, steps) && Inv(states[0]) && i < |states|
    ensures Inv(states[i])
    decreases i
  {
    hide Inv, Does;
    if i > 0 {
      RunInv(states, steps, i - 1);
      StepInv(states[i - 1], steps[i - 1], states[i]);
    }
  }

  /** In every state of every run from a healthy state, a read of any key at the
      latest bound or at any live snapshot gives what scanning the history of
      writes gives. */
  lemma ReadsMatchHistory(states: seq<State>, steps: seq<Step>, i: nat, k: Key, h: nat)
    requires IsRun(states, steps) && Inv(states[0]) && i < |states| && LiveBound(states[i], h)
    ensures Value(Get(Stack(states[i]), k, h)) == Value(Lookup(states[i].hist, k, h))
  {
    hide Inv, Does, Get, Lookup;
    RunInv(states, steps, i);
    InvReads(states[i], k, h);
  }

  lemma InvReads(s: State, k: Key, h: nat)
    requires Inv(s) && LiveBound(s, h)
    ensures Value(Get(Stack(s), k, h)) == Value(Lookup(s.hist, k, h))
  {
    hide Get, Lookup, HistoryOk, LayersOk, IdsOk, FlushOk, CompactOk, Stack;
    assert Shows(Stack(s), s.hist, h);
  }

  /** The MemTables hold no two records with one key and number. */
  lemma LayersConsistent(s: State)
    requires Inv(s)
    ensures Consistent(s.active) && (s.frozen.Some? ==> Consistent(s.frozen.value))
  {
    hide Layered, Shows, IsCompaction, Covers, StrictlySorted, Chronological;
    ChronologicalConsistent(s.hist);
    assert Stack(s)[|Stack(s)| - 1] == s.active;
    if s.frozen.Some? {
      assert Stack(s)[|s.tables|] == s.frozen.value;
    }
  }

  lemma SameBelow(s: State, step: Step, s': State)
    requires Does(s, step, s') && !step.Freeze? && !step.Publish? && !step.ClearFrozen? && !step.SpliceRun?
    ensures Below(s') == Below(s)
  {
    hide IsCompaction, IsMinSnapshot;
  }

  lemma SameTables(s: State, step: Step, s': State)
    requires Does(s, step, s') && !step.Publish? && !step.SpliceRun?
    ensures s'.tables == s.tables
  {
    hide IsCompaction, IsMinSnapshot;
  }

  // --------------------------------------------------------------- reachability

  ghost predicate Reaches(a: State, b: State) {
    exists states, steps :: IsRun(states, steps) && states[0] == a && states[|states| - 1] == b
  }

  lemma ReachSelf(s: State)
    ensures Reaches(s, s)
  {
    assert IsRun([s], []);
  }

  lemma ReachStep(a: State, s: State, step: Step, s': State)
    requires Reaches(a, s) && Does(s, step, s')
    ensures Reaches(a, s')
  {
    hide Does;
    var states, steps :| IsRun(states, steps) && states[0] == a && states[|states| - 1] == s;
    var states', steps' := states + [s'], steps + [step];
    forall i | 0 <= i < |steps'|
      ensures Does(states'[i], steps'[i], states'[i + 1])
    {
      if i < |steps| {
        assert states'[i] == states[i] && states'[i + 1] == states[i + 1];
      }
    }
    assert IsRun(states', steps') && states'[0] == a && states'[|states'| - 1] == s';
  }

  lemma ReachThrough(a: State, b: State, c: State)
    requires Reaches(a, b) && Reaches(b, c)
    ensures Reaches(a, c)
  {
    hide Does;
    var states, steps :| IsRun(states, steps) && states[0] == a && states[|states| - 1] == b;
    var more, taken :| IsRun(more, taken) && more[0] == b && more[|more| - 1] == c;
    var all, did := states + more[1..], steps + taken;
    forall i | 0 <= i < |did|
      ensures Does(all[i], did[i], all[i + 1])
    {
      if i < |steps| {
        assert all[i] == states[i] && all[i + 1] == states[i + 1];
      } else {
        assert all[i] == more[i - |steps|] && all[i + 1] == more[i - |steps| + 1];
      }
    }
    assert IsRun(all, did) && all[0] == a && all[|all| - 1] == c;
  }
}
