/** A scan as a whole need not show any one instant: a run in which it shows a value
    from before a delete beside a key put after it. */
module ScanFailures {
  import opened Records
  import opened Codec
  import opened Layers
  import opened Retention
  import opened MemTables
  import opened Wal
  import opened Engine
  import opened EngineSafety
  import opened Ranges
  import opened Scan
  import opened EngineScan
  import opened ScanMoments
  import opened Failures

  const LATER: Key := [2]
  const FRESHLY: Record := Record(LATER, Some([9]), 2)

  lemma LaterFits()
    ensures BatchFits(Stamp([(LATER, Some([9]))], 2)) && Stamp([(LATER, Some([9]))], 2) == [FRESHLY]
    ensures InsertAll([], [FRESHLY]) == [FRESHLY] && InsertAll([PUT], [TOMB]) == [TOMB, PUT]
    ensures InsertAll([TOMB], [FRESHLY]) == [TOMB, FRESHLY]
  {
    var batch := Stamp([(LATER, Some([9]))], 2);
    assert batch == [FRESHLY] && batch[1..] == [] && [TOMB][1..] == [];
    assert EncodeAll(batch) == Encode(batch[0]) + EncodeAll(batch[1..]);
    assert InsertAll(Insert([], FRESHLY), []) == [FRESHLY];
    assert [FRESHLY][1..] == [] && Insert([], FRESHLY) == [FRESHLY] && Insert([TOMB], FRESHLY) == [TOMB] + [FRESHLY];
    assert InsertAll(Insert([TOMB], FRESHLY), []) == [TOMB, FRESHLY];
    assert Insert([PUT], TOMB) == [TOMB, PUT];
    assert InsertAll(Insert([PUT], TOMB), []) == [TOMB, PUT];
  }

  /** A deleted key and a new one: merging all there is leaves the new one. */
  lemma MergeToLater(inputs: seq<seq<Record>>)
    requires forall r :: Member(inputs, r) <==> r == PUT || r == TOMB || r == FRESHLY
    ensures IsCompaction(inputs, true, U64_MAX, [FRESHLY])
  {
    hide Member;
    assert !Retained(inputs, U64_MAX, PUT);
    assert Retained(inputs, U64_MAX, TOMB) && Peeled(inputs, U64_MAX, TOMB);
    assert Retained(inputs, U64_MAX, FRESHLY) && !Peeled(inputs, U64_MAX, FRESHLY);
  }

  lemma TwoMembers(x: seq<Record>, y: seq<Record>, r: Record)
    ensures Member([x, y], r) <==> r in x || r in y
  {
    assert r in x ==> r in [x, y][0];
    assert r in y ==> r in [x, y][1];
  }

  /** Put, delete, flush, put another key, flush, compact: the state after the first
      put and the state after all of it. */
  lemma DeleteThenPut() returns (s: State, s': State)
    ensures Reachable(s) && Reaches(s, s') && s.active == [PUT]
    ensures s'.tables == [Table(1, [FRESHLY])] && s'.frozen.None? && s'.hist == [PUT, TOMB, FRESHLY]
  {
    hide Reaches, BatchFits, InsertAll;
    ReachSelf(Fresh());
    SmallFits((KEY, Some([7])), 0);
    SmallFits((KEY, None), 1);
    LaterFits();
    ReachWrote(Fresh(), Fresh(), (KEY, Some([7])));
    s := Wrote(Fresh(), (KEY, Some([7])));
    ReachSelf(s);
    ReachWrote(s, s, (KEY, None));
    var b := Wrote(s, (KEY, None));
    ReachFlushed(s, b);
    var c := Flushed(b);
    ReachWrote(s, c, (LATER, Some([9])));
    var d := Wrote(c, (LATER, Some([9])));
    ReachFlushed(s, d);
    var e := Flushed(d);
    assert e.hist == [PUT, TOMB, FRESHLY];
    assert e.tables == [Table(0, [TOMB, PUT]), Table(1, [FRESHLY])];
    s' := Compacted(s, e);
  }

  /** Put, freeze, flush, delete, put another key, flush, compact: the state after
      the freeze and the state after all of it. */
  lemma FreezeThenDelete() returns (s: State, s': State)
    ensures Reachable(s) && Reaches(s, s') && s.frozen == Some([PUT])
    ensures s'.tables == [Table(1, [FRESHLY])] && s'.hist == [PUT, TOMB, FRESHLY]
  {
    hide Reaches, BatchFits, InsertAll;
    ReachSelf(Fresh());
    SmallFits((KEY, Some([7])), 0);
    SmallFits((KEY, None), 1);
    LaterFits();
    ReachWrote(Fresh(), Fresh(), (KEY, Some([7])));
    var b := Wrote(Fresh(), (KEY, Some([7])));
    ReachFlushed(Fresh(), b);
    s := Froze(b);
    ReachSelf(s);
    ReachDrained(s, b);
    var c := Flushed(b);
    ReachWrote(s, c, (KEY, None));
    var d := Wrote(c, (KEY, None));
    ReachWrote(s, d, (LATER, Some([9])));
    var e := Wrote(d, (LATER, Some([9])));
    ReachFlushed(s, e);
    var f := Flushed(e);
    assert f.hist == [PUT, TOMB, FRESHLY];
    assert f.tables == [Table(0, [PUT]), Table(1, [TOMB, FRESHLY])];
    s' := Compacted(s, f);
  }

  lemma Compacted(a: State, s: State) returns (s': State)
    requires Reaches(a, s) && |s.tables| == 2 && s.tables[0].id == 0 && s.tables[1].id == 1 && s.snapshots == multiset{}
    requires forall r :: r in s.tables[0].recs || r in s.tables[1].recs <==> r == PUT || r == TOMB || r == FRESHLY
    requires s.flush.NoFlush? && s.frozen.None? && s.compact.NoCompaction?
    ensures Reaches(a, s') && s'.tables == [Table(1, [FRESHLY])] && s'.frozen.None? && s'.hist == s.hist
  {
    hide Reaches;
    var run := s.tables;
    assert run[0..2] == run;
    var b := s.(compact := Picked(0, run, true));
    ReachStep(a, s, Pick(0, 2), b);
    assert Recs(run) == [run[0].recs, run[1].recs];
    forall r
      ensures Member(Recs(run), r) <==> r == PUT || r == TOMB || r == FRESHLY
    {
      TwoMembers(run[0].recs, run[1].recs, r);
    }
    MergeToLater(Recs(run));
    var m := Engine.Merge(0, run, true, U64_MAX, [FRESHLY]);
    var c := b.(compact := Merged(m));
    assert IsMinSnapshot(b.snapshots, U64_MAX);
    ReachStep(a, b, MergeRun([FRESHLY]), c);
    var d := c.(files := c.files[1 := [FRESHLY]], compact := OutRenamed(m));
    ReachStep(a, c, RenameOut, d);
    var e := d.(edits := d.edits + Deletes(Stale(run)), compact := InputsDeleted(m));
    ReachStep(a, d, DeleteInputs, e);
    PositionFound(run, 1);
    s' := e.(tables := Splice(run, 1, 2, [FRESHLY]), compact := Spliced(m));
    ReachStep(a, e, SpliceRun, s');
  }

  const PAIRS: seq<(Key, Bytes)> := [(KEY, [7]), (LATER, [9])]

  /** The scan that copies the active MemTable first and the tables last shows both
      keys; at no moment of the history were both there. */
  lemma ScanTearsApart() returns (s: State, s': State)
    ensures Reachable(s) && Reaches(s, s')
    ensures IsScan(ScanStack(Mixed(s, s', s'), None, None), U64_MAX, None, 2, PAIRS)
    ensures forall n :: 0 <= n <= |s'.hist| ==>
              !(Value(Lookup(s'.hist[..n], KEY, U64_MAX)).Some? && Value(Lookup(s'.hist[..n], LATER, U64_MAX)).Some?)
  {
    hide Reaches, Lookup, IsScan, ScanStack;
    s, s' := DeleteThenPut();
    MixedSources(s, s');
    BothLive([[PUT], [FRESHLY]]);
    forall n | 0 <= n <= |s'.hist|
      ensures !(Value(Lookup(s'.hist[..n], KEY, U64_MAX)).Some? && Value(Lookup(s'.hist[..n], LATER, U64_MAX)).Some?)
    {
      NeverBoth(s'.hist, n);
    }
  }

  lemma MixedSources(s: State, s': State)
    requires s.active == [PUT] && s'.tables == [Table(1, [FRESHLY])] && s'.frozen.None?
    ensures ScanStack(Mixed(s, s', s'), None, None) == [[PUT], [FRESHLY]]
  {
    assert [PUT][1..] == [];
    assert Clip([PUT], None) == [PUT] + Clip([], None);
    assert AtLeast([PUT], None) == [PUT] && AtLeast([FRESHLY], None) == [FRESHLY];
    var mixed := Mixed(s, s', s');
    var tables := seq(|mixed.tables|, i requires 0 <= i < |mixed.tables| => AtLeast(mixed.tables[i].recs, None));
    assert tables == [[FRESHLY]];
    assert ScanStack(mixed, None, None) == [Clip(AtLeast(mixed.active, None), None)] + [] + tables;
    assert Clip([PUT], None) == [PUT];
    assert [[PUT]] + [] + [[FRESHLY]] == [[PUT], [FRESHLY]];
  }

  /** The same by the frozen copy alone: the first copy does not hold the key. */
  lemma FrozenTearsApart() returns (s: State, s': State)
    ensures Reachable(s) && Reaches(s, s')
    ensures IsScan(ScanStack(Mixed(Fresh(), s, s'), None, None), U64_MAX, None, 2, PAIRS)
    ensures forall n :: 0 <= n <= |s'.hist| ==>
              !(Value(Lookup(s'.hist[..n], KEY, U64_MAX)).Some? && Value(Lookup(s'.hist[..n], LATER, U64_MAX)).Some?)
  {
    hide Reaches, Lookup, IsScan, ScanStack;
    s, s' := FreezeThenDelete();
    FrozenSources(s, s');
    BothLive([[], [PUT], [FRESHLY]]);
    forall n | 0 <= n <= |s'.hist|
      ensures !(Value(Lookup(s'.hist[..n], KEY, U64_MAX)).Some? && Value(Lookup(s'.hist[..n], LATER, U64_MAX)).Some?)
    {
      NeverBoth(s'.hist, n);
    }
  }

  lemma FrozenSources(s: State, s': State)
    requires s.frozen == Some([PUT]) && s'.tables == [Table(1, [FRESHLY])]
    ensures ScanStack(Mixed(Fresh(), s, s'), None, None) == [[], [PUT], [FRESHLY]]
  {
    assert [PUT][1..] == [];
    assert Clip([PUT], None) == [PUT] + Clip([], None);
    assert AtLeast([PUT], None) == [PUT] && AtLeast([FRESHLY], None) == [FRESHLY] && AtLeast([], None) == [];
    var mixed := Mixed(Fresh(), s, s');
    var tables := seq(|mixed.tables|, i requires 0 <= i < |mixed.tables| => AtLeast(mixed.tables[i].recs, None));
    assert tables == [[FRESHLY]];
    assert ScanStack(mixed, None, None) == [Clip(AtLeast([], None), None)] + [Clip(AtLeast([PUT], None), None)] + tables;
    assert Clip([PUT], None) == [PUT] && Clip([], None) == [];
  }

  lemma BothLive(stack: seq<seq<Record>>)
    requires stack == [[PUT], [FRESHLY]] || stack == [[], [PUT], [FRESHLY]]
    ensures IsScan(stack, U64_MAX, None, 2, PAIRS)
  {
    assert PUT in stack[|stack| - 2] && FRESHLY in stack[|stack| - 1] && Member(stack, PUT) && Member(stack, FRESHLY);
    forall r | Member(stack, r)
      ensures r == PUT || r == FRESHLY
    {
      var i :| 0 <= i < |stack| && r in stack[i];
    }
    OnlyBoth(stack);
  }

  lemma OnlyBoth(stack: seq<seq<Record>>)
    requires forall r :: Member(stack, r) <==> r == PUT || r == FRESHLY
    ensures IsScan(stack, U64_MAX, None, 2, PAIRS)
  {
    hide Member;
    assert IsNewestIn(stack, KEY, U64_MAX, Some(PUT)) && IsNewestIn(stack, LATER, U64_MAX, Some(FRESHLY));
    assert Live(stack, KEY, U64_MAX, [7]) && Live(stack, LATER, U64_MAX, [9]);
    assert Less(KEY, LATER);
    forall k, v | Live(stack, k, U64_MAX, v)
      ensures (k, v) in PAIRS
    {
      var r :| IsNewestIn(stack, k, U64_MAX, Some(r)) && r.value == Some(v);
      assert (k, v) == PAIRS[if r == PUT then 0 else 1];
    }
  }

  lemma NeverBoth(hist: seq<Record>, n: nat)
    requires hist == [PUT, TOMB, FRESHLY] && n <= 3
    ensures !(Value(Lookup(hist[..n], KEY, U64_MAX)).Some? && Value(Lookup(hist[..n], LATER, U64_MAX)).Some?)
  {
    var one, two := [PUT], [PUT, TOMB];
    assert one[..0] == [] && two[..1] == one && hist[..2] == two && hist[..3] == hist && hist[..1] == one && hist[..0] == [];
    assert Lookup(one, LATER, U64_MAX) == None && Lookup(two, LATER, U64_MAX) == None;
    assert Lookup(two, KEY, U64_MAX) == Some(TOMB);
    assert Lookup(hist, KEY, U64_MAX) == Lookup(two, KEY, U64_MAX);
  }
}
