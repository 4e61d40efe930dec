/** Reads that overlap other steps. A `get` looks at the active MemTable, the
    frozen one and the SSTables at three moments; a snapshot is read many times. */
module PointReads {
  import opened Records
  import opened Layers
  import opened Retention
  import opened Engine
  import opened EngineSafety

  /** What a `get` returns that reads the active MemTable in `a`, the frozen one
      in `b` and the list of SSTables in `c`. */
  function ReadOutcome(a: State, b: State, c: State, k: Key, h: nat): (v: Option<Bytes>) {
    var hit := Newest(a.active, k, h);
    if hit.Some? then
      Value(hit)
    else if b.frozen.Some? && Newest(b.frozen.value, k, h).Some? then
      Value(Newest(b.frozen.value, k, h))
    else
      Value(Get(Recs(c.tables), k, h))
  }

  /** The value of the key in one state, by the history. */
  function Current(s: State, k: Key, h: nat): (v: Option<Bytes>) {
    Value(Lookup(s.hist, k, h))
  }

  /** `v` was current at some instant from `a` to `j`. */
  ghost predicate Seen(states: seq<State>, a: nat, j: nat, k: Key, h: nat, v: Option<Bytes>)
    requires j < |states|
  {
    exists i :: a <= i <= j && Current(states[i], k, h) == v
  }

  /** What remains to be read once the active MemTable has missed. */
  function RestBelow(s: State, k: Key, h: nat): (v: Option<Bytes>) {
    Value(Get(Below(s), k, h))
  }

  /** What remains to be read once both MemTables have missed. */
  function RestTables(s: State, k: Key, h: nat): (v: Option<Bytes>) {
    Value(Get(Recs(s.tables), k, h))
  }

  // ------------------------------------------------- how one step moves these

  lemma FreezeRest(s: State, s': State, k: Key, h: nat)
    requires Inv(s') && Does(s, Freeze, s') && LiveBound(s', h)
    ensures RestBelow(s', k, h) == Current(s', k, h)
  {
    assert Shows(Stack(s'), s'.hist, h);
    GetPush(Below(s'), [], k, h);
  }

  lemma PublishRest(s: State, s': State, k: Key, h: nat)
    requires Inv(s) && Does(s, Publish, s')
    ensures RestBelow(s', k, h) == RestBelow(s, k, h) && RestTables(s', k, h) == RestBelow(s, k, h)
  {
    var f := s.frozen.value;
    assert Recs(s'.tables) == Recs(s.tables) + [f];
    Doubled(Recs(s.tables), f, [], k, h);
    assert Recs(s.tables) + [f] + [f] + [] == Recs(s.tables) + [f] + [f];
    assert Recs(s.tables) + [f] + [] == Recs(s.tables) + [f];
  }

  lemma ClearRest(s: State, s': State, k: Key, h: nat)
    requires Inv(s) && Does(s, ClearFrozen, s')
    ensures RestBelow(s', k, h) == RestBelow(s, k, h) && RestTables(s', k, h) == RestTables(s, k, h)
  {
    var f, older := s.frozen.value, s.tables[..|s.tables| - 1];
    assert s.tables == older + [Table(s.flush.id, f)];
    assert Recs(s.tables) == Recs(older) + [f];
    Doubled(Recs(older), f, [], k, h);
    assert Recs(older) + [f] + [f] + [] == Recs(older) + [f] + [f];
    assert Recs(older) + [f] + [] == Recs(older) + [f];
    assert Recs(s.tables) + [] == Recs(s.tables);
  }

  lemma SpliceTablesRest(s: State, s': State, k: Key, h: nat)
    requires Inv(s) && Does(s, SpliceRun, s') && LiveBound(s, h)
    ensures RestBelow(s', k, h) == RestBelow(s, k, h) && RestTables(s', k, h) == RestTables(s, k, h)
  {
    hide Does, HistoryOk, LayersOk, ViewOk, IdsOk, FlushOk, CompactOk, Get, MergeOk, Stack, Recs;
    SpliceRest(s, s');
    SpliceTables(s, s');
    var m := s.compact.m;
    RunLayered(s, m.start, m.run);
    MergeKeepsReads(s, m, s'.tables, FrozenLayer(s), k, h);
    MergeKeepsReads(s, m, s'.tables, [], k, h);
    assert Recs(s.tables) + [] == Recs(s.tables) && Recs(s'.tables) + [] == Recs(s'.tables);
  }

  lemma MergeKeepsReads(s: State, m: Merge, tables': seq<Table>, top: seq<seq<Record>>, k: Key, h: nat)
    requires MergeOk(s, m) && LiveBound(s, h)
    requires Layered(Recs(m.run)) && ConsistentStack(Recs(m.run))
    requires tables' == s.tables[..m.start] + [Table(MaxId(m.run), m.out)] + s.tables[m.start + |m.run|..]
    ensures Value(Get(Recs(s.tables) + top, k, h)) == Value(Get(Recs(tables') + top, k, h))
  {
    hide Layered, ConsistentStack, IsCompaction, Get, Recs;
    SplitStack(s.tables, m.start, |m.run|, Table(MaxId(m.run), m.out), top);
    SpliceKeepsReads(Recs(s.tables[..m.start]), Recs(m.run), Recs(s.tables[m.start + |m.run|..]) + top,
                     m.drop, m.min, m.out, k, h);
  }

  /** One step leaves what remains to be read alone, or makes it current: only
      the publication of a frozen MemTable moves a value down, and it moves the
      value a reader one stage earlier would have been given. */
  lemma StepRest(s: State, step: Step, s': State, k: Key, h: nat)
    requires Inv(s) && Does(s, step, s') && LiveBound(s, h) && LiveBound(s', h)
    ensures RestBelow(s', k, h) == RestBelow(s, k, h) || RestBelow(s', k, h) == Current(s', k, h)
    ensures RestTables(s', k, h) == RestTables(s, k, h) || RestTables(s', k, h) == RestBelow(s, k, h)
  {
    hide Inv, Does, Get, Current, Below;
    match step
    case Freeze =>
      StepInv(s, step, s');
      FreezeRest(s, s', k, h);
      SameTables(s, step, s');
    case Publish => PublishRest(s, s', k, h);
    case ClearFrozen => ClearRest(s, s', k, h);
    case SpliceRun => SpliceTablesRest(s, s', k, h);
    case _ =>
      SameBelow(s, step, s');
      SameTables(s, step, s');
  }

  // ------------------------------------------------------------- linearization

  lemma SeenLater(states: seq<State>, a: nat, j: nat, k: Key, h: nat, v: Option<Bytes>)
    requires j + 1 < |states| && Seen(states, a, j, k, h, v)
    ensures Seen(states, a, j + 1, k, h, v)
  {
  }

  /** From the miss in the active MemTable on, what remains to be read was
      current at some instant since. */
  lemma {:induction false} AfterActive(states: seq<State>, steps: seq<Step>, a: nat, j: nat, k: Key, h: nat)
    requires IsRun(states, steps) && Inv(states[0]) && a <= j < |states|
    requires forall i :: a <= i <= j ==> LiveBound(states[i], h)
    requires Newest(states[a].active, k, h).None?
    ensures Seen(states, a, j, k, h, RestBelow(states[j], k, h))
    decreases j
  {
    hide Inv, Does, Get, Newest, RestBelow, RestTables;
    if j == a {
      RunInv(states, steps, a);
      MissedActive(states[a], k, h);
    } else {
      AfterActive(states, steps, a, j - 1, k, h);
      RunInv(states, steps, j - 1);
      StepRest(states[j - 1], steps[j - 1], states[j], k, h);
      SeenLater(states, a, j - 1, k, h, RestBelow(states[j - 1], k, h));
      assert Seen(states, a, j, k, h, Current(states[j], k, h));
    }
  }

  lemma MissedActive(s: State, k: Key, h: nat)
    requires Inv(s) && LiveBound(s, h) && Newest(s.active, k, h).None?
    ensures RestBelow(s, k, h) == Current(s, k, h)
  {
    assert Shows(Stack(s), s.hist, h);
    GetPush(Below(s), s.active, k, h);
  }

  lemma HitActive(s: State, k: Key, h: nat)
    requires Inv(s) && LiveBound(s, h) && Newest(s.active, k, h).Some?
    ensures Value(Newest(s.active, k, h)) == Current(s, k, h)
  {
    assert Shows(Stack(s), s.hist, h);
    GetPush(Below(s), s.active, k, h);
  }

  lemma FrozenRead(s: State, k: Key, h: nat)
    ensures RestBelow(s, k, h) == if s.frozen.Some? && Newest(s.frozen.value, k, h).Some?
                                  then Value(Newest(s.frozen.value, k, h)) else RestTables(s, k, h)
  {
    if s.frozen.Some? {
      GetPush(Recs(s.tables), s.frozen.value, k, h);
    } else {
      assert Below(s) == Recs(s.tables);
    }
  }

  /** From the miss in the frozen MemTable on, the same holds of the SSTables. */
  lemma {:induction false} AfterFrozen(states: seq<State>, steps: seq<Step>, a: nat, b: nat, j: nat, k: Key, h: nat)
    requires IsRun(states, steps) && Inv(states[0]) && a <= b <= j < |states|
    requires forall i :: a <= i <= j ==> LiveBound(states[i], h)
    requires Newest(states[a].active, k, h).None?
    requires states[b].frozen.Some? ==> Newest(states[b].frozen.value, k, h).None?
    ensures Seen(states, a, j, k, h, RestTables(states[j], k, h))
    decreases j
  {
    hide Inv, Does, Get, Newest, RestBelow, RestTables;
    if j == b {
      AfterActive(states, steps, a, b, k, h);
      FrozenRead(states[b], k, h);
    } else {
      AfterFrozen(states, steps, a, b, j - 1, k, h);
      AfterActive(states, steps, a, j - 1, k, h);
      RunInv(states, steps, j - 1);
      StepRest(states[j - 1], steps[j - 1], states[j], k, h);
      SeenLater(states, a, j - 1, k, h, RestTables(states[j - 1], k, h));
      SeenLater(states, a, j - 1, k, h, RestBelow(states[j - 1], k, h));
    }
  }

  /** A `get` that overlaps any writes, flushes, compactions and snapshots
      returns a value that was current at some instant between its first and its
      last look. */
  lemma GetLinearizes(states: seq<State>, steps: seq<Step>, a: nat, b: nat, c: nat, k: Key, h: nat)
    requires IsRun(states, steps) && Inv(states[0]) && a <= b <= c < |states|
    requires forall i :: a <= i <= c ==> LiveBound(states[i], h)
    ensures exists i ::
              a <= i <= c && ReadOutcome(states[a], states[b], states[c], k, h) == Value(Lookup(states[i].hist, k, h))
  {
    hide Does, Get, Lookup, Inv;
    var v := ReadOutcome(states[a], states[b], states[c], k, h);
    if Newest(states[a].active, k, h).Some? {
      RunInv(states, steps, a);
      HitActive(states[a], k, h);
      assert v == Current(states[a], k, h);
    } else if states[b].frozen.Some? && Newest(states[b].frozen.value, k, h).Some? {
      AfterActive(states, steps, a, b, k, h);
      FrozenRead(states[b], k, h);
      var i :| a <= i <= b && Current(states[i], k, h) == v;
      assert v == Value(Lookup(states[i].hist, k, h));
    } else {
      AfterFrozen(states, steps, a, b, c, k, h);
      var i :| a <= i <= c && Current(states[i], k, h) == v;
      assert v == Value(Lookup(states[i].hist, k, h));
    }
  }

  // ----------------------------------------------------------------- snapshots

  /** The batch whose numbers were reserved in `a`, once it is in. */
  function Window(a: State, s: State): (batch: seq<Record>) {
    if |a.hist| + a.reserved <= |s.hist| then s.hist[|a.hist|..|a.hist| + a.reserved] else []
  }

  /** Later than `a`: its history has not been touched, or the reserved batch has
      come in and whatever else has come is above it. */
  ghost predicate Since(a: State, s: State) {
    || (a.reserved > 0 && s.hist == a.hist && s.nextSeq == a.nextSeq && s.reserved == a.reserved)
    || (&& |a.hist| + a.reserved <= |s.hist| && a.hist <= s.hist && Counter(a) <= s.nextSeq
        && (forall r :: r in s.hist[|a.hist|..|a.hist| + a.reserved] ==> r.seqno < Counter(a))
        && forall r :: r in s.hist[|a.hist| + a.reserved..] ==> Counter(a) <= r.seqno)
  }

  lemma StepSince(a: State, s: State, step: Step, s': State)
    requires Since(a, s) && Does(s, step, s')
    ensures Since(a, s')
  {
    hide Does;
    StepFields(s, step, s');
    if step.Write? {
      WriteSince(a, s, Stamp(step.ops, s.nextSeq), s');
    }
  }

  /** What the steps do to the history and the counter. */
  lemma StepFields(s: State, step: Step, s': State)
    requires Does(s, step, s')
    ensures step.Write? ==>
              s.reserved == |step.ops| && s'.hist == s.hist + Stamp(step.ops, s.nextSeq) && s'.nextSeq == Counter(s)
    ensures !step.Write? ==> s'.hist == s.hist && s'.nextSeq == s.nextSeq && (s'.reserved == s.reserved || s.reserved == 0)
  {
    hide IsCompaction, IsMinSnapshot;
  }

  lemma WriteSince(a: State, s: State, batch: seq<Record>, s': State)
    requires Since(a, s) && |batch| == s.reserved && s'.hist == s.hist + batch && s'.nextSeq == Counter(s)
    requires forall i :: 0 <= i < |batch| ==> batch[i].seqno == s.nextSeq + i
    ensures Since(a, s')
  {
    var n := |a.hist| + a.reserved;
    if |s.hist| < n {
      assert s'.hist[|a.hist|..n] == batch;
      assert s'.hist[n..] == [];
    } else {
      assert s'.hist[|a.hist|..n] == s.hist[|a.hist|..n];
      assert s'.hist[n..] == s.hist[n..] + batch;
    }
  }

  lemma {:induction false} RunSince(states: seq<State>, steps: seq<Step>, i: nat, j: nat)
    requires IsRun(states, steps) && i <= j < |states|
    ensures Since(states[i], states[j])
    decreases j
  {
    hide Does, Since;
    if i == j {
      SinceSelf(states[i]);
    } else {
      RunSince(states, steps, i, j - 1);
      StepSince(states[i], states[j - 1], steps[j - 1], states[j]);
    }
  }

  lemma SinceSelf(s: State)
    ensures Since(s, s)
  {
    assert s.hist[|s.hist|..] == [] && s.hist[|s.hist|..|s.hist|] == [];
  }

  /** At the counter read in `a`, the history shows that moment and the batch then
      in flight, no more. */
  lemma LookupSince(a: State, s: State, k: Key)
    requires HistoryOk(a) && Since(a, s)
    ensures Lookup(s.hist, k, Counter(a)) == Lookup(a.hist + Window(a, s), k, U64_MAX)
  {
    hide Lookup, Chronological;
    var h, n := Counter(a), |a.hist| + a.reserved;
    if n <= |s.hist| && a.hist <= s.hist && Counter(a) <= s.nextSeq {
      var shown, rest := s.hist[..n], s.hist[n..];
      assert s.hist == shown + rest && shown == a.hist + Window(a, s);
      LookupIgnores(shown, rest, k, h);
      LookupAbove(shown, k, h, U64_MAX);
    } else {
      assert s.hist == a.hist + [];
      LookupAbove(s.hist, k, h, U64_MAX);
    }
  }

  /** A snapshot shows the moment it was taken together with the one batch whose
      numbers were already reserved: the counter is moved before the batch is in,
      and a snapshot takes no lock that would keep it out of that window. So reads
      through a snapshot repeat the latest read of that moment exactly when that
      batch, once in, does not give the key another value. */
  lemma SnapshotRepeatable(states: seq<State>, steps: seq<Step>, i: nat, j: nat, k: Key)
    requires IsRun(states, steps) && Inv(states[0]) && i < |steps| && steps[i] == TakeSnapshot && i < j < |states|
    requires Counter(states[i]) in states[j].snapshots
    ensures var h, batch := Counter(states[i]), Window(states[i], states[j]);
            && Value(Get(Stack(states[j]), k, h)) == Value(Lookup(states[i].hist + batch, k, U64_MAX))
            && (Value(Get(Stack(states[j]), k, h)) == Value(Get(Stack(states[i]), k, U64_MAX))
                <==> !Overwrites(batch, k, Value(Get(Stack(states[i]), k, U64_MAX))))
  {
    hide Does, Get, Lookup, Inv, Since, Window, HistoryOk;
    RunInv(states, steps, i);
    RunSince(states, steps, i, j);
    InvHistory(states[i]);
    LookupSince(states[i], states[j], k);
    ReadsMatchHistory(states, steps, j, k, Counter(states[i]));
    ReadsMatchHistory(states, steps, i, k, U64_MAX);
    LookupConcat(states[i].hist, Window(states[i], states[j]), k, U64_MAX);
  }

  lemma InvHistory(s: State)
    requires Inv(s)
    ensures HistoryOk(s)
  {
  }

  /** The batch gives the key another value than `v`. */
  predicate Overwrites(batch: seq<Record>, k: Key, v: Option<Bytes>) {
    Lookup(batch, k, U64_MAX).Some? && Value(Lookup(batch, k, U64_MAX)) != v
  }

  /** With nothing reserved, reads through a snapshot never change. */
  lemma SnapshotRepeats(states: seq<State>, steps: seq<Step>, i: nat, j: nat, k: Key)
    requires IsRun(states, steps) && Inv(states[0]) && i < |steps| && steps[i] == TakeSnapshot && i < j < |states|
    requires Counter(states[i]) in states[j].snapshots && states[i].reserved == 0
    ensures Value(Get(Stack(states[j]), k, Counter(states[i]))) == Value(Get(Stack(states[i]), k, U64_MAX))
  {
    hide Does, Get, Inv;
    SnapshotRepeatable(states, steps, i, j, k);
    assert Window(states[i], states[j]) == [];
  }

  // --------------------------------------------------------------------- batches

  /** A step keeps a horizon clear of whatever is reserved. */
  lemma StepClear(s: State, step: Step, s': State, h: nat)
    requires Does(s, step, s')
    ensures Clear(s, h) ==> Clear(s', h)
    ensures s.nextSeq <= s'.nextSeq && Counter(s) <= Counter(s')
    ensures h in s'.snapshots && h !in s.snapshots ==> h == Counter(s)
    ensures step.Write? ==> s'.nextSeq == Counter(s) && s'.snapshots == s.snapshots && |step.ops| == s.reserved
  {
    hide IsCompaction, IsMinSnapshot;
  }

  lemma {:induction false} RunClear(states: seq<State>, steps: seq<Step>, i: nat, j: nat, h: nat)
    requires IsRun(states, steps) && i <= j < |states|
    ensures Clear(states[i], h) ==> Clear(states[j], h)
    ensures states[i].nextSeq <= states[j].nextSeq
    decreases j
  {
    hide Does, Clear;
    if i < j {
      RunClear(states, steps, i, j - 1, h);
      StepClear(states[j - 1], steps[j - 1], states[j], h);
    }
  }

  lemma {:induction false} BatchBefore(states: seq<State>, steps: seq<Step>, i: nat, j: nat, h: nat)
    requires IsRun(states, steps) && Inv(states[0]) && i < j < |states| && steps[i].Write? && h in states[j].snapshots
    ensures h <= states[i].nextSeq || Counter(states[i]) <= h
    decreases j
  {
    hide Inv, Does;
    StepClear(states[j - 1], steps[j - 1], states[j], h);
    if h !in states[j - 1].snapshots {
      StepClear(states[i], steps[i], states[i + 1], h);
      RunClear(states, steps, i + 1, j, h);
      if j - 1 > i {
        RunClear(states, steps, i + 1, j - 1, h);
      }
    } else if j == i + 1 {
      RunInv(states, steps, i);
      HorizonsClear(states[i]);
    } else {
      BatchBefore(states, steps, i, j - 1, h);
    }
  }

  lemma HorizonsClear(s: State)
    requires Inv(s)
    ensures forall h :: h in s.snapshots ==> Clear(s, h)
  {
  }

  /** No snapshot ever sees part of a batch: each live horizon has every record
      of each batch below it, or none. */
  lemma BatchesWholeForSnapshots(states: seq<State>, steps: seq<Step>, i: nat, j: nat, h: nat)
    requires IsRun(states, steps) && Inv(states[0]) && i < |steps| && j < |states|
    requires steps[i].Write? && h in states[j].snapshots
    ensures var batch := Stamp(steps[i].ops, states[i].nextSeq);
            (forall r :: r in batch ==> r.seqno < h) || (forall r :: r in batch ==> r.seqno >= h)
  {
    hide Does, Inv;
    StampChronological(steps[i].ops, states[i].nextSeq);
    StepClear(states[i], steps[i], states[i + 1], h);
    if i < j {
      BatchBefore(states, steps, i, j, h);
    } else {
      RunInv(states, steps, j);
      HorizonsClear(states[j]);
      RunClear(states, steps, j, i, h);
    }
  }

  /** Sequence numbers identify records across all layers, and the next one is
      unused. */
  lemma VersionsUnique(states: seq<State>, steps: seq<Step>, i: nat, x: Record, y: Record)
    requires IsRun(states, steps) && Inv(states[0]) && i < |states|
    requires Member(Stack(states[i]), x) && Member(Stack(states[i]), y)
    ensures x.seqno < states[i].nextSeq && (x.seqno == y.seqno ==> x == y)
  {
    hide Inv, Does;
    RunInv(states, steps, i);
    UniqueIn(states[i], x, y);
  }

  lemma UniqueIn(s: State, x: Record, y: Record)
    requires Inv(s) && Member(Stack(s), x) && Member(Stack(s), y)
    ensures x.seqno < s.nextSeq && (x.seqno == y.seqno ==> x == y)
  {
    ChronologicalConsistent(s.hist);
    var a :| 0 <= a < |Stack(s)| && x in Stack(s)[a];
    var b :| 0 <= b < |Stack(s)| && y in Stack(s)[b];
  }
}
