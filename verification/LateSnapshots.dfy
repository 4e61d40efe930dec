/** Horizons that are registered late, or read while a write is under way. Taking a
    snapshot reads the counter and registers the horizon afterwards, on no lock a
    writer or a merge holds. Which reads change under it is given exactly, for any
    bound at all. */
module LateSnapshots {
  import opened Records
  import opened Layers
  import opened Retention
  import opened MemTables
  import opened Wal
  import opened Engine
  import opened EngineSafety
  import opened Movement
  import opened Failures
  import opened Forgetting

  // ---------------------------------------------------------------- whole runs

  /** The splice of `s` forgets a read of `k` at `h`. */
  ghost predicate SpliceLoses(s: State, k: Key, h: nat) {
    && s.compact.InputsDeleted? && RunAt(s, s.compact.m.start, s.compact.m.run)
    && var m := s.compact.m;
    Forgotten(Recs(s.tables[..m.start]), Recs(m.run), Recs(s.tables[m.start + |m.run|..]) + FrozenLayer(s) + [s.active],
              m.min, k, h)
  }

  /** A splice changes the answer exactly when it forgets it. */
  lemma SpliceReads(s: State, s': State, k: Key, h: nat)
    requires Inv(s) && Does(s, SpliceRun, s')
    ensures Value(Get(Stack(s'), k, h)) == Value(Get(Stack(s), k, h)) <==> !SpliceLoses(s, k, h)
  {
    hide IsCompaction, Get, Layered, ConsistentStack, Forgotten, Drawn, ViewOk, IdsOk, Splice, Position, Covers,
      StrictlySorted, Sorted, Chronological;
    var m := s.compact.m;
    SpliceTables(s, s');
    SpliceStack(s, s');
    RunLayered(s, m.start, m.run);
    assert m.drop ==> Recs(s.tables[..m.start]) == [];
    SpliceForgets(Recs(s.tables[..m.start]), Recs(m.run), Recs(s.tables[m.start + |m.run|..]) + FrozenLayer(s) + [s.active],
                  m.drop, m.min, m.out, k, h);
  }

  /** The step changes the answer to a read of `k` at `h`: a splice that forgets it,
      or a write of the key below the bound with another value. */
  ghost predicate StepChanges(s: State, step: Step, k: Key, h: nat) {
    match step
    case SpliceRun => SpliceLoses(s, k, h)
    case Write(ops) =>
      var o := Lookup(Stamp(ops, s.nextSeq), k, h);
      o.Some? && Value(o) != Value(Get(Stack(s), k, h))
    case _ => false
  }

  /** Each step, and any bound at all, registered or not: the answer stays exactly
      when the step is not one of those. */
  lemma StepReads(s: State, step: Step, s': State, k: Key, h: nat)
    requires Inv(s) && Does(s, step, s')
    ensures Value(Get(Stack(s'), k, h)) == Value(Get(Stack(s), k, h)) <==> !StepChanges(s, step, k, h)
  {
    hide Does, Inv, Get, SpliceLoses, Lookup, Stack;
    if step.SpliceRun? {
      SpliceReads(s, s', k, h);
    } else if step.Write? {
      WriteReads(s, step.ops, s', k, h);
    } else if step.Freeze? || step.Publish? || step.ClearFrozen? {
      FlushReads(s, step, s', k, h);
    } else {
      QuietReads(s, step, s');
    }
  }

  /** A write at or above the bound changes nothing below it. */
  lemma LaterWrites(s: State, ops: seq<Op>, k: Key, h: nat)
    requires h <= s.nextSeq
    ensures !StepChanges(s, Write(ops), k, h)
  {
    LookupMember(Stamp(ops, s.nextSeq), k, h);
  }

  /** From state `i` on, the read of `k` at a bound has not moved at any state. */
  ghost predicate Still(states: seq<State>, i: nat, j: nat, k: Key, h: nat)
    requires i <= j < |states|
  {
    forall t :: i <= t <= j ==> Value(Get(Stack(states[t]), k, h)) == Value(Get(Stack(states[i]), k, h))
  }

  /** Over whole runs, from any healthy state and for any bound: reads repeat at
      every state up to `j` exactly when no step on the way changes the answer. */
  lemma {:induction false} ReadsRepeat(states: seq<State>, steps: seq<Step>, i: nat, j: nat, k: Key, h: nat)
    requires IsRun(states, steps) && Inv(states[0]) && i <= j < |states|
    ensures Still(states, i, j, k, h) <==> forall t :: i <= t < j ==> !StepChanges(states[t], steps[t], k, h)
    decreases j
  {
    hide Inv, Does, Get, Stack, StepChanges;
    if i < j {
      ReadsRepeat(states, steps, i, j - 1, k, h);
      RunInv(states, steps, j - 1);
      StepReads(states[j - 1], steps[j - 1], states[j], k, h);
      assert Still(states, i, j, k, h) ==> Still(states, i, j - 1, k, h);
    }
  }

  /** A horizon read off the counter at state `i` shows the database of that moment
      at every later state, whenever it is registered, exactly when no splice on the
      way forgets the read and the batch then in flight does not overwrite it. */
  lemma LateSnapshotReads(states: seq<State>, steps: seq<Step>, i: nat, j: nat, k: Key)
    requires IsRun(states, steps) && Inv(states[0]) && i <= j < |states|
    ensures var h := Counter(states[i]);
            (forall t :: i <= t <= j ==> Value(Get(Stack(states[t]), k, h)) == Value(Lookup(states[i].hist, k, U64_MAX)))
            <==> forall t :: i <= t < j ==> !StepChanges(states[t], steps[t], k, h)
  {
    hide Inv, Does, Get, Lookup, Stack, StepChanges;
    RunInv(states, steps, i);
    LatestRead(states[i], k);
    ReadsRepeat(states, steps, i, j, k, Counter(states[i]));
  }

  /** At the counter a read is the latest read. */
  lemma LatestRead(s: State, k: Key)
    requires Inv(s)
    ensures Value(Get(Stack(s), k, Counter(s))) == Value(Lookup(s.hist, k, U64_MAX))
  {
    hide Get, Lookup, Layered, Drawn, StrictlySorted, Sorted, Chronological, CompactOk, FlushOk, IdsOk;
    assert LiveBound(s, U64_MAX);
    SnapshotShows(s, Counter(s));
    LookupAbove(s.hist, k, Counter(s), U64_MAX);
  }

  /** A merge that starts once the horizon is registered loses nothing to it. */
  lemma RegisteredInTime(s: State, out: seq<Record>, s': State, k: Key, h: nat)
    requires Does(s, MergeRun(out), s') && h in s.snapshots
    ensures s'.compact.Merged? && s'.compact.m.min <= h
    ensures forall pre, run, post :: !Forgotten(pre, run, post, s'.compact.m.min, k, h)
  {
    hide IsCompaction;
  }

  // ------------------------------------------------------------- counterexamples

  /** Put, read the counter, delete, flush both, compact, and only then register:
      the put is gone and the snapshot shows nothing. */
  lemma SnapshotLosesValue() returns (s: State, s': State)
    ensures Reachable(s) && Reaches(s, s')
    ensures Value(Lookup(s.hist, KEY, U64_MAX)) == Some([7])
    ensures Value(Get(Stack(s'), KEY, Counter(s))) == None
  {
    hide Reaches;
    var b: State;
    s, b := MergedAndRenamed();
    assert s.hist[..0] == [];
    var m := b.compact.m;
    var c := b.(edits := b.edits + Deletes(Stale(m.run)), compact := InputsDeleted(m));
    ReachStep(s, b, DeleteInputs, c);
    PositionFound(c.tables, 1);
    s' := c.(tables := Splice(c.tables, 1, 2, []), compact := Spliced(m));
    ReachStep(s, c, SpliceRun, s');
    var none: seq<Record> := [];
    assert Stack(s') == [none] + [none];
    GetPush([none], none, KEY, Counter(s));
    GetOne(none, KEY, Counter(s));
  }

  /** A snapshot taken while a write holds its numbers but is not in yet: registered
      at once, and still the key changes under it. */
  lemma SnapshotSeesLaterWrite() returns (s: State, s': State)
    ensures Reachable(s) && Reaches(s, s') && Counter(s) in s.snapshots && Counter(s) in s'.snapshots
    ensures Value(Get(Stack(s), KEY, Counter(s))) == None && Value(Get(Stack(s'), KEY, Counter(s))) == Some([7])
  {
    hide Reaches, BatchFits, InsertAll;
    var f, op := Fresh(), (KEY, Some([7]));
    ReachSelf(f);
    var a := f.(reserved := 1);
    ReachStep(f, f, Reserve(1), a);
    s := a.(snapshots := multiset{} + multiset{1});
    ReachStep(f, a, TakeSnapshot, s);
    SmallFits(op, 0);
    s' := s.(log := Appended(s.log, [PUT]), active := [PUT], nextSeq := 1, reserved := 0, hist := [] + [PUT]);
    ReachSelf(s);
    ReachStep(s, s, Write([op]), s');
    var none: seq<Record> := [];
    assert Stack(s) == [none] && Stack(s') == [[PUT]];
    GetOne(none, KEY, 1);
    GetOne([PUT], KEY, 1);
    assert Newest([PUT], KEY, 1) == Some(PUT);
  }
}
