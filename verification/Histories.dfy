/** The results about runs, for databases that have been through any number of
    crashes: between two crashes a history is a run from a healthy state. */
module Histories {
  import opened Records
  import opened Header
  import opened Layers
  import opened Engine
  import opened EngineSafety
  import opened Durability
  import opened Recovery
  import opened PointReads
  import opened Ranges
  import opened Scan
  import opened EngineScan
  import opened ScanMoments
  import opened ScanAtomicity
  import opened Crash
  import opened CrashRuns
  import opened LateSnapshots
  import opened Checkpoint

  /** No crash from state `a` to state `c`. */
  predicate Uninterrupted(events: seq<Event>, a: nat, c: nat) {
    a <= c <= |events| && forall i :: a <= i < c ==> events[i].Run?
  }

  function StepsOf(events: seq<Event>, a: nat, c: nat): (steps: seq<Step>)
    requires Uninterrupted(events, a, c)
    ensures |steps| == c - a && forall i :: 0 <= i < c - a ==> steps[i] == events[a + i].step
  {
    seq(c - a, i requires 0 <= i < c - a => events[a + i].step)
  }

  lemma Segment(cs: Checksums, states: seq<State>, events: seq<Event>, a: nat, c: nat)
    requires IsHistory(cs, states, events) && Uninterrupted(events, a, c)
    ensures IsRun(states[a..c + 1], StepsOf(events, a, c)) && Inv(states[a]) && DiskOk(states[a])
  {
    hide Inv, DiskOk, Does, CrashesTo, Harmless;
    EventsInv(cs, states, events, a);
    var part, steps := states[a..c + 1], StepsOf(events, a, c);
    forall i | 0 <= i < |steps|
      ensures Does(part[i], steps[i], part[i + 1])
    {
      assert Happens(cs, states[a + i], events[a + i], states[a + i + 1]);
    }
  }

  /** A get linearizes, on a fresh directory and on one reopened after crashes. */
  lemma GetsLinearize(cs: Checksums, states: seq<State>, events: seq<Event>, a: nat, b: nat, c: nat, k: Key, h: nat)
    requires IsHistory(cs, states, events) && a <= b <= c && Uninterrupted(events, a, c)
    requires forall i :: a <= i <= c ==> LiveBound(states[i], h)
    ensures exists i ::
              a <= i <= c && ReadOutcome(states[a], states[b], states[c], k, h) == Value(Lookup(states[i].hist, k, h))
  {
    hide Inv, Does, DiskOk, Happens, Lookup, ReadOutcome;
    Segment(cs, states, events, a, c);
    var part := states[a..c + 1];
    GetLinearizes(part, StepsOf(events, a, c), 0, b - a, c - a, k, h);
    var i :| 0 <= i <= c - a && ReadOutcome(part[0], part[b - a], part[c - a], k, h) == Value(Lookup(part[i].hist, k, h));
    assert part[i] == states[a + i];
  }

  /** So does a scan, key by key. */
  lemma ScansLinearize(cs: Checksums, states: seq<State>, events: seq<Event>, a: nat, b: nat, c: nat,
                       start: Option<Key>, end: Option<Key>, limit: nat, h: nat, pairs: seq<(Key, Bytes)>)
    requires IsHistory(cs, states, events) && a <= b <= c && Uninterrupted(events, a, c)
    requires forall i :: a <= i <= c ==> LiveBound(states[i], h)
    requires IsScan(ScanStack(Mixed(states[a], states[b], states[c]), start, end), h, end, limit, pairs)
    ensures forall i :: 0 <= i < |pairs| ==>
              && From(pairs[i].0, start) && Until(pairs[i].0, end)
              && Seen(states, a, c, pairs[i].0, h, Some(pairs[i].1))
    ensures forall k :: From(k, start) && Until(k, end) ==>
              || (exists v :: (k, v) in pairs)
              || (|pairs| == limit && forall p :: p in pairs ==> Less(p.0, k))
              || Seen(states, a, c, k, h, None)
  {
    hide Inv, Does, DiskOk, Happens, ScanStack, IsScan, Seen;
    Segment(cs, states, events, a, c);
    var part := states[a..c + 1];
    ScanLinearizes(part, StepsOf(events, a, c), 0, b - a, c - a, start, end, limit, h, pairs);
    forall k, v | Seen(part, 0, c - a, k, h, v)
      ensures Seen(states, a, c, k, h, v)
    {
      SeenWithin(states, a, c, k, h, v);
    }
  }

  lemma SeenWithin(states: seq<State>, a: nat, c: nat, k: Key, h: nat, v: Option<Bytes>)
    requires a <= c < |states| && Seen(states[a..c + 1], 0, c - a, k, h, v)
    ensures Seen(states, a, c, k, h, v)
  {
    hide Current;
    var t :| 0 <= t <= c - a && Current(states[a..c + 1][t], k, h) == v;
    assert states[a..c + 1][t] == states[a + t];
  }

  /** A scan taken in one state agrees with gets in that state. */
  lemma ScansMatchGets(cs: Checksums, states: seq<State>, events: seq<Event>, n: nat, start: Option<Key>, end: Option<Key>,
                       limit: nat, h: nat, pairs: seq<(Key, Bytes)>)
    requires IsHistory(cs, states, events) && n < |states|
    requires IsScan(ScanStack(states[n], start, end), h, end, limit, pairs)
    ensures |pairs| <= limit && forall i, j :: 0 <= i < j < |pairs| ==> Less(pairs[i].0, pairs[j].0)
    ensures forall i :: 0 <= i < |pairs| ==>
              && From(pairs[i].0, start) && Until(pairs[i].0, end)
              && Value(Get(Stack(states[n]), pairs[i].0, h)) == Some(pairs[i].1)
    ensures forall k :: From(k, start) && Until(k, end) && Value(Get(Stack(states[n]), k, h)).Some? ==>
              || (k, Value(Get(Stack(states[n]), k, h)).value) in pairs
              || (|pairs| == limit && forall p :: p in pairs ==> Less(p.0, k))
  {
    hide Inv, Does, DiskOk, Happens, ScanStack, IsScan, Get, Stack;
    EventsInv(cs, states, events, n);
    ScanMatchesGets([states[n]], [], 0, start, end, limit, h, pairs);
  }

  /** A scan shows one moment exactly when none of its pairs is revived. */
  lemma ScansShowMoment(cs: Checksums, states: seq<State>, events: seq<Event>, a: nat, b: nat, c: nat,
                        start: Option<Key>, end: Option<Key>, limit: nat, h: nat, pairs: seq<(Key, Bytes)>)
    requires IsHistory(cs, states, events) && a <= b <= c && Uninterrupted(events, a, c)
    requires forall i :: a <= i <= c ==> LiveBound(states[i], h)
    requires IsScan(ScanStack(Mixed(states[a], states[b], states[c]), start, end), h, end, limit, pairs)
    ensures var part, steps := states[a..c + 1], StepsOf(events, a, c);
            ShowsMoment(part[Moment(steps, 0, b - a, c - a)], start, end, limit, h, pairs)
            <==> forall p :: p in pairs ==> !Revived(part, steps, 0, b - a, c - a, p.0, h)
  {
    hide Inv, Does, DiskOk, Happens, ScanStack, IsScan, ShowsMoment, Revived, Moment;
    Segment(cs, states, events, a, c);
    ScanAtMoment(states[a..c + 1], StepsOf(events, a, c), 0, b - a, c - a, start, end, limit, h, pairs);
  }

  /** A snapshot shows the moment it was taken and the batch then in flight, and
      repeats the latest reads exactly where that batch does not overwrite them. */
  lemma SnapshotsRepeat(cs: Checksums, states: seq<State>, events: seq<Event>, i: nat, j: nat, k: Key)
    requires IsHistory(cs, states, events) && i < j && Uninterrupted(events, i, j) && events[i] == Run(TakeSnapshot)
    requires Counter(states[i]) in states[j].snapshots
    ensures var h, batch := Counter(states[i]), Window(states[i], states[j]);
            && Value(Get(Stack(states[j]), k, h)) == Value(Lookup(states[i].hist + batch, k, U64_MAX))
            && (Value(Get(Stack(states[j]), k, h)) == Value(Get(Stack(states[i]), k, U64_MAX))
                <==> !Overwrites(batch, k, Value(Get(Stack(states[i]), k, U64_MAX))))
  {
    hide Inv, Does, DiskOk, Happens, Get, Lookup, Stack, Window, Overwrites;
    Segment(cs, states, events, i, j);
    SnapshotRepeatable(states[i..j + 1], StepsOf(events, i, j), 0, j - i, k);
  }

  /** A late horizon shows its moment exactly when no step on the way changes it. */
  lemma LateHorizons(cs: Checksums, states: seq<State>, events: seq<Event>, i: nat, j: nat, k: Key)
    requires IsHistory(cs, states, events) && Uninterrupted(events, i, j)
    ensures var h := Counter(states[i]);
            (forall t :: i <= t <= j ==> Value(Get(Stack(states[t]), k, h)) == Value(Lookup(states[i].hist, k, U64_MAX)))
            <==> forall t :: i <= t < j ==> !StepChanges(states[t], events[t].step, k, h)
  {
    hide Inv, Does, DiskOk, Happens, Get, Lookup, Stack, StepChanges;
    Segment(cs, states, events, i, j);
    var part, steps, h := states[i..j + 1], StepsOf(events, i, j), Counter(states[i]);
    LateSnapshotReads(part, steps, 0, j - i, k);
    assert forall t :: i <= t <= j ==> states[t] == part[t - i];
    assert forall t :: 0 <= t <= j - i ==> part[t] == states[t + i];
    assert forall t :: i <= t < j ==> events[t].step == steps[t - i];
    assert forall t :: 0 <= t < j - i ==> steps[t] == events[t + i].step;
  }

  /** A checkpoint is a point in time of a reopened database as well. */
  lemma CheckpointsArePointsInTime(cs: Checksums, states: seq<State>, events: seq<Event>, i: nat, j: nat, l: nat)
    returns (n: nat)
    requires IsHistory(cs, states, events) && i < j <= l && Uninterrupted(events, i, l) && LockFree(states[j])
    requires (states[i].flush.NoFlush? && states[i].active == []) || events[i].step.Freeze?
    ensures |states[i].hist| <= n <= |states[j].hist| && Recover(cs, CheckpointDisk(cs, states[j], states[l])).Ok?
    ensures var s := Restored(Recover(cs, CheckpointDisk(cs, states[j], states[l])).value, states[j].hist[..n]);
            && Inv(s) && DiskOk(s)
            && forall k :: Value(Get(Stack(s), k, U64_MAX)) == Value(Lookup(states[j].hist[..n], k, U64_MAX))
  {
    hide Inv, Does, DiskOk, Happens, Recover, CheckpointDisk, Restored, Get, Lookup, Stack;
    Segment(cs, states, events, i, l);
    n := CheckpointIsPointInTime(cs, states[i..l + 1], StepsOf(events, i, l), 0, j - i, l - i);
  }

  /** Numbers identify records across all layers, across restarts as well. */
  lemma VersionsStayUnique(cs: Checksums, states: seq<State>, events: seq<Event>, i: nat, x: Record, y: Record)
    requires IsHistory(cs, states, events) && i < |states| && Member(Stack(states[i]), x) && Member(Stack(states[i]), y)
    ensures x.seqno < states[i].nextSeq && (x.seqno == y.seqno ==> x == y)
  {
    hide Inv, DiskOk, Happens, Member, Stack;
    EventsInv(cs, states, events, i);
    UniqueIn(states[i], x, y);
  }

  /** No number is given out twice: what is written at any moment is above all that
      was ever acknowledged before, whatever crashes came between. */
  lemma NumbersAreFresh(cs: Checksums, states: seq<State>, events: seq<Event>, i: nat, j: nat)
    requires IsHistory(cs, states, events) && i <= j < |events| && events[j].Run? && events[j].step.Write?
    ensures forall r, b :: r in states[i].hist && b in Stamp(events[j].step.ops, states[j].nextSeq) ==> r.seqno < b.seqno
  {
    hide Inv, DiskOk, Happens;
    HistoryGrows(cs, states, events, i, j);
    EventsInv(cs, states, events, j);
    HistFacts(states[j]);
    StampChronological(events[j].step.ops, states[j].nextSeq);
    assert forall r :: r in states[i].hist ==> r in states[j].hist;
  }

  lemma WriteEvent(cs: Checksums, s: State, ops: seq<Op>, s': State)
    requires Happens(cs, s, Run(Write(ops)), s')
    ensures s'.hist == s.hist + Stamp(ops, s.nextSeq) && s'.snapshots == s.snapshots && s.reserved == |ops|
  {
    hide Wal.BatchFits, MemTables.InsertAll;
  }

  /** A batch written at event `i` is on one side of every horizon live later. */
  lemma {:induction false} BatchesStayWhole(cs: Checksums, states: seq<State>, events: seq<Event>, i: nat, j: nat, h: nat)
    requires IsHistory(cs, states, events) && i < j < |states| && events[i].Run? && events[i].step.Write?
    requires h in states[j].snapshots
    ensures h <= states[i].nextSeq || forall r :: r in Stamp(events[i].step.ops, states[i].nextSeq) ==> r.seqno < h
    decreases j
  {
    hide Inv, DiskOk, Does, CrashesTo, Harmless;
    var ops := events[i].step.ops;
    assert Happens(cs, states[i], events[i], states[i + 1]);
    WriteEvent(cs, states[i], ops, states[i + 1]);
    StampChronological(ops, states[i].nextSeq);
    assert Happens(cs, states[j - 1], events[j - 1], states[j]);
    EventHistory(cs, states[j - 1], events[j - 1], states[j]);
    var step := events[j - 1].step;
    StepClear(states[j - 1], step, states[j], h);
    EventsInv(cs, states, events, j - 1);
    if h in states[j - 1].snapshots {
      if j == i + 1 {
        HorizonsClear(states[i]);
      } else {
        BatchesStayWhole(cs, states, events, i, j - 1, h);
      }
    } else if j > i + 1 {
      HistoryGrows(cs, states, events, i + 1, j - 1);
      HistFacts(states[j - 1]);
      assert forall r :: r in Stamp(ops, states[i].nextSeq) ==> r in states[i + 1].hist;
    }
  }
}
