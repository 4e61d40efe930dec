/** Whole runs with crashes in them. */
module CrashRuns {
  import opened Records
  import opened Header
  import opened Layers
  import opened Engine
  import opened EngineSafety
  import opened Durability
  import opened Recovery
  import opened Crash

  datatype Event = Run(step: Step) | CrashAt(c: CrashPoint)

  ghost predicate Happens(cs: Checksums, s: State, e: Event, s': State) {
    match e
    case Run(step) => Does(s, step, s')
    case CrashAt(c) => CrashesTo(cs, s, c, s') && Harmless(cs, s, c)
  }

  /** A history of a database: steps and harmless crashes, in any number and order,
      from a fresh directory or from any other healthy state. */
  ghost predicate IsHistory(cs: Checksums, states: seq<State>, events: seq<Event>) {
    && |states| == |events| + 1
    && Inv(states[0]) && DiskOk(states[0])
    && forall i :: 0 <= i < |events| ==> Happens(cs, states[i], events[i], states[i + 1])
  }

  lemma {:induction false} EventsInv(cs: Checksums, states: seq<State>, events: seq<Event>, i: nat)
    requires IsHistory(cs, states, events) && i < |states|
    ensures Inv(states[i]) && DiskOk(states[i])
    decreases i
  {
    hide Inv, DiskOk, Does, CrashesTo, Harmless;
    if i > 0 {
      EventsInv(cs, states, events, i - 1);
      assert Happens(cs, states[i - 1], events[i - 1], states[i]);
      match events[i - 1]
      case Run(step) =>
        StepInv(states[i - 1], step, states[i]);
        StepDisk(states[i - 1], step, states[i]);
      case CrashAt(c) =>
        CrashKeeps(cs, states[i - 1], c, states[i]);
    }
  }

  /** Nothing acknowledged leaves the history; a crash adds the batch in flight
      whole or adds nothing, and ends every snapshot. */
  lemma EventHistory(cs: Checksums, s: State, e: Event, s': State)
    requires Happens(cs, s, e, s')
    ensures s.hist <= s'.hist
    ensures e.CrashAt? ==> s'.hist == s.hist || s'.hist == s.hist + Stamp(e.c.ops, s.nextSeq)
    ensures e.CrashAt? ==> s'.snapshots == multiset{}
  {
    hide Recover, DiskImage, PointOk, InFlight, Harmless, LogAfter;
    if e.CrashAt? {
      assert s.hist + [] == s.hist;
    }
  }

  lemma {:induction false} HistoryGrows(cs: Checksums, states: seq<State>, events: seq<Event>, i: nat, j: nat)
    requires IsHistory(cs, states, events) && i <= j < |states|
    ensures states[i].hist <= states[j].hist
    decreases j
  {
    hide Happens, Inv, DiskOk;
    if i < j {
      HistoryGrows(cs, states, events, i, j - 1);
      EventHistory(cs, states[j - 1], events[j - 1], states[j]);
    }
  }

  /** Durability over whole histories. After any number of writes, flushes,
      compactions, snapshots and harmless crashes, every write acknowledged at any
      earlier moment is still part of the history, and every read is answered by
      that history. */
  lemma AcknowledgedWritesSurvive(cs: Checksums, states: seq<State>, events: seq<Event>, i: nat, j: nat, k: Key, h: nat)
    requires IsHistory(cs, states, events) && i <= j < |states| && LiveBound(states[j], h)
    ensures states[i].hist <= states[j].hist
    ensures Value(Get(Stack(states[j]), k, h)) == Value(Lookup(states[j].hist, k, h))
  {
    hide Happens, Inv, DiskOk, Get, Lookup;
    HistoryGrows(cs, states, events, i, j);
    EventsInv(cs, states, events, j);
    InvReads(states[j], k, h);
  }

  ghost predicate HappensOrderly(cs: Checksums, s: State, e: Event, s': State) {
    match e
    case Run(step) => Does(s, step, s')
    case CrashAt(c) => CrashesTo(cs, s, c, s') && Orderly(s, c)
  }

  /** A history whose crashes are orderly, as told from the state each falls in. */
  ghost predicate IsOrderly(cs: Checksums, states: seq<State>, events: seq<Event>) {
    && |states| == |events| + 1
    && Inv(states[0]) && DiskOk(states[0])
    && forall i :: 0 <= i < |events| ==> HappensOrderly(cs, states[i], events[i], states[i + 1])
  }

  lemma {:induction false} OrderlyIsHistory(cs: Checksums, states: seq<State>, events: seq<Event>)
    requires IsOrderly(cs, states, events)
    ensures IsHistory(cs, states, events)
    decreases |events|
  {
    hide Inv, DiskOk, Does, CrashesTo, Harmless, Orderly;
    if events != [] {
      var n := |events| - 1;
      forall i | 0 <= i < n
        ensures HappensOrderly(cs, states[..n + 1][i], events[..n][i], states[..n + 1][i + 1])
      {
        assert HappensOrderly(cs, states[i], events[i], states[i + 1]);
      }
      assert HappensOrderly(cs, states[n], events[n], states[n + 1]);
      OrderlyIsHistory(cs, states[..n + 1], events[..n]);
      EventsInv(cs, states[..n + 1], events[..n], n);
      if events[n].CrashAt? {
        OrderlyHarmless(cs, states[n], events[n].c);
      }
      forall i | 0 <= i < |events|
        ensures Happens(cs, states[i], events[i], states[i + 1])
      {
        if i < n {
          assert Happens(cs, states[..n + 1][i], events[..n][i], states[..n + 1][i + 1]);
        }
      }
    }
  }

  /** The same with nothing said about reads in the hypotheses: whatever runs, and
      wherever orderly crashes fall, nothing acknowledged is lost and every read is
      answered by the history. */
  lemma OrderlyCrashesLoseNothing(cs: Checksums, states: seq<State>, events: seq<Event>, i: nat, j: nat, k: Key, h: nat)
    requires IsOrderly(cs, states, events) && i <= j < |states| && LiveBound(states[j], h)
    ensures states[i].hist <= states[j].hist && Inv(states[j]) && DiskOk(states[j])
    ensures Value(Get(Stack(states[j]), k, h)) == Value(Lookup(states[j].hist, k, h))
  {
    hide IsOrderly, Happens, Inv, DiskOk, Get, Lookup, Stack;
    OrderlyIsHistory(cs, states, events);
    EventsInv(cs, states, events, j);
    AcknowledgedWritesSurvive(cs, states, events, i, j, k, h);
  }

  /** A crash on a torn log nothing has been written to since is always a possible
      one and loses nothing: the tail a crash leaves never verifies. */
  lemma TornTailHarmless(cs: Checksums, s: State, c: CrashPoint, s': State)
    requires Inv(s) && DiskOk(s) && CrashesTo(cs, s, c, s')
    ensures var again := CrashPoint([], 0, 0);
            PointOk(cs, s', again) && Harmless(cs, s', again)
  {
    hide Inv, DiskOk, Recover, DiskImage, Wal.Verified, PendingEdits;
    TornBehind(cs, s, c);
    NothingPending(s');
  }

  lemma NothingPending(s: State)
    requires s.flush.NoFlush? && s.compact.NoCompaction?
    ensures PendingEdits(s) == []
  {
  }

  lemma TornBehind(cs: Checksums, s: State, c: CrashPoint)
    requires PointOk(cs, s, c)
    ensures LogAfter(cs, s, c).Torn? ==>
              !Wal.Verified(cs.castagnoli, Behind(cs, LogAfter(cs, s, c)) + [][..0])
              && Wal.Concat(LogAfter(cs, s, c).later) == []
  {
    hide Wal.Verified, Wal.Payload, Framing.Frame, Wal.BatchFits;
    var log := LogAfter(cs, s, c);
    var tail := InFlight(cs, s, c)[..c.walCut];
    if log.Torn? {
      assert Wal.Frames(cs.castagnoli, []) == [];
      assert Behind(cs, log) + [][..0] == log.tail;
      if s.log.Whole? {
        Wal.BatchPayload(Stamp(c.ops, s.nextSeq));
        Wal.TornUnverified(cs.castagnoli, Wal.Payload(Stamp(c.ops, s.nextSeq)), c.walCut);
      }
    }
  }
}
