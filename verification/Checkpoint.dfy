/** Checkpoints: the live tables and a manifest that names them, in a directory of
    their own. Opened, a checkpoint is a database that shows one prefix of the
    history, and everything acknowledged before its flush is in that prefix. */
module Checkpoint {
  import opened Records
  import opened Header
  import opened Layers
  import opened Manifest
  import opened Wal
  import opened Engine
  import opened EngineSafety
  import opened Splicing
  import opened Durability
  import opened Recovery
  import opened Crash
  import opened PointReads
  import opened Settling

  // ------------------------------------------------------------ the checkpoint

  /** The flush lock is free: no flush runs and no compaction publishes. */
  predicate LockFree(s: State) {
    s.flush.NoFlush? && !HoldsFlushLock(s.compact)
  }

  /** The manifest of a checkpoint that links the tables in `s` and reads the
      counters in `t`, with writers running in between. */
  function Copied(s: State, t: State): (ms: ManifestState) {
    ManifestState(TableIds(s.tables), Counter(t), t.nextSstId)
  }

  /** The directory: no log, the linked tables, a manifest that names them. */
  function CheckpointDisk(cs: Checksums, s: State, t: State): (d: Disk) {
    Disk([], ManifestFile(cs, SnapshotEdits(Copied(s, t))), Named(s.files, TableIds(s.tables)))
  }

  /** The counters of `t` are not behind those of `s`. */
  predicate CountsOn(s: State, t: State) {
    Counter(s) <= Counter(t) <= U64_MAX && s.nextSstId <= t.nextSstId <= U64_MAX
  }

  lemma StepCounts(s: State, step: Step, s': State)
    requires Does(s, step, s')
    ensures Counter(s) <= Counter(s') && s.nextSstId <= s'.nextSstId
  {
    hide IsMinSnapshot;
  }

  lemma {:induction false} RunCounts(states: seq<State>, steps: seq<Step>, i: nat, j: nat)
    requires IsRun(states, steps) && Inv(states[0]) && DiskOk(states[0]) && i <= j < |states|
    ensures CountsOn(states[i], states[j])
    decreases j
  {
    hide Inv, DiskOk, Does;
    RunInv(states, steps, j);
    RunDisk(states, steps, j);
    HistFacts(states[j]);
    DiskBound(states[j]);
    if i < j {
      RunCounts(states, steps, i, j - 1);
      StepCounts(states[j - 1], steps[j - 1], states[j]);
    }
  }

  /** A handle on an opened checkpoint that answers for `hist`. */
  function Restored(o: Opened, hist: seq<Record>): (s: State) {
    State(Whole([]), o.active, None, o.tables, o.nextSstId, o.nextSeq, 0, o.edits, o.files, multiset{}, NoFlush,
      NoCompaction, hist)
  }

  lemma CopiedFits(s: State, t: State)
    requires Inv(s) && CountsOn(s, t)
    ensures EditsFit(SnapshotEdits(Copied(s, t)))
  {
    hide LayersOk, ViewOk, FlushOk, CompactOk, SnapshotEdits, Chronological;
    forall id | id in TableIds(s.tables)
      ensures id < s.nextSstId
    {
      var i := IdIndex(s.tables, id);
    }
    SnapshotFits(Copied(s, t));
  }

  /** The checkpoint directory opens, to the live tables and both counters. */
  lemma CheckpointOpens(cs: Checksums, s: State, t: State)
    requires Inv(s) && DiskOk(s) && LockFree(s) && CountsOn(s, t)
    ensures Recover(cs, CheckpointDisk(cs, s, t)) ==
              Ok(Opened([], s.tables, t.nextSstId, Counter(t), SnapshotEdits(Copied(s, t)),
                        Named(s.files, TableIds(s.tables))))
  {
    hide Manifest.Replay, ManifestFile, SnapshotEdits, LayersOk, ViewOk, FlushOk, CompactOk, LogOk, CounterOk,
      FramableOk, HistoryOk, OpenTables, TableIds;
    CopiedFits(s, t);
    GenerationReplays(cs, Copied(s, t));
    assert Wal.Replay(cs, []) == Ok([]);
    var files := Named(s.files, TableIds(s.tables));
    assert Named(files, TableIds(s.tables)) == files;
    LinksReopen(s);
    OpenExact(s.tables, files);
  }

  /** The links are the live tables. */
  lemma LinksReopen(s: State)
    requires Inv(s) && DiskOk(s) && LockFree(s)
    ensures Reopens(s.tables, Named(s.files, TableIds(s.tables)))
  {
    hide LayersOk, ViewOk, FlushOk, CompactOk, LogOk, CounterOk, FramableOk, HistoryOk, TableIds;
    forall t | t in s.tables
      ensures t.id in TableIds(s.tables)
    {
      var i :| 0 <= i < |s.tables| && s.tables[i] == t;
      IdAt(s.tables, i);
    }
  }

  /** The opened checkpoint is a healthy database again. */
  lemma CheckpointOk(cs: Checksums, s: State, t: State, n: nat)
    requires Inv(s) && DiskOk(s) && LockFree(s) && CountsOn(s, t) && Holds(Recs(s.tables), s.hist, n)
    ensures Recover(cs, CheckpointDisk(cs, s, t)).Ok?
    ensures var s' := Restored(Recover(cs, CheckpointDisk(cs, s, t)).value, s.hist[..n]); Inv(s') && DiskOk(s')
  {
    hide Recover, Inv, DiskOk, Holds, LayersOk, HistoryOk, ViewOk, LogOk, ManifestOk, CounterOk, FilesOk, FramableOk,
      SnapshotEdits, Named, TableIds, IdsOk;
    CheckpointOpens(cs, s, t);
    var o := Recover(cs, CheckpointDisk(cs, s, t)).value;
    HoldsLength(Recs(s.tables), s.hist, n);
    var s' := Restored(o, s.hist[..n]);
    RestoredLayers(s, t, s', n);
    RestoredDisk(s, t, s', n);
  }

  lemma RestoredLayers(s: State, t: State, s': State, n: nat)
    requires Inv(s) && LockFree(s) && CountsOn(s, t) && Holds(Recs(s.tables), s.hist, n)
    requires s' == Restored(Opened([], s.tables, t.nextSstId, Counter(t), s'.edits, s'.files), s.hist[..n])
    ensures Inv(s')
  {
    hide Shows, Sorted, Over, MergeOk, RunAt, Get, Lookup;
    var base := Recs(s.tables);
    assert Stack(s) == base + [s.active];
    LayeredConcat(base, [s.active]);
    assert Stack(s') == base + [[]];
    EmptyOnTop(base, s.hist[..n]);
    assert Chronological(s.hist[..n]);
  }

  lemma RestoredDisk(s: State, t: State, s': State, n: nat)
    requires Inv(s) && DiskOk(s) && LockFree(s) && CountsOn(s, t) && n <= |s.hist|
    requires var files := Named(s.files, TableIds(s.tables));
             var o := Opened([], s.tables, t.nextSstId, Counter(t), SnapshotEdits(Copied(s, t)), files);
             s' == Restored(o, s.hist[..n])
    ensures DiskOk(s')
  {
    hide LayersOk, ViewOk, FlushOk, CompactOk, LogOk, CounterOk, SnapshotEdits, Fold, Chronological, TableIds,
      BatchFits;
    CopiedFits(s, t);
    SnapshotReplays(Copied(s, t));
    assert LogOk(s') by { NoLog(s'); }
    assert s'.edits != [] by { SnapshotSome(Copied(s, t)); }
    forall id | id in TableIds(s.tables)
      ensures id < s.nextSstId
    {
      var i := IdIndex(s.tables, id);
    }
    forall table | table in s.tables
      ensures table.id in TableIds(s.tables)
    {
      var i :| 0 <= i < |s.tables| && s.tables[i] == table;
      IdAt(s.tables, i);
    }
    assert CounterOk(s') by { AllCounted(s'); }
  }

  lemma NoLog(s: State)
    requires s.log == Whole([]) && s.active == [] && s.frozen.None?
    ensures LogOk(s)
  {
  }

  lemma SnapshotSome(ms: ManifestState)
    ensures SnapshotEdits(ms) != []
  {
  }

  lemma AllCounted(s: State)
    requires s.frozen.None? && forall r :: r in s.hist ==> r.seqno < Durable(s).nextSeq
    ensures CounterOk(s)
  {
    hide Durable;
  }

  /** Point in time. The flush of a checkpoint finds the MemTable empty or freezes
      it, at state `i`; the tables are linked at a later state `j` with the lock
      free, and the counters are read at a state `l` after that. Whatever ran in
      between, the opened checkpoint is a healthy database that shows one prefix of
      the history, and nothing acknowledged at state `i` is missing from it. */
  lemma CheckpointIsPointInTime(cs: Checksums, states: seq<State>, steps: seq<Step>, i: nat, j: nat, l: nat)
    returns (n: nat)
    requires IsRun(states, steps) && Inv(states[0]) && DiskOk(states[0]) && i < j <= l < |states| && LockFree(states[j])
    requires (states[i].flush.NoFlush? && states[i].active == []) || steps[i].Freeze?
    ensures |states[i].hist| <= n <= |states[j].hist|
    ensures Recover(cs, CheckpointDisk(cs, states[j], states[l])).Ok?
    ensures var s := Restored(Recover(cs, CheckpointDisk(cs, states[j], states[l])).value, states[j].hist[..n]);
            && Inv(s) && DiskOk(s)
            && forall k :: Value(Get(Stack(s), k, U64_MAX)) == Value(Lookup(states[j].hist[..n], k, U64_MAX))
  {
    hide Does, Inv, DiskOk, Recover, Holds, CheckpointDisk, Restored, Get, Lookup, Below, CountsOn;
    RunInv(states, steps, i);
    StepFields(states[i], steps[i], states[i + 1]);
    var m: nat;
    if steps[i].Freeze? {
      FreezeSettles(states[i], states[i + 1]);
      m := |states[i + 1].hist|;
    } else {
      EmptySettles(states[i]);
      m := StepSettles(states[i], steps[i], states[i + 1], |states[i].hist|);
    }
    n := RunSettles(states, steps, i + 1, j, m);
    RunInv(states, steps, j);
    RunDisk(states, steps, j);
    LockFreeBelow(states[j], n);
    RunCounts(states, steps, j, l);
    CheckpointOk(cs, states[j], states[l], n);
    var s := Restored(Recover(cs, CheckpointDisk(cs, states[j], states[l])).value, states[j].hist[..n]);
    RestoredHist(Recover(cs, CheckpointDisk(cs, states[j], states[l])).value, states[j].hist[..n]);
    forall k
      ensures Value(Get(Stack(s), k, U64_MAX)) == Value(Lookup(states[j].hist[..n], k, U64_MAX))
    {
      CurrentBefore(s, k);
    }
  }

  lemma LockFreeBelow(s: State, n: nat)
    requires Inv(s) && LockFree(s) && Holds(Below(s), s.hist, n)
    ensures Holds(Recs(s.tables), s.hist, n) && n <= |s.hist|
  {
    hide HistoryOk, LayersOk, ViewOk, IdsOk, CompactOk, Get;
    assert Below(s) == Recs(s.tables);
  }

  lemma RestoredHist(o: Opened, hist: seq<Record>)
    ensures Restored(o, hist).hist == hist
  {
  }
}
