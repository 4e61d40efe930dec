/** Facts about the state machine that the methods of the handle use. */
module DbFacts {
  import opened Records
  import opened Header
  import opened Codec
  import opened Framing
  import opened Layers
  import opened Retention
  import opened MemTables
  import opened Wal
  import opened Engine
  import opened EngineSafety
  import opened Durability
  import opened Splicing
  import opened Recovery
  import opened Crash
  import opened Picker

  /** Appending a frame to the log file, torn or not. */
  lemma LogBytesPush(cs: Checksums, log: LogState, batch: seq<Record>)
    ensures LogBytes(cs, Appended(log, batch)) == LogBytes(cs, log) + Frame(cs.castagnoli, Payload(batch))
  {
    hide LogFile, Frames, Frame, Payload;
    var frame := Frame(cs.castagnoli, Payload(batch));
    if log.Whole? {
      LogAppend(cs, log.frames, batch);
      Associate(LogFile(cs, log.frames), [], frame);
      assert [] + frame == frame && LogFile(cs, log.frames + [batch]) + [] == LogFile(cs, log.frames + [batch]);
    } else {
      FramesConcat(cs.castagnoli, log.later, [batch]);
      FramesOne(cs.castagnoli, batch);
      Associate(log.tail, Frames(cs.castagnoli, log.later), frame);
      Associate(LogFile(cs, log.frames), log.tail + Frames(cs.castagnoli, log.later), frame);
    }
  }

  lemma LogBytesWhole(cs: Checksums, frames: seq<seq<Record>>)
    ensures LogBytes(cs, Whole(frames)) == LogFile(cs, frames)
  {
  }

  lemma {:induction false} InsertAllPush(t: seq<Record>, rs: seq<Record>, i: nat)
    requires i < |rs|
    ensures InsertAll(t, rs[..i + 1]) == Insert(InsertAll(t, rs[..i]), rs[i])
    decreases i
  {
    hide Insert;
    if i == 0 {
      assert rs[..1] == [rs[0]] && rs[..0] == [];
      assert [rs[0]][1..] == [];
    } else {
      assert rs[..i + 1][1..] == rs[1..][..i] && rs[..i][1..] == rs[1..][..i - 1];
      InsertAllPush(Insert(t, rs[0]), rs[1..], i - 1);
    }
  }

  /** At a live bound, reads are what the history says. */
  lemma ViewReads(s: State, k: Key, h: nat)
    requires Inv(s)
    ensures LiveBound(s, h) ==> Value(Get(Stack(s), k, h)) == Value(Lookup(s.hist, k, h))
  {
    hide Get, Lookup, HistoryOk, LayersOk, IdsOk, FlushOk, CompactOk, Stack;
  }

  lemma GetBelow(s: State, k: Key, h: nat)
    ensures s.frozen.None? ==> Get(Below(s), k, h) == Get(Recs(s.tables), k, h)
    ensures s.frozen.Some? ==>
              Get(Below(s), k, h) ==
                (var top := Newest(s.frozen.value, k, h); if top.Some? then top else Get(Recs(s.tables), k, h))
  {
    hide Get, Newest;
    if s.frozen.Some? {
      GetPush(Recs(s.tables), s.frozen.value, k, h);
    } else {
      assert Recs(s.tables) + [] == Recs(s.tables);
    }
  }

  /** No table holds two records with one number. */
  lemma TablesAgree(s: State)
    requires Inv(s)
    ensures forall i :: 0 <= i < |s.tables| ==> Consistent(Recs(s.tables)[i])
  {
    hide Layered, Shows, IsCompaction, Covers, StrictlySorted, Sorted, Chronological;
    ChronologicalConsistent(s.hist);
    forall i | 0 <= i < |s.tables|
      ensures Consistent(Recs(s.tables)[i])
    {
      assert Stack(s)[i] == Recs(s.tables)[i];
    }
  }

  lemma SinglesPush(run: seq<Record>, i: nat)
    requires i < |run|
    ensures Singles(run[..i + 1]) == Singles(run[..i]) + [[run[i]]]
  {
    assert run[..i + 1] == run[..i] + [run[i]];
  }

  /** The position the splice looks for is there, and the run fits before it. */
  lemma RunStillThere(s: State)
    requires Inv(s) && s.compact.InputsDeleted?
    ensures MaxId(s.compact.m.run) in s.files && s.files[MaxId(s.compact.m.run)] == s.compact.m.out
    ensures var m := s.compact.m;
            Position(s.tables, MaxId(m.run)) == Some(m.start + |m.run| - 1) && m.run != [] && m.start + |m.run| <= |s.tables|
  {
    hide HistoryOk, LayersOk, ViewOk, FlushOk;
    SpliceExact(s, s.compact.m);
  }

  lemma RunMergeable(s: State)
    requires Inv(s) && s.compact.Picked?
    ensures ConsistentStack(Recs(s.compact.run))
    ensures forall i :: 0 <= i < |s.compact.run| ==> Sorted(Recs(s.compact.run)[i])
  {
    hide ConsistentStack, Sorted, StrictlySorted, Layered, Drawn, ViewOk, FlushOk, IdsOk, HistoryOk;
    RunLayered(s, s.compact.start, s.compact.run);
    forall i | 0 <= i < |s.compact.run|
      ensures Sorted(Recs(s.compact.run)[i])
    {
      assert s.compact.run[i] == s.tables[s.compact.start + i];
    }
  }

  /** What the six sections of a flush come to. */
  /** The state after a whole flush: the buffered records are the newest table, under
      the next id, and the log is empty. */
  function FlushedState(s: State): (s': State) {
    s.(log := Whole([]), active := [], tables := s.tables + [Table(s.nextSstId, s.active)],
       nextSstId := s.nextSstId + 1, files := s.files[s.nextSstId := s.active],
       edits := s.edits + FlushEdits(s.(nextSstId := s.nextSstId + 1), s.nextSstId))
  }

  lemma IdleUnfrozen(s: State)
    requires Inv(s)
    ensures s.flush.NoFlush? <==> s.frozen.None?
  {
    hide HistoryOk, LayersOk, ViewOk, IdsOk, CompactOk;
  }

  lemma FlushEffect(s: State, s1: State, s2: State, s3: State, s4: State, s5: State, s6: State)
    requires Inv(s) && Does(s, Freeze, s1) && Does(s1, WriteTable, s2) && Does(s2, LogTable, s3)
    requires Does(s3, Publish, s4) && Does(s4, RewriteLog, s5) && Does(s5, ClearFrozen, s6)
    ensures s6 == FlushedState(s)
  {
    hide HistoryOk, LayersOk, ViewOk, IdsOk, CompactOk;
    assert Singles([]) == [];
  }

  /** The run `start..end` of `tables` merged with horizon `min` into one table. */
  ghost predicate MergedInto(tables: seq<Table>, start: nat, end: nat, min: nat, tables': seq<Table>)
    requires start < end <= |tables|
  {
    && |tables'| == |tables| - (end - start) + 1
    && tables'[..start] == tables[..start] && tables'[start + 1..] == tables[end..]
    && tables'[start].id == tables[end - 1].id
    && IsCompaction(Recs(tables[start..end]), start == 0, min, tables'[start].recs)
  }

  /** One merge replaced a run of tables by one, and nothing else that is read or
      counted has changed. */
  ghost predicate Merges(s: State, start: nat, end: nat, s': State) {
    && start < end <= |s.tables|
    && (exists min: nat :: IsMinSnapshot(s.snapshots, min) && MergedInto(s.tables, start, end, min, s'.tables))
    && s'.active == s.active && s'.frozen == s.frozen && s'.log == s.log && s'.hist == s.hist
    && s'.nextSeq == s.nextSeq && s'.reserved == s.reserved && s'.nextSstId == s.nextSstId && s'.snapshots == s.snapshots
    && s'.flush == s.flush && s'.compact == s.compact
  }

  /** Up to the splice, a compaction touches neither the live set nor anything a
      read or a write uses. */
  lemma MergeReady(s: State, start: nat, end: nat, s1: State, out: seq<Record>, s2: State, s3: State, s4: State)
    requires Does(s, Pick(start, end), s1) && Does(s1, MergeRun(out), s2) && Does(s2, RenameOut, s3)
    requires Does(s3, DeleteInputs, s4)
    ensures start < end <= |s.tables| && s4.compact.InputsDeleted?
    ensures var m := s4.compact.m;
            && m.start == start && m.run == s.tables[start..end] && m.out == out && IsMinSnapshot(s.snapshots, m.min)
            && IsCompaction(Recs(m.run), s.tables[start].id == s.tables[0].id, m.min, out)
    ensures s4 == s.(files := s4.files, edits := s4.edits, compact := s4.compact)
    ensures var id := s.tables[end - 1].id; id in s4.files && s4.files[id] == out
    ensures s.compact.NoCompaction?
  {
    hide IsCompaction, IsMinSnapshot;
    assert MaxId(s.tables[start..end]) == s.tables[end - 1].id;
  }

  lemma CompactEffect(s: State, start: nat, end: nat, s1: State, out: seq<Record>, s2: State, s3: State, s4: State,
                      s5: State, s6: State)
    requires Inv(s) && Does(s, Pick(start, end), s1) && Does(s1, MergeRun(out), s2) && Does(s2, RenameOut, s3)
    requires Does(s3, DeleteInputs, s4) && Does(s4, SpliceRun, s5)
    requires s6 == s5.(files := s6.files, compact := NoCompaction)
    ensures Merges(s, start, end, s6)
  {
    hide Does, IsCompaction, IsMinSnapshot, HistoryOk, LayersOk, ViewOk, FlushOk, CompactOk;
    MergeReady(s, start, end, s1, out, s2, s3, s4);
    PositionFound(s.tables, end - 1);
    MergeDone(s4, end - 1, s5, s6);
    assert MergedInto(s.tables, start, end, s4.compact.m.min, s6.tables) by {
      assert s.tables[start].id == s.tables[0].id <==> start == 0;
    }
  }

  /** The splice and the unlinking after it. */
  lemma MergeDone(s: State, at: nat, s1: State, s2: State)
    requires Does(s, SpliceRun, s1) && s2 == s1.(files := s2.files, compact := NoCompaction)
    requires s.compact.InputsDeleted? && s.compact.m.run != [] && at < |s.tables|
    requires MaxId(s.compact.m.run) == s.tables[at].id && Position(s.tables, s.tables[at].id) == Some(at)
    requires s.tables[at].id in s.files
    ensures |s.compact.m.run| <= at + 1
    ensures var (tables, n, out) := (s.tables, |s.compact.m.run|, s.files[s.tables[at].id]);
            s2.tables == tables[..at + 1 - n] + [Table(tables[at].id, out)] + tables[at + 1..]
    ensures s2 == s.(tables := s2.tables, files := s2.files, compact := NoCompaction)
  {
    hide Position;
  }

  lemma MergesShrinks(s: State, start: nat, end: nat, s': State)
    requires Merges(s, start, end, s')
    ensures |s'.tables| + (end - start) == |s.tables| + 1 && end - start <= |s.tables|
  {
    hide IsCompaction, IsMinSnapshot;
  }

  function SizesOf(tables: seq<Table>, sizeOf: seq<Record> -> nat): (sizes: seq<nat>)
    ensures |sizes| == |tables| && forall i :: 0 <= i < |tables| ==> sizes[i] == sizeOf(tables[i].recs)
  {
    seq<nat>(|tables|, i requires 0 <= i < |tables| => sizeOf(tables[i].recs))
  }

  /** The run `start..end` is the one to merge: its sizes share a tier, it cannot be
      extended, it reaches the threshold, and no run before it does. It is merged. */
  ghost predicate CompactsRun(s: State, sizeOf: seq<Record> -> nat, threshold: nat, start: nat, end: nat, s': State) {
    && start < end <= |s.tables| && end - start >= threshold
    && Maximal(SizesOf(s.tables, sizeOf), start, end) && NoneBefore(SizesOf(s.tables, sizeOf), start, threshold)
    && Merges(s, start, end, s')
  }

  ghost predicate Compacts(s: State, sizeOf: seq<Record> -> nat, threshold: nat, s': State) {
    exists start: nat, end: nat :: CompactsRun(s, sizeOf, threshold, start, end, s')
  }

  /** There is only one such run. */
  lemma CompactsOne(s: State, sizeOf: seq<Record> -> nat, threshold: nat, start: nat, end: nat, s1: State,
                    start': nat, end': nat, s2: State)
    requires CompactsRun(s, sizeOf, threshold, start, end, s1) && CompactsRun(s, sizeOf, threshold, start', end', s2)
    ensures start == start' && end == end'
  {
    hide Merges;
    var sizes := SizesOf(s.tables, sizeOf);
    FirstRun(sizes, threshold, start, end, start', end');
    FirstRun(sizes, threshold, start', end', start, end);
    SameEnd(sizes, start, end, end');
    SameEnd(sizes, start, end', end);
  }

  lemma FirstRun(sizes: seq<nat>, threshold: nat, i: nat, j: nat, i': nat, j': nat)
    requires i < j <= |sizes| && i' < j' <= |sizes| && Maximal(sizes, i, j) && Maximal(sizes, i', j')
    requires j - i >= threshold && NoneBefore(sizes, i', threshold)
    ensures i' <= i
  {
  }

  lemma SameEnd(sizes: seq<nat>, i: nat, j: nat, j': nat)
    requires i < j <= |sizes| && i < j' <= |sizes| && Maximal(sizes, i, j) && Maximal(sizes, i, j')
    ensures j <= j'
  {
  }

  lemma CompactsShrinks(s: State, sizeOf: seq<Record> -> nat, threshold: nat, s': State)
    requires Compacts(s, sizeOf, threshold, s')
    ensures |s'.tables| + threshold <= |s.tables| + 1
    ensures s'.hist == s.hist && s'.snapshots == s.snapshots && s'.active == s.active && s'.nextSstId == s.nextSstId
  {
    hide Merges, Maximal, NoneBefore;
    var start: nat, end: nat :| CompactsRun(s, sizeOf, threshold, start, end, s');
    MergesShrinks(s, start, end, s');
    MergesKeeps(s, start, end, s');
  }

  lemma MergesKeeps(s: State, start: nat, end: nat, s': State)
    requires Merges(s, start, end, s')
    ensures s'.hist == s.hist && s'.snapshots == s.snapshots && s'.active == s.active && s'.nextSstId == s.nextSstId
  {
    hide MergedInto, IsMinSnapshot;
  }

  /** From `s` to `s'` by merges of the run to merge, one after the other. */
  ghost predicate Drained(s: State, trail: seq<State>, sizeOf: seq<Record> -> nat, threshold: nat, s': State) {
    && trail != [] && trail[0] == s && trail[|trail| - 1] == s'
    && forall i :: 0 < i < |trail| ==> Compacts(trail[i - 1], sizeOf, threshold, trail[i])
  }

  lemma {:induction false} DrainedKeeps(s: State, trail: seq<State>, sizeOf: seq<Record> -> nat, threshold: nat, s': State)
    requires Drained(s, trail, sizeOf, threshold, s')
    ensures s'.hist == s.hist && s'.snapshots == s.snapshots && s'.active == s.active && s'.nextSstId == s.nextSstId
    decreases |trail|
  {
    hide Compacts;
    if |trail| > 1 {
      var front := trail[..|trail| - 1];
      DrainedKeeps(s, front, sizeOf, threshold, front[|front| - 1]);
      CompactsShrinks(front[|front| - 1], sizeOf, threshold, s');
    }
  }

  ghost predicate MergesSome(s: State, s': State) {
    exists start: nat, end: nat :: Merges(s, start, end, s')
  }

  /** Draining does not end below a threshold of two: however many merges have run,
      there is a table and a run that qualifies for the next. */
  lemma {:induction false} DrainNeverEnds(states: seq<State>, n: nat, threshold: nat, sizeOf: seq<Record> -> nat)
    requires n < |states| && states[0].tables != [] && threshold <= 1
    requires forall i :: 0 <= i < n ==> MergesSome(states[i], states[i + 1])
    ensures states[n].tables != [] && !NoneBefore(SizesOf(states[n].tables, sizeOf), |states[n].tables|, threshold)
    decreases n
  {
    hide Merges, NoneBefore;
    if n > 0 {
      DrainNeverEnds(states, n - 1, threshold, sizeOf);
      var start: nat, end: nat :| Merges(states[n - 1], start, end, states[n]);
      MergesShrinks(states[n - 1], start, end, states[n]);
    }
    LowThreshold(SizesOf(states[n].tables, sizeOf), threshold);
  }

  lemma PickedRun(s: State, start: nat, end: nat, s': State)
    requires Does(s, Pick(start, end), s')
    ensures start < end <= |s.tables| && s'.compact.Picked? && s'.compact.run == s.tables[start..end] != []
  {
  }

  // ------------------------------------------------- sections as protocol steps

  lemma FitsSome(batch: seq<Record>)
    requires BatchFits(batch)
    ensures batch != []
  {
  }

  lemma WriteStep(s: State, ops: seq<Op>, s': State)
    requires Inv(s) && DiskOk(s) && s.reserved == |ops| && BatchFits(Stamp(ops, s.nextSeq))
    requires var batch := Stamp(ops, s.nextSeq);
             s' == s.(log := Appended(s.log, batch), active := InsertAll(s.active, batch),
                      nextSeq := s.nextSeq + |ops|, reserved := 0, hist := s.hist + batch)
    ensures Does(s, Write(ops), s') && Inv(s') && DiskOk(s')
  {
    hide Inv, DiskOk, BatchFits, InsertAll;
    StepInv(s, Write(ops), s');
    StepDisk(s, Write(ops), s');
  }

  lemma RewriteStep(s: State, s': State)
    requires Inv(s) && DiskOk(s) && s.flush.Published? && s.reserved == 0
    requires s' == s.(log := Whole(Singles(s.active)), flush := Rewritten(s.flush.id))
    ensures Does(s, RewriteLog, s') && Inv(s') && DiskOk(s')
  {
    hide Inv, DiskOk;
    StepInv(s, RewriteLog, s');
    StepDisk(s, RewriteLog, s');
  }

  lemma SpliceStep(s: State, at: nat, s': State)
    requires Inv(s) && DiskOk(s) && s.compact.InputsDeleted? && s.compact.m.run != []
    requires Position(s.tables, MaxId(s.compact.m.run)) == Some(at) && |s.compact.m.run| <= at + 1
    requires MaxId(s.compact.m.run) in s.files
    requires s' == s.(tables := Splice(s.tables, at, |s.compact.m.run|, s.files[MaxId(s.compact.m.run)]),
             compact := Spliced(s.compact.m))
    ensures Does(s, SpliceRun, s') && Inv(s') && DiskOk(s')
  {
    hide Inv, DiskOk, Position, Splice;
    StepInv(s, SpliceRun, s');
    StepDisk(s, SpliceRun, s');
  }

  lemma UnlinkStep(a: State, s: State, t: Table, s': State)
    requires Reaches(a, s) && Inv(s) && DiskOk(s) && s.compact.Spliced? && t in Stale(s.compact.m.run)
    requires s' == s.(files := s.files - {t.id})
    ensures Reaches(a, s') && Inv(s') && DiskOk(s')
  {
    hide Inv, DiskOk, Reaches;
    assert Does(s, Unlink(t.id), s');
    StepInv(s, Unlink(t.id), s');
    StepDisk(s, Unlink(t.id), s');
    ReachStep(a, s, Unlink(t.id), s');
  }

  lemma FinishStep(a: State, s: State, s': State)
    requires Reaches(a, s) && Inv(s) && DiskOk(s) && s.compact.Spliced? && s' == s.(compact := NoCompaction)
    ensures Reaches(a, s') && Inv(s') && DiskOk(s')
  {
    hide Inv, DiskOk, Reaches;
    StepInv(s, FinishCompaction, s');
    StepDisk(s, FinishCompaction, s');
    ReachStep(a, s, FinishCompaction, s');
  }

  // ------------------------------------------------------------- after a crash

  /** The log a crash leaves still says which version it is, and is byte for byte
      the log of the recovered state. */
  lemma CrashWal(cs: Checksums, s: State, c: CrashPoint)
    requires PointOk(cs, s, c)
    ensures var b := DiskImage(cs, s, c).wal;
            && b != [] && Classify(b, WAL_MAGIC, WAL_VERSION) == Ok(Versioned(WAL_VERSION))
            && b == LogBytes(cs, LogAfter(cs, s, c))
  {
    hide EncodeHeader, Frames, Classify, InFlight, LogAfter, PendingEdits, Verified, Behind;
    var head, body := EncodeHeader(WAL_MAGIC, WAL_VERSION), Frames(cs.castagnoli, s.log.frames);
    var behind, tail := Behind(cs, s.log), InFlight(cs, s, c)[..c.walCut];
    HeaderFirst(head, body, behind, tail);
    ClassifyEncoded(WAL_MAGIC, WAL_VERSION, WAL_VERSION, body + behind + tail);
    LogAfterBytes(cs, s, c);
  }

  lemma HeaderFirst(head: Bytes, body: Bytes, behind: Bytes, tail: Bytes)
    requires |head| == HEADER_LEN
    ensures ((head + body) + behind) + tail == head + (body + behind + tail) && head + (body + behind + tail) != []
  {
  }

  lemma LogAfterBytes(cs: Checksums, s: State, c: CrashPoint)
    requires PointOk(cs, s, c)
    ensures LogBytes(cs, LogAfter(cs, s, c)) == LogBytes(cs, s.log) + InFlight(cs, s, c)[..c.walCut]
  {
    hide LogFile, Frames, Frame, Payload, BatchFits, Verified, PendingEdits;
    var file, tail := LogFile(cs, s.log.frames), InFlight(cs, s, c)[..c.walCut];
    NoFrames(cs.castagnoli);
    if s.log.Torn? {
      Associate(file, Behind(cs, s.log), tail);
      assert (Behind(cs, s.log) + tail) + [] == Behind(cs, s.log) + tail;
    } else if Landed(cs, s, c) != [] {
      assert tail == InFlight(cs, s, c);
      LogAppend(cs, s.log.frames, Stamp(c.ops, s.nextSeq));
      assert file + [] == file;
    } else {
      assert tail + [] == tail && file + [] == file;
    }
  }

  lemma NoFrames(hash: Bytes -> Word)
    ensures Frames(hash, []) == []
  {
  }

  /** The recovered MemTable, inserted again in its own order, is itself. */
  lemma CrashActive(cs: Checksums, s: State, c: CrashPoint, s': State)
    requires Inv(s) && DiskOk(s) && CrashesTo(cs, s, c, s')
    ensures InsertAll([], s'.active) == s'.active
  {
    hide Inv, DiskOk, StrictlySorted, InsertAll, Consistent, CrashesTo, Found, Landed, CrashTables, CrashManifest,
      NextSeqAfter, Chronological, Crashable, PointOk;
    CrashState(cs, s, c, s');
    DiskLog(s);
    LandedOnFound(cs, s, c);
    InsertAllMembers(Found(s), Landed(cs, s, c));
    assert Consistent(s'.active) by { SameConsistent(Found(s) + Landed(cs, s, c), s'.active); }
    RewriteRebuilds(s'.active);
  }

  lemma SameConsistent(a: seq<Record>, b: seq<Record>)
    requires Consistent(a) && forall r :: r in b ==> r in a
    ensures Consistent(b)
  {
  }

  // ---------------------------------------------------------------- checkpoint

  lemma NoIds()
    ensures TableIds([]) == {}
  {
  }

  lemma IdsPush(tables: seq<Table>, i: nat)
    requires i < |tables|
    ensures TableIds(tables[..i + 1]) == TableIds(tables[..i]) + {tables[i].id}
  {
    assert tables[..i + 1] == tables[..i] + [tables[i]];
  }

  lemma FileThere(s: State, i: nat)
    requires DiskOk(s) && i < |s.tables|
    ensures s.tables[i].id in s.files
  {
    hide LogOk, ManifestOk, CounterOk, FramableOk;
    assert s.tables[i] in s.tables;
  }

  lemma StaleIds(run: seq<Table>, i: nat, files: map<nat, seq<Record>>)
    requires i < |run|
    ensures files - (set t | t in run[..i + 1] :: t.id) == (files - (set t | t in run[..i] :: t.id)) - {run[i].id}
  {
    assert run[..i + 1] == run[..i] + [run[i]];
    assert (set t | t in run[..i + 1] :: t.id) == (set t | t in run[..i] :: t.id) + {run[i].id};
  }
}
