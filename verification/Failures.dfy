/** Runs from a fresh directory that the engine does not survive unharmed, each
    exhibited step by step. */
module Failures {
  import opened Records
  import opened Codec
  import opened Header
  import opened Layers
  import opened Retention
  import opened MemTables
  import opened Manifest
  import opened Wal
  import opened Engine
  import opened EngineSafety
  import opened Durability
  import opened Recovery
  import opened Crash

  // ---------------------------------------------------------- reachable states

  /** Reachable from a fresh directory without a crash. */
  ghost predicate Reachable(s: State) {
    Reaches(Fresh(), s)
  }

  lemma ReachableOk(s: State)
    requires Reachable(s)
    ensures Inv(s) && DiskOk(s)
  {
    hide Inv, DiskOk, Does;
    var states, steps :| IsRun(states, steps) && states[0] == Fresh() && states[|states| - 1] == s;
    InitInv(states[0]);
    InitDisk(states[0]);
    RunInv(states, steps, |steps|);
    RunDisk(states, steps, |steps|);
  }

  /** The state after one undisturbed write of a single record. */
  function Wrote(s: State, op: Op): (s': State) {
    var batch := Stamp([op], s.nextSeq);
    s.(log := Appended(s.log, batch), active := InsertAll(s.active, batch), nextSeq := s.nextSeq + 1, hist := s.hist + batch)
  }

  /** The state after one undisturbed flush. */
  function Flushed(s: State): (s': State) {
    s.(log := Whole([]), active := [], tables := s.tables + [Table(s.nextSstId, s.active)], nextSstId := s.nextSstId + 1,
       edits := s.edits + [AddTable(s.nextSstId), SetNextSstId(s.nextSstId + 1), SetNextSeq(s.nextSeq)],
       files := s.files[s.nextSstId := s.active])
  }

  lemma ReachWrote(a: State, s: State, op: Op)
    requires Reaches(a, s) && s.reserved == 0 && s.nextSeq < U64_MAX && BatchFits(Stamp([op], s.nextSeq))
    ensures Reaches(a, Wrote(s, op))
  {
    hide Reaches, BatchFits, InsertAll;
    var s1 := s.(reserved := 1);
    ReachStep(a, s, Reserve(1), s1);
    ReachStep(a, s1, Write([op]), Wrote(s, op));
  }

  function Froze(s: State): (s': State) {
    s.(active := [], frozen := Some(s.active), flush := Frozen)
  }

  lemma ReachFlushed(a: State, s: State)
    requires Reaches(a, s) && s.flush.NoFlush? && s.frozen.None? && s.compact.NoCompaction? && s.active != []
    requires s.nextSstId < U64_MAX && s.reserved == 0
    ensures Reaches(a, Flushed(s)) && Reaches(a, Froze(s))
  {
    hide Reaches;
    ReachStep(a, s, Freeze, Froze(s));
    ReachDrained(a, s);
  }

  /** The rest of a flush, once the MemTable is frozen. */
  lemma ReachDrained(a: State, s: State)
    requires Reaches(a, Froze(s)) && s.frozen.None? && s.flush.NoFlush? && s.nextSstId < U64_MAX && s.reserved == 0
    ensures Reaches(a, Flushed(s))
  {
    hide Reaches;
    var s1 := Froze(s);
    var s2 := s1.(nextSstId := s.nextSstId + 1, files := s.files[s.nextSstId := s.active], flush := Renamed(s.nextSstId));
    ReachStep(a, s1, WriteTable, s2);
    var s3 := s2.(edits := s.edits + FlushEdits(s2, s.nextSstId), flush := Logged(s.nextSstId));
    ReachStep(a, s2, LogTable, s3);
    var s4 := s3.(tables := s.tables + [Table(s.nextSstId, s.active)], flush := Published(s.nextSstId));
    ReachStep(a, s3, Publish, s4);
    var s5 := s4.(log := Whole([]), flush := Rewritten(s.nextSstId));
    assert Singles([]) == [];
    ReachStep(a, s4, RewriteLog, s5);
    ReachStep(a, s5, ClearFrozen, Flushed(s));
  }

  // ----------------------------------------------------------- counterexamples

  const KEY: Key := [1]
  const PUT: Record := Record(KEY, Some([7]), 0)
  const TOMB: Record := Record(KEY, None, 1)

  lemma SmallFits(op: Op, n: nat)
    requires op.0 == KEY && (op.1 == Some([7]) || op.1 == None) && n < 2
    ensures BatchFits(Stamp([op], n)) && Stamp([op], n) == [Record(KEY, op.1, n)]
    ensures InsertAll([], Stamp([op], n)) == [Record(KEY, op.1, n)]
  {
    var batch := Stamp([op], n);
    assert batch == [Record(KEY, op.1, n)];
    assert batch[1..] == [];
    assert EncodeAll(batch) == Encode(batch[0]) + EncodeAll(batch[1..]);
    assert InsertAll(Insert([], batch[0]), []) == [batch[0]];
  }

  /** A put flushed to table 0 and a delete flushed to table 1, with the state
      between the two writes. */
  lemma TwoTables() returns (a: State, s: State)
    ensures Reachable(a) && Reaches(a, s) && Reachable(s) && a.hist == [PUT] && a.nextSeq == 1
    ensures s.flush.NoFlush? && s.compact.NoCompaction? && s.log == Whole([]) && s.snapshots == multiset{}
    ensures s.tables == [Table(0, [PUT]), Table(1, [TOMB])] && s.hist == [PUT, TOMB] && s.active == [] && s.nextSeq == 2
    ensures s.frozen.None? && s.reserved == 0
  {
    hide Reaches, BatchFits, InsertAll;
    ReachSelf(Fresh());
    SmallFits((KEY, Some([7])), 0);
    SmallFits((KEY, None), 1);
    ReachWrote(Fresh(), Fresh(), (KEY, Some([7])));
    a := Wrote(Fresh(), (KEY, Some([7])));
    ReachSelf(a);
    ReachFlushed(a, a);
    var b := Flushed(a);
    ReachWrote(a, b, (KEY, None));
    var c := Wrote(b, (KEY, None));
    ReachFlushed(a, c);
    s := Flushed(c);
    ReachThrough(Fresh(), a, s);
  }

  /** Merging the two drops both records, there being no older table. */
  lemma MergeToNothing()
    ensures var inputs := [[PUT], [TOMB]];
            IsCompaction(inputs, true, U64_MAX, []) && Peeled(inputs, U64_MAX, TOMB)
  {
    var inputs := [[PUT], [TOMB]];
    assert TOMB in inputs[1] && Member(inputs, TOMB);
    assert PUT in inputs[0] && Member(inputs, PUT);
    forall r | Retained(inputs, U64_MAX, r)
      ensures r == TOMB
    {
      var i :| 0 <= i < |inputs| && r in inputs[i];
      assert r == PUT || r == TOMB;
      assert r.seqno < U64_MAX;
    }
    assert Retained(inputs, U64_MAX, TOMB);
    assert Peeled(inputs, U64_MAX, TOMB);
  }

  lemma MergedAndRenamed() returns (a: State, s: State)
    ensures Reachable(a) && Reaches(a, s) && Reachable(s) && a.hist == [PUT] && a.nextSeq == 1
    ensures s.flush.NoFlush? && s.log == Whole([]) && s.hist == [PUT, TOMB] && s.active == [] && s.frozen.None?
    ensures s.tables == [Table(0, [PUT]), Table(1, [TOMB])]
    ensures s.compact == OutRenamed(Merge(0, s.tables, true, U64_MAX, [])) && 1 in s.files && s.files[1] == []
  {
    hide Reaches;
    var t: State;
    a, t := TwoTables();
    assert t.tables[0..2] == t.tables;
    var b := t.(compact := Picked(0, t.tables, true));
    ReachStep(a, t, Pick(0, 2), b);
    MergeToNothing();
    assert Recs(t.tables) == [[PUT], [TOMB]];
    var m := Merge(0, t.tables, true, U64_MAX, []);
    var c := b.(compact := Merged(m));
    assert IsMinSnapshot(b.snapshots, U64_MAX);
    ReachStep(a, b, MergeRun([]), c);
    s := c.(files := c.files[1 := []], compact := OutRenamed(m));
    ReachStep(a, c, RenameOut, s);
    ReachThrough(Fresh(), a, s);
  }

  /** A deleted key comes back: put, flush, delete, flush, compact, and crash
      between the rename of the merged table and the manifest edit that drops
      the old one. */
  lemma DeletedKeyComesBack(cs: Checksums) returns (s: State, s': State)
    ensures Reachable(s) && CrashesTo(cs, s, CrashPoint([], 0, 0), s')
    ensures Lookup(s.hist, KEY, U64_MAX) == Some(TOMB) && s'.hist == s.hist
    ensures Value(Get(Stack(s'), KEY, U64_MAX)).Some?
  {
    hide Reaches, Recover, Inv, DiskOk, DiskImage, Get, Resurrected, CrashTables, CrashManifest, Crashable,
      PendingEdits, BatchFits, NextSeqAfter, SnapshotEdits, Named, OpenTables;
    var a: State;
    a, s := MergedAndRenamed();
    var c := CrashPoint([], 0, 0);
    ReachableOk(s);
    RecoverOpens(cs, s, c);
    s' := AfterCrash(cs, s, c, Recover(cs, DiskImage(cs, s, c)).value);
    assert s.hist + [] == s.hist;
    CrashState(cs, s, c, s');
    assert Rebuilt(s) == [] && s'.active == [];
    KeyResurrected(s);
    CrashRead(cs, s, c, s', KEY);
    assert s.hist[..1] == [PUT];
  }

  lemma KeyResurrected(s: State)
    requires s.tables == [Table(0, [PUT]), Table(1, [TOMB])]
    requires s.compact == OutRenamed(Merge(0, s.tables, true, U64_MAX, []))
    ensures Resurrected(s, 0, [], KEY)
  {
    var run := Recs(s.tables);
    assert run == [[PUT], [TOMB]] && s.tables[0..2] == s.tables;
    MergeToNothing();
    assert Above(s, []) == [[]];
    GetOne([], KEY, U64_MAX);
    GetPush([[PUT]], [TOMB], KEY, U64_MAX);
    assert [[PUT]] + [[TOMB]] == run;
    assert Newest([TOMB], KEY, U64_MAX) == Some(TOMB);
    assert run[0..1] == [[PUT]];
    GetOne([PUT], KEY, U64_MAX);
    assert Newest([PUT], KEY, U64_MAX) == Some(PUT);
  }

  /** The state a crash and a restart lead to, and what is known of it. */
  lemma Restart(cs: Checksums, s: State, c: CrashPoint) returns (s': State)
    requires Inv(s) && DiskOk(s) && PointOk(cs, s, c)
    ensures CrashesTo(cs, s, c, s') && Crashable(s)
    ensures s'.tables == CrashTables(s, Survived(c)) && s'.active == ActiveAfter(cs, s, c) && s'.hist == HistAfter(cs, s, c)
    ensures s'.log == LogAfter(cs, s, c) && s'.nextSstId == CrashManifest(s, c).nextSstId && s'.reserved == 0
    ensures s'.nextSeq == NextSeqAfter(CrashManifest(s, c).nextSeq, Concat(s.log.frames) + Landed(cs, s, c))
    ensures s'.edits == SnapshotEdits(CrashManifest(s, c)) && s'.frozen.None? && s'.snapshots == multiset{}
    ensures s'.flush.NoFlush? && s'.compact.NoCompaction?
  {
    hide Inv, DiskOk, Recover, DiskImage, CrashTables, CrashManifest, PointOk, Crashable, NextSeqAfter, InsertAll,
      SnapshotEdits, Named, PendingEdits, Concat, LogAfter, HistAfter, Landed;
    RecoverOpens(cs, s, c);
    s' := AfterCrash(cs, s, c, Recover(cs, DiskImage(cs, s, c)).value);
    CrashState(cs, s, c, s');
  }

  /** A crash between the first and the second edit of a flush leaves a live
      table whose id the counter will hand out again. */
  lemma IdHandedOutAgain(cs: Checksums) returns (s: State, s': State)
    ensures Reachable(s) && CrashesTo(cs, s, CrashPoint([], 0, EDIT_LEN), s')
    ensures s'.tables == [Table(0, [PUT])] && s'.nextSstId == 0
    ensures s'.active == [PUT] && s'.hist == [PUT] && s'.nextSeq == 1 && s'.reserved == 0 && s'.snapshots == multiset{}
    ensures s'.frozen.None? && s'.flush.NoFlush? && s'.compact.NoCompaction?
    ensures s'.edits == SnapshotEdits(ManifestState({0}, 0, 0))
  {
    hide Reaches, Inv, DiskOk, BatchFits, InsertAll, CrashesTo, SnapshotEdits, Fold;
    ReachSelf(Fresh());
    SmallFits((KEY, Some([7])), 0);
    ReachWrote(Fresh(), Fresh(), (KEY, Some([7])));
    var a := Wrote(Fresh(), (KEY, Some([7])));
    var b := a.(active := [], frozen := Some(a.active), flush := Frozen);
    ReachStep(Fresh(), a, Freeze, b);
    s := b.(nextSstId := 1, files := map[0 := a.active], flush := Renamed(0));
    ReachStep(Fresh(), b, WriteTable, s);
    var c := CrashPoint([], 0, EDIT_LEN);
    ReachableOk(s);
    s' := Restart(cs, s, c);
    FlushManifest(s, c);
    FreshManifest();
    assert {} + {0} == {0};
    OneFrame(PUT);
    assert s.log.frames == [] + [[PUT]] == [[PUT]];
    assert s.hist + [] == s.hist;
  }

  lemma OneFrame(r: Record)
    ensures Concat([[r]]) == [r] && [r] + [] == [r] && InsertAll([], [r]) == [r] && InsertAll([r], []) == [r]
    ensures NextSeqAfter(0, [r]) == r.seqno + 1
  {
    assert [[r]][1..] == [] && [r][1..] == [];
    assert Concat([[r]]) == [r] + Concat([]);
    assert InsertAll([], [r]) == InsertAll(Insert([], r), []);
    assert NextSeqAfter(0, [r]) == NextSeqAfter(r.seqno + 1, []);
  }

  lemma FreshManifest()
    ensures Fold(DEFAULT, [SetNextSstId(0)]) == DEFAULT
  {
    assert [SetNextSstId(0)][1..] == [];
    assert Fold(Apply(DEFAULT, SetNextSstId(0)), []) == DEFAULT;
  }

  /** What the reuse costs. The next flush writes over the live table's file and puts
      a second table of the same id into the live set. A compaction of the two tells
      the manifest to drop the one id both have, and with it its own output: after the
      next restart nothing is left, although everything was acknowledged. */
  lemma ReusedIdLosesEverything(cs: Checksums) returns (s: State, s1: State, s2: State, s3: State)
    ensures Reachable(s) && CrashesTo(cs, s, CrashPoint([], 0, EDIT_LEN), s1) && Reaches(s1, s2)
    ensures CrashesTo(cs, s2, CrashPoint([], 0, 0), s3)
    ensures s3.hist == [PUT] && s3.tables == [] && s3.active == []
  {
    hide Reaches, CrashesTo, SnapshotEdits, Fold;
    s, s1 := IdHandedOutAgain(cs);
    ReachSelf(s1);
    ReachFlushed(s1, s1);
    s2 := MergedTwin(s1, Flushed(s1));
    s3 := NothingNamed(cs, s2);
  }

  /** Two tables of one id merged, up to the edit that drops the stale one. */
  lemma MergedTwin(a: State, s: State) returns (s': State)
    requires Reaches(a, s) && s.tables == [Table(0, [PUT]), Table(0, [PUT])] && s.snapshots == multiset{}
    requires s.flush.NoFlush? && s.compact.NoCompaction?
    ensures Reaches(a, s') && s'.compact.InputsDeleted?
    ensures s' == s.(files := s'.files, edits := s.edits + [DeleteTable(0)], compact := s'.compact)
  {
    hide Reaches;
    var t := Table(0, [PUT]);
    assert s.tables[0..2] == [t, t];
    var b := s.(compact := Picked(0, [t, t], true));
    ReachStep(a, s, Pick(0, 2), b);
    MergeTwice();
    assert Recs([t, t]) == [[PUT], [PUT]];
    var m := Merge(0, [t, t], true, U64_MAX, [PUT]);
    var c := b.(compact := Merged(m));
    assert IsMinSnapshot(b.snapshots, U64_MAX);
    ReachStep(a, b, MergeRun([PUT]), c);
    var d := c.(files := c.files[0 := [PUT]], compact := OutRenamed(m));
    ReachStep(a, c, RenameOut, d);
    assert Stale([t, t]) == [t] && Deletes([t]) == [DeleteTable(0)];
    s' := d.(edits := d.edits + [DeleteTable(0)], compact := InputsDeleted(m));
    ReachStep(a, d, DeleteInputs, s');
  }

  lemma MergeTwice()
    ensures IsCompaction([[PUT], [PUT]], true, U64_MAX, [PUT])
  {
    var inputs := [[PUT], [PUT]];
    assert PUT in inputs[0] && Member(inputs, PUT);
    forall r | Member(inputs, r)
      ensures r == PUT
    {
      var i :| 0 <= i < |inputs| && r in inputs[i];
    }
    assert Retained(inputs, U64_MAX, PUT);
    assert !Peeled(inputs, U64_MAX, PUT);
  }

  /** A restart from a manifest that names nothing and a log that holds nothing. */
  lemma NothingNamed(cs: Checksums, s: State) returns (s': State)
    requires s.log == Whole([]) && s.flush.NoFlush? && s.compact.InputsDeleted? && s.hist == [PUT]
    requires s.edits == SnapshotEdits(ManifestState({0}, 0, 0))
                        + [AddTable(0), SetNextSstId(1), SetNextSeq(1)] + [DeleteTable(0)]
    ensures CrashesTo(cs, s, CrashPoint([], 0, 0), s') && s'.hist == [PUT] && s'.tables == [] && s'.active == []
  {
    hide Wal.Replay, Manifest.Replay, ManifestFile, SnapshotEdits, Fold, LogFile;
    var c := CrashPoint([], 0, 0);
    ReusedManifest();
    assert PendingEdits(s) == [] && InFlight(cs, s, c) == [];
    var none: seq<VersionEdit> := [];
    ManifestReadsBack(cs, s.edits);
    LogReadsBack(cs);
    var d := DiskImage(cs, s, c);
    assert d.manifest == ManifestFile(cs, s.edits) by {
      assert ManifestFile(cs, s.edits) + EditFrames(cs.castagnoli, none)[..0] == ManifestFile(cs, s.edits);
    }
    assert d.wal == LogFile(cs, []) by {
      assert LogFile(cs, []) + [] + [][..0] == LogFile(cs, []);
    }
    NothingOpened(s.files);
    s' := AfterCrash(cs, s, c, Recover(cs, d).value);
    assert s.hist + [] == s.hist;
  }

  lemma NothingOpened(files: map<nat, seq<Record>>)
    ensures Named(files, {}) == map[] && Ascending({}) == [] && OpenTables([], map[]) == Ok([]) && InsertAll([], []) == []
  {
  }

  lemma LogReadsBack(cs: Checksums)
    ensures Wal.Replay(cs, LogFile(cs, [])) == Ok([])
  {
    hide Wal.Replay, LogFile;
    WholeReplays(cs, []);
  }

  lemma ManifestReadsBack(cs: Checksums, edits: seq<VersionEdit>)
    requires edits != [] && EditsFit(edits)
    ensures Manifest.Replay(cs, ManifestFile(cs, edits)) == Ok(Fold(DEFAULT, edits))
  {
    hide Manifest.Replay, ManifestFile, Fold, EditFrames;
    var none: seq<VersionEdit> := [];
    Manifest.ReplayInFlight(cs, edits, none, 0);
    assert ManifestFile(cs, edits) + EditFrames(cs.castagnoli, none)[..0] == ManifestFile(cs, edits);
    FoldNothing(Fold(DEFAULT, edits));
    assert none[..0] == none;
  }

  lemma ReusedManifest()
    ensures var edits :=
              SnapshotEdits(ManifestState({0}, 0, 0)) + [AddTable(0), SetNextSstId(1), SetNextSeq(1)] + [DeleteTable(0)];
            EditsFit(edits) && Fold(DEFAULT, edits).live == {}
  {
    hide SnapshotEdits, Fold;
    var ms := ManifestState({0}, 0, 0);
    var a, b, c := SnapshotEdits(ms), [AddTable(0), SetNextSstId(1), SetNextSeq(1)], [DeleteTable(0)];
    SnapshotReplays(ms);
    FoldConcat(DEFAULT, a + b, c);
    FoldConcat(DEFAULT, a, b);
    FoldThree(ms, AddTable(0), SetNextSstId(1), SetNextSeq(1));
    FoldOne(ManifestState({0} + {0}, 1, 1), DeleteTable(0));
    ReusedFits();
  }

  lemma ReusedFits()
    ensures EditsFit(SnapshotEdits(ManifestState({0}, 0, 0)))
  {
    AddsFit(Ascending({0}), 1);
  }
}
