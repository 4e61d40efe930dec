/** What writing behind a torn tail costs, exhibited from a fresh directory: a write
    that is lost, and one that is in a table the manifest names and still hidden. */
module TornFailures {
  import opened Records
  import opened Codec
  import opened Header
  import opened Framing
  import opened Layers
  import opened MemTables
  import opened Manifest
  import opened Wal
  import opened Engine
  import opened EngineSafety
  import opened Durability
  import opened Recovery
  import opened Crash
  import opened Failures

  const BIG: Bytes := seq(100, _ => 0)

  /** A crash eight bytes into the append of a large record. */
  const TEAR: CrashPoint := CrashPoint([(KEY, Some(BIG))], FRAME_HEADER, 0)

  lemma BigFits(n: nat)
    requires n < 2
    ensures BatchFits(Stamp([(KEY, Some(BIG))], n)) && 100 <= |Payload(Stamp([(KEY, Some(BIG))], n))|
  {
    var batch := Stamp([(KEY, Some(BIG))], n);
    assert batch == [Record(KEY, Some(BIG), n)] && batch[1..] == [];
    assert EncodeAll(batch) == Encode(batch[0]) + EncodeAll(batch[1..]);
  }

  lemma SmallPayload(v: Bytes, n: nat)
    requires n < 2 && |v| == 1
    ensures BatchFits(Stamp([(KEY, Some(v))], n)) && |Payload(Stamp([(KEY, Some(v))], n))| < 50
    ensures Stamp([(KEY, Some(v))], n) == [Record(KEY, Some(v), n)]
  {
    var batch := Stamp([(KEY, Some(v))], n);
    assert batch == [Record(KEY, Some(v), n)] && batch[1..] == [];
    assert EncodeAll(batch) == Encode(batch[0]) + EncodeAll(batch[1..]);
  }

  /** A healthy, idle state whose next append is torn, and the restart after it. */
  lemma TornRestart(cs: Checksums, s: State) returns (s': State)
    requires Inv(s) && DiskOk(s) && s.log.Whole? && s.reserved == 1 && s.nextSeq < 2 && s.flush.NoFlush?
             && s.compact.NoCompaction?
    ensures CrashesTo(cs, s, TEAR, s') && Inv(s') && DiskOk(s') && s'.hist == s.hist
    ensures var payload := Payload(Stamp([(KEY, Some(BIG))], s.nextSeq));
            s'.log == Torn(s.log.frames, Frame(cs.castagnoli, payload)[..FRAME_HEADER], [])
    ensures s'.tables == s.tables && s'.active == Found(s) && s'.reserved == 0 && s'.frozen.None?
    ensures s'.flush.NoFlush? && s'.compact.NoCompaction? && s'.nextSstId == Durable(s).nextSstId
    ensures s'.nextSeq == NextSeqAfter(Durable(s).nextSeq, Concat(s.log.frames))
  {
    hide Inv, DiskOk, CrashesTo, Payload, Frame, BatchFits, Concat, NextSeqAfter, Fold, Found;
    BigFits(s.nextSeq);
    assert PendingEdits(s) == [];
    s' := Restart(cs, s, TEAR);
    assert Landed(cs, s, TEAR) == [] && Concat(s.log.frames) + [] == Concat(s.log.frames) && s.hist + [] == s.hist;
    FoldNothing(Durable(s));
    NoPublishes(cs, s);
    CrashKeeps(cs, s, TEAR, s');
  }

  lemma NoPublishes(cs: Checksums, s: State)
    requires s.log.Whole? && s.flush.NoFlush? && s.compact.NoCompaction?
    ensures Harmless(cs, s, TEAR)
  {
  }

  /** Nothing short of the torn frame's length completes it. */
  lemma StillTorn(cs: Checksums, payload: Bytes, more: Bytes)
    requires |payload| < U32_LIMIT && |more| < |payload|
    ensures !Verified(cs.castagnoli, Frame(cs.castagnoli, payload)[..FRAME_HEADER] + more)
  {
    hide Verified;
    TornHead(cs.castagnoli, payload, FRAME_HEADER, more);
  }

  /** A write behind the tail, from the state the torn restart leaves. */
  lemma WriteBehind(cs: Checksums, s: State, v: Bytes) returns (s': State)
    requires Inv(s) && DiskOk(s) && s.log.Torn? && s.log.later == [] && s.reserved == 0 && s.nextSeq < 2 && |v| == 1
    ensures Reaches(s, s') && Inv(s') && DiskOk(s') && s' == Wrote(s, (KEY, Some(v)))
    ensures s'.log == s.log.(later := [[Record(KEY, Some(v), s.nextSeq)]])
    ensures s'.hist == s.hist + [Record(KEY, Some(v), s.nextSeq)]
  {
    hide Inv, DiskOk, Reaches, BatchFits, Payload, InsertAll;
    var op: Op := (KEY, Some(v));
    SmallPayload(v, s.nextSeq);
    ReachSelf(s);
    var s1 := s.(reserved := 1);
    s' := Wrote(s, op);
    assert Does(s, Reserve(1), s1) && Does(s1, Write([op]), s');
    ReachWrote(s, s, op);
    StepInv(s, Reserve(1), s1);
    StepDisk(s, Reserve(1), s1);
    StepInv(s1, Write([op]), s');
    StepDisk(s1, Write([op]), s');
  }

  /** The late frame is too short to complete the torn one. */
  lemma LateShort(cs: Checksums, v: Bytes, n: nat, m: nat)
    requires n < 2 && m < 2 && |v| == 1
    ensures var payload := Payload(Stamp([(KEY, Some(BIG))], n));
            !Verified(cs.castagnoli,
                      Frame(cs.castagnoli, payload)[..FRAME_HEADER] + Frames(cs.castagnoli, [[Record(KEY, Some(v), m)]]))
  {
    hide Verified, Payload, Frame, BatchFits, Frames;
    BigFits(n);
    BatchPayload(Stamp([(KEY, Some(BIG))], n));
    SmallPayload(v, m);
    FramesOne(cs.castagnoli, Stamp([(KEY, Some(v))], m));
    StillTorn(cs, Payload(Stamp([(KEY, Some(BIG))], n)), Frames(cs.castagnoli, [[Record(KEY, Some(v), m)]]));
  }

  /** An acknowledged write is lost: crash in the middle of a frame, open, write,
      crash again before any flush. The key is gone. */
  lemma SecondCrashLosesWrite(cs: Checksums) returns (s: State, s1: State, s2: State, s3: State)
    ensures Reachable(s) && CrashesTo(cs, s, TEAR, s1) && Reaches(s1, s2) && CrashesTo(cs, s2, CrashPoint([], 0, 0), s3)
    ensures Value(Lookup(s2.hist, KEY, U64_MAX)) == Some([7]) && s3.hist == s2.hist
    ensures Value(Get(Stack(s3), KEY, U64_MAX)) == None
  {
    hide Reaches, Inv, DiskOk, CrashesTo, Payload, Frame, Frames, BatchFits, Verified;
    ReachSelf(Fresh());
    s := Fresh().(reserved := 1);
    ReachStep(Fresh(), Fresh(), Reserve(1), s);
    ReachableOk(s);
    s1 := TornRestart(cs, s);
    FreshCounters();
    s2 := WriteBehind(cs, s1, [7]);
    LateShort(cs, [7], 0, 0);
    var c := CrashPoint([], 0, 0);
    assert PendingEdits(s2) == [] && Behind(cs, s2.log) + [][..0] == Behind(cs, s2.log);
    s3 := Restart(cs, s2, c);
    OneFrame(PUT);
    assert s2.hist + [] == s2.hist && s2.hist[..0] == [] && s2.hist == [PUT];
    LostRead(s3);
  }

  lemma FreshCounters()
    ensures Durable(Fresh().(reserved := 1)) == DEFAULT && NextSeqAfter(0, Concat([])) == 0
  {
    FreshManifest();
  }

  lemma LostRead(s: State)
    requires s.active == [] && s.tables == [] && s.frozen.None?
    ensures Value(Get(Stack(s), KEY, U64_MAX)) == None
  {
    assert Stack(s) == [[]];
    GetOne([], KEY, U64_MAX);
  }

  const NEW: Record := Record(KEY, Some([8]), 1)

  /** A late write that has reached a table the manifest names, and is hidden all the
      same: replay puts the older version from before the tail on top of it. */
  lemma LateWriteHidden(cs: Checksums) returns (s: State, s1: State, s2: State, s3: State)
    ensures Reachable(s) && CrashesTo(cs, s, TEAR, s1) && Reaches(s1, s2) && CrashesTo(cs, s2, CrashPoint([], 0, 0), s3)
    ensures Lookup(s2.hist, KEY, U64_MAX) == Some(NEW) && s3.hist == s2.hist
    ensures |s3.tables| == 1 && NEW in s3.tables[0].recs
    ensures Value(Get(Stack(s3), KEY, U64_MAX)) == Some([7])
  {
    hide Reaches, Inv, DiskOk, CrashesTo, Payload, Frame, Frames, BatchFits, Verified, InsertAll, Fold, Concat;
    s := PutThenReserved();
    ReachableOk(s);
    s1 := TornRestart(cs, s);
    OneFrame(PUT);
    OneFrame(NEW);
    var a := WriteBehind(cs, s1, [8]);
    s2 := NamedLate(s1, a);
    LateShort(cs, [8], 1, 1);
    var c := CrashPoint([], 0, 0);
    assert PendingEdits(s2) == [] && Behind(cs, s2.log) + [][..0] == Behind(cs, s2.log);
    s3 := Restart(cs, s2, c);
    assert [PUT] + [] == [PUT] && s2.hist + [] == s2.hist;
    assert s2.hist[..1] == [PUT];
    HiddenRead(s3);
  }

  /** One put, and the counter moved for the next write. */
  lemma PutThenReserved() returns (s: State)
    ensures Reachable(s) && s.log == Whole([[PUT]]) && s.hist == [PUT] && s.reserved == 1 && s.nextSeq == 1 && s.tables == []
    ensures s.flush.NoFlush? && s.compact.NoCompaction? && Durable(s) == DEFAULT && s.nextSstId == 0
  {
    hide Reaches, BatchFits, InsertAll, Fold;
    ReachSelf(Fresh());
    SmallFits((KEY, Some([7])), 0);
    ReachWrote(Fresh(), Fresh(), (KEY, Some([7])));
    var a := Wrote(Fresh(), (KEY, Some([7])));
    s := a.(reserved := 1);
    ReachStep(Fresh(), a, Reserve(1), s);
    FreshManifest();
    assert s.log.frames == [] + [[PUT]] == [[PUT]];
    assert s.hist == [] + [PUT] == [PUT];
  }

  /** The late write goes into a table and the manifest names it; the log has not
      been rewritten yet. */
  lemma NamedLate(s: State, a: State) returns (s': State)
    requires Reaches(s, a) && Inv(a) && DiskOk(a) && a.flush.NoFlush? && a.frozen.None? && a.compact.NoCompaction?
    requires a.tables == [] && a.nextSstId == 0 && NEW in a.hist && a.log.Torn? && NEW in Concat(a.log.later)
    ensures Reaches(s, s') && Inv(s') && DiskOk(s') && s'.log == a.log && s'.hist == a.hist && s'.tables == []
    ensures s'.flush == Logged(0) && s'.frozen.Some? && NEW in s'.frozen.value && s'.compact.NoCompaction?
  {
    hide Inv, DiskOk, Reaches, Concat;
    BufferedLate(a);
    var b := a.(active := [], frozen := Some(a.active), flush := Frozen);
    Advance(s, a, Freeze, b);
    var c := b.(nextSstId := 1, files := b.files[0 := a.active], flush := Renamed(0));
    Advance(s, b, WriteTable, c);
    s' := c.(edits := c.edits + FlushEdits(c, 0), flush := Logged(0));
    Advance(s, c, LogTable, s');
  }

  lemma BufferedLate(a: State)
    requires DiskOk(a) && a.frozen.None? && a.log.Torn? && NEW in Concat(a.log.later)
    ensures NEW in a.active
  {
    hide ManifestOk, CounterOk, FilesOk, FramableOk, FramesFit, Concat;
    assert NEW in LogRecords(a.log);
  }

  lemma Advance(s: State, a: State, step: Step, b: State)
    requires Reaches(s, a) && Inv(a) && DiskOk(a) && Does(a, step, b)
    ensures Reaches(s, b) && Inv(b) && DiskOk(b)
  {
    hide Inv, DiskOk, Reaches, Does;
    ReachStep(s, a, step, b);
    StepInv(a, step, b);
    StepDisk(a, step, b);
  }

  lemma HiddenRead(s: State)
    requires s.active == [PUT] && s.frozen.None?
    ensures Value(Get(Stack(s), KEY, U64_MAX)) == Some([7])
  {
    assert Stack(s) == Recs(s.tables) + [[PUT]];
    GetPush(Recs(s.tables), [PUT], KEY, U64_MAX);
    assert Newest([PUT], KEY, U64_MAX) == Some(PUT);
  }
}
