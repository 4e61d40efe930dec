/** Crash and recovery at the level of files: which bytes a crash can leave, and
    what opening the directory makes of them. */
module Recovery {
  import opened Records
  import opened Header
  import opened Framing
  import opened Layers
  import opened Retention
  import opened MemTables
  import opened Manifest
  import opened Wal
  import opened Engine
  import opened Durability
  import opened Splicing

  /** The files of the directory. Tables are kept as their records; the log and
      the manifest are bytes. */
  datatype Disk = Disk(wal: Bytes, manifest: Bytes, files: map<nat, seq<Record>>)

  /** Where a crash falls: the batch being appended, if any, with the number of
      bytes of its frame that reached the disk, and the number of bytes that
      reached it of the manifest edits being appended. */
  datatype CrashPoint = CrashPoint(ops: seq<Op>, walCut: nat, editCut: nat)

  /** What `open` builds. */
  datatype Opened = Opened(active: seq<Record>, tables: seq<Table>, nextSstId: nat, nextSeq: nat,
                           edits: seq<VersionEdit>, files: map<nat, seq<Record>>)

  // ------------------------------------------------------------------- crashing

  /** What stands behind the whole frames of the log. */
  function Behind(cs: Checksums, log: LogState): (b: Bytes) {
    if log.Whole? then [] else log.tail + Frames(cs.castagnoli, log.later)
  }

  /** The log file, byte for byte. */
  function LogBytes(cs: Checksums, log: LogState): (b: Bytes) {
    LogFile(cs, log.frames) + Behind(cs, log)
  }

  function InFlight(cs: Checksums, s: State, c: CrashPoint): (b: Bytes) {
    if c.ops == [] then [] else Frame(cs.castagnoli, Payload(Stamp(c.ops, s.nextSeq)))
  }

  /** The edits a flush or a compaction is about to append. The two cannot both
      be there: the flush lock excludes them. */
  function PendingEdits(s: State): (edits: seq<VersionEdit>) {
    if s.flush.Renamed? then
      FlushEdits(s, s.flush.id)
    else if s.compact.OutRenamed? then
      Deletes(Stale(s.compact.m.run))
    else
      []
  }

  /** Behind a torn tail the crash finds nothing that verifies: no later bytes
      happen to complete the torn frame under its checksum. */
  predicate PointOk(cs: Checksums, s: State, c: CrashPoint) {
    && (c.ops != [] ==> |c.ops| == s.reserved && BatchFits(Stamp(c.ops, s.nextSeq)))
    && c.walCut <= |InFlight(cs, s, c)|
    && c.editCut <= EDIT_LEN * |PendingEdits(s)|
    && (s.log.Torn? ==> !Verified(cs.castagnoli, Behind(cs, s.log) + InFlight(cs, s, c)[..c.walCut]))
  }

  function DiskImage(cs: Checksums, s: State, c: CrashPoint): (d: Disk)
    requires PointOk(cs, s, c)
  {
    Disk(LogBytes(cs, s.log) + InFlight(cs, s, c)[..c.walCut],
         ManifestFile(cs, s.edits) + EditFrames(cs.castagnoli, PendingEdits(s))[..c.editCut],
         s.files)
  }

  /** The batch in flight, if its whole frame is on disk and replay gets there. */
  function Landed(cs: Checksums, s: State, c: CrashPoint): (batch: seq<Record>) {
    if s.log.Whole? && c.ops != [] && c.walCut == |InFlight(cs, s, c)| then Stamp(c.ops, s.nextSeq) else []
  }

  /** How many of the pending edits survive. */
  function Survived(c: CrashPoint): (p: nat) {
    c.editCut / EDIT_LEN
  }

  // ------------------------------------------------------------------ recovering

  function OpenTables(ids: seq<nat>, files: map<nat, seq<Record>>): (r: Result<seq<Table>>) {
    if ids == [] then
      Ok([])
    else if ids[0] !in files then
      Err(BadFormat)
    else
      var rest :- OpenTables(ids[1..], files);
      Ok([Table(ids[0], files[ids[0]])] + rest)
  }

  /** The counter after replay: above the durable one and every replayed record. */
  function NextSeqAfter(from: nat, rs: seq<Record>): (n: nat)
    ensures from <= n && forall r :: r in rs ==> r.seqno < n
    ensures n == from || exists r :: r in rs && n == r.seqno + 1
    decreases |rs|
  {
    if rs == [] then from else NextSeqAfter(if rs[0].seqno + 1 > from then rs[0].seqno + 1 else from, rs[1..])
  }

  /** The table files the manifest names. */
  function Named(files: map<nat, seq<Record>>, live: set<nat>): (kept: map<nat, seq<Record>>) {
    map id | id in files && id in live :: files[id]
  }

  /** `open`: replay the manifest, drop every table file it does not name, open
      the others by ascending id, and replay the log into a fresh MemTable. */
  function Recover(cs: Checksums, d: Disk): (r: Result<Opened>) {
    var ms :- Manifest.Replay(cs, d.manifest);
    var files := Named(d.files, ms.live);
    var tables :- OpenTables(Ascending(ms.live), files);
    var rs :- Wal.Replay(cs, d.wal);
    Ok(Opened(InsertAll([], rs), tables, ms.nextSstId, NextSeqAfter(ms.nextSeq, rs), SnapshotEdits(ms), files))
  }

  /** Opening a list of ids: refused if one has no file, and otherwise a table for each,
      in the order of the list, with the records of its file. */
  lemma {:induction false} OpenTablesExact(ids: seq<nat>, files: map<nat, seq<Record>>)
    ensures OpenTables(ids, files).Ok? <==> forall id :: id in ids ==> id in files
    ensures OpenTables(ids, files).Ok? ==>
              var tables := OpenTables(ids, files).value;
              |tables| == |ids| && forall i :: 0 <= i < |ids| ==> ids[i] in files && tables[i] == Table(ids[i], files[ids[i]])
  {
    if ids != [] {
      OpenTablesExact(ids[1..], files);
      assert ids == [ids[0]] + ids[1..];
    }
  }

  /** On any directory at all: opening fails exactly when the manifest does not replay,
      a table it names has no file, or the log does not replay. Otherwise the tables
      are those the manifest names, ids ascending, each with the records of its file;
      no other file is kept; and the MemTable holds the records of the log. */
  lemma RecoverExact(cs: Checksums, d: Disk)
    ensures Recover(cs, d).Err? <==>
              || Manifest.Replay(cs, d.manifest).Err?
              || (exists id :: id in Manifest.Replay(cs, d.manifest).value.live && id !in d.files)
              || Wal.Replay(cs, d.wal).Err?
    ensures Recover(cs, d).Ok? ==>
              var o, ms, rs := Recover(cs, d).value, Manifest.Replay(cs, d.manifest).value, Wal.Replay(cs, d.wal).value;
              && (forall id :: id in ms.live <==> exists i :: 0 <= i < |o.tables| && o.tables[i].id == id)
              && (forall i, j :: 0 <= i < j < |o.tables| ==> o.tables[i].id < o.tables[j].id)
              && (forall t :: t in o.tables ==> t.id in d.files && t.recs == d.files[t.id])
              && (forall id :: id in o.files <==> id in ms.live)
              && (forall id :: id in o.files ==> o.files[id] == d.files[id])
              && o.nextSstId == ms.nextSstId && Fold(DEFAULT, o.edits) == ms
              && (Consistent(rs) ==> StrictlySorted(o.active) && forall r :: r in o.active <==> r in rs)
              && (forall r :: r in rs ==> r.seqno < o.nextSeq) && ms.nextSeq <= o.nextSeq
              && (o.nextSeq == ms.nextSeq || exists r :: r in rs && o.nextSeq == r.seqno + 1)
  {
    hide Manifest.Replay, Wal.Replay, OpenTables, Ascending, InsertAll, NextSeqAfter, SnapshotEdits, Consistent,
      StrictlySorted, Fold;
    if Manifest.Replay(cs, d.manifest).Ok? {
      var ms := Manifest.Replay(cs, d.manifest).value;
      OpenTablesExact(Ascending(ms.live), Named(d.files, ms.live));
      SnapshotReplays(ms);
      if Wal.Replay(cs, d.wal).Ok? {
        LogRebuilds(Wal.Replay(cs, d.wal).value);
      }
    }
  }

  lemma LogRebuilds(rs: seq<Record>)
    ensures Consistent(rs) ==> StrictlySorted(InsertAll([], rs)) && forall r :: r in InsertAll([], rs) <==> r in rs
  {
    hide InsertAll;
    if Consistent(rs) {
      assert [] + rs == rs;
      InsertAllMembers([], rs);
    }
  }

  // ------------------------------------------------------- what the bytes replay

  lemma PendingFits(s: State)
    requires Inv(s) && DiskOk(s)
    ensures EditsFit(PendingEdits(s))
  {
    hide Layered, Drawn, Shows, IsCompaction, Covers, BatchFits, Fold, StrictlySorted, Sorted, Chronological,
      FramesFit;
    if s.flush.Renamed? {
    } else if s.compact.OutRenamed? {
      RunIds(s, s.compact.m.start, s.compact.m.run);
      DeletesFit(s, s.compact.m.run);
      var all := s.edits + Deletes(Stale(s.compact.m.run));
      assert forall e :: e in Deletes(Stale(s.compact.m.run)) ==> e in all;
    }
  }

  lemma LogReplays(cs: Checksums, s: State, c: CrashPoint)
    requires LogOk(s) && PointOk(cs, s, c)
    ensures Wal.Replay(cs, DiskImage(cs, s, c).wal) == Ok(Concat(s.log.frames) + Landed(cs, s, c))
  {
    hide Wal.Replay, LogFile, Frame, Payload, BatchFits, Verified, Frames;
    var frames, tail := s.log.frames, InFlight(cs, s, c)[..c.walCut];
    assert Concat(frames) + [] == Concat(frames);
    if s.log.Torn? {
      assert LogFile(cs, frames) + Behind(cs, s.log) + tail == LogFile(cs, frames) + (Behind(cs, s.log) + tail);
      TailIsLost(cs, frames, Behind(cs, s.log) + tail);
    } else {
      assert LogBytes(cs, s.log) == LogFile(cs, frames);
      if c.ops == [] {
        WholeReplays(cs, frames);
        assert LogFile(cs, frames) + [][..c.walCut] == LogFile(cs, frames);
      } else {
        Wal.ReplayInFlight(cs, frames, Stamp(c.ops, s.nextSeq), c.walCut);
      }
    }
  }

  /** An uncut log replays to all its batches. */
  lemma WholeReplays(cs: Checksums, frames: seq<seq<Record>>)
    requires FramesFit(frames)
    ensures Wal.Replay(cs, LogFile(cs, frames)) == Ok(Concat(frames))
  {
    hide Wal.Replay, Frame, Payload, BatchFits;
    var n := |LogFile(cs, frames)|;
    Wal.ReplayTruncated(cs, frames, n);
    assert LogFile(cs, frames)[..n] == LogFile(cs, frames);
    AllWhole(cs.castagnoli, frames);
    assert frames[..|frames|] == frames;
  }

  lemma {:induction false} AllWhole(hash: Bytes -> Word, frames: seq<seq<Record>>)
    ensures WholeFrames(hash, frames, |Frames(hash, frames)|) == |frames|
  {
    if frames != [] {
      AllWhole(hash, frames[1..]);
    }
  }

  /** The manifest a crash leaves, as a state. */
  function CrashManifest(s: State, c: CrashPoint): (ms: ManifestState) {
    Fold(Durable(s), PendingEdits(s)[..if Survived(c) <= |PendingEdits(s)| then Survived(c) else 0])
  }

  lemma ManifestReplays(cs: Checksums, s: State, c: CrashPoint)
    requires Inv(s) && DiskOk(s) && PointOk(cs, s, c)
    ensures Manifest.Replay(cs, DiskImage(cs, s, c).manifest) == Ok(CrashManifest(s, c))
    ensures Survived(c) <= |PendingEdits(s)|
  {
    hide Inv, Manifest.Replay, ManifestFile, EditFrames, Fold, EditsFit, LogOk, FilesOk, CounterOk;
    PendingFits(s);
    Manifest.ReplayInFlight(cs, s.edits, PendingEdits(s), c.editCut);
  }

  // ------------------------------------------------- the tables a crash leaves

  /** The part of the invariant that makes the next function total. */
  predicate Crashable(s: State) {
    && (s.flush.Renamed? || s.flush.Logged? ==> s.frozen.Some?)
    && (s.compact.OutRenamed? || s.compact.InputsDeleted? ==> RunAt(s, s.compact.m.start, s.compact.m.run))
  }

  /** How many of the stale inputs of a compaction are gone from the manifest. */
  function Gone(s: State, p: nat): (n: nat)
    requires s.compact.OutRenamed? || s.compact.InputsDeleted?
    requires s.compact.m.run != []
    ensures n < |s.compact.m.run|
  {
    if s.compact.InputsDeleted? || p >= |s.compact.m.run| then |s.compact.m.run| - 1 else p
  }

  /** The live set `open` finds. A flush adds its table as soon as the first edit
      survives; a compaction loses its stale inputs oldest first. */
  function CrashTables(s: State, p: nat): (tables: seq<Table>)
    requires Crashable(s)
  {
    if s.flush.Logged? || (s.flush.Renamed? && p > 0) then
      s.tables + [Table(s.flush.id, s.frozen.value)]
    else if s.compact.OutRenamed? || s.compact.InputsDeleted? then
      CutRun(s.tables, s.compact.m.start, |s.compact.m.run|, Gone(s, p), s.compact.m.out)
    else
      s.tables
  }

  function Ids(tables: seq<Table>): (ids: seq<nat>)
    ensures |ids| == |tables| && forall i :: 0 <= i < |tables| ==> ids[i] == tables[i].id
  {
    seq(|tables|, i requires 0 <= i < |tables| => tables[i].id)
  }

  lemma {:induction false} OpenIds(tables: seq<Table>, files: map<nat, seq<Record>>)
    requires forall t :: t in tables ==> t.id in files && files[t.id] == t.recs
    ensures OpenTables(Ids(tables), files) == Ok(tables)
  {
    if tables != [] {
      assert tables[0] in tables;
      assert Ids(tables)[1..] == Ids(tables[1..]);
      OpenIds(tables[1..], files);
      assert tables == [tables[0]] + tables[1..];
    }
  }

  /** Opening by ascending id restores the order of the list. */
  lemma OpenExact(tables: seq<Table>, files: map<nat, seq<Record>>)
    requires Reopens(tables, files)
    ensures OpenTables(Ascending(TableIds(tables)), files) == Ok(tables)
  {
    var ids := Ids(tables);
    forall x
      ensures x in ids <==> x in TableIds(tables)
    {
      if x in ids {
        var i :| 0 <= i < |ids| && ids[i] == x;
        assert tables[i] in tables;
      }
      if x in TableIds(tables) {
        var t :| t in tables && t.id == x;
        var i :| 0 <= i < |tables| && tables[i] == t;
        assert ids[i] == x;
      }
    }
    AscendingUnique(ids, TableIds(tables));
    OpenIds(tables, files);
  }

  // ------------------------------------------------------ flush in progress

  lemma FlushTables(s: State, c: CrashPoint)
    requires Inv(s) && DiskOk(s) && Survived(c) <= |PendingEdits(s)|
    requires s.flush.Logged? || (s.flush.Renamed? && Survived(c) > 0)
    ensures Reopens(CrashTables(s, Survived(c)), s.files)
    ensures CrashManifest(s, c).live == TableIds(CrashTables(s, Survived(c)))
  {
    hide Layered, Drawn, Shows, IsCompaction, Covers, BatchFits, Fold, StrictlySorted, Sorted, Chronological,
      FramesFit, EditsFit;
    var t := Table(s.flush.id, s.frozen.value);
    var tables := s.tables + [t];
    assert TableIds(tables) == TableIds(s.tables) + {t.id};
    assert !HoldsFlushLock(s.compact);
    assert forall u :: u in s.tables ==> FileOf(s, u) == u.recs;
    FlushManifest(s, c);
  }

  /** The manifest after a crash inside a flush's three edits. */
  lemma FlushManifest(s: State, c: CrashPoint)
    requires Survived(c) <= |PendingEdits(s)| && (s.flush.Logged? || s.flush.Renamed?) && !HoldsFlushLock(s.compact)
    ensures s.flush.Logged? ==> CrashManifest(s, c) == Durable(s)
    ensures s.flush.Renamed? ==>
              var ms, p := Durable(s), Survived(c);
              CrashManifest(s, c) == ManifestState(
                if p >= 1 then ms.live + {s.flush.id} else ms.live,
                if p >= 3 then Counter(s) else ms.nextSeq,
                if p >= 2 then s.nextSstId else ms.nextSstId)
  {
    var ms, p, edits := Durable(s), Survived(c), PendingEdits(s);
    if s.flush.Logged? {
      assert edits[..p] == [];
    } else if p == 0 {
      assert edits[..p] == [];
    } else if p == 1 {
      assert edits[..p] == [edits[0]] && [edits[0]][1..] == [];
      assert Fold(Apply(ms, edits[0]), []) == Apply(ms, edits[0]);
    } else if p == 2 {
      assert edits[..p] == [edits[0], edits[1]];
      FoldTwo(ms, edits[0], edits[1]);
    } else {
      assert edits[..p] == [edits[0], edits[1], edits[2]];
      FoldThree(ms, edits[0], edits[1], edits[2]);
    }
  }

  // ------------------------------------------------- compaction in progress

  lemma CompactTables(s: State, c: CrashPoint)
    requires Inv(s) && DiskOk(s) && Survived(c) <= |PendingEdits(s)|
    requires s.compact.OutRenamed? || s.compact.InputsDeleted?
    ensures Reopens(CrashTables(s, Survived(c)), s.files)
    ensures CrashManifest(s, c).live == TableIds(CrashTables(s, Survived(c)))
  {
    hide Inv, DiskOk, CutRun, TableIds, CrashManifest, LiveIds, Durable, Ascend, PendingEdits, Survived, Stale;
    CompactReady(s);
    var m, p := s.compact.m, Survived(c);
    StaleFront(s, m.start, m.run, Gone(s, p));
    CompactManifest(s, c);
    CutIds(s.tables, m.start, |m.run|, Gone(s, p), m.out);
    CutReopens(s.tables, m.start, |m.run|, Gone(s, p), m.out, s.files);
  }

  lemma StaleFront(s: State, start: nat, run: seq<Table>, n: nat)
    requires RunAt(s, start, run) && n < |run|
    ensures Stale(run)[..n] == s.tables[start..start + n] && MaxId(run) == s.tables[start + |run| - 1].id
  {
    StaleAt(s, start, run);
  }

  lemma CompactReady(s: State)
    requires Inv(s) && DiskOk(s) && (s.compact.OutRenamed? || s.compact.InputsDeleted?)
    ensures s.flush.NoFlush? && Durable(s).live == LiveIds(s) && Ascend(s.tables)
    ensures var m := s.compact.m;
            && RunAt(s, m.start, m.run)
            && forall t :: t in s.tables ==>
                 t.id in s.files && s.files[t.id] == if t.id == MaxId(m.run) then m.out else t.recs
  {
    hide Layered, Drawn, Shows, IsCompaction, Covers, BatchFits, Fold, StrictlySorted, Sorted, Chronological,
      FramesFit, EditsFit, LogOk, CounterOk, TableIds;
  }

  lemma CompactManifest(s: State, c: CrashPoint)
    requires s.flush.NoFlush? && (s.compact.OutRenamed? || s.compact.InputsDeleted?) && s.compact.m.run != []
    requires Survived(c) <= |PendingEdits(s)| && Durable(s).live == LiveIds(s)
    ensures CrashManifest(s, c) ==
            Durable(s).(live := TableIds(s.tables) - TableIds(Stale(s.compact.m.run)[..Gone(s, Survived(c))]))
  {
    var stale, p := Stale(s.compact.m.run), Survived(c);
    if s.compact.OutRenamed? {
      assert PendingEdits(s)[..p] == Deletes(stale[..p]);
      FoldDeletes(Durable(s), stale[..p]);
    } else {
      assert PendingEdits(s)[..p] == [];
      assert stale[..|stale|] == stale;
    }
  }

  /** No flush or compaction has touched the manifest ahead of memory. */
  lemma SteadyTables(s: State, c: CrashPoint)
    requires Inv(s) && DiskOk(s) && Survived(c) <= |PendingEdits(s)|
    requires !s.flush.Logged? && !(s.flush.Renamed? && Survived(c) > 0) && !s.compact.OutRenamed? && !s.compact.InputsDeleted?
    ensures Reopens(CrashTables(s, Survived(c)), s.files)
    ensures CrashManifest(s, c) == Durable(s) && Durable(s).live == TableIds(CrashTables(s, Survived(c)))
  {
    hide Layered, Drawn, Shows, IsCompaction, Covers, BatchFits, StrictlySorted, Sorted, Chronological, FramesFit,
      EditsFit;
    assert PendingEdits(s)[..Survived(c)] == [];
    assert forall u :: u in s.tables ==> FileOf(s, u) == u.recs;
  }

  /** Whatever the crash point, recovery finds a well-formed manifest, every file
      it names, and the tables in the order they had. */
  lemma TablesReopen(cs: Checksums, s: State, c: CrashPoint)
    requires Inv(s) && DiskOk(s) && PointOk(cs, s, c)
    ensures Crashable(s)
    ensures Survived(c) <= |PendingEdits(s)|
    ensures Reopens(CrashTables(s, Survived(c)), s.files)
    ensures CrashManifest(s, c).live == TableIds(CrashTables(s, Survived(c)))
  {
    ManifestReplays(cs, s, c);
    if s.flush.Logged? || (s.flush.Renamed? && Survived(c) > 0) {
      FlushTables(s, c);
    } else if s.compact.OutRenamed? || s.compact.InputsDeleted? {
      CompactTables(s, c);
    } else {
      SteadyTables(s, c);
    }
  }

  /** Recovery never fails on what a crash leaves, and this is what it opens. */
  lemma RecoverOpens(cs: Checksums, s: State, c: CrashPoint)
    requires Inv(s) && DiskOk(s) && PointOk(cs, s, c)
    ensures Survived(c) <= |PendingEdits(s)| && Crashable(s)
    ensures var ms, rs := CrashManifest(s, c), Concat(s.log.frames) + Landed(cs, s, c);
            Recover(cs, DiskImage(cs, s, c)) ==
              Ok(Opened(InsertAll([], rs), CrashTables(s, Survived(c)), ms.nextSstId, NextSeqAfter(ms.nextSeq, rs),
                        SnapshotEdits(ms), Named(s.files, ms.live)))
  {
    hide Inv, Wal.Replay, Manifest.Replay, LogOk, ManifestOk, CounterOk, FilesOk, FramableOk, CrashManifest,
      CrashTables, OpenTables, LogFile, ManifestFile, InFlight, PendingEdits, Crashable, InsertAll;
    LogReplays(cs, s, c);
    ManifestReplays(cs, s, c);
    TablesReopen(cs, s, c);
    var ms, tables := CrashManifest(s, c), CrashTables(s, Survived(c));
    var files := Named(s.files, ms.live);
    assert Reopens(tables, files);
    OpenExact(tables, files);
  }

  // --------------------------------------------------------- repeated opening

  /** A directory with its manifest generations. */
  datatype Home = Home(wal: Bytes, dir: Dir, files: map<nat, seq<Record>>)

  /** What opening reads of it. */
  function DiskOf(home: Home): (d: Disk) {
    Disk(home.wal, if home.dir.current in home.dir.gens then home.dir.gens[home.dir.current] else [], home.files)
  }

  /** A directory opens to what the file `CURRENT` names replays to, and one whose file
      is missing as if it were empty. */
  lemma DirReplays(cs: Checksums, home: Home)
    ensures OpenDir(cs, home.dir) == Manifest.Replay(cs, DiskOf(home).manifest)
    ensures home.dir.current !in home.dir.gens ==> OpenDir(cs, home.dir) == Ok(ManifestState({}, 0, 0))
  {
    hide Manifest.Replay;
    NoManifest(cs);
  }

  /** Where opening can be cut short: in the rollover of the manifest, with some of
      the files it does not name removed, or in the header of an empty log. */
  datatype OpenPoint = Rolling(at: RolloverPoint) | Reclaiming(gone: set<nat>) | Heading(cut: nat)

  predicate OpenPointOk(cs: Checksums, home: Home, ms: ManifestState, p: OpenPoint) {
    match p
    case Rolling(at) => at.Writing? ==> at.cut <= |Generation(cs, ms)|
    case Reclaiming(gone) => gone !! ms.live
    case Heading(cut) => cut <= HEADER_LEN && (home.wal != [] ==> cut == 0)
  }

  function OpenImage(cs: Checksums, home: Home, ms: ManifestState, p: OpenPoint): (home': Home)
    requires OpenPointOk(cs, home, ms, p)
  {
    match p
    case Rolling(at) => home.(dir := RolloverImage(cs, home.dir, ms, at))
    case Reclaiming(gone) => home.(dir := RolloverImage(cs, home.dir, ms, Removed), files := home.files - gone)
    case Heading(cut) =>
      Home(home.wal + EncodeHeader(WAL_MAGIC, WAL_VERSION)[..cut], RolloverImage(cs, home.dir, ms, Removed),
           Named(home.files, ms.live))
  }

  /** A crash while opening costs nothing: opening again gives what opening
      undisturbed would have given, down to the next manifest and the files. */
  lemma RecoverAgain(cs: Checksums, home: Home, ms: ManifestState, p: OpenPoint)
    requires OpenDir(cs, home.dir) == Ok(ms) && EditsFit(SnapshotEdits(ms)) && OpenPointOk(cs, home, ms, p)
    ensures Recover(cs, DiskOf(OpenImage(cs, home, ms, p))) == Recover(cs, DiskOf(home))
  {
    hide Manifest.Replay, Wal.Replay, RolloverImage, SnapshotEdits, OpenTables, InsertAll, NextSeqAfter, EncodeHeader,
      Generation;
    var home' := OpenImage(cs, home, ms, p);
    RolloverCrashSafe(cs, home.dir, ms, if p.Rolling? then p.at else Removed);
    DirReplays(cs, home);
    DirReplays(cs, home');
    assert Named(home'.files, ms.live) == Named(home.files, ms.live);
    if p.Heading? {
      LogHeaderReplays(cs, p.cut);
      assert home.wal + [] == home.wal && [] + EncodeHeader(WAL_MAGIC, WAL_VERSION)[..p.cut] ==
        EncodeHeader(WAL_MAGIC, WAL_VERSION)[..p.cut];
    }
  }

  lemma NoManifest(cs: Checksums)
    ensures Manifest.Replay(cs, []) == Ok(DEFAULT)
  {
  }

  /** A log with nothing but part of its header replays to nothing. */
  lemma LogHeaderReplays(cs: Checksums, cut: nat)
    requires cut <= HEADER_LEN
    ensures Wal.Replay(cs, EncodeHeader(WAL_MAGIC, WAL_VERSION)[..cut]) == Ok([]) && Wal.Replay(cs, []) == Ok([])
  {
    hide Wal.Replay, EncodeHeader;
    NothingToOpen(cs);
    if 0 < cut < HEADER_LEN {
      HeaderTorn(cs, cut, []);
    } else if cut == HEADER_LEN {
      TailIsLost(cs, [], []);
      assert LogFile(cs, []) + [] == EncodeHeader(WAL_MAGIC, WAL_VERSION)[..cut];
      assert Concat([]) == [];
    }
  }

  /** The first open of an empty directory writes the manifest's header and one
      edit. A crash inside that edit leaves a file that no later open accepts; at
      every other point opening succeeds, on an empty database. */
  lemma FirstOpen(cs: Checksums, cut: nat)
    requires HEADER_LEN <= cut <= HEADER_LEN + EDIT_LEN
    ensures |ManifestFile(cs, [SetNextSstId(0)])| == HEADER_LEN + EDIT_LEN
    ensures var r := Recover(cs, Disk([], ManifestFile(cs, [SetNextSstId(0)])[..cut], map[]));
            if HEADER_LEN < cut < HEADER_LEN + EDIT_LEN
            then r == Err(Corrupt)
            else r == Ok(Opened([], [], 0, 0, SnapshotEdits(DEFAULT), map[]))
  {
    hide Manifest.Replay, ManifestFile, SnapshotEdits;
    var edits: seq<VersionEdit> := [SetNextSstId(0)];
    ManifestAppend(cs, edits, []);
    Manifest.ReplayTruncated(cs, edits, cut);
    if cut == HEADER_LEN + EDIT_LEN {
      assert edits[..1] == edits && edits[1..] == [];
      assert Fold(DEFAULT, edits) == DEFAULT;
    }
    if cut == HEADER_LEN || cut == HEADER_LEN + EDIT_LEN {
      NothingToOpen(cs);
    }
  }

  lemma NothingToOpen(cs: Checksums)
    ensures Wal.Replay(cs, []) == Ok([]) && Ascending({}) == [] && InsertAll([], []) == [] && NextSeqAfter(0, []) == 0
    ensures OpenTables([], map[]) == Ok([]) && Named(map[], {}) == map[]
  {
  }
}
