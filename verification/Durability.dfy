/** What the files hold at every moment: the invariant recovery relies on, and
    its preservation by every step. */
module Durability {
  import opened Records
  import opened Codec
  import opened Layers
  import opened Retention
  import opened MemTables
  import opened Manifest
  import opened Wal
  import opened Engine
  import opened EngineSafety
  import opened Splicing

  /** The state the manifest replays to. */
  function Durable(s: State): (ms: ManifestState) {
    Fold(DEFAULT, s.edits)
  }

  /** The tables the manifest names: it runs ahead of the live set in memory by
      one step of a flush and by one step of a compaction. */
  function LiveIds(s: State): (ids: set<nat>) {
    if s.flush.Logged? then
      TableIds(s.tables) + {s.flush.id}
    else if s.compact.InputsDeleted? then
      TableIds(s.tables) - TableIds(Stale(s.compact.m.run))
    else
      TableIds(s.tables)
  }

  /** What the file of a live table holds: between the rename and the splice of
      a compaction, the highest id already names the merged run. */
  function FileOf(s: State, t: Table): (recs: seq<Record>) {
    if (s.compact.OutRenamed? || s.compact.InputsDeleted?) && s.compact.m.run != [] && t.id == MaxId(s.compact.m.run) then
      s.compact.m.out
    else
      t.recs
  }

  /** Everything appended to the log file, before a torn tail and behind it. */
  function LogRecords(log: LogState): (rs: seq<Record>) {
    if log.Whole? then Concat(log.frames) else Concat(log.frames) + Concat(log.later)
  }

  predicate EndsWith(hist: seq<Record>, rs: seq<Record>) {
    |rs| <= |hist| && hist[|hist| - |rs|..] == rs
  }

  /** Nothing stands both before a torn tail and behind it. */
  ghost predicate Apart(log: LogState)
    requires log.Torn?
  {
    forall r :: r in Concat(log.frames) ==> r !in Concat(log.later)
  }

  /** The log holds exactly what is buffered and not yet backed by a table the log
      rewrite has seen. What stands behind a torn tail was written since the log
      was opened, and so ends the history. */
  ghost predicate LogOk(s: State) {
    && FramesFit(s.log.frames)
    && (s.log.Torn? ==> FramesFit(s.log.later) && EndsWith(s.hist, Concat(s.log.later)) && Apart(s.log))
    && forall r :: r in LogRecords(s.log) <==>
         r in s.active || (s.frozen.Some? && !s.flush.Rewritten? && r in s.frozen.value)
  }

  ghost predicate ManifestOk(s: State) {
    && s.edits != [] && EditsFit(s.edits)
    && Durable(s).live == LiveIds(s)
    && Durable(s).nextSeq <= Counter(s)
    && Durable(s).nextSstId <= s.nextSstId <= U64_MAX
    && (s.flush.Renamed? ==> Durable(s).nextSstId <= s.flush.id)
    && forall id :: id in LiveIds(s) ==> id < Durable(s).nextSstId
  }

  /** No acknowledged sequence number can be handed out twice: each is below the
      durable counter or still buffered. */
  ghost predicate CounterOk(s: State) {
    && (forall r :: r in s.hist ==>
          r.seqno < Durable(s).nextSeq || r in s.active || (s.frozen.Some? && r in s.frozen.value))
    && (s.frozen.Some? && (s.flush.Logged? || s.flush.Published? || s.flush.Rewritten?) ==>
          forall r :: r in s.frozen.value ==> r.seqno < Durable(s).nextSeq)
  }

  ghost predicate FilesOk(s: State) {
    && (forall t :: t in s.tables ==> t.id in s.files && s.files[t.id] == FileOf(s, t))
    && (s.compact.Spliced? ==> forall t :: t in Stale(s.compact.m.run) ==> t.id !in TableIds(s.tables))
  }

  /** Every record ever acknowledged can be framed on its own. */
  ghost predicate FramableOk(s: State) {
    forall r :: r in s.hist ==> BatchFits([r])
  }

  ghost predicate DiskOk(s: State) {
    LogOk(s) && ManifestOk(s) && CounterOk(s) && FilesOk(s) && FramableOk(s)
  }

  // ------------------------------------------------------------------- logging

  lemma {:induction false} EncodeAllMember(rs: seq<Record>, r: Record)
    requires r in rs
    ensures EncodedLen(r) <= |EncodeAll(rs)|
  {
    if r != rs[0] {
      EncodeAllMember(rs[1..], r);
    }
  }

  lemma FrameAlone(batch: seq<Record>, r: Record)
    requires BatchFits(batch) && r in batch
    ensures BatchFits([r])
  {
    hide Encode;
    EncodeAllMember(batch, r);
    assert EncodeAll([r]) == Encode(r) + EncodeAll([r][1..]);
  }

  lemma AppendFrames(frames: seq<seq<Record>>, batch: seq<Record>)
    ensures Concat(frames + [batch]) == Concat(frames) + batch
  {
    ConcatConcat(frames, [batch]);
    assert [batch][1..] == [] && Concat([batch]) == batch + Concat([batch][1..]);
  }

  lemma AppendLog(log: LogState, batch: seq<Record>)
    ensures LogRecords(Appended(log, batch)) == LogRecords(log) + batch
    ensures log.Torn? ==> Concat(Appended(log, batch).later) == Concat(log.later) + batch
  {
    hide Concat;
    if log.Whole? {
      AppendFrames(log.frames, batch);
    } else {
      AppendFrames(log.later, batch);
      assert Concat(log.frames) + (Concat(log.later) + batch) == (Concat(log.frames) + Concat(log.later)) + batch;
    }
  }

  lemma EndsWithMore(hist: seq<Record>, rs: seq<Record>, batch: seq<Record>)
    requires EndsWith(hist, rs)
    ensures EndsWith(hist + batch, rs + batch)
  {
  }

  lemma {:induction false} ConcatSingles(run: seq<Record>)
    ensures Concat(Singles(run)) == run
  {
    if run != [] {
      assert Singles(run)[1..] == Singles(run[1..]);
      ConcatSingles(run[1..]);
    }
  }

  /** A step that leaves the log, the MemTables and the history alone. */
  lemma SameLog(s: State, s': State)
    requires s'.log == s.log && s'.active == s.active && s'.frozen == s.frozen && s'.flush == s.flush && s'.hist == s.hist
    requires s'.edits == s.edits && LogOk(s) && CounterOk(s) && FramableOk(s)
    ensures LogOk(s') && CounterOk(s') && FramableOk(s')
  {
    hide FramesFit, Concat, BatchFits, Fold;
  }

  /** A step that leaves the manifest and what it names alone. */
  lemma SameManifest(s: State, s': State)
    requires s'.edits == s.edits && s'.flush == s.flush && LiveIds(s') == LiveIds(s)
    requires Counter(s) <= Counter(s') && s'.nextSstId == s.nextSstId && ManifestOk(s)
    ensures ManifestOk(s')
  {
    hide EditsFit, Fold, LiveIds;
  }

  lemma FrozenDrawn(s: State)
    requires Inv(s) && s.frozen.Some?
    ensures forall r :: r in s.frozen.value ==> r in s.hist && r.seqno < s.nextSeq
  {
    assert Stack(s)[|s.tables|] == s.frozen.value;
  }

  lemma LogDrawn(s: State)
    requires Inv(s) && LogOk(s)
    ensures forall r :: r in LogRecords(s.log) ==> r in s.hist && r.seqno < s.nextSeq
    ensures Consistent(LogRecords(s.log))
  {
    hide Layered, Shows, IsCompaction, Covers, StrictlySorted, Sorted, FramesFit, Concat;
    assert Stack(s)[|Stack(s)| - 1] == s.active;
    if s.frozen.Some? {
      FrozenDrawn(s);
    }
    ChronologicalConsistent(s.hist);
  }

  lemma WriteLogOk(s: State, batch: seq<Record>, s': State)
    requires LogOk(s) && BatchFits(batch) && s'.log == Appended(s.log, batch) && s'.hist == s.hist + batch
    requires (forall r :: r in s'.active <==> r in s.active || r in batch) && s'.frozen == s.frozen && s'.flush == s.flush
    requires forall r :: r in LogRecords(s.log) ==> r !in batch
    ensures LogOk(s')
  {
    hide BatchFits, Concat, EndsWith;
    AppendLog(s.log, batch);
    if s.log.Torn? {
      EndsWithMore(s.hist, Concat(s.log.later), batch);
    }
  }

  lemma WriteDisk(s: State, ops: seq<Op>, s': State)
    requires Inv(s) && DiskOk(s) && Does(s, Write(ops), s')
    ensures DiskOk(s')
  {
    hide Layered, Drawn, Shows, IsCompaction, Covers, BatchFits, Fold, StrictlySorted, InsertAll, LogOk, FramesFit,
      Chronological, Sorted, EditsFit;
    var batch := Stamp(ops, s.nextSeq);
    StampChronological(ops, s.nextSeq);
    WriteLayers(Below(s), s.active, s.hist, batch, s.nextSeq);
    InsertAllMembers(s.active, batch);
    LogDrawn(s);
    WriteLogOk(s, batch, s');
    forall r | r in batch
      ensures BatchFits([r])
    {
      FrameAlone(batch, r);
    }
    assert LiveIds(s') == LiveIds(s);
    assert forall t :: t in s.tables ==> FileOf(s', t) == FileOf(s, t);
  }

  lemma RewriteLogDisk(s: State, s': State)
    requires Inv(s) && DiskOk(s) && Does(s, RewriteLog, s')
    ensures DiskOk(s')
  {
    hide Layered, Shows, IsCompaction, Covers, BatchFits, Fold, StrictlySorted;
    ConcatSingles(s.active);
    assert Stack(s)[|Stack(s)| - 1] == s.active;
    assert forall r :: r in s.active ==> r in s.hist;
    forall f | f in Singles(s.active)
      ensures BatchFits(f)
    {
      var i :| 0 <= i < |s.active| && f == [s.active[i]];
      assert s.active[i] in s.active;
    }
    assert LiveIds(s') == LiveIds(s);
    assert forall t :: t in s.tables ==> FileOf(s', t) == FileOf(s, t);
  }

  // ------------------------------------------------------------------ manifest

  lemma FoldThree(ms: ManifestState, a: VersionEdit, b: VersionEdit, c: VersionEdit)
    ensures Fold(ms, [a, b, c]) == Apply(Apply(Apply(ms, a), b), c)
  {
    assert [a, b, c][1..] == [b, c];
    FoldTwo(Apply(ms, a), b, c);
  }

  lemma LogTableDisk(s: State, s': State)
    requires Inv(s) && DiskOk(s) && Does(s, LogTable, s')
    ensures DiskOk(s')
  {
    hide Layered, Drawn, Shows, IsCompaction, Covers, BatchFits, Fold, StrictlySorted, Sorted, Chronological, FramesFit,
      Concat;
    var id := s.flush.id;
    FoldConcat(DEFAULT, s.edits, FlushEdits(s, id));
    FoldThree(Durable(s), AddTable(id), SetNextSstId(s.nextSstId), SetNextSeq(Counter(s)));
    assert Durable(s') == ManifestState(Durable(s).live + {id}, Counter(s), s.nextSstId);
    assert LiveIds(s') == LiveIds(s) + {id};
    assert forall t :: t in s.tables ==> FileOf(s', t) == FileOf(s, t);
    FrozenDrawn(s);
  }

  lemma {:induction false} FoldDeletes(ms: ManifestState, tables: seq<Table>)
    ensures Fold(ms, Deletes(tables)) == ms.(live := ms.live - TableIds(tables))
    decreases |tables|
  {
    if tables == [] {
      assert ms.live - TableIds(tables) == ms.live;
    } else {
      var ms' := Apply(ms, DeleteTable(tables[0].id));
      assert Deletes(tables)[1..] == Deletes(tables[1..]);
      FoldDeletes(ms', tables[1..]);
      assert tables == [tables[0]] + tables[1..];
      assert TableIds(tables) == {tables[0].id} + TableIds(tables[1..]);
    }
  }

  lemma DeleteInputsDisk(s: State, s': State)
    requires Inv(s) && DiskOk(s) && Does(s, DeleteInputs, s')
    ensures DiskOk(s')
  {
    hide Layered, Drawn, Shows, IsCompaction, Covers, BatchFits, Fold, StrictlySorted, Sorted, Chronological;
    var m := s.compact.m;
    FoldConcat(DEFAULT, s.edits, Deletes(Stale(m.run)));
    FoldDeletes(Durable(s), Stale(m.run));
    assert LiveIds(s') == LiveIds(s) - TableIds(Stale(m.run));
    assert forall t :: t in s.tables ==> FileOf(s', t) == FileOf(s, t);
    RunIds(s, m.start, m.run);
    DeletesFit(s, m.run);
  }

  lemma DeletesFit(s: State, run: seq<Table>)
    requires s.nextSstId <= U64_MAX && EditsFit(s.edits) && forall t :: t in run ==> t.id < s.nextSstId
    ensures EditsFit(s.edits + Deletes(Stale(run)))
  {
    forall e | e in Deletes(Stale(run))
      ensures Body(e) < U64_LIMIT
    {
      var i :| 0 <= i < |Stale(run)| && e == DeleteTable(Stale(run)[i].id);
      assert Stale(run)[i] in run;
    }
  }

  /** The ids of a run are ids of the live set. */
  lemma RunIds(s: State, start: nat, run: seq<Table>)
    requires IdsOk(s) && RunAt(s, start, run)
    ensures forall t :: t in run ==> t in s.tables && t.id < s.nextSstId
  {
    forall t | t in run
      ensures t in s.tables
    {
      var i :| 0 <= i < |run| && run[i] == t;
      assert s.tables[start + i] == t;
    }
  }

  // --------------------------------------------------------------- other steps

  lemma FreezeDisk(s: State, s': State)
    requires Inv(s) && DiskOk(s) && Does(s, Freeze, s')
    ensures DiskOk(s')
  {
    hide Layered, Drawn, Shows, IsCompaction, Covers, BatchFits, Fold, StrictlySorted, Sorted, Chronological;
    assert LiveIds(s') == LiveIds(s);
    assert forall t :: t in s.tables ==> FileOf(s', t) == FileOf(s, t);
  }

  lemma WriteTableDisk(s: State, s': State)
    requires Inv(s) && DiskOk(s) && Does(s, WriteTable, s')
    ensures DiskOk(s')
  {
    hide Layered, Drawn, Shows, IsCompaction, Covers, BatchFits, Fold, StrictlySorted, Sorted, Chronological;
    assert LiveIds(s') == LiveIds(s);
    forall t | t in s.tables
      ensures t.id < s.nextSstId && FileOf(s', t) == FileOf(s, t)
    {
      var i :| 0 <= i < |s.tables| && s.tables[i] == t;
    }
  }

  lemma PublishDisk(s: State, s': State)
    requires Inv(s) && DiskOk(s) && Does(s, Publish, s')
    ensures DiskOk(s')
  {
    hide Layered, Drawn, Shows, IsCompaction, Covers, BatchFits, Fold, StrictlySorted, Sorted, Chronological;
    var t := Table(s.flush.id, s.frozen.value);
    assert s'.tables == s.tables + [t];
    assert TableIds(s'.tables) == TableIds(s.tables) + {s.flush.id};
    assert LiveIds(s') == LiveIds(s);
    assert forall t :: t in s.tables ==> FileOf(s', t) == FileOf(s, t);
    assert FileOf(s', t) == t.recs;
  }

  lemma ClearFrozenDisk(s: State, s': State)
    requires Inv(s) && DiskOk(s) && Does(s, ClearFrozen, s')
    ensures DiskOk(s')
  {
    hide Layered, Drawn, Shows, IsCompaction, Covers, BatchFits, Fold, StrictlySorted, Sorted, Chronological;
    assert LiveIds(s') == LiveIds(s);
    assert forall t :: t in s.tables ==> FileOf(s', t) == FileOf(s, t);
  }

  lemma RenameOutDisk(s: State, s': State)
    requires Inv(s) && DiskOk(s) && Does(s, RenameOut, s')
    ensures DiskOk(s')
  {
    hide Layered, Drawn, Shows, IsCompaction, Covers, BatchFits, Fold, StrictlySorted, Sorted, Chronological;
    assert LiveIds(s') == LiveIds(s);
  }

  /** The stale inputs are a part of the live set. */
  lemma StaleAt(s: State, start: nat, run: seq<Table>)
    requires RunAt(s, start, run)
    ensures Stale(run) == s.tables[start..start + |run| - 1] && MaxId(run) == s.tables[start + |run| - 1].id
  {
    assert forall j :: 0 <= j < |run| ==> run[j] == s.tables[start + j];
  }

  lemma SpliceDisk(s: State, s': State)
    requires Inv(s) && DiskOk(s) && Does(s, SpliceRun, s')
    ensures DiskOk(s')
  {
    hide Inv, Does, LogOk, CounterOk, FramableOk, ManifestOk, FilesOk, LiveIds;
    SpliceRest(s, s');
    SpliceFiles(s, s');
    SameLog(s, s');
    SameManifest(s, s');
  }

  lemma SpliceFiles(s: State, s': State)
    requires Inv(s) && FilesOk(s) && Does(s, SpliceRun, s')
    ensures FilesOk(s') && LiveIds(s') == LiveIds(s)
  {
    hide Inv, Does, CutRun, Ascend, TableIds, FilesOk, LiveIds, Stale, MergeOk;
    SpliceRest(s, s');
    SpliceTables(s, s');
    IdsAscend(s);
    var m := s.compact.m;
    var n := |m.run|;
    StaleAt(s, m.start, m.run);
    RunFiles(s);
    SpliceExactCut(s.tables, m.start, n, m.out);
    CutIds(s.tables, m.start, n, n - 1, m.out);
    CutReopens(s.tables, m.start, n, n - 1, m.out, s.files);
    SplicedFiles(s, s');
  }

  lemma IdsAscend(s: State)
    requires Inv(s)
    ensures Ascend(s.tables)
  {
    hide HistoryOk, LayersOk, ViewOk, FlushOk, CompactOk;
  }

  /** The files of the live set while a compaction publishes. */
  lemma RunFiles(s: State)
    requires Inv(s) && FilesOk(s) && (s.compact.OutRenamed? || s.compact.InputsDeleted?)
    ensures var id := MaxId(s.compact.m.run);
            forall t :: t in s.tables ==> t.id in s.files && s.files[t.id] == if t.id == id then s.compact.m.out else t.recs
    ensures s.compact.m.run != [] && s.flush.NoFlush?
  {
    hide HistoryOk, LayersOk, ViewOk, IdsOk, TableIds, IsCompaction, Covers;
  }

  lemma SplicedFiles(s: State, s': State)
    requires s.compact.InputsDeleted? && s.flush.NoFlush? && s' == s.(tables := s'.tables, compact := Spliced(s.compact.m))
    requires Reopens(s'.tables, s.files)
    requires TableIds(s'.tables) == TableIds(s.tables) - TableIds(Stale(s.compact.m.run))
    ensures FilesOk(s') && LiveIds(s') == LiveIds(s)
  {
    hide Ascend;
    forall t | t in Stale(s.compact.m.run)
      ensures t.id !in TableIds(s'.tables)
    {
      assert t.id in TableIds(Stale(s.compact.m.run));
    }
  }

  lemma SpliceExactCut(tables: seq<Table>, start: nat, n: nat, out: seq<Record>)
    requires 0 < n && start + n <= |tables|
    ensures tables[..start] + [Table(tables[start + n - 1].id, out)] + tables[start + n..] ==
            CutRun(tables, start, n, n - 1, out)
  {
    assert tables[start + (n - 1)..start + n - 1] == [];
  }

  /** A stale input is in no way named any more. */
  lemma UnlinkDisk(s: State, id: nat, s': State)
    requires Inv(s) && DiskOk(s) && Does(s, Unlink(id), s')
    ensures DiskOk(s')
  {
    hide Inv, LogOk, CounterOk, FramableOk, ManifestOk, TableIds;
    SameLog(s, s');
    SameManifest(s, s');
    forall t | t in s.tables
      ensures t.id in TableIds(s.tables) && FileOf(s', t) == FileOf(s, t)
    {
      var i :| 0 <= i < |s.tables| && s.tables[i] == t;
      IdAt(s.tables, i);
    }
  }

  /** Steps that touch neither a file nor a MemTable. */
  predicate Quiet(step: Step) {
    step.Reserve? || step.Pick? || step.MergeRun? || step.FinishCompaction? || step.TakeSnapshot? || step.DropSnapshot?
  }

  lemma QuietDisk(s: State, step: Step, s': State)
    requires Inv(s) && DiskOk(s) && Does(s, step, s') && Quiet(step)
    ensures DiskOk(s')
  {
    hide Inv, Does, LogOk, CounterOk, FramableOk, ManifestOk, TableIds;
    QuietFields(s, step, s');
    SameLog(s, s');
    SameManifest(s, s');
    assert forall t :: t in s.tables ==> FileOf(s', t) == FileOf(s, t);
  }

  lemma QuietFields(s: State, step: Step, s': State)
    requires Does(s, step, s') && Quiet(step)
    ensures s' == s.(reserved := s'.reserved, snapshots := s'.snapshots, compact := s'.compact) && s.reserved <= s'.reserved
    ensures s'.compact != s.compact ==>
              || ((s.compact.NoCompaction? || s.compact.Picked?) && (s'.compact.Picked? || s'.compact.Merged?))
              || (s.compact.Spliced? && s'.compact.NoCompaction?)
  {
    hide IsCompaction, IsMinSnapshot;
  }

  lemma StepDisk(s: State, step: Step, s': State)
    requires Inv(s) && DiskOk(s) && Does(s, step, s')
    ensures DiskOk(s')
  {
    hide Inv, Does, DiskOk;
    match step
    case Reserve(n) => QuietDisk(s, step, s');
    case Write(ops) => WriteDisk(s, ops, s');
    case Freeze => FreezeDisk(s, s');
    case WriteTable => WriteTableDisk(s, s');
    case LogTable => LogTableDisk(s, s');
    case Publish => PublishDisk(s, s');
    case RewriteLog => RewriteLogDisk(s, s');
    case ClearFrozen => ClearFrozenDisk(s, s');
    case Pick(start, end) => QuietDisk(s, step, s');
    case MergeRun(out) => QuietDisk(s, step, s');
    case RenameOut => RenameOutDisk(s, s');
    case DeleteInputs => DeleteInputsDisk(s, s');
    case SpliceRun => SpliceDisk(s, s');
    case Unlink(id) => UnlinkDisk(s, id, s');
    case FinishCompaction => QuietDisk(s, step, s');
    case TakeSnapshot => QuietDisk(s, step, s');
    case DropSnapshot(h) => QuietDisk(s, step, s');
  }

  lemma InitDisk(s: State)
    requires Init(s)
    ensures DiskOk(s)
  {
    hide Init, DiskOk;
    InitLayers(s);
    InitRest(s);
    InitCounter(s);
    InitFiles(s);
    NothingDisk(s);
  }

  lemma NothingDisk(s: State)
    requires s.active == [] && s.frozen.None? && s.tables == [] && s.hist == [] && Counter(s) == 0 && s.nextSstId == 0
    requires s.log == Whole([]) && s.edits == [SetNextSstId(0)] && s.flush.NoFlush? && s.compact.NoCompaction?
    ensures DiskOk(s)
  {
    hide BatchFits;
    assert [SetNextSstId(0)][1..] == [];
    assert Durable(s) == DEFAULT;
    assert Concat([]) == [];
  }

  lemma {:induction false} RunDisk(states: seq<State>, steps: seq<Step>, i: nat)
    requires IsRun(states, steps) && Inv(states[0]) && DiskOk(states[0]) && i < |states|
    ensures DiskOk(states[i])
    decreases i
  {
    hide Inv, DiskOk, Does;
    if i > 0 {
      RunDisk(states, steps, i - 1);
      RunInv(states, steps, i - 1);
      StepDisk(states[i - 1], steps[i - 1], states[i]);
    }
  }
}
