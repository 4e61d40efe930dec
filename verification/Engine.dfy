/** The engine as a state machine. Each step is one section of the source that
    runs under a lock, or one filesystem effect of a flush or a compaction. */
module Engine {
  import opened Records
  import opened Layers
  import opened Retention
  import opened MemTables
  import opened Manifest
  import opened Wal

  /** An SSTable as a reader sees it: its id and its records in file order. */
  datatype Table = Table(id: nat, recs: seq<Record>)

  /** The live log file: its frames; or frames, the bytes a crash left of an append
      it interrupted, and the frames appended behind those since. */
  datatype LogState =
    | Whole(frames: seq<seq<Record>>)
    | Torn(frames: seq<seq<Record>>, tail: Bytes, later: seq<seq<Record>>)

  /** How far the one flush that may run has come. */
  datatype FlushPc =
    | NoFlush
    | Frozen
    | Renamed(id: nat)
    | Logged(id: nat)
    | Published(id: nat)
    | Rewritten(id: nat)

  /** A compaction's local variables. */
  datatype Merge = Merge(start: nat, run: seq<Table>, drop: bool, min: nat, out: seq<Record>)

  /** How far the one compaction that may run has come. */
  datatype CompactPc =
    | NoCompaction
    | Picked(start: nat, run: seq<Table>, drop: bool)
    | Merged(m: Merge)
    | OutRenamed(m: Merge)
    | InputsDeleted(m: Merge)
    | Spliced(m: Merge)

  /** `nextSeq` is above every number in a MemTable or a table. A writer that holds
      the log lock first moves the shared counter by the length of its batch, and
      `reserved` is that length until the batch is in. `hist` is a history variable:
      every acknowledged record, in order. No step reads it. */
  datatype State = State(
    log: LogState,
    active: seq<Record>,
    frozen: Option<seq<Record>>,
    tables: seq<Table>,
    nextSstId: nat,
    nextSeq: nat,
    reserved: nat,
    edits: seq<VersionEdit>,
    files: map<nat, seq<Record>>,
    snapshots: multiset<nat>,
    flush: FlushPc,
    compact: CompactPc,
    hist: seq<Record>)

  type Op = (Key, Option<Bytes>)

  datatype Step =
    | Reserve(n: nat)
    | Write(ops: seq<Op>)
    | Freeze
    | WriteTable
    | LogTable
    | Publish
    | RewriteLog
    | ClearFrozen
    | Pick(start: nat, end: nat)
    | MergeRun(out: seq<Record>)
    | RenameOut
    | DeleteInputs
    | SpliceRun
    | Unlink(id: nat)
    | FinishCompaction
    | TakeSnapshot
    | DropSnapshot(horizon: nat)

  // ---------------------------------------------------------------- the layers

  function Recs(tables: seq<Table>): (stack: seq<seq<Record>>)
    ensures |stack| == |tables|
    ensures forall i :: 0 <= i < |tables| ==> stack[i] == tables[i].recs
  {
    seq(|tables|, i requires 0 <= i < |tables| => tables[i].recs)
  }

  function FrozenLayer(s: State): (stack: seq<seq<Record>>) {
    if s.frozen.Some? then [s.frozen.value] else []
  }

  /** Everything below the active MemTable, oldest first. */
  function Below(s: State): (stack: seq<seq<Record>>) {
    Recs(s.tables) + FrozenLayer(s)
  }

  function Stack(s: State): (stack: seq<seq<Record>>) {
    Below(s) + [s.active]
  }

  /** The bounds reads use: the latest value, and every live snapshot. */
  predicate LiveBound(s: State, h: nat) {
    h == U64_MAX || h in s.snapshots
  }

  // ----------------------------------------------------------------- the steps

  /** Consecutive sequence numbers from `first`. */
  function Stamp(ops: seq<Op>, first: nat): (rs: seq<Record>)
    ensures |rs| == |ops|
    ensures forall i :: 0 <= i < |ops| ==> rs[i] == Record(ops[i].0, ops[i].1, first + i)
  {
    seq(|ops|, i requires 0 <= i < |ops| => Record(ops[i].0, ops[i].1, first + i))
  }

  function Appended(log: LogState, batch: seq<Record>): (log': LogState) {
    if log.Whole? then Whole(log.frames + [batch]) else log.(later := log.later + [batch])
  }

  /** The shared counter, as every other thread reads it. */
  function Counter(s: State): (n: nat) {
    s.nextSeq + s.reserved
  }

  /** One record per frame, in MemTable order. */
  function Singles(run: seq<Record>): (frames: seq<seq<Record>>)
    ensures |frames| == |run|
    ensures forall i :: 0 <= i < |run| ==> frames[i] == [run[i]]
  {
    seq(|run|, i requires 0 <= i < |run| => [run[i]])
  }

  function FlushEdits(s: State, id: nat): (edits: seq<VersionEdit>) {
    [AddTable(id), SetNextSstId(s.nextSstId), SetNextSeq(Counter(s))]
  }

  /** The inputs of a merge that go away; the last one's id is reused. */
  function Stale(run: seq<Table>): (stale: seq<Table>) {
    if run == [] then [] else run[..|run| - 1]
  }

  function MaxId(run: seq<Table>): (id: nat)
    requires run != []
  {
    run[|run| - 1].id
  }

  function Deletes(tables: seq<Table>): (edits: seq<VersionEdit>)
    ensures |edits| == |tables|
    ensures forall i :: 0 <= i < |tables| ==> edits[i] == DeleteTable(tables[i].id)
  {
    seq(|tables|, i requires 0 <= i < |tables| => DeleteTable(tables[i].id))
  }

  /** First position of a table id in the live set. */
  function Position(tables: seq<Table>, id: nat): (o: Option<nat>)
    ensures o.Some? ==> o.value < |tables| && tables[o.value].id == id
  {
    if tables == [] then
      None
    else if tables[0].id == id then
      Some(0)
    else
      var rest := Position(tables[1..], id);
      if rest.Some? then Some(rest.value + 1) else None
  }

  /** The lowest live horizon, or the bound of a latest read. */
  ghost predicate IsMinSnapshot(snapshots: multiset<nat>, min: nat) {
    if snapshots == multiset{} then min == U64_MAX else min in snapshots && forall h :: h in snapshots ==> min <= h
  }

  /** The publish half of a compaction holds the flush lock. */
  predicate HoldsFlushLock(c: CompactPc) {
    c.OutRenamed? || c.InputsDeleted? || c.Spliced?
  }

  ghost predicate Does(s: State, step: Step, s': State) {
    match step
    case Reserve(n) =>
      && s.reserved == 0 < n && s.nextSeq + n <= U64_MAX
      && s' == s.(reserved := n)
    case Write(ops) =>
      var batch := Stamp(ops, s.nextSeq);
      && s.reserved == |ops| && BatchFits(batch)
      && s' == s.(log := Appended(s.log, batch), active := InsertAll(s.active, batch),
                  nextSeq := s.nextSeq + |ops|, reserved := 0, hist := s.hist + batch)
    case Freeze =>
      && s.flush.NoFlush? && !HoldsFlushLock(s.compact) && s.active != []
      && s' == s.(active := [], frozen := Some(s.active), flush := Frozen)
    case WriteTable =>
      && s.flush.Frozen? && s.frozen.Some? && s.nextSstId < U64_MAX
      && s' == s.(nextSstId := s.nextSstId + 1, files := s.files[s.nextSstId := s.frozen.value],
                  flush := Renamed(s.nextSstId))
    case LogTable =>
      && s.flush.Renamed?
      && s' == s.(edits := s.edits + FlushEdits(s, s.flush.id), flush := Logged(s.flush.id))
    case Publish =>
      && s.flush.Logged? && s.flush.id in s.files
      && s' == s.(tables := s.tables + [Table(s.flush.id, s.files[s.flush.id])], flush := Published(s.flush.id))
    case RewriteLog =>
      && s.flush.Published? && s.reserved == 0
      && s' == s.(log := Whole(Singles(s.active)), flush := Rewritten(s.flush.id))
    case ClearFrozen =>
      && s.flush.Rewritten?
      && s' == s.(frozen := None, flush := NoFlush)
    case Pick(start, end) =>
      && s.compact.NoCompaction? && start < end <= |s.tables|
      && s' == s.(compact := Picked(start, s.tables[start..end], s.tables[start].id == s.tables[0].id))
    case MergeRun(out) =>
      && s.compact.Picked?
      && exists min: nat ::
        && IsMinSnapshot(s.snapshots, min)
        && IsCompaction(Recs(s.compact.run), s.compact.drop, min, out)
        && s' == s.(compact := Merged(Merge(s.compact.start, s.compact.run, s.compact.drop, min, out)))
    case RenameOut =>
      && s.compact.Merged? && s.compact.m.run != [] && s.flush.NoFlush?
      && s' == s.(files := s.files[MaxId(s.compact.m.run) := s.compact.m.out], compact := OutRenamed(s.compact.m))
    case DeleteInputs =>
      && s.compact.OutRenamed? && s.compact.m.run != []
      && s' == s.(edits := s.edits + Deletes(Stale(s.compact.m.run)), compact := InputsDeleted(s.compact.m))
    case SpliceRun =>
      && s.compact.InputsDeleted? && s.compact.m.run != [] && MaxId(s.compact.m.run) in s.files
      && var at := Position(s.tables, MaxId(s.compact.m.run));
      && at.Some? && |s.compact.m.run| <= at.value + 1
      && s' == s.(tables := Splice(s.tables, at.value, |s.compact.m.run|, s.files[MaxId(s.compact.m.run)]),
                  compact := Spliced(s.compact.m))
    case Unlink(id) =>
      && s.compact.Spliced? && (exists t :: t in Stale(s.compact.m.run) && t.id == id)
      && s' == s.(files := s.files - {id})
    case FinishCompaction =>
      s.compact.Spliced? && s' == s.(compact := NoCompaction)
    case TakeSnapshot =>
      s' == s.(snapshots := s.snapshots + multiset{Counter(s)})
    case DropSnapshot(h) =>
      h in s.snapshots && s' == s.(snapshots := s.snapshots - multiset{h})
  }

  /** The `n` tables ending at position `end` become one that keeps its id. */
  function Splice(tables: seq<Table>, end: nat, n: nat, out: seq<Record>): (tables': seq<Table>)
    requires end < |tables| && n <= end + 1
  {
    tables[..end + 1 - n] + [Table(tables[end].id, out)] + tables[end + 1..]
  }

  // ------------------------------------------------------------ the invariant

  /** A horizon does not fall among reserved numbers: it is below all of them or
      above all of them. */
  predicate Clear(s: State, h: nat) {
    h <= s.nextSeq || h == Counter(s)
  }

  ghost predicate HistoryOk(s: State) {
    && Chronological(s.hist)
    && (forall r :: r in s.hist ==> r.seqno < s.nextSeq)
    && Counter(s) <= U64_MAX
    && forall h :: h in s.snapshots ==> Clear(s, h)
  }

  ghost predicate LayersOk(s: State) {
    && Layered(Stack(s))
    && Drawn(Stack(s), s.hist)
    && StrictlySorted(s.active)
    && (s.frozen.Some? ==> StrictlySorted(s.frozen.value))
    && forall i :: 0 <= i < |s.tables| ==> Sorted(s.tables[i].recs)
  }

  /** Every read the engine serves agrees with the history. */
  ghost predicate ViewOk(s: State) {
    forall h :: LiveBound(s, h) ==> Shows(Stack(s), s.hist, h)
  }

  ghost predicate IdsOk(s: State) {
    && (forall i, j :: 0 <= i < j < |s.tables| ==> s.tables[i].id < s.tables[j].id)
    && forall i :: 0 <= i < |s.tables| ==> s.tables[i].id < s.nextSstId
  }

  ghost predicate FlushOk(s: State) {
    && (s.flush.NoFlush? <==> s.frozen.None?)
    && (HoldsFlushLock(s.compact) ==> s.flush.NoFlush?)
    && (s.flush.Renamed? || s.flush.Logged? ==>
          && s.flush.id in s.files && s.files[s.flush.id] == s.frozen.value
          && s.flush.id + 1 == s.nextSstId
          && forall i :: 0 <= i < |s.tables| ==> s.tables[i].id < s.flush.id)
    && (s.flush.Published? || s.flush.Rewritten? ==>
          |s.tables| > 0 && s.tables[|s.tables| - 1] == Table(s.flush.id, s.frozen.value))
  }

  /** The run picked is still there: flushes only append. */
  predicate RunAt(s: State, start: nat, run: seq<Table>) {
    run != [] && start + |run| <= |s.tables| && s.tables[start..start + |run|] == run
  }

  ghost predicate MergeOk(s: State, m: Merge) {
    && RunAt(s, m.start, m.run)
    && (m.drop <==> m.start == 0)
    && IsCompaction(Recs(m.run), m.drop, m.min, m.out)
    && forall h :: LiveBound(s, h) ==> Covers(Recs(m.run), m.min, h)
  }

  ghost predicate CompactOk(s: State) {
    match s.compact
    case NoCompaction => true
    case Picked(start, run, drop) => RunAt(s, start, run) && (drop <==> start == 0)
    case Merged(m) => MergeOk(s, m)
    case OutRenamed(m) => MergeOk(s, m) && MaxId(m.run) in s.files && s.files[MaxId(m.run)] == m.out
    case InputsDeleted(m) => MergeOk(s, m) && MaxId(m.run) in s.files && s.files[MaxId(m.run)] == m.out
    case Spliced(m) => m.run != []
  }

  ghost predicate Inv(s: State) {
    HistoryOk(s) && LayersOk(s) && ViewOk(s) && IdsOk(s) && FlushOk(s) && CompactOk(s)
  }

  /** A fresh directory. */
  function Fresh(): (s: State) {
    State(Whole([]), [], None, [], 0, 0, 0, [SetNextSstId(0)], map[], multiset{}, NoFlush, NoCompaction, [])
  }

  ghost predicate Init(s: State) {
    s == Fresh()
  }

  lemma InitLayers(s: State)
    requires Init(s)
    ensures s.active == [] && s.frozen.None? && s.tables == [] && s.hist == []
  {
  }

  lemma InitRest(s: State)
    requires Init(s)
    ensures s.flush.NoFlush? && s.compact.NoCompaction? && s.snapshots == multiset{}
  {
  }

  lemma InitCounter(s: State)
    requires Init(s)
    ensures Counter(s) == 0 && s.nextSstId == 0
  {
  }

  lemma InitFiles(s: State)
    requires Init(s)
    ensures s.log == Whole([]) && s.edits == [SetNextSstId(0)]
  {
  }
}
