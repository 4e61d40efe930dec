/** The database handle as an object. Each section the source runs under a lock is
    one method, proved to take one step of the state machine; the public operations
    are built from them. */
module Database {
  import opened Records
  import opened Header
  import opened Layers
  import opened Retention
  import opened MemTables
  import opened Manifest
  import opened Wal
  import opened Engine
  import opened EngineSafety
  import opened Durability
  import opened Picker
  import opened DbFacts
  import opened Ranges
  import opened Scan
  import opened EngineScan
  import opened Recovery
  import opened Crash
  import opened Opening
  import opened Splicing
  import opened Checkpoint
  import opened Settling
  import opened Compaction
  import opened SsTable
  import opened ReaderStack

  /** Buffer records in order. */
  method InsertInto(t: MemTable, records: seq<Record>)
    requires t.Valid()
    modifies t
    ensures t.Valid() && t.entries == InsertAll(old(t.entries), records)
  {
    hide Insert, StrictlySorted;
    assert records[..0] == [] && InsertAll(t.entries, []) == t.entries;
    for i := 0 to |records|
      invariant t.Valid() && t.entries == InsertAll(old(t.entries), records[..i])
    {
      InsertAllPush(old(t.entries), records, i);
      t.Add(records[i]);
    }
    assert records[..|records|] == records;
  }

  /** A fresh log with one frame a record, in order. */
  method RewrittenLog(cs: Checksums, run: seq<Record>) returns (log: Log)
    ensures fresh(log) && log.cs == cs && log.kind == Versioned(WAL_VERSION) && log.file == LogFile(cs, Singles(run))
  {
    hide LogFile, PayloadAs;
    log := new Log.Create(cs);
    assert run[..0] == [] && Singles(run[..0]) == [];
    for i := 0 to |run|
      invariant fresh(log) && log.cs == cs && log.kind == Versioned(WAL_VERSION)
      invariant log.file == LogFile(cs, Singles(run[..i]))
    {
      SinglesPush(run, i);
      LogAppend(cs, Singles(run[..i]), [run[i]]);
      var done := log.AppendBatch([run[i]]);
    }
    assert run[..|run|] == run;
  }

  lemma ScanSource(s: State, start: Option<Key>, end: Option<Key>, i: nat)
    requires i < |ScanStack(s, start, end)|
    ensures var n := if s.frozen.Some? then 2 else 1;
            && |ScanStack(s, start, end)| == n + |s.tables|
            && ScanStack(s, start, end)[i] ==
               if i == 0 then Clip(AtLeast(s.active, start), end)
               else if i < n then Clip(AtLeast(s.frozen.value, start), end)
               else AtLeast(s.tables[i - n].recs, start)
  {
    hide AtLeast, Clip;
  }

  /** What a scan merges, source by source. */
  lemma SourcesOf(s: State, start: Option<Key>, end: Option<Key>, mem: seq<Source>, older: seq<Source>)
    requires |mem| == (if s.frozen.Some? then 2 else 1) && |older| == |s.tables|
    requires mem[0] == Source(Clip(AtLeast(s.active, start), end), false)
    requires s.frozen.Some? ==> mem[1] == Source(Clip(AtLeast(s.frozen.value, start), end), false)
    requires forall i :: 0 <= i < |s.tables| ==> older[i] == Source(AtLeast(s.tables[i].recs, start), false)
    ensures Runs(mem + older) == ScanStack(s, start, end)
    ensures forall i :: 0 <= i < |mem + older| ==> !(mem + older)[i].fails
  {
    hide AtLeast, Clip, ScanStack;
    var stack, sources := ScanStack(s, start, end), mem + older;
    assert |stack| > 0 by { SomeSource(s, start, end); }
    ScanSource(s, start, end, 0);
    forall i | 0 <= i < |stack|
      ensures stack[i] == sources[i].recs && !sources[i].fails
    {
      ScanSource(s, start, end, i);
      if i >= |mem| {
        assert sources[i] == older[i - |mem|];
      }
    }
  }

  lemma SomeSource(s: State, start: Option<Key>, end: Option<Key>)
    ensures |ScanStack(s, start, end)| > 0
  {
    hide AtLeast, Clip;
  }

  /** Link the file of every live table. */
  method LinkTables(ghost s: State, tables: seq<Table>, files: map<nat, seq<Record>>)
    returns (ids: set<nat>, linked: map<nat, seq<Record>>)
    requires DiskOk(s) && s.tables == tables && s.files == files
    ensures ids == TableIds(tables) && linked == Named(files, TableIds(tables))
  {
    hide DiskOk, TableIds;
    ids, linked := {}, map[];
    NoIds();
    for i := 0 to |tables|
      invariant ids == TableIds(tables[..i]) && linked == Named(files, ids)
    {
      FileThere(s, i);
      IdsPush(tables, i);
      ids := ids + {tables[i].id};
      linked := linked[tables[i].id := files[tables[i].id]];
    }
    assert tables[..|tables|] == tables;
  }

  class Db {
    const cs: Checksums
    const memThreshold: nat
    const compactionThreshold: nat
    /** Size of the table file that holds these records. */
    const sizeOf: seq<Record> -> nat

    var wal: Log
    var active: MemTable
    var frozen: MemTable?
    var tables: seq<Table>
    var nextSstId: nat
    /** The shared counter, which a writer moves before its batch is in. */
    var nextSeq: nat
    var manifest: ManifestLog
    var files: map<nat, seq<Record>>
    /** Live horizons with their reference counts. */
    var snapshots: multiset<nat>

    ghost var frames: LogState
    ghost var applied: nat
    ghost var edits: seq<VersionEdit>
    ghost var flushing: FlushPc
    ghost var compacting: CompactPc
    ghost var hist: seq<Record>

    /** The state of the protocol this object is in. */
    ghost function View(): (s: State)
      reads this, active, frozen
    {
      State(frames, active.entries, if frozen == null then None else Some(frozen.entries), tables, nextSstId, applied,
            if applied <= nextSeq then nextSeq - applied else 0, edits, files, snapshots, flushing, compacting, hist)
    }

    /** The bytes of the log and of the manifest are those of the abstract state. */
    ghost predicate OnDisk()
      reads this, wal, manifest
    {
      && wal.cs == cs && manifest.cs == cs && wal.kind == Versioned(WAL_VERSION)
      && wal.file == LogBytes(cs, frames) && applied <= nextSeq
      && manifest.Valid() && manifest.dir.gens[manifest.dir.current] == ManifestFile(cs, edits)
    }

    ghost predicate Buffers()
      reads this, active, frozen
    {
      && active.Valid() && active.threshold == memThreshold
      && active != frozen && (frozen != null ==> frozen.Valid())
    }

    ghost predicate Valid()
      reads this, active, frozen, wal, manifest
    {
      OnDisk() && Buffers() && Inv(View()) && DiskOk(View())
    }

    /** Nothing in the background, and no write under way. */
    ghost predicate Idle()
      reads this
    {
      flushing.NoFlush? && compacting.NoCompaction? && applied == nextSeq
    }

    /** A fresh directory. */
    constructor (cs: Checksums, memThreshold: nat, compactionThreshold: nat, sizeOf: seq<Record> -> nat)
      ensures Valid() && Init(View()) && fresh(wal) && fresh(active) && fresh(manifest)
      ensures this.cs == cs && this.memThreshold == memThreshold
      ensures this.compactionThreshold == compactionThreshold && this.sizeOf == sizeOf
    {
      hide Inv, DiskOk;
      this.cs, this.memThreshold, this.compactionThreshold, this.sizeOf := cs, memThreshold, compactionThreshold, sizeOf;
      wal := new Log.Create(cs);
      active := new MemTable(memThreshold);
      frozen := null;
      tables, nextSstId, nextSeq, files, snapshots := [], 0, 0, map[], multiset{};
      manifest := new ManifestLog(cs, Dir(0, map[0 := ManifestFile(cs, [SetNextSstId(0)])]));
      frames, edits, flushing, compacting, hist := Whole([]), [SetNextSstId(0)], NoFlush, NoCompaction, [];
      applied := 0;
      new;
      LogBytesWhole(cs, []);
      InitInv(View());
      InitDisk(View());
    }

    /** The handle `open` makes of a directory a crash left behind, whatever the crash
        has done: it is in the recovered state, in memory and on disk, and it is valid
        exactly when the crash was harmless. */
    constructor Reopen(cs: Checksums, memThreshold: nat, compactionThreshold: nat, sizeOf: seq<Record> -> nat,
                       d: Disk, o: Opened, ghost s: State, ghost c: CrashPoint)
      requires Inv(s) && DiskOk(s) && PointOk(cs, s, c) && d == DiskImage(cs, s, c) && Recover(cs, d) == Ok(o)
      ensures OnDisk() && Buffers() && View() == AfterCrash(cs, s, c, o) && (Valid() <==> Harmless(cs, s, c))
      ensures fresh(wal) && fresh(active) && fresh(manifest)
      ensures this.cs == cs && this.memThreshold == memThreshold
      ensures this.compactionThreshold == compactionThreshold && this.sizeOf == sizeOf
    {
      hide Inv, DiskOk, DiskImage, Recover, Harmless, PointOk, LogBytes, ManifestFile, LogAfter, HistAfter,
        InsertAll, StrictlySorted, SumLen;
      ghost var s' := AfterCrash(cs, s, c, o);
      CrashKeeps(cs, s, c, s');
      CrashWal(cs, s, c);
      CrashActive(cs, s, c, s');
      this.cs, this.memThreshold, this.compactionThreshold, this.sizeOf := cs, memThreshold, compactionThreshold, sizeOf;
      wal := new Log.Append(cs, d.wal, Versioned(WAL_VERSION));
      active := new MemTable(memThreshold);
      frozen := null;
      tables, nextSstId, nextSeq, files, snapshots := o.tables, o.nextSstId, o.nextSeq, o.files, multiset{};
      manifest := new ManifestLog(cs, Dir(0, map[0 := ManifestFile(cs, o.edits)]));
      frames, edits, flushing, compacting, hist := s'.log, o.edits, NoFlush, NoCompaction, s'.hist;
      applied := o.nextSeq;
      new;
      InsertInto(active, o.active);
    }

    // --------------------------------------------------------------- foreground

    /** Take the next numbers. */
    method Reserve(n: nat) returns (first: nat)
      requires Valid() && applied == nextSeq && 0 < n && nextSeq + n <= U64_MAX
      modifies this`nextSeq
      ensures Valid() && first == applied && nextSeq == first + n && Does(old(View()), Engine.Reserve(n), View())
    {
      hide Inv, DiskOk;
      ghost var s := View();
      first := nextSeq;
      nextSeq := nextSeq + n;
      StepInv(s, Engine.Reserve(n), View());
      StepDisk(s, Engine.Reserve(n), View());
    }

    /** One frame in the log, then every record into the active MemTable. */
    method Apply(ops: seq<Op>, first: nat)
      requires Valid() && first == applied && nextSeq == first + |ops| && BatchFits(Stamp(ops, first))
      modifies this, wal, active
      ensures Valid() && wal == old(wal) && active == old(active) && manifest == old(manifest) && frozen == old(frozen)
      ensures Does(old(View()), Write(ops), View())
      ensures applied == nextSeq && flushing == old(flushing) && compacting == old(compacting)
    {
      hide Does, Inv, DiskOk, LogBytes, ManifestFile, PayloadAs, BatchFits, StrictlySorted, InsertAll, SumLen;
      ghost var s := View();
      var records := Stamp(ops, first);
      FitsSome(records);
      var done := wal.AppendBatch(records);
      LogBytesPush(cs, frames, records);
      frames := Appended(frames, records);
      hist := hist + records;
      applied := nextSeq;
      InsertInto(active, records);
      WriteStep(s, ops, View());
    }

    /** Write a batch: reserve its numbers and put it in. Reports whether the
        MemTable is now full. */
    method WriteBatch(ops: seq<Op>) returns (full: bool)
      requires Valid() && applied == nextSeq && nextSeq + |ops| <= U64_MAX
      requires ops != [] ==> BatchFits(Stamp(ops, nextSeq))
      modifies this, wal, active
      ensures Valid() && wal == old(wal) && active == old(active) && manifest == old(manifest) && frozen == old(frozen)
      ensures ops == [] ==> View() == old(View())
      ensures ops != [] ==>
                var s := old(View());
                && Does(s, Engine.Reserve(|ops|), s.(reserved := |ops|))
                && Does(s.(reserved := |ops|), Write(ops), View())
      ensures full <==> ops != [] && SumLen(active.entries) >= memThreshold
      ensures applied == nextSeq && flushing == old(flushing) && compacting == old(compacting)
    {
      hide Inv, DiskOk, OnDisk, BatchFits, InsertAll, StrictlySorted, SumLen;
      if ops == [] {
        return false;
      }
      ghost var s := View();
      var first := Reserve(|ops|);
      assert View() == s.(reserved := |ops|);
      Apply(ops, first);
      full := active.IsFull();
    }

    /** Look in the active MemTable, the frozen one, then through the readers of the
        live tables from the newest to the oldest. At the latest bound and at a live
        snapshot this is what the history says. */
    method GetAt(key: Key, bound: nat, readers: seq<SsTableReader>) returns (v: Option<Bytes>)
      requires Valid() && ReadersOf(readers, Recs(tables))
      modifies set i | 0 <= i < |readers| :: readers[i].cache
      ensures Valid() && ReadersOf(readers, Recs(tables)) && View() == old(View())
      ensures v == Value(Get(Stack(View()), key, bound))
      ensures LiveBound(View(), bound) ==> v == Value(Lookup(hist, key, bound))
    {
      hide Inv, DiskOk, Newest, Lookup, Get, StrictlySorted, Consistent, SsTableReader.Valid, LogBytes, ManifestFile;
      ghost var s := View();
      ViewReads(s, key, bound);
      LayersConsistent(s);
      var r := active.GetAt(key, bound);
      GetPush(Below(s), s.active, key, bound);
      if r.Some? {
        return r.value.value;
      }
      GetBelow(s, key, bound);
      if frozen != null {
        r := frozen.GetAt(key, bound);
        if r.Some? {
          return r.value.value;
        }
      }
      TablesAgree(s);
      r := SearchTables(readers, Recs(tables), key, bound);
      v := if r.Some? then r.value.value else None;
    }

    /** The copies a scan makes of the MemTables. */
    method CopyMemTables(start: Option<Key>, end: Option<Key>) returns (sources: seq<Source>)
      requires Buffers()
      ensures sources ==
                [Source(Clip(AtLeast(active.entries, start), end), false)]
                + if frozen == null then [] else [Source(Clip(AtLeast(frozen.entries, start), end), false)]
    {
      hide AtLeast, Clip, StrictlySorted;
      var part := active.Range(start, end);
      sources := [Source(part, false)];
      if frozen != null {
        part := frozen.Range(start, end);
        sources := sources + [Source(part, false)];
      }
    }

    /** The keys of a range with their values, in order, at most `limit` of them: the
        merge of the MemTables and of a scan of each live table through its reader. */
    method ScanAt(start: Option<Key>, end: Option<Key>, limit: nat, bound: nat, readers: seq<SsTableReader>)
      returns (r: Result<seq<(Key, Bytes)>>)
      requires Valid() && ReadersOf(readers, Recs(tables))
      modifies set i | 0 <= i < |readers| :: readers[i].cache
      ensures Valid() && ReadersOf(readers, Recs(tables)) && View() == old(View())
      ensures r.Ok? && IsScan(ScanStack(View(), start, end), bound, end, limit, r.value)
    {
      hide Inv, DiskOk, OnDisk, Buffers, AllSorted, ConsistentStack, IsScan, AtLeast, Clip, ReadersOf, ScanStack, Runs;
      ghost var s := View();
      ScanReady(s, start, end);
      var mem := CopyMemTables(start, end);
      var older := ScanReaders(readers, Recs(tables), start);
      SourcesOf(s, start, end, mem, older);
      r := ScanSources(mem + older, bound, end, limit);
    }

    /** Register a horizon: the next number to be given out. */
    method TakeSnapshot() returns (horizon: nat)
      requires Valid()
      modifies this`snapshots
      ensures Valid() && horizon == nextSeq && Does(old(View()), Engine.TakeSnapshot, View())
    {
      hide Inv, DiskOk;
      ghost var s := View();
      horizon := nextSeq;
      snapshots := snapshots[horizon := snapshots[horizon] + 1];
      assert snapshots == s.snapshots + multiset{horizon};
      StepInv(s, Engine.TakeSnapshot, View());
      StepDisk(s, Engine.TakeSnapshot, View());
    }

    /** Give one reference back; the horizon goes with its last one. */
    method DropSnapshot(horizon: nat)
      requires Valid() && horizon in snapshots
      modifies this`snapshots
      ensures Valid() && Does(old(View()), Engine.DropSnapshot(horizon), View())
    {
      hide Inv, DiskOk;
      ghost var s := View();
      snapshots := snapshots[horizon := snapshots[horizon] - 1];
      assert snapshots == s.snapshots - multiset{horizon};
      StepInv(s, Engine.DropSnapshot(horizon), View());
      StepDisk(s, Engine.DropSnapshot(horizon), View());
    }

    /** The lowest live horizon, or the latest bound when there is none. */
    method MinSnapshot() returns (min: nat)
      requires Valid()
      ensures snapshots == multiset{} ==> min == U64_MAX
      ensures snapshots != multiset{} ==> min in snapshots && forall h :: h in snapshots ==> min <= h
      ensures IsMinSnapshot(snapshots, min)
    {
      hide DiskOk, LayersOk, ViewOk, IdsOk, FlushOk, CompactOk;
      min := U64_MAX;
      var rest := snapshots;
      while rest != multiset{}
        invariant rest <= snapshots && min <= U64_MAX
        invariant forall h :: h in snapshots ==> h in rest || min <= h
        invariant min in snapshots || (min == U64_MAX && rest == snapshots)
        decreases |rest|
      {
        var h: nat :| h in rest;
        assert h in snapshots && h <= U64_MAX;
        rest := rest - multiset{h};
        if h < min {
          min := h;
        }
      }
    }

    // -------------------------------------------------------------------- flush

    /** Swap in a fresh MemTable and keep the old one readable. */
    method Freeze()
      requires Valid() && Idle() && active.entries != []
      modifies this
      ensures Valid() && fresh(active) && frozen == old(active) && wal == old(wal) && manifest == old(manifest)
      ensures Does(old(View()), Engine.Freeze, View()) && flushing.Frozen?
      ensures nextSstId == old(nextSstId) && compacting == old(compacting) && applied == nextSeq
    {
      hide Inv, DiskOk, LogBytes, ManifestFile, StrictlySorted;
      ghost var s := View();
      var was := active;
      active := new MemTable(memThreshold);
      frozen := was;
      flushing := Frozen;
      StepInv(s, Engine.Freeze, View());
      StepDisk(s, Engine.Freeze, View());
    }

    /** Write the frozen MemTable under a new id. */
    method WriteTable() returns (id: nat)
      requires Valid() && flushing.Frozen? && frozen != null && nextSstId < U64_MAX
      modifies this`nextSstId, this`files, this`flushing
      ensures Valid() && id == old(nextSstId) && Does(old(View()), Engine.WriteTable, View())
      ensures flushing == Renamed(id)
    {
      hide Inv, DiskOk, LogBytes, ManifestFile, StrictlySorted;
      ghost var s := View();
      id := nextSstId;
      nextSstId := nextSstId + 1;
      files := files[id := frozen.entries];
      flushing := Renamed(id);
      StepInv(s, Engine.WriteTable, View());
      StepDisk(s, Engine.WriteTable, View());
    }

    /** Name the table and both counters in the manifest. */
    method LogTable(id: nat)
      requires Valid() && flushing == Renamed(id)
      modifies this`edits, this`flushing, manifest
      ensures Valid() && Does(old(View()), Engine.LogTable, View()) && flushing == Logged(id)
    {
      hide Inv, DiskOk, LogBytes, ManifestFile, EditFrames, StrictlySorted;
      ghost var s := View();
      ghost var more := FlushEdits(s, id);
      ManifestAppend(cs, edits, more);
      manifest.AppendBatch([AddTable(id), SetNextSstId(nextSstId), SetNextSeq(nextSeq)]);
      edits := edits + more;
      flushing := Logged(id);
      StepInv(s, Engine.LogTable, View());
      StepDisk(s, Engine.LogTable, View());
    }

    /** Make the table readable. */
    method Publish(id: nat)
      requires Valid() && flushing == Logged(id)
      modifies this`tables, this`flushing
      ensures Valid() && Does(old(View()), Engine.Publish, View()) && flushing.Published?
    {
      hide DiskOk, HistoryOk, LayersOk, ViewOk, IdsOk, CompactOk, LogBytes, ManifestFile, StrictlySorted;
      ghost var s := View();
      tables := tables + [Table(id, files[id])];
      flushing := Published(id);
      StepInv(s, Engine.Publish, View());
      StepDisk(s, Engine.Publish, View());
    }

    /** Build a log that backs only what was written since the freeze, one record a
        frame, and put it in the place of the live one. */
    method RewriteLog()
      requires Valid() && flushing.Published? && applied == nextSeq
      modifies this`wal, this`frames, this`flushing
      ensures Valid() && fresh(wal) && Does(old(View()), Engine.RewriteLog, View()) && flushing.Rewritten?
    {
      hide Does, Inv, DiskOk, LogFile, LogBytes, ManifestFile, StrictlySorted, SumLen;
      ghost var s := View();
      var run := active.entries;
      wal := RewrittenLog(cs, run);
      frames := Whole(Singles(run));
      LogBytesWhole(cs, Singles(run));
      flushing := Rewritten(flushing.id);
      RewriteStep(s, View());
    }

    /** Let go of the frozen MemTable. */
    method ClearFrozen()
      requires Valid() && flushing.Rewritten?
      modifies this`frozen, this`flushing
      ensures Valid() && Does(old(View()), Engine.ClearFrozen, View()) && flushing.NoFlush?
    {
      hide Inv, DiskOk, LogBytes, ManifestFile, StrictlySorted;
      ghost var s := View();
      frozen := null;
      flushing := NoFlush;
      StepInv(s, Engine.ClearFrozen, View());
      StepDisk(s, Engine.ClearFrozen, View());
    }

    /** Write the frozen MemTable, name it, make it readable. */
    method FlushTable() returns (ghost s1: State, ghost s2: State)
      requires Valid() && flushing.Frozen? && frozen != null && nextSstId < U64_MAX
      modifies this`nextSstId, this`files, this`edits, this`tables, this`flushing, manifest
      ensures Valid() && Does(old(View()), Engine.WriteTable, s1) && Does(s1, Engine.LogTable, s2)
      ensures Does(s2, Engine.Publish, View()) && flushing.Published?
    {
      hide Inv, DiskOk, OnDisk, Buffers, Does;
      var id := WriteTable();
      s1 := View();
      LogTable(id);
      s2 := View();
      Publish(id);
    }

    /** A whole flush: the buffered records become the newest table, the log is
        empty, and nothing that was written is lost. */
    method FlushInner()
      requires Valid() && Idle() && nextSstId < U64_MAX
      modifies this, manifest
      ensures Valid() && Idle() && manifest == old(manifest)
      ensures old(active.entries) == [] ==> View() == old(View()) && active == old(active) && wal == old(wal)
      ensures old(active.entries) != [] ==> View() == FlushedState(old(View()))
    {
      hide Does, Inv, DiskOk, OnDisk, Buffers;
      if active.IsEmpty() {
        return;
      }
      ghost var s0 := View();
      Freeze();
      ghost var s1 := View();
      ghost var s2, s3 := FlushTable();
      ghost var s4 := View();
      RewriteLog();
      ghost var s5 := View();
      ClearFrozen();
      FlushEffect(s0, s1, s2, s3, s4, s5, View());
    }

    // --------------------------------------------------------------- compaction

    /** File sizes of the live tables, in order. */
    function Sizes(): (sizes: seq<nat>)
      reads this
      ensures sizes == SizesOf(tables, sizeOf)
    {
      seq(|tables|, i requires 0 <= i < |tables| reads this => sizeOf(tables[i].recs))
    }

    method Pick(start: nat, end: nat) returns (run: seq<Table>, drop: bool)
      requires Valid() && Idle() && start < end <= |tables|
      modifies this`compacting
      ensures Valid() && compacting == Picked(start, run, drop) && Does(old(View()), Engine.Pick(start, end), View())
    {
      hide Inv, DiskOk, LogBytes, ManifestFile, StrictlySorted;
      ghost var s := View();
      run := tables[start..end];
      drop := run[0].id == tables[0].id;
      compacting := Picked(start, run, drop);
      StepInv(s, Engine.Pick(start, end), View());
      StepDisk(s, Engine.Pick(start, end), View());
    }

    /** The merge itself, on no lock, with the horizon read once before it. */
    method MergeRun(ghost start: nat, run: seq<Table>, drop: bool) returns (out: seq<Record>, ghost min: nat)
      requires Valid() && compacting == Picked(start, run, drop)
      modifies this`compacting
      ensures Valid() && compacting == Merged(Engine.Merge(start, run, drop, min, out))
      ensures Does(old(View()), Engine.MergeRun(out), View())
    {
      hide Inv, DiskOk, LogBytes, ManifestFile, StrictlySorted, IsCompaction, ConsistentStack, Sorted;
      ghost var s := View();
      RunMergeable(s);
      var lowest := MinSnapshot();
      out := Compact(Recs(run), drop, lowest);
      min := lowest;
      compacting := Merged(Engine.Merge(start, run, drop, min, out));
      StepInv(s, Engine.MergeRun(out), View());
      StepDisk(s, Engine.MergeRun(out), View());
    }

    /** The merged file takes the name of the newest input. */
    method RenameOut(run: seq<Table>, out: seq<Record>)
      requires Valid() && compacting.Merged? && compacting.m.run == run != [] && compacting.m.out == out && flushing.NoFlush?
      modifies this`files, this`compacting
      ensures Valid() && compacting == OutRenamed(old(compacting).m) && Does(old(View()), Engine.RenameOut, View())
    {
      hide Inv, DiskOk, LogBytes, ManifestFile, StrictlySorted;
      ghost var s := View();
      files := files[MaxId(run) := out];
      compacting := OutRenamed(compacting.m);
      StepInv(s, Engine.RenameOut, View());
      StepDisk(s, Engine.RenameOut, View());
    }

    /** The other inputs leave the manifest. */
    method DeleteInputs(run: seq<Table>)
      requires Valid() && compacting.OutRenamed? && compacting.m.run == run != []
      modifies this`edits, this`compacting, manifest
      ensures Valid() && compacting == InputsDeleted(old(compacting).m) && Does(old(View()), Engine.DeleteInputs, View())
    {
      hide Inv, DiskOk, LogBytes, ManifestFile, EditFrames, StrictlySorted;
      ghost var s := View();
      var more := Deletes(Stale(run));
      ManifestAppend(cs, edits, more);
      manifest.AppendBatch(more);
      edits := edits + more;
      compacting := InputsDeleted(compacting.m);
      StepInv(s, Engine.DeleteInputs, View());
      StepDisk(s, Engine.DeleteInputs, View());
    }

    /** The merged table takes the place of the run. The run is looked for from
        scratch, since a flush may have appended; that it is not found cannot
        happen, and neither can an underflow of the start of the run. */
    method SpliceRun(run: seq<Table>)
      requires Valid() && compacting.InputsDeleted? && compacting.m.run == run != []
      modifies this`tables, this`compacting
      ensures Valid() && compacting == Spliced(old(compacting).m) && Does(old(View()), Engine.SpliceRun, View())
    {
      hide Does, Inv, DiskOk, LogBytes, ManifestFile, StrictlySorted, SumLen;
      ghost var s := View();
      RunStillThere(s);
      var id := MaxId(run);
      var endPos := 0;
      ghost var there := Position(tables, id);
      assert tables[0..] == tables;
      while tables[endPos].id != id
        invariant unchanged(this) && endPos < |tables| && Position(tables[endPos..], id).Some?
        invariant Position(tables, id) == Some(endPos + Position(tables[endPos..], id).value)
        decreases |tables| - endPos
      {
        assert tables[endPos..][1..] == tables[endPos + 1..];
        endPos := endPos + 1;
      }
      var startPos := endPos + 1 - |run|;
      tables := tables[..startPos] + [Table(id, files[id])] + tables[endPos + 1..];
      compacting := Spliced(compacting.m);
      SpliceStep(s, endPos, View());
    }

    /** The files of the other inputs go, one by one. */
    method Unlink(run: seq<Table>)
      requires Valid() && compacting.Spliced? && compacting.m.run == run != []
      modifies this`files, this`compacting
      ensures Valid() && compacting.NoCompaction? && Reaches(old(View()), View())
      ensures View() == old(View()).(files := files, compact := NoCompaction)
      ensures files == old(files) - (set t | t in Stale(run) :: t.id)
    {
      hide Does, Inv, DiskOk, LogBytes, ManifestFile, StrictlySorted, SumLen, Reaches;
      ghost var s := View();
      var stale := run[..|run| - 1];
      assert (set t | t in stale[..0] :: t.id) == {};
      ReachSelf(s);
      for i := 0 to |stale|
        invariant files == s.files - (set t | t in stale[..i] :: t.id) && compacting == old(compacting)
        invariant Valid() && Reaches(s, View())
      {
        ghost var s' := View();
        StaleIds(stale, i, s.files);
        files := files - {stale[i].id};
        UnlinkStep(s, s', stale[i], View());
      }
      assert stale[..|stale|] == stale;
      ghost var s' := View();
      compacting := NoCompaction;
      FinishStep(s, s', View());
    }

    /** What a compaction does under the flush lock once the merged file is written. */
    method PublishRun(run: seq<Table>, out: seq<Record>) returns (ghost s1: State, ghost s2: State, ghost s3: State)
      requires Valid() && compacting.Merged? && compacting.m.run == run != [] && compacting.m.out == out
      requires flushing.NoFlush? && applied == nextSeq
      modifies this`files, this`edits, this`tables, this`compacting, manifest
      ensures Valid() && Idle() && Does(old(View()), Engine.RenameOut, s1) && Does(s1, Engine.DeleteInputs, s2)
      ensures Does(s2, Engine.SpliceRun, s3) && View() == s3.(files := files, compact := NoCompaction)
    {
      hide Inv, DiskOk, OnDisk, Buffers, Does, Reaches, Stale;
      RenameOut(run, out);
      s1 := View();
      DeleteInputs(run);
      s2 := View();
      SpliceRun(run);
      s3 := View();
      Unlink(run);
    }

    /** At most one merge. `false` exactly when no run of tables qualifies. */
    method CompactStep() returns (did: bool)
      requires Valid() && Idle()
      modifies this`files, this`edits, this`tables, this`compacting, manifest
      ensures Valid() && Idle()
      ensures !did ==> View() == old(View()) && NoneBefore(SizesOf(tables, sizeOf), |tables|, compactionThreshold)
      ensures did ==> Compacts(old(View()), sizeOf, compactionThreshold, View())
    {
      hide Inv, DiskOk, OnDisk, Buffers, Does, NoneBefore, Maximal, Merges;
      var picked := PickCompaction(Sizes(), compactionThreshold);
      if picked.None? {
        return false;
      }
      var (start, end) := picked.value;
      ghost var s0 := View();
      var run, drop := Pick(start, end);
      assert run != [] by { PickedRun(s0, start, end, View()); }
      ghost var s1 := View();
      ghost var min;
      var out;
      out, min := MergeRun(start, run, drop);
      ghost var s2 := View();
      ghost var s3, s4, s5 := PublishRun(run, out);
      CompactEffect(s0, start, end, s1, out, s2, s3, s4, s5, View());
      assert CompactsRun(s0, sizeOf, compactionThreshold, start, end, View());
      did := true;
    }

    // --------------------------------------------------------------- maintenance

    /** Merge until no run qualifies, each time the run the picker chooses. With a
        threshold of at least two every merge removes a table, so this ends. `trail`
        lists the states between the merges. */
    method Drain() returns (ghost trail: seq<State>)
      requires Valid() && Idle() && compactionThreshold >= 2
      modifies this`files, this`edits, this`tables, this`compacting, manifest
      ensures Valid() && Idle() && NoneBefore(SizesOf(tables, sizeOf), |tables|, compactionThreshold)
      ensures Drained(old(View()), trail, sizeOf, compactionThreshold, View())
    {
      hide Inv, DiskOk, OnDisk, Buffers, NoneBefore, Compacts;
      trail := [View()];
      var more := true;
      while more
        invariant Valid() && Idle() && manifest == old(manifest)
        invariant Drained(old(View()), trail, sizeOf, compactionThreshold, View())
        invariant !more ==> NoneBefore(SizesOf(tables, sizeOf), |tables|, compactionThreshold)
        decreases |tables|, more
      {
        ghost var s := View();
        more := CompactStep();
        if more {
          CompactsShrinks(s, sizeOf, compactionThreshold, View());
          trail := trail + [View()];
        }
      }
    }

    /** Flush, then drain. */
    method Flush() returns (ghost trail: seq<State>)
      requires Valid() && Idle() && nextSstId < U64_MAX && compactionThreshold >= 2
      modifies this, manifest
      ensures Valid() && Idle() && active.entries == [] && hist == old(hist) && snapshots == old(snapshots)
      ensures NoneBefore(SizesOf(tables, sizeOf), |tables|, compactionThreshold)
      ensures trail != [] && Drained(trail[0], trail, sizeOf, compactionThreshold, View())
      ensures trail[0] == if old(active.entries) == [] then old(View()) else FlushedState(old(View()))
    {
      hide Inv, DiskOk, OnDisk, Buffers, NoneBefore, FlushEdits, Compacts;
      FlushInner();
      trail := Drain();
      DrainedKeeps(trail[0], trail, sizeOf, compactionThreshold, View());
    }

    /** Flush, then link the live tables into an empty directory and write a
        manifest there. The result opens to a healthy database with the same
        history; a directory that lists anything is refused. */
    method Checkpoint(listing: seq<string>) returns (r: Result<Disk>)
      requires Valid() && Idle() && nextSstId < U64_MAX
      modifies this, manifest
      ensures Valid() && Idle() && hist == old(hist) && active.entries == []
      ensures listing != [] ==> r == Err(Corrupt)
      ensures listing == [] ==>
                && r == Ok(CheckpointDisk(cs, View(), View())) && Recover(cs, r.value).Ok?
                && var s := Restored(Recover(cs, r.value).value, hist); Inv(s) && DiskOk(s)
    {
      hide Inv, DiskOk, OnDisk, Buffers, Recover, ManifestFile, SnapshotEdits, Restored, FlushEdits;
      FlushInner();
      if listing != [] {
        return Err(Corrupt);
      }
      var ids, linked := LinkTables(View(), tables, files);
      r := Ok(Disk([], ManifestFile(cs, SnapshotEdits(ManifestState(ids, nextSeq, nextSstId))), linked));
      EmptySettles(View());
      HistFacts(View());
      DiskBound(View());
      CheckpointOk(cs, View(), View(), |hist|);
      assert hist[..|hist|] == hist;
    }

    predicate FlushIsDue()
      reads this, active
    {
      frozen != null || (active.entries != [] && active.IsFull())
    }

    /** One unit of background work. A flush is due when something is frozen, or the
        buffer holds records and their encodings reach the limit; then that flush.
        Else the one merge the picker chooses, or `false` if it chooses none. */
    method Maintain() returns (more: bool)
      requires Valid() && Idle() && nextSstId < U64_MAX
      modifies this, manifest
      ensures Valid() && Idle() && manifest == old(manifest)
      ensures old(frozen != null || (active.entries != [] && SumLen(active.entries) >= memThreshold)) ==>
                more && View() == FlushedState(old(View()))
      ensures !old(frozen != null || (active.entries != [] && SumLen(active.entries) >= memThreshold)) ==>
                && active == old(active) && frozen == old(frozen) && active.entries == old(active.entries)
                && (more ==> Compacts(old(View()), sizeOf, compactionThreshold, View()))
                && (!more ==> View() == old(View()) && NoneBefore(SizesOf(tables, sizeOf), |tables|, compactionThreshold))
    {
      hide DiskOk, OnDisk, NoneBefore, FlushEdits, Compacts, HistoryOk, LayersOk, ViewOk, IdsOk, CompactOk,
        StrictlySorted, SumLen;
      if FlushIsDue() {
        FlushInner();
        return true;
      }
      more := CompactStep();
    }

    /** Calling `Maintain` until it reports no more work ends with nothing due and no
        run to merge, after one flush if one was due and none otherwise. */
    method MaintainAll()
      requires Valid() && Idle() && nextSstId < U64_MAX - 1 && compactionThreshold >= 2
      modifies this, manifest
      ensures Valid() && Idle() && frozen == null && (active.entries == [] || SumLen(active.entries) < memThreshold)
      ensures NoneBefore(SizesOf(tables, sizeOf), |tables|, compactionThreshold)
      ensures hist == old(hist) && snapshots == old(snapshots)
      ensures nextSstId ==
              old(nextSstId) + if old(active.entries != [] && SumLen(active.entries) >= memThreshold) then 1 else 0
    {
      hide Inv, DiskOk, OnDisk, Buffers, NoneBefore, Compacts, SumLen, FlushEdits;
      IdleUnfrozen(View());
      ghost var due := active.entries != [] && SumLen(active.entries) >= memThreshold;
      var more := true;
      while more
        invariant Valid() && Idle() && manifest == old(manifest) && hist == old(hist) && snapshots == old(snapshots)
        invariant frozen == null && nextSstId <= old(nextSstId) + 1
        invariant active.entries != [] && SumLen(active.entries) >= memThreshold ==> due && nextSstId == old(nextSstId)
        invariant active.entries == [] || SumLen(active.entries) < memThreshold ==>
                    nextSstId == old(nextSstId) + if due then 1 else 0
        invariant !more ==> active.entries == [] || SumLen(active.entries) < memThreshold
        invariant !more ==> NoneBefore(SizesOf(tables, sizeOf), |tables|, compactionThreshold)
        decreases active.entries != [] && SumLen(active.entries) >= memThreshold, |tables|, more
      {
        ghost var s := View();
        more := Maintain();
        IdleUnfrozen(View());
        if more && !(s.active != [] && SumLen(s.active) >= memThreshold) {
          CompactsShrinks(s, sizeOf, compactionThreshold, View());
        }
      }
    }
  }

  /** Crash anywhere, open the directory: opening succeeds, on a handle that answers
      for everything acknowledged; it is as good as one that never crashed exactly
      when the crash was harmless. */
  method OpenAfterCrash(cs: Checksums, memThreshold: nat, compactionThreshold: nat, sizeOf: seq<Record> -> nat, d: Disk,
                        ghost s: State, ghost c: CrashPoint)
    returns (r: Result<Db>)
    requires Inv(s) && DiskOk(s) && PointOk(cs, s, c) && d == DiskImage(cs, s, c)
    ensures r.Ok? && fresh(r.value) && r.value.hist == s.hist + Landed(cs, s, c)
    ensures CrashesTo(cs, s, c, r.value.View()) && (r.value.Valid() <==> Harmless(cs, s, c))
  {
    hide Inv, DiskOk, DiskImage, Recover, Harmless, PointOk, Landed, Rebuilt, InsertAll, CrashTables,
      CrashManifest;
    var o := Assemble(cs, d, memThreshold);
    RecoverOpens(cs, s, c);
    CrashState(cs, s, c, AfterCrash(cs, s, c, o.value));
    var db := new Db.Reopen(cs, memThreshold, compactionThreshold, sizeOf, d, o.value, s, c);
    r := Ok(db);
  }
}
