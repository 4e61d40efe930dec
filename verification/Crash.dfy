/** What a database shows after a crash. Every acknowledged write is there and
    the batch in flight is there whole or not at all, with two exceptions: a window
    of a compaction that drops tombstones, and writes behind a torn tail of the log.
    For each part of the invariant the exact condition is given under which a crash
    keeps it, in terms of the state before the crash. */
module Crash {
  import opened Records
  import opened Header
  import opened Layers
  import opened Retention
  import opened MemTables
  import opened Manifest
  import opened Wal
  import opened Engine
  import opened EngineSafety
  import opened Durability
  import opened Splicing
  import opened Recovery

  // --------------------------------------------------------- the recovered state

  function LogAfter(cs: Checksums, s: State, c: CrashPoint): (log: LogState) {
    var tail := InFlight(cs, s, c)[..if c.walCut <= |InFlight(cs, s, c)| then c.walCut else 0];
    if s.log.Torn? then
      Torn(s.log.frames, Behind(cs, s.log) + tail, [])
    else if Landed(cs, s, c) != [] then
      Whole(s.log.frames + [Landed(cs, s, c)])
    else if tail == [] then
      Whole(s.log.frames)
    else
      Torn(s.log.frames, tail, [])
  }

  /** The history a restarted database answers for. */
  function HistAfter(cs: Checksums, s: State, c: CrashPoint): (hist: seq<Record>) {
    s.hist + Landed(cs, s, c)
  }

  function AfterCrash(cs: Checksums, s: State, c: CrashPoint, o: Opened): (s': State) {
    State(LogAfter(cs, s, c), o.active, None, o.tables, o.nextSstId, o.nextSeq, 0, o.edits, o.files, multiset{},
          NoFlush, NoCompaction, HistAfter(cs, s, c))
  }

  /** Crash at `c`, then open the directory. */
  ghost predicate CrashesTo(cs: Checksums, s: State, c: CrashPoint, s': State) {
    && PointOk(cs, s, c)
    && var r := Recover(cs, DiskImage(cs, s, c));
    && r.Ok? && s' == AfterCrash(cs, s, c, r.value)
  }

  lemma CrashState(cs: Checksums, s: State, c: CrashPoint, s': State)
    requires Inv(s) && DiskOk(s) && CrashesTo(cs, s, c, s')
    ensures PointOk(cs, s, c) && Crashable(s) && Survived(c) <= |PendingEdits(s)|
    ensures s'.tables == CrashTables(s, Survived(c))
    ensures s'.active == ActiveAfter(cs, s, c) && s'.reserved == 0
    ensures s'.hist == HistAfter(cs, s, c) && s'.frozen == None && s'.snapshots == multiset{}
    ensures s'.nextSstId == CrashManifest(s, c).nextSstId
    ensures s'.nextSeq == NextSeqAfter(CrashManifest(s, c).nextSeq, Concat(s.log.frames) + Landed(cs, s, c))
  {
    hide Inv, DiskOk, CrashTables, CrashManifest, Recover, InsertAll, Landed, NextSeqAfter, DiskImage, InFlight,
      PendingEdits, BatchFits;
    RecoverOpens(cs, s, c);
    InsertAllConcat([], Concat(s.log.frames), Landed(cs, s, c));
  }

  lemma {:induction false} InsertAllConcat(run: seq<Record>, a: seq<Record>, b: seq<Record>)
    ensures InsertAll(run, a + b) == InsertAll(InsertAll(run, a), b)
    decreases |a|
  {
    if a == [] {
      assert a + b == b;
    } else {
      assert (a + b)[1..] == a[1..] + b;
      InsertAllConcat(Insert(run, a[0]), a[1..], b);
    }
  }

  // ------------------------------------------------------- the rebuilt MemTable

  /** Everything in the log file as a MemTable: what replay would rebuild if it got
      past a torn tail. */
  function Rebuilt(s: State): (run: seq<Record>) {
    InsertAll([], LogRecords(s.log))
  }

  /** What replay finds before a torn tail. */
  function Found(s: State): (run: seq<Record>) {
    InsertAll([], Concat(s.log.frames))
  }

  /** The recovered MemTable. */
  function ActiveAfter(cs: Checksums, s: State, c: CrashPoint): (run: seq<Record>) {
    InsertAll(Found(s), Landed(cs, s, c))
  }

  lemma RunOf(rs: seq<Record>)
    requires Consistent(rs)
    ensures StrictlySorted(InsertAll([], rs)) && Consistent(InsertAll([], rs))
    ensures forall r :: r in InsertAll([], rs) <==> r in rs
  {
    hide InsertAll, StrictlySorted;
    assert [] + rs == rs;
    EmptySorted();
    InsertAllMembers([], rs);
  }

  /** It holds the active MemTable and, until the log is rewritten, the frozen
      one as well. */
  lemma RebuiltMembers(s: State)
    requires Inv(s) && LogOk(s)
    ensures StrictlySorted(Rebuilt(s)) && Consistent(Rebuilt(s))
    ensures forall r :: r in Rebuilt(s) <==> r in s.active || (s.frozen.Some? && !s.flush.Rewritten? && r in s.frozen.value)
    ensures forall r :: r in Rebuilt(s) <==> r in LogRecords(s.log)
    ensures forall r :: r in Rebuilt(s) ==> r in s.hist
  {
    hide Inv, InsertAll, StrictlySorted, FramesFit, Concat, Consistent, LogRecords;
    LogDrawn(s);
    RunOf(LogRecords(s.log));
  }

  lemma FoundMembers(s: State)
    requires Inv(s) && LogOk(s)
    ensures StrictlySorted(Found(s)) && Consistent(Found(s))
    ensures forall r :: r in Found(s) <==> r in Concat(s.log.frames)
    ensures forall r :: r in Found(s) ==> r in Rebuilt(s) && r in s.hist
    ensures forall r :: r in Rebuilt(s) <==> r in Found(s) || (s.log.Torn? && r in Concat(s.log.later))
    ensures s.log.Whole? ==> Found(s) == Rebuilt(s)
  {
    hide Inv, InsertAll, StrictlySorted, FramesFit, Concat;
    LogDrawn(s);
    RebuiltMembers(s);
    assert Consistent(Concat(s.log.frames));
    RunOf(Concat(s.log.frames));
  }

  lemma EmptySorted()
    ensures StrictlySorted([])
  {
  }

  /** With no frozen MemTable pending, replay rebuilds the active one exactly. */
  lemma RebuiltActive(s: State)
    requires Inv(s) && LogOk(s) && (s.frozen.None? || s.flush.Rewritten?)
    ensures Rebuilt(s) == s.active
  {
    RebuiltMembers(s);
    StrictlySortedUnique(Rebuilt(s), s.active);
  }

  /** One layer in place of two: the union of a layer and the one it lies over
      gives the first hit of the two. */
  lemma UnionReads(f: seq<Record>, a: seq<Record>, u: seq<Record>, k: Key, h: nat)
    requires Over(a, f) && Consistent(u) && forall r :: r in u <==> r in a || r in f
    ensures Newest(u, k, h) == if Newest(a, k, h).Some? then Newest(a, k, h) else Newest(f, k, h)
  {
    var o := if Newest(a, k, h).Some? then Newest(a, k, h) else Newest(f, k, h);
    assert IsNewest(u, k, h, o);
    NewestUnique(u, k, h, o);
  }

  lemma UnionLayered(t: seq<seq<Record>>, f: seq<Record>, a: seq<Record>, u: seq<Record>)
    requires Layered(t + [f] + [a]) && forall r :: r in u <==> r in a || r in f
    ensures Layered(t + [u]) && Layered(t + [f] + [u]) && Over(a, f)
  {
    LayeredConcat(t + [f], [a]);
    LayeredConcat(t, [f]);
    AllOverConcat([a], t, [f]);
    assert Over([a][0], [f][0]);
    forall i | 0 <= i < |t|
      ensures Over(u, t[i])
    {
      assert Over([a][0], t[i]) && Over([f][0], t[i]);
    }
    assert AllOver([u], t) && AllOver([u], [f]);
    LayeredConcat(t, [u]);
    AllOverConcat([u], t, [f]);
    LayeredConcat(t + [f], [u]);
  }

  /** A crash with a frozen MemTable still backed by the log: its records are
      replayed above its own table, if that table is already named. */
  lemma FrozenBase(s: State, tables: seq<Table>, k: Key, h: nat)
    requires Inv(s) && LogOk(s) && s.frozen.Some? && !s.flush.Rewritten?
    requires || tables == s.tables
             || ((s.flush.Renamed? || s.flush.Logged?) && tables == s.tables + [Table(s.flush.id, s.frozen.value)])
    ensures Layered(Recs(tables) + [Rebuilt(s)])
    ensures Get(Recs(tables) + [Rebuilt(s)], k, h) == Get(Stack(s), k, h)
  {
    hide Layered, Shows, IsCompaction, Covers, BatchFits, InsertAll, StrictlySorted, Sorted, Drawn, Consistent,
      Rebuilt;
    var f, a, u, t := s.frozen.value, s.active, Rebuilt(s), Recs(s.tables);
    RebuiltMembers(s);
    assert Stack(s) == t + [f] + [a];
    UnionLayered(t, f, a, u);
    UnionReads(f, a, u, k, h);
    GetPush(t + [f], a, k, h);
    GetPush(t, f, k, h);
    GetPush(t, u, k, h);
    GetPush(t + [f], u, k, h);
    if tables != s.tables {
      assert Recs(tables) == t + [f];
    }
  }

  /** Every crash outside a compaction's publish: the recovered layers, without
      the batch in flight, are layered and read as before the crash. */
  lemma SteadyBase(s: State, c: CrashPoint, k: Key, h: nat)
    requires Inv(s) && LogOk(s) && Crashable(s) && !s.compact.OutRenamed? && !s.compact.InputsDeleted?
    ensures Layered(Recs(CrashTables(s, Survived(c))) + [Rebuilt(s)])
    ensures Get(Recs(CrashTables(s, Survived(c))) + [Rebuilt(s)], k, h) == Get(Stack(s), k, h)
  {
    hide Get, Rebuilt, LogOk;
    var tables := CrashTables(s, Survived(c));
    if s.frozen.Some? && !s.flush.Rewritten? {
      FrozenBase(s, tables, k, h);
    } else {
      RebuiltActive(s);
      assert tables == s.tables;
      if s.frozen.Some? {
        RewrittenBase(s, k, h);
      } else {
        assert Stack(s) == Recs(s.tables) + [s.active];
      }
    }
  }

  lemma RewrittenBase(s: State, k: Key, h: nat)
    requires Inv(s) && s.flush.Rewritten?
    ensures Layered(Recs(s.tables) + [s.active]) && Get(Recs(s.tables) + [s.active], k, h) == Get(Stack(s), k, h)
  {
    hide Layered, Shows, IsCompaction, Covers, StrictlySorted, Sorted, Drawn, Get;
    var f, older := s.frozen.value, s.tables[..|s.tables| - 1];
    assert s.tables == older + [Table(s.flush.id, f)];
    assert Recs(s.tables) == Recs(older) + [f];
    assert Stack(s) == Recs(older) + [f] + [f] + [s.active];
    DoubledLayered(Recs(older), f, [s.active]);
    Doubled(Recs(older), f, [s.active], k, h);
  }

  // ------------------------------------- a crash while a compaction publishes

  /** The layers above the run, once the batch in flight is in. */
  function Above(s: State, active: seq<Record>): (stack: seq<seq<Record>>)
    requires s.compact.OutRenamed? || s.compact.InputsDeleted?
    requires RunAt(s, s.compact.m.start, s.compact.m.run)
  {
    Recs(s.tables[s.compact.m.start + |s.compact.m.run|..]) + [active]
  }

  /** Key `k` comes back from the dead: nothing above the run holds it, its
      newest version in the run was a tombstone that the merge peeled, and the
      inputs the manifest still names hold a value for it. */
  ghost predicate Resurrected(s: State, p: nat, active: seq<Record>, k: Key) {
    && (s.compact.OutRenamed? || s.compact.InputsDeleted?)
    && RunAt(s, s.compact.m.start, s.compact.m.run)
    && var m := s.compact.m;
    var run := Recs(m.run);
    && m.drop
    && Get(Above(s, active), k, U64_MAX).None?
    && Get(run, k, U64_MAX).Some? && Peeled(run, m.min, Get(run, k, U64_MAX).value)
    && Value(Get(run[Gone(s, p)..|run| - 1], k, U64_MAX)).Some?
  }

  lemma {:induction false} GetNone(stack: seq<seq<Record>>, k: Key, h: nat)
    ensures Get(stack, k, h).None? <==> forall i :: 0 <= i < |stack| ==> Newest(stack[i], k, h).None?
  {
    if stack != [] {
      GetNone(stack[..|stack| - 1], k, h);
    }
  }

  /** Reads of the run with part of its inputs still under the merged output. */
  lemma PartReads(pre: seq<seq<Record>>, inputs: seq<seq<Record>>, m: Merge, g: nat, k: Key, h: nat)
    requires Layered(inputs) && ConsistentStack(inputs) && g < |inputs|
    requires IsCompaction(inputs, m.drop, m.min, m.out) && Covers(inputs, m.min, h) && (m.drop ==> pre == [])
    ensures var before, after := Get(pre + inputs, k, h), Get(pre + inputs[g..|inputs| - 1] + [m.out], k, h);
            var top := Get(inputs, k, h);
            if m.drop && top.Some? && Peeled(inputs, m.min, top.value)
            then Value(before) == None && after == Get(inputs[g..|inputs| - 1], k, h)
            else after == before
  {
    hide Layered, ConsistentStack, IsCompaction, Covers, Retained;
    var rest := inputs[g..|inputs| - 1];
    CompactionNewest(inputs, m.drop, m.min, m.out, k, h);
    GetPush(pre + rest, m.out, k, h);
    GetConcat(pre, inputs, k, h);
    GetConcat(pre, rest, k, h);
    var top := Get(inputs, k, h);
    if top.None? {
      GetNone(inputs, k, h);
      GetNone(rest, k, h);
    } else if m.drop && Peeled(inputs, m.min, top.value) {
      PeeledIsTombstone(inputs, m.min, top.value);
      assert pre + inputs == inputs && pre + rest == rest;
    }
  }

  lemma PeeledIsTombstone(inputs: seq<seq<Record>>, min: nat, t: Record)
    requires Peeled(inputs, min, t)
    ensures t.value == None
  {
  }

  lemma PublishFacts(s: State)
    requires Inv(s) && (s.compact.OutRenamed? || s.compact.InputsDeleted?)
    ensures s.frozen.None? && MergeOk(s, s.compact.m) && RunAt(s, s.compact.m.start, s.compact.m.run)
    ensures HistoryOk(s) && LayersOk(s) && Covers(Recs(s.compact.m.run), s.compact.m.min, U64_MAX)
  {
    hide Layered, Shows, IsCompaction, Covers, StrictlySorted, Sorted, Drawn;
    assert LiveBound(s, U64_MAX);
  }

  /** The recovered layers around a half-published compaction. */
  lemma PublishStack(s: State, p: nat, active: seq<Record>)
    requires s.compact.OutRenamed? || s.compact.InputsDeleted?
    requires Crashable(s) && !s.flush.Logged? && !s.flush.Renamed?
    ensures var m := s.compact.m;
            var pre, run, post := Recs(s.tables[..m.start]), Recs(m.run), Recs(s.tables[m.start + |m.run|..]);
            Recs(CrashTables(s, p)) + [active] == pre + run[Gone(s, p)..|run| - 1] + [m.out] + (post + [active])
  {
    hide Recs, CutRun;
    var m := s.compact.m;
    RecsCut(s.tables, m.start, |m.run|, Gone(s, p), m.out);
    Regroup(Recs(s.tables[..m.start]) + Recs(m.run)[Gone(s, p)..|m.run| - 1] + [m.out],
      Recs(s.tables[m.start + |m.run|..]), [active]);
  }

  lemma RunStack(s: State)
    requires s.compact.OutRenamed? || s.compact.InputsDeleted?
    requires Crashable(s) && s.frozen.None?
    ensures var m := s.compact.m;
            Stack(s) == Recs(s.tables[..m.start]) + Recs(m.run) + (Recs(s.tables[m.start + |m.run|..]) + [s.active])
  {
    hide Recs;
    var m := s.compact.m;
    SplitStack(s.tables, m.start, |m.run|, Table(0, []), [s.active]);
    Regroup(Recs(s.tables), [], [s.active]);
    assert Stack(s) == Recs(s.tables) + [s.active];
  }

  lemma Regroup(a: seq<seq<Record>>, b: seq<seq<Record>>, c: seq<seq<Record>>)
    ensures (a + b) + c == a + (b + c)
    ensures b == [] ==> a + b == a
  {
  }

  lemma PublishLayered(s: State, p: nat)
    requires Inv(s) && (s.compact.OutRenamed? || s.compact.InputsDeleted?) && Crashable(s)
    ensures Layered(Recs(CrashTables(s, p)) + [s.active])
  {
    hide Inv, HistoryOk, Layered, IsCompaction, CrashTables, Stack, Covers, Drawn;
    PublishFacts(s);
    PublishNoFlush(s);
    PublishStack(s, p, s.active);
    RunStack(s);
    var m := s.compact.m;
    SpliceKeepsLayers(Recs(s.tables[..m.start]), Recs(m.run), Recs(s.tables[m.start + |m.run|..]) + [s.active],
                      m.drop, m.min, m.out, Gone(s, p), |m.run| - 1);
  }

  lemma PublishNoFlush(s: State)
    requires Inv(s) && (s.compact.OutRenamed? || s.compact.InputsDeleted?)
    ensures s.flush.NoFlush?
  {
    hide HistoryOk, LayersOk, ViewOk, IdsOk, CompactOk;
  }

  /** A read in the recovered state agrees with one before the crash exactly when
      its key was not resurrected. */
  lemma PublishReads(s: State, p: nat, active: seq<Record>, k: Key)
    requires Inv(s) && (s.compact.OutRenamed? || s.compact.InputsDeleted?) && Crashable(s)
    requires Newest(active, k, U64_MAX) == Newest(s.active, k, U64_MAX)
    ensures Value(Get(Recs(CrashTables(s, p)) + [active], k, U64_MAX)) == Value(Get(Stack(s), k, U64_MAX))
            <==> !Resurrected(s, p, active, k)
  {
    hide Inv, HistoryOk, LayersOk, Layered, IsCompaction, CrashTables, Stack, Covers, Peeled, Get, Crashable,
      MergeOk, Newest;
    PublishFacts(s);
    PublishNoFlush(s);
    PublishStack(s, p, active);
    RunStack(s);
    var m, h := s.compact.m, U64_MAX;
    RunLayered(s, m.start, m.run);
    PublishCompare(Recs(s.tables[..m.start]), Recs(m.run), Recs(s.tables[m.start + |m.run|..]), s, m, Gone(s, p), active, k);
  }

  lemma PublishCompare(pre: seq<seq<Record>>, run: seq<seq<Record>>, post: seq<seq<Record>>, s: State, m: Merge, g: nat,
                       active: seq<Record>, k: Key)
    requires MergeOk(s, m) && run == Recs(m.run) && |pre| == m.start && g < |run|
    requires Layered(run) && ConsistentStack(run) && Covers(run, m.min, U64_MAX)
    requires Newest(active, k, U64_MAX) == Newest(s.active, k, U64_MAX)
    ensures Value(Get(pre + run[g..|run| - 1] + [m.out] + (post + [active]), k, U64_MAX)) ==
            Value(Get(pre + run + (post + [s.active]), k, U64_MAX))
            <==> !(m.drop && Get(post + [active], k, U64_MAX).None?
                   && Get(run, k, U64_MAX).Some? && Peeled(run, m.min, Get(run, k, U64_MAX).value)
                   && Value(Get(run[g..|run| - 1], k, U64_MAX)).Some?)
  {
    hide Layered, IsCompaction, Covers, Peeled, Get, Newest, ConsistentStack;
    var h := U64_MAX;
    GetConcat(pre + run[g..|run| - 1] + [m.out], post + [active], k, h);
    GetConcat(pre + run, post + [s.active], k, h);
    GetPush(post, active, k, h);
    GetPush(post, s.active, k, h);
    PartReads(pre, run, m, g, k, h);
  }

  // ------------------------------------------------------------------ theorems

  /** The batch in flight goes on top of what replay rebuilt. */
  lemma LandedBatch(cs: Checksums, s: State, c: CrashPoint)
    requires PointOk(cs, s, c)
    ensures Chronological(Landed(cs, s, c))
    ensures forall r :: r in Landed(cs, s, c) ==> s.nextSeq <= r.seqno < Counter(s) && BatchFits([r])
  {
    hide BatchFits, InFlight;
    StampChronological(c.ops, s.nextSeq);
    forall r | r in Landed(cs, s, c)
      ensures BatchFits([r])
    {
      FrameAlone(Stamp(c.ops, s.nextSeq), r);
    }
  }

  lemma BaseLayered(s: State, c: CrashPoint)
    requires Inv(s) && LogOk(s) && Crashable(s)
    ensures Layered(Recs(CrashTables(s, Survived(c))) + [Rebuilt(s)])
  {
    hide Inv, Layered, CrashTables, LogOk, Rebuilt;
    if s.compact.OutRenamed? || s.compact.InputsDeleted? {
      PublishFacts(s);
      RebuiltActive(s);
      PublishLayered(s, Survived(c));
    } else {
      SteadyBase(s, c, [], 0);
    }
  }

  lemma CrashDrawn(s: State, c: CrashPoint)
    requires Inv(s) && LogOk(s) && Crashable(s)
    ensures Drawn(Recs(CrashTables(s, Survived(c))) + [Rebuilt(s)], s.hist)
    ensures forall t :: t in CrashTables(s, Survived(c)) ==> Sorted(t.recs)
  {
    hide Layered, Shows, Covers, BatchFits, InsertAll, Sorted, StrictlySorted, Retained, Peeled, LogOk, Rebuilt,
      CrashTables;
    RebuiltMembers(s);
    var tables := CrashTables(s, Survived(c));
    forall t | t in tables
      ensures Sorted(t.recs) && forall r :: r in t.recs ==> r in s.hist
    {
      CrashTableDrawn(s, Survived(c), t);
    }
    forall i, r | 0 <= i < |Recs(tables) + [Rebuilt(s)]| && r in (Recs(tables) + [Rebuilt(s)])[i]
      ensures r in s.hist
    {
      if i < |tables| {
        assert tables[i] in tables;
      }
    }
  }

  lemma CrashTableDrawn(s: State, p: nat, t: Table)
    requires Inv(s) && Crashable(s) && t in CrashTables(s, p)
    ensures Sorted(t.recs) && forall r :: r in t.recs ==> r in s.hist
  {
    hide Inv, CrashTables, Sorted;
    CrashTableOrigin(s, p, t);
    if t in s.tables {
      InvLayers(s);
      TableDrawn(s, t);
    } else if s.frozen.Some? && t.recs == s.frozen.value {
      InvLayers(s);
      FrozenDrawn(s);
      StrictIsSorted(s.frozen.value);
    } else {
      PublishFacts(s);
      OutDrawn(s, s.compact.m);
    }
  }

  lemma InvLayers(s: State)
    requires Inv(s)
    ensures LayersOk(s) && (s.frozen.Some? ==> StrictlySorted(s.frozen.value))
  {
    hide HistoryOk, ViewOk, IdsOk, FlushOk, CompactOk, Layered, Drawn, StrictlySorted, Sorted;
  }

  /** Where a recovered table comes from. */
  lemma CrashTableOrigin(s: State, p: nat, t: Table)
    requires Crashable(s) && t in CrashTables(s, p)
    ensures || t in s.tables
            || (s.frozen.Some? && t.recs == s.frozen.value)
            || ((s.compact.OutRenamed? || s.compact.InputsDeleted?) && t.recs == s.compact.m.out)
  {
    if s.flush.Logged? || (s.flush.Renamed? && p > 0) {
    } else if s.compact.OutRenamed? || s.compact.InputsDeleted? {
      var m := s.compact.m;
      CutIndex(s.tables, m.start, |m.run|, Gone(s, p), m.out);
      var next := CrashTables(s, p);
      var i :| 0 <= i < |next| && next[i] == t;
      assert i != m.start + |m.run| - 1 - Gone(s, p) ==> t == s.tables[Origin(m.start, Gone(s, p), i)];
    }
  }

  lemma TableDrawn(s: State, t: Table)
    requires LayersOk(s) && t in s.tables
    ensures Sorted(t.recs) && forall r :: r in t.recs ==> r in s.hist
  {
    var i :| 0 <= i < |s.tables| && s.tables[i] == t;
    assert Stack(s)[i] == t.recs;
  }

  lemma OutDrawn(s: State, m: Merge)
    requires HistoryOk(s) && LayersOk(s) && MergeOk(s, m)
    ensures Sorted(m.out) && forall r :: r in m.out ==> r in s.hist
  {
    RunBelow(s, m.start, m.run);
    forall r | r in m.out
      ensures r in s.hist
    {
      assert Kept(Recs(m.run), m.drop, m.min, r);
    }
  }

  lemma HistFacts(s: State)
    requires Inv(s)
    ensures Chronological(s.hist) && Counter(s) <= U64_MAX && forall r :: r in s.hist ==> r.seqno < s.nextSeq
  {
  }

  // ------------------------------------------------- writes behind a torn tail

  /** The newest write of `k` behind the torn tail. */
  function LateWrite(s: State, k: Key): (o: Option<Record>) {
    if s.log.Torn? then Lookup(Concat(s.log.later), k, U64_MAX) else None
  }

  /** What a recovered database says of `k` instead: what stands before the tail,
      and only if that does not hold the key, the tables the manifest names. */
  function FallBack(s: State, c: CrashPoint, k: Key): (o: Option<Record>)
    requires Crashable(s)
  {
    var before := Newest(Concat(s.log.frames), k, U64_MAX);
    if before.Some? then before else Get(Recs(CrashTables(s, Survived(c))), k, U64_MAX)
  }

  /** A read of `k` goes wrong: the key was written behind a torn tail and what
      recovery falls back to has another value, or it was not and comes back from
      the dead. Note that a late write can be in a table the manifest names and
      still be hidden by an older version before the tail. */
  ghost predicate Mistaken(cs: Checksums, s: State, c: CrashPoint, k: Key) {
    && Crashable(s)
    && if LateWrite(s, k).Some?
       then Value(FallBack(s, c, k)) != Value(LateWrite(s, k))
       else Resurrected(s, Survived(c), ActiveAfter(cs, s, c), k)
  }

  /** The counter recovery finds is past every late write. */
  ghost predicate LateCounted(s: State, c: CrashPoint) {
    s.log.Torn? ==> forall r :: r in Concat(s.log.later) ==> r.seqno < CrashManifest(s, c).nextSeq
  }

  /** No late write has reached a table the manifest names while an older version
      of its key stands before the tail, where replay would put it on top. */
  ghost predicate LateOnTop(s: State, c: CrashPoint) {
    s.log.Torn? && Crashable(s) ==>
      forall r, u :: r in Concat(s.log.later) && Member(Recs(CrashTables(s, Survived(c))), r) && u in Concat(s.log.frames) ==>
        u.key != r.key
  }

  lemma LateIsLater(s: State)
    requires Inv(s) && LogOk(s) && s.log.Torn?
    ensures forall r, u :: r in Concat(s.log.later) && u in Concat(s.log.frames) ==> u.seqno < r.seqno && r in s.hist
  {
    hide Inv, FramesFit, Concat;
    LogDrawn(s);
    HistFacts(s);
    var n := |s.hist| - |Concat(s.log.later)|;
    assert forall i :: n <= i < |s.hist| ==> s.hist[i] == Concat(s.log.later)[i - n];
    forall r, u | r in Concat(s.log.later) && u in Concat(s.log.frames)
      ensures u.seqno < r.seqno && r in s.hist
    {
      var j :| 0 <= j < |Concat(s.log.later)| && Concat(s.log.later)[j] == r;
      assert s.hist[n + j] == r;
      assert u in LogRecords(s.log);
      var i :| 0 <= i < |s.hist| && s.hist[i] == u;
    }
  }

  /** The recovered layers, the batch in flight aside, are in order exactly then. */
  lemma FoundLayered(s: State, c: CrashPoint)
    requires Inv(s) && LogOk(s) && Crashable(s)
    ensures Layered(Recs(CrashTables(s, Survived(c))) + [Found(s)]) <==> LateOnTop(s, c)
  {
    hide Inv, Layered, CrashTables, LogOk, Rebuilt, Found, Concat, StrictlySorted, Consistent, Over, LateOnTop;
    BaseLayered(s, c);
    FoundMembers(s);
    var below := Recs(CrashTables(s, Survived(c)));
    LayeredConcat(below, [Rebuilt(s)]);
    LayeredConcat(below, [Found(s)]);
    OneLayer(Found(s));
    if LateOnTop(s, c) {
      forall i | 0 <= i < |below|
        ensures Over(Found(s), below[i])
      {
        assert Over([Rebuilt(s)][0], below[i]);
        OverFound(s, c, i);
      }
    }
    if AllOver([Found(s)], below) {
      assert forall i :: 0 <= i < |below| ==> Over([Found(s)][0], below[i]);
      FoundOver(s, c);
    }
  }

  lemma OneLayer(run: seq<Record>)
    ensures Layered([run])
  {
  }

  lemma OverFound(s: State, c: CrashPoint, i: nat)
    requires Crashable(s) && i < |CrashTables(s, Survived(c))| && LateOnTop(s, c)
    requires Over(Rebuilt(s), Recs(CrashTables(s, Survived(c)))[i])
    requires forall r :: r in Found(s) <==> r in Concat(s.log.frames)
    requires forall r :: r in Rebuilt(s) <==> r in Found(s) || (s.log.Torn? && r in Concat(s.log.later))
    ensures Over(Found(s), Recs(CrashTables(s, Survived(c)))[i])
  {
    hide Rebuilt, Found, Concat, CrashTables, Crashable;
    var below := Recs(CrashTables(s, Survived(c)));
    assert forall r :: r in below[i] ==> Member(below, r);
  }

  lemma FoundOver(s: State, c: CrashPoint)
    requires Inv(s) && LogOk(s) && Crashable(s) && forall r :: r in Found(s) <==> r in Concat(s.log.frames)
    requires forall i :: 0 <= i < |CrashTables(s, Survived(c))| ==> Over(Found(s), Recs(CrashTables(s, Survived(c)))[i])
    ensures LateOnTop(s, c)
  {
    hide Inv, Found, Concat, CrashTables, Crashable, FramesFit, EndsWith;
    if s.log.Torn? {
      LateIsLater(s);
    }
  }

  lemma FoundDrawn(s: State, c: CrashPoint)
    requires Inv(s) && LogOk(s) && Crashable(s)
    ensures Drawn(Recs(CrashTables(s, Survived(c))) + [Found(s)], s.hist)
    ensures forall t :: t in CrashTables(s, Survived(c)) ==> Sorted(t.recs)
  {
    hide Inv, LogOk, Rebuilt, CrashTables, Found, Sorted, StrictlySorted, Consistent, Concat;
    CrashDrawn(s, c);
    FoundMembers(s);
    var tables := CrashTables(s, Survived(c));
    var all, found := Recs(tables) + [Rebuilt(s)], Recs(tables) + [Found(s)];
    forall i, r | 0 <= i < |found| && r in found[i]
      ensures r in s.hist
    {
      assert i < |tables| ==> r in all[i];
    }
  }

  /** The batch in flight on top of what replay found. */
  lemma LandedOnFound(cs: Checksums, s: State, c: CrashPoint)
    requires Inv(s) && LogOk(s) && PointOk(cs, s, c)
    ensures Consistent(Found(s) + Landed(cs, s, c)) && StrictlySorted(Found(s)) && Chronological(Landed(cs, s, c))
    ensures forall r, b :: r in Found(s) && b in Landed(cs, s, c) ==> r.seqno < b.seqno
  {
    hide Inv, LogOk, Found, Rebuilt, StrictlySorted, Landed, BatchFits, InFlight, Behind, Verified, PendingEdits,
      Concat;
    FoundMembers(s);
    LandedBatch(cs, s, c);
    HistFacts(s);
    ChronologicalConsistent(Landed(cs, s, c));
  }

  /** The recovered layers are in order exactly when no late write in a table is
      hidden from before the tail. */
  lemma CrashLayersOk(cs: Checksums, s: State, c: CrashPoint, s': State)
    requires Inv(s) && DiskOk(s) && CrashesTo(cs, s, c, s')
    ensures LayersOk(s') <==> LateOnTop(s, c)
  {
    hide Inv, DiskOk, Layered, Drawn, Sorted, StrictlySorted, CrashTables, Found, InsertAll, Landed, Consistent,
      Chronological, CrashesTo, CrashManifest, NextSeqAfter, PendingEdits, Crashable, BatchFits, InFlight, LateOnTop,
      PointOk;
    CrashState(cs, s, c, s');
    DiskLog(s);
    FoundLayered(s, c);
    var below := Recs(s'.tables);
    assert Stack(s') == below + [s'.active];
    if LateOnTop(s, c) {
      LandedBatch(cs, s, c);
      FoundDrawn(s, c);
      LandedOnFound(cs, s, c);
      HistFacts(s);
      WriteLayers(below, Found(s), s.hist, Landed(cs, s, c), s.nextSeq);
      assert forall i :: 0 <= i < |s'.tables| ==> s'.tables[i] in s'.tables;
    } else {
      NothingLands(cs, s, c);
    }
  }

  /** Nothing more comes out of a log with a torn tail. */
  lemma NothingLands(cs: Checksums, s: State, c: CrashPoint)
    requires !LateOnTop(s, c) || !LateCounted(s, c)
    ensures s.log.Torn? && Landed(cs, s, c) == [] && ActiveAfter(cs, s, c) == Found(s) && HistAfter(cs, s, c) == s.hist
  {
    hide Found, Concat, CrashTables, Crashable, InFlight;
    assert s.hist + [] == s.hist;
  }

  lemma CrashChronological(cs: Checksums, s: State, c: CrashPoint)
    requires Inv(s) && PointOk(cs, s, c)
    ensures Chronological(HistAfter(cs, s, c))
  {
    hide Inv, Chronological, PointOk, Landed, BatchFits;
    LandedBatch(cs, s, c);
    HistFacts(s);
    HistAppend(s.hist, Landed(cs, s, c), s.nextSeq);
  }

  /** The recovered database answers a read of `k` by the history, in-flight batch
      included if its frame is whole, exactly when the read is not mistaken. */
  lemma CrashRead(cs: Checksums, s: State, c: CrashPoint, s': State, k: Key)
    requires Inv(s) && DiskOk(s) && CrashesTo(cs, s, c, s')
    ensures Value(Get(Stack(s'), k, U64_MAX)) == Value(Lookup(s'.hist, k, U64_MAX)) <==> !Mistaken(cs, s, c, k)
  {
    hide Inv, DiskOk, CrashTables, Get, Lookup, Newest, Resurrected, CrashesTo, Crashable, LateWrite, FallBack,
      ActiveAfter, PointOk, CrashManifest, NextSeqAfter, PendingEdits, Survived;
    CrashState(cs, s, c, s');
    assert Stack(s') == Recs(s'.tables) + [s'.active];
    if LateWrite(s, k).Some? {
      LateRead(cs, s, c, k);
    } else {
      TimelyRead(cs, s, c, k);
    }
  }

  lemma LateRead(cs: Checksums, s: State, c: CrashPoint, k: Key)
    requires Inv(s) && DiskOk(s) && PointOk(cs, s, c) && Crashable(s) && LateWrite(s, k).Some?
    ensures Get(Recs(CrashTables(s, Survived(c))) + [ActiveAfter(cs, s, c)], k, U64_MAX) == FallBack(s, c, k)
    ensures Lookup(HistAfter(cs, s, c), k, U64_MAX) == LateWrite(s, k)
  {
    hide Inv, DiskOk, CrashTables, Get, Lookup, Newest, Crashable, PointOk, StrictlySorted, Consistent, Concat, Recs;
    DiskLog(s);
    FoundMembers(s);
    assert ActiveAfter(cs, s, c) == Found(s);
    GetPush(Recs(CrashTables(s, Survived(c))), Found(s), k, U64_MAX);
    SameNewest(Found(s), Concat(s.log.frames), k, U64_MAX);
    var n := |s.hist| - |Concat(s.log.later)|;
    assert s.hist == s.hist[..n] + Concat(s.log.later);
    LookupConcat(s.hist[..n], Concat(s.log.later), k, U64_MAX);
    assert s.hist + [] == s.hist;
  }

  lemma SameNewest(a: seq<Record>, b: seq<Record>, k: Key, h: nat)
    requires Consistent(a) && forall r :: r in a <==> r in b
    ensures Newest(a, k, h) == Newest(b, k, h)
  {
    NewestUnique(b, k, h, Newest(a, k, h));
  }

  /** A key that was not written behind a torn tail. */
  lemma TimelyRead(cs: Checksums, s: State, c: CrashPoint, k: Key)
    requires Inv(s) && DiskOk(s) && PointOk(cs, s, c) && Crashable(s) && LateWrite(s, k).None?
    ensures Value(Get(Recs(CrashTables(s, Survived(c))) + [ActiveAfter(cs, s, c)], k, U64_MAX)) ==
            Value(Lookup(HistAfter(cs, s, c), k, U64_MAX))
            <==> !Resurrected(s, Survived(c), ActiveAfter(cs, s, c), k)
  {
    hide Inv, DiskOk, CrashTables, Found, Rebuilt, InsertAll, Landed, Consistent, StrictlySorted, Get, Lookup,
      Newest, Resurrected, Crashable, Chronological, LateWrite, PointOk, Recs;
    DiskLog(s);
    LandedOnFound(cs, s, c);
    var batch, h := Landed(cs, s, c), U64_MAX;
    var below, active := Recs(CrashTables(s, Survived(c))), ActiveAfter(cs, s, c);
    NewestInsertAll(Found(s), batch, k, h);
    GetPush(below, active, k, h);
    LookupConcat(s.hist, batch, k, h);
    if Lookup(batch, k, h).Some? {
      NotResurrected(s, Survived(c), active, k);
    } else {
      CurrentBefore(s, k);
      TimelyFound(s, k);
      BaseRead(s, c, active, k);
    }
  }

  lemma TimelyFound(s: State, k: Key)
    requires Inv(s) && LogOk(s) && LateWrite(s, k).None?
    ensures Newest(Found(s), k, U64_MAX) == Newest(Rebuilt(s), k, U64_MAX)
  {
    hide Inv, LogOk, Found, Rebuilt, StrictlySorted, Newest, Lookup, Concat;
    FoundMembers(s);
    RebuiltMembers(s);
    if s.log.Torn? {
      LookupNothing(Concat(s.log.later), k, U64_MAX);
      RebuiltBelow(s, k);
    }
  }

  lemma {:induction false} LookupNothing(hist: seq<Record>, k: Key, h: nat)
    requires Lookup(hist, k, h).None?
    ensures forall r :: r in hist ==> !Visible(r, k, h)
  {
    if hist != [] {
      assert hist == hist[..|hist| - 1] + [hist[|hist| - 1]];
      LookupNothing(hist[..|hist| - 1], k, h);
    }
  }

  lemma RebuiltBelow(s: State, k: Key)
    requires s.log.Torn? && Consistent(Rebuilt(s)) && forall r :: r in Concat(s.log.later) ==> !Visible(r, k, U64_MAX)
    requires forall r :: r in Rebuilt(s) <==> r in Found(s) || r in Concat(s.log.later)
    ensures Newest(Found(s), k, U64_MAX) == Newest(Rebuilt(s), k, U64_MAX)
  {
    hide Found, Rebuilt, Concat;
    NewestUnique(Rebuilt(s), k, U64_MAX, Newest(Found(s), k, U64_MAX));
  }

  /** The same where the batch in flight does not touch the key. */
  lemma BaseRead(s: State, c: CrashPoint, active: seq<Record>, k: Key)
    requires Inv(s) && DiskOk(s) && Crashable(s)
    requires Newest(active, k, U64_MAX) == Newest(Rebuilt(s), k, U64_MAX)
    ensures Value(Get(Recs(CrashTables(s, Survived(c))) + [active], k, U64_MAX)) == Value(Get(Stack(s), k, U64_MAX))
            <==> !Resurrected(s, Survived(c), active, k)
  {
    hide Inv, DiskOk, CrashTables, Rebuilt, Get, Newest, Resurrected, Crashable, Stack, Recs;
    DiskLog(s);
    if s.compact.OutRenamed? || s.compact.InputsDeleted? {
      PublishFacts(s);
      RebuiltActive(s);
      PublishReads(s, Survived(c), active, k);
    } else {
      var below := Recs(CrashTables(s, Survived(c)));
      GetPush(below, active, k, U64_MAX);
      GetPush(below, Rebuilt(s), k, U64_MAX);
      SteadyBase(s, c, k, U64_MAX);
      NoPublish(s, Survived(c), active, k);
    }
  }

  lemma CurrentBefore(s: State, k: Key)
    requires Inv(s)
    ensures Value(Get(Stack(s), k, U64_MAX)) == Value(Lookup(s.hist, k, U64_MAX))
  {
    assert LiveBound(s, U64_MAX);
    assert Shows(Stack(s), s.hist, U64_MAX);
  }

  lemma DiskLog(s: State)
    requires DiskOk(s)
    ensures LogOk(s)
  {
  }

  lemma NoPublish(s: State, p: nat, active: seq<Record>, k: Key)
    requires !s.compact.OutRenamed? && !s.compact.InputsDeleted?
    ensures !Resurrected(s, p, active, k)
  {
  }

  /** A key the recovered MemTable holds is not resurrected. */
  lemma NotResurrected(s: State, p: nat, active: seq<Record>, k: Key)
    requires Newest(active, k, U64_MAX).Some?
    ensures !Resurrected(s, p, active, k)
  {
  }

  // ------------------------------------------------------------------ counters

  /** The one way a crash breaks the id counter: of a flush's three edits only
      the first is whole, so the new table is named and the counter is not moved. */
  predicate TornAdd(s: State, c: CrashPoint) {
    s.flush.Renamed? && Survived(c) == 1
  }

  lemma CrashCounters(s: State, c: CrashPoint)
    requires Inv(s) && DiskOk(s) && Survived(c) <= |PendingEdits(s)|
    ensures var ms := CrashManifest(s, c);
            && Durable(s).nextSeq <= ms.nextSeq <= Counter(s)
            && ms.nextSstId <= s.nextSstId
            && ((forall id :: id in ms.live ==> id < ms.nextSstId) <==> !TornAdd(s, c))
  {
    hide Layered, Drawn, Shows, IsCompaction, Covers, BatchFits, Fold, StrictlySorted, Sorted, Chronological,
      FramesFit, EditsFit, LogOk, FilesOk, CrashManifest, TableIds;
    if s.flush.Logged? || s.flush.Renamed? {
      FlushManifest(s, c);
      if s.flush.Renamed? {
        IdsBelow(s);
      }
    } else if s.compact.OutRenamed? || s.compact.InputsDeleted? {
      CompactManifest(s, c);
      GoneIsStale(s, Survived(c));
    } else {
      SteadyTables(s, c);
    }
  }

  lemma IdsBelow(s: State)
    requires IdsOk(s)
    ensures forall id :: id in TableIds(s.tables) ==> id < s.nextSstId
  {
  }

  lemma GoneIsStale(s: State, p: nat)
    requires (s.compact.OutRenamed? || s.compact.InputsDeleted?) && s.compact.m.run != []
    requires p <= |PendingEdits(s)| && s.flush.NoFlush?
    ensures TableIds(s.tables) - TableIds(Stale(s.compact.m.run)[..Gone(s, p)]) <= TableIds(s.tables)
    ensures s.compact.InputsDeleted? ==> Stale(s.compact.m.run)[..Gone(s, p)] == Stale(s.compact.m.run)
  {
  }

  /** The next id exceeds every live id after recovery, exactly when the flush
      batch was not torn behind its first edit. */
  lemma CrashIds(cs: Checksums, s: State, c: CrashPoint, s': State)
    requires Inv(s) && DiskOk(s) && CrashesTo(cs, s, c, s')
    ensures IdsOk(s') <==> !TornAdd(s, c)
  {
    hide Inv, DiskOk, CrashTables, CrashManifest, CrashesTo, InFlight, PendingEdits, BatchFits, InsertAll,
      NextSeqAfter, Crashable, Rebuilt, Landed;
    CrashState(cs, s, c, s');
    TablesReopen(cs, s, c);
    CrashCounters(s, c);
    var ms := CrashManifest(s, c);
    assert IdsOk(s') <==> forall i :: 0 <= i < |s'.tables| ==> s'.tables[i].id < ms.nextSstId;
    if forall id :: id in ms.live ==> id < ms.nextSstId {
      forall i | 0 <= i < |s'.tables|
        ensures s'.tables[i].id < ms.nextSstId
      {
        IdAt(s'.tables, i);
      }
    } else {
      var id :| id in ms.live && id >= ms.nextSstId;
      var i := IdIndex(s'.tables, id);
    }
  }

  /** Every acknowledged number stays below the recovered counter, or its record is
      in the recovered MemTable. */
  lemma StillCounted(s: State, c: CrashPoint)
    requires Inv(s) && DiskOk(s) && LateCounted(s, c) && Survived(c) <= |PendingEdits(s)|
    ensures forall r :: r in s.hist ==> r.seqno < CrashManifest(s, c).nextSeq || r in Concat(s.log.frames)
    ensures forall r :: r in Concat(s.log.frames) ==> r in s.hist
  {
    hide Inv, DiskOk, CrashManifest, Concat, Durable;
    CrashCounters(s, c);
    Logged(s);
    DiskLog(s);
    LogDrawn(s);
  }

  lemma Logged(s: State)
    requires Inv(s) && DiskOk(s)
    ensures forall r :: r in s.hist ==> r.seqno < Durable(s).nextSeq || r in LogRecords(s.log)
  {
    hide Inv, FramesFit, EditsFit, Concat, Durable, FilesOk, ManifestOk, FramableOk, EndsWith;
    FlushRewritten(s);
  }

  lemma FlushRewritten(s: State)
    requires Inv(s)
    ensures s.frozen.Some? <==> !s.flush.NoFlush?
  {
    hide HistoryOk, LayersOk, ViewOk, IdsOk, CompactOk;
  }

  /** The recovered counter exceeds every acknowledged number exactly when it is
      past every late write. */
  lemma CrashHistoryOk(cs: Checksums, s: State, c: CrashPoint, s': State)
    requires Inv(s) && DiskOk(s) && CrashesTo(cs, s, c, s')
    ensures HistoryOk(s') <==> LateCounted(s, c)
  {
    hide Inv, DiskOk, CrashTables, CrashManifest, CrashesTo, InFlight, PendingEdits, BatchFits, Landed, Chronological,
      Crashable, ActiveAfter, PointOk, Concat, NextSeqAfter;
    CrashState(cs, s, c, s');
    CrashChronological(cs, s, c);
    CrashCounters(s, c);
    HistFacts(s);
    DiskLog(s);
    LogDrawn(s);
    var rs := Concat(s.log.frames) + Landed(cs, s, c);
    if LateCounted(s, c) {
      LandedBatch(cs, s, c);
      StillCounted(s, c);
      assert forall r :: r in Concat(s.log.frames) ==> r in rs;
      assert forall r :: r in Landed(cs, s, c) ==> r in rs;
      assert forall r :: r in rs ==> r.seqno < U64_MAX;
    } else {
      NothingLands(cs, s, c);
      assert rs == Concat(s.log.frames);
      LateUncounted(s, CrashManifest(s, c).nextSeq);
    }
  }

  lemma LateUncounted(s: State, from: nat)
    requires Inv(s) && LogOk(s) && s.log.Torn? && exists r :: r in Concat(s.log.later) && r.seqno >= from
    ensures exists r :: r in s.hist && r.seqno >= NextSeqAfter(from, Concat(s.log.frames))
  {
    hide Inv, LogOk, Concat, NextSeqAfter;
    LateIsLater(s);
    LogDrawn(s);
    var r :| r in Concat(s.log.later) && r.seqno >= from;
    assert r in LogRecords(s.log);
    assert r.seqno >= NextSeqAfter(from, Concat(s.log.frames));
  }

  // ------------------------------------------------------------ back on disk

  lemma CrashLogOk(cs: Checksums, s: State, c: CrashPoint, s': State)
    requires Inv(s) && DiskOk(s) && CrashesTo(cs, s, c, s')
    ensures LogOk(s')
  {
    hide Inv, DiskOk, CrashTables, CrashManifest, InFlight, PendingEdits, BatchFits, Found, Concat, CrashesTo, PointOk,
      Landed, Crashable, StrictlySorted, Consistent, Chronological, Behind, LogRecords;
    CrashLogState(cs, s, c, s');
    CrashState(cs, s, c, s');
    DiskLog(s);
    FoundMembers(s);
    LandedOnFound(cs, s, c);
    InsertAllMembers(Found(s), Landed(cs, s, c));
    LogAfterRecords(cs, s, c);
    LogFits(s);
    NothingEnds(s'.hist);
    NothingConcat();
  }

  lemma LogFits(s: State)
    requires LogOk(s)
    ensures FramesFit(s.log.frames) && FramesFit([])
  {
  }

  lemma NothingEnds(hist: seq<Record>)
    ensures EndsWith(hist, Concat([]))
  {
  }

  lemma LogAfterRecords(cs: Checksums, s: State, c: CrashPoint)
    ensures LogRecords(LogAfter(cs, s, c)) == Concat(s.log.frames) + Landed(cs, s, c)
  {
    hide InFlight, Behind, Concat;
    AppendFrames(s.log.frames, Landed(cs, s, c));
    assert Concat(s.log.frames) + [] == Concat(s.log.frames);
    assert Concat([]) == [] by { NothingConcat(); }
  }

  lemma NothingConcat()
    ensures Concat([]) == []
  {
  }

  lemma CrashLogState(cs: Checksums, s: State, c: CrashPoint, s': State)
    requires CrashesTo(cs, s, c, s')
    ensures s'.log == LogAfter(cs, s, c) && (Landed(cs, s, c) != [] ==> BatchFits(Landed(cs, s, c)))
    ensures s'.frozen.None? && s'.flush.NoFlush? && s'.compact.NoCompaction?
  {
    hide Recover, DiskImage, BatchFits, LogAfter;
  }

  lemma CrashManifestOk(cs: Checksums, s: State, c: CrashPoint, s': State)
    requires Inv(s) && DiskOk(s) && CrashesTo(cs, s, c, s') && !TornAdd(s, c)
    ensures ManifestOk(s') && Durable(s') == CrashManifest(s, c) && FilesOk(s')
  {
    hide Inv, DiskOk, CrashTables, CrashManifest, Recover, InsertAll, LayersOk, HistoryOk, Fold, SnapshotEdits,
      DiskImage, PendingEdits, InFlight, BatchFits, Landed;
    RecoverOpens(cs, s, c);
    TablesReopen(cs, s, c);
    CrashCounters(s, c);
    HistFacts(s);
    DiskBound(s);
    var ms := CrashManifest(s, c);
    SnapshotReplays(ms);
    SnapshotFits(ms);
    assert Durable(s') == ms;
    forall t | t in s'.tables
      ensures t.id in s'.files && s'.files[t.id] == t.recs
    {
      assert t.id in TableIds(s'.tables);
    }
  }

  lemma DiskBound(s: State)
    requires DiskOk(s)
    ensures s.nextSstId <= U64_MAX
  {
    hide LogOk, CounterOk, FilesOk, FramableOk;
  }

  lemma SnapshotFits(ms: ManifestState)
    requires ms.nextSeq <= U64_MAX && ms.nextSstId <= U64_MAX && forall id :: id in ms.live ==> id < ms.nextSstId
    ensures EditsFit(SnapshotEdits(ms))
  {
    AddsFit(Ascending(ms.live), ms.nextSstId);
  }

  lemma {:induction false} AddsFit(ids: seq<nat>, n: nat)
    requires n <= U64_MAX && forall id :: id in ids ==> id < n
    ensures EditsFit(Adds(ids))
  {
    if ids != [] {
      assert ids[0] in ids;
      assert forall id :: id in ids[1..] ==> id in ids;
      AddsFit(ids[1..], n);
    }
  }

  lemma CrashRest(cs: Checksums, s: State, c: CrashPoint, s': State)
    requires Inv(s) && DiskOk(s) && CrashesTo(cs, s, c, s') && Durable(s') == CrashManifest(s, c) && LateCounted(s, c)
    ensures CounterOk(s') && FramableOk(s')
  {
    hide Inv, DiskOk, CrashTables, CrashManifest, InFlight, PendingEdits, BatchFits, LayersOk, Found, Concat,
      Consistent, StrictlySorted, Chronological, Durable, CrashesTo, Landed, CounterOk, LateCounted, PointOk, Crashable;
    CrashLogState(cs, s, c, s');
    CrashState(cs, s, c, s');
    DiskLog(s);
    LandedBatch(cs, s, c);
    FoundMembers(s);
    LandedOnFound(cs, s, c);
    StillCounted(s, c);
    InsertAllMembers(Found(s), Landed(cs, s, c));
    Framable(s);
    CounterFrom(s', CrashManifest(s, c));
  }

  lemma Framable(s: State)
    requires DiskOk(s)
    ensures FramableOk(s)
  {
  }

  lemma CounterFrom(s: State, ms: ManifestState)
    requires Durable(s) == ms && s.flush.NoFlush?
    requires forall r :: r in s.hist ==> r.seqno < ms.nextSeq || r in s.active
    ensures CounterOk(s)
  {
  }

  /** What a crash must not do for the database to be as good as before: tear the
      flush batch behind its first edit, give a late write's number out again, leave
      a late write hidden, or make a read go wrong. All of it can be told before the
      restart. */
  ghost predicate Harmless(cs: Checksums, s: State, c: CrashPoint) {
    !TornAdd(s, c) && LateCounted(s, c) && LateOnTop(s, c) && forall k :: !Mistaken(cs, s, c, k)
  }

  /** A crash leaves a database that satisfies the whole invariant again exactly
      when it is harmless. */
  lemma CrashKeeps(cs: Checksums, s: State, c: CrashPoint, s': State)
    requires Inv(s) && DiskOk(s) && CrashesTo(cs, s, c, s')
    ensures Inv(s') && DiskOk(s') <==> Harmless(cs, s, c)
  {
    hide HistoryOk, LayersOk, ViewOk, IdsOk, FlushOk, CompactOk, DiskOk, CrashesTo, Mistaken, TornAdd, LateCounted,
      LateOnTop;
    CrashHistoryOk(cs, s, c, s');
    CrashLayersOk(cs, s, c, s');
    CrashIds(cs, s, c, s');
    CrashView(cs, s, c, s');
    CrashResting(cs, s, c, s');
    if !TornAdd(s, c) && LateCounted(s, c) {
      CrashDisk(cs, s, c, s');
    }
  }

  lemma CrashResting(cs: Checksums, s: State, c: CrashPoint, s': State)
    requires CrashesTo(cs, s, c, s')
    ensures FlushOk(s') && CompactOk(s')
  {
    hide CrashesTo, LogAfter, Landed, BatchFits;
    CrashLogState(cs, s, c, s');
  }

  lemma CrashDisk(cs: Checksums, s: State, c: CrashPoint, s': State)
    requires Inv(s) && DiskOk(s) && CrashesTo(cs, s, c, s') && !TornAdd(s, c) && LateCounted(s, c)
    ensures DiskOk(s')
  {
    hide Inv, LogOk, ManifestOk, CounterOk, FilesOk, FramableOk, CrashesTo, TornAdd, LateCounted;
    CrashLogOk(cs, s, c, s');
    CrashManifestOk(cs, s, c, s');
    CrashRest(cs, s, c, s');
  }

  /** Every latest read of the recovered database is the history's, exactly when no
      key is mistaken. No snapshot survives a crash. */
  lemma CrashView(cs: Checksums, s: State, c: CrashPoint, s': State)
    requires Inv(s) && DiskOk(s) && CrashesTo(cs, s, c, s')
    ensures ViewOk(s') <==> forall k :: !Mistaken(cs, s, c, k)
  {
    hide Inv, DiskOk, CrashesTo, Mistaken, Get, Lookup, Stack, ActiveAfter, Crashable, PointOk, CrashTables,
      CrashManifest, HistAfter, PendingEdits;
    CrashState(cs, s, c, s');
    forall k
      ensures Value(Get(Stack(s'), k, U64_MAX)) == Value(Lookup(s'.hist, k, U64_MAX)) <==> !Mistaken(cs, s, c, k)
    {
      CrashRead(cs, s, c, s', k);
    }
    assert LiveBound(s', U64_MAX) && forall h :: LiveBound(s', h) ==> h == U64_MAX;
  }

  // ------------------------------------------------------------ orderly crashes

  /** A merge of the oldest tables has peeled a tombstone, its output is in place, and
      the manifest still names one of its stale inputs. */
  ghost predicate Exposed(s: State, c: CrashPoint) {
    && s.compact.OutRenamed? && s.compact.m.drop && Survived(c) < |Stale(s.compact.m.run)|
    && exists r :: Peeled(Recs(s.compact.m.run), s.compact.m.min, r)
  }

  /** Told by where the crash falls, and not by what is read afterwards: the log is
      frame-aligned or has had nothing appended behind its torn tail, the edits of a
      flush are not torn behind the first, and no peeled tombstone is exposed. */
  ghost predicate Orderly(s: State, c: CrashPoint) {
    (s.log.Torn? ==> s.log.later == []) && !TornAdd(s, c) && !Exposed(s, c)
  }

  /** No key is resurrected unless a peeled tombstone is exposed. */
  lemma NothingExposed(s: State, c: CrashPoint, active: seq<Record>, k: Key)
    requires !Exposed(s, c)
    ensures !Resurrected(s, Survived(c), active, k)
  {
    hide Peeled, Newest;
    if (s.compact.OutRenamed? || s.compact.InputsDeleted?) && RunAt(s, s.compact.m.start, s.compact.m.run) {
      var m := s.compact.m;
      var run := Recs(m.run);
      if Survived(c) >= |Stale(m.run)| || s.compact.InputsDeleted? {
        assert run[Gone(s, Survived(c))..|run| - 1] == [];
      }
    }
  }

  lemma OrderlyHarmless(cs: Checksums, s: State, c: CrashPoint)
    requires Orderly(s, c)
    ensures Harmless(cs, s, c)
  {
    hide CrashTables, CrashManifest, TornAdd, Exposed, Resurrected, FallBack, ActiveAfter, Member;
    NothingConcat();
    forall k
      ensures !Mistaken(cs, s, c, k)
    {
      NothingExposed(s, c, ActiveAfter(cs, s, c), k);
    }
  }

  /** An orderly crash costs nothing. Inside a write, a flush or a compaction,
      wherever it cuts the log and the manifest, the database that opens is healthy,
      and every read is answered by all that was acknowledged and the batch in
      flight, whole or not at all. */
  lemma OrderlyCrash(cs: Checksums, s: State, c: CrashPoint, s': State)
    requires Inv(s) && DiskOk(s) && CrashesTo(cs, s, c, s') && Orderly(s, c)
    ensures Inv(s') && DiskOk(s') && s'.hist == s.hist + Landed(cs, s, c)
    ensures Landed(cs, s, c) == [] || Landed(cs, s, c) == Stamp(c.ops, s.nextSeq)
    ensures forall k :: Value(Get(Stack(s'), k, U64_MAX)) == Value(Lookup(s.hist + Landed(cs, s, c), k, U64_MAX))
  {
    hide Inv, DiskOk, CrashesTo, Orderly, Harmless, Get, Lookup, Stack, InFlight, CrashTables, CrashManifest, NextSeqAfter,
      PointOk, Crashable, ActiveAfter;
    OrderlyHarmless(cs, s, c);
    CrashKeeps(cs, s, c, s');
    CrashState(cs, s, c, s');
    forall k
      ensures Value(Get(Stack(s'), k, U64_MAX)) == Value(Lookup(s'.hist, k, U64_MAX))
    {
      InvReads(s', k, U64_MAX);
    }
  }
}
