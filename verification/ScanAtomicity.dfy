/** Which moment a scan shows. Its sources are copied at three moments; the tables
    and the frozen MemTable among them show the last freeze that had reached them.
    A scan is exactly of that moment, apart from keys that were deleted since an
    older copy was made and whose tombstones a merge has peeled. */
module ScanAtomicity {
  import opened Records
  import opened Layers
  import opened Retention
  import opened Engine
  import opened EngineSafety
  import opened PointReads
  import opened Ranges
  import opened Scan
  import opened EngineScan
  import opened Movement
  import opened ScanMoments

  // ---------------------------------------------------------- records that fade

  /** The same record, or a tombstone that is gone where something was spliced. */
  predicate Faded(o: Option<Record>, o': Option<Record>, spliced: bool) {
    o' == o || (spliced && o'.None? && Value(o) == None)
  }

  predicate Spliced(steps: seq<Step>, a: nat, j: nat)
    requires j <= |steps|
  {
    exists i :: a <= i < j && steps[i].SpliceRun?
  }

  lemma SpliceFades(pre: seq<seq<Record>>, inputs: seq<seq<Record>>, post: seq<seq<Record>>,
                    drop: bool, min: nat, out: seq<Record>, k: Key, h: nat)
    requires Layered(inputs) && ConsistentStack(inputs)
    requires IsCompaction(inputs, drop, min, out) && Covers(inputs, min, h)
    requires drop ==> pre == []
    ensures Faded(Get(pre + inputs + post, k, h), Get(pre + [out] + post, k, h), true)
  {
    hide Layered, ConsistentStack, IsCompaction, Covers, Retained;
    GetConcat(pre + inputs, post, k, h);
    GetConcat(pre, inputs, k, h);
    GetConcat(pre + [out], post, k, h);
    GetPush(pre, out, k, h);
    CompactionNewest(inputs, drop, min, out, k, h);
    assert drop ==> Get(pre, k, h).None?;
    if Get(inputs, k, h).Some? && drop && Peeled(inputs, min, Get(inputs, k, h).value) {
      NewestRetained(inputs, min, k, h);
    }
  }

  lemma MergeFades(s: State, m: Engine.Merge, tables': seq<Table>, top: seq<seq<Record>>, k: Key, h: nat)
    requires MergeOk(s, m) && LiveBound(s, h)
    requires Layered(Recs(m.run)) && ConsistentStack(Recs(m.run))
    requires tables' == s.tables[..m.start] + [Table(MaxId(m.run), m.out)] + s.tables[m.start + |m.run|..]
    ensures Faded(Get(Recs(s.tables) + top, k, h), Get(Recs(tables') + top, k, h), true)
  {
    hide Layered, ConsistentStack, IsCompaction, Get, Recs;
    SplitStack(s.tables, m.start, |m.run|, Table(MaxId(m.run), m.out), top);
    SpliceFades(Recs(s.tables[..m.start]), Recs(m.run), Recs(s.tables[m.start + |m.run|..]) + top,
                m.drop, m.min, m.out, k, h);
  }

  lemma SplicedReads(s: State, s': State, k: Key, h: nat)
    requires Inv(s) && Does(s, SpliceRun, s') && LiveBound(s, h)
    ensures Faded(Get(Below(s), k, h), Get(Below(s'), k, h), true)
    ensures Faded(Get(Recs(s.tables), k, h), Get(Recs(s'.tables), k, h), true)
    ensures Faded(Get(Stack(s), k, h), Get(Stack(s'), k, h), true)
  {
    hide Does, HistoryOk, LayersOk, ViewOk, IdsOk, FlushOk, CompactOk, Get, MergeOk, Recs;
    SpliceRest(s, s');
    SpliceTables(s, s');
    var m := s.compact.m;
    RunLayered(s, m.start, m.run);
    MergeFades(s, m, s'.tables, FrozenLayer(s), k, h);
    MergeFades(s, m, s'.tables, [], k, h);
    assert Recs(s.tables) + [] == Recs(s.tables) && Recs(s'.tables) + [] == Recs(s'.tables);
    GetPush(Below(s), s.active, k, h);
    GetPush(Below(s'), s.active, k, h);
  }

  /** A freeze puts everything below, a publication puts that into the tables, and
      otherwise what is read there stays or fades. */
  lemma StepFades(s: State, step: Step, s': State, k: Key, h: nat)
    requires Inv(s) && Does(s, step, s') && LiveBound(s, h)
    ensures !step.Freeze? ==> Faded(Get(Below(s), k, h), Get(Below(s'), k, h), step.SpliceRun?)
    ensures step.Publish? ==> Get(Recs(s'.tables), k, h) == Get(Below(s), k, h)
    ensures !step.Publish? ==> Faded(Get(Recs(s.tables), k, h), Get(Recs(s'.tables), k, h), step.SpliceRun?)
  {
    hide Inv, Does, Get, Below;
    match step
    case Freeze => SameTables(s, step, s');
    case Publish => PublishFades(s, s', k, h);
    case ClearFrozen => ClearFades(s, s', k, h);
    case SpliceRun => SplicedReads(s, s', k, h);
    case _ =>
      SameBelow(s, step, s');
      SameTables(s, step, s');
  }

  lemma PublishFades(s: State, s': State, k: Key, h: nat)
    requires Inv(s) && Does(s, Publish, s')
    ensures Get(Below(s'), k, h) == Get(Below(s), k, h) && Get(Recs(s'.tables), k, h) == Get(Below(s), k, h)
  {
    hide HistoryOk, LayersOk, ViewOk, IdsOk, CompactOk, Get;
    var f := s.frozen.value;
    assert Recs(s'.tables) == Recs(s.tables) + [f];
    Doubled(Recs(s.tables), f, [], k, h);
    assert Recs(s.tables) + [f] + [f] + [] == Recs(s.tables) + [f] + [f];
    assert Recs(s.tables) + [f] + [] == Recs(s.tables) + [f];
  }

  lemma ClearFades(s: State, s': State, k: Key, h: nat)
    requires Inv(s) && Does(s, ClearFrozen, s')
    ensures Get(Below(s'), k, h) == Get(Below(s), k, h) && s'.tables == s.tables
  {
    hide HistoryOk, LayersOk, ViewOk, IdsOk, CompactOk, Get;
    var f, older := s.frozen.value, s.tables[..|s.tables| - 1];
    assert s.tables == older + [Table(s.flush.id, f)];
    assert Recs(s.tables) == Recs(older) + [f];
    Doubled(Recs(older), f, [], k, h);
    assert Recs(older) + [f] + [f] + [] == Recs(older) + [f] + [f];
    assert Recs(older) + [f] + [] == Recs(older) + [f];
    assert Recs(s.tables) + [] == Recs(s.tables);
  }

  // ------------------------------------------------------------ moments of a run

  /** The state right after the last freeze from `a` to `j`, or `a` if there is none. */
  function LastFreeze(steps: seq<Step>, a: nat, j: nat): (m: nat)
    requires a <= j <= |steps|
    ensures a <= m <= j && (m > a ==> steps[m - 1].Freeze?)
    ensures forall i :: m <= i < j ==> !steps[i].Freeze?
    decreases j
  {
    if j == a then a else if steps[j - 1].Freeze? then j else LastFreeze(steps, a, j - 1)
  }

  /** The same of the last of these freezes that has been published by `j`. */
  function LastPublished(steps: seq<Step>, a: nat, j: nat): (m: nat)
    requires a <= j <= |steps|
    ensures a <= m <= j && (m > a ==> steps[m - 1].Freeze? && exists p :: m <= p < j && steps[p].Publish?)
    decreases j
  {
    if j == a then a else if steps[j - 1].Publish? then LastFreeze(steps, a, j - 1) else LastPublished(steps, a, j - 1)
  }

  /** Below the active MemTable a read finds what it found at the last freeze. */
  lemma {:induction false} BelowFades(states: seq<State>, steps: seq<Step>, a: nat, j: nat, k: Key, h: nat)
    requires IsRun(states, steps) && Inv(states[0]) && a <= j < |states|
    requires forall i :: a <= i <= j ==> LiveBound(states[i], h)
    ensures Faded(Get(Below(states[LastFreeze(steps, a, j)]), k, h), Get(Below(states[j]), k, h), Spliced(steps, a, j))
    decreases j
  {
    hide Inv, Does, Get, Below;
    if a < j && !steps[j - 1].Freeze? {
      BelowFades(states, steps, a, j - 1, k, h);
      RunInv(states, steps, j - 1);
      StepFades(states[j - 1], steps[j - 1], states[j], k, h);
    }
  }

  /** In the tables, what it found at the last freeze published. */
  lemma {:induction false} TablesFade(states: seq<State>, steps: seq<Step>, a: nat, j: nat, k: Key, h: nat)
    requires IsRun(states, steps) && Inv(states[0]) && a <= j < |states|
    requires forall i :: a <= i <= j ==> LiveBound(states[i], h)
    ensures var m, found := LastPublished(steps, a, j), Get(Recs(states[j].tables), k, h);
            || Faded(Get(Below(states[m]), k, h), found, Spliced(steps, a, j))
            || (m == a && Faded(Get(Recs(states[a].tables), k, h), found, Spliced(steps, a, j)))
    decreases j
  {
    hide Inv, Does, Get, Below;
    if a < j {
      TablesFade(states, steps, a, j - 1, k, h);
      BelowFades(states, steps, a, j - 1, k, h);
      RunInv(states, steps, j - 1);
      StepFades(states[j - 1], steps[j - 1], states[j], k, h);
    }
  }

  /** A freeze behind `b` is the last one published, counted from `b` or before. */
  lemma {:induction false} PublishedFrom(steps: seq<Step>, a: nat, b: nat, j: nat)
    requires a <= b <= j <= |steps|
    ensures LastPublished(steps, b, j) > b ==> LastPublished(steps, a, j) == LastPublished(steps, b, j)
    ensures LastFreeze(steps, b, j) > b ==> LastFreeze(steps, a, j) == LastFreeze(steps, b, j)
    decreases j
  {
    if b < j {
      PublishedFrom(steps, a, b, j - 1);
    }
  }

  // ----------------------------------------------------------- reads that rise

  /** What a read finds later is not older: it stays, fades, or is written anew. */
  lemma {:induction false} ReadsRise(states: seq<State>, steps: seq<Step>, i: nat, j: nat, k: Key, h: nat)
    requires IsRun(states, steps) && Inv(states[0]) && i <= j < |states|
    requires forall t :: i <= t <= j ==> LiveBound(states[t], h)
    requires Get(Stack(states[i]), k, h).Some?
    ensures var was, now := Get(Stack(states[i]), k, h), Get(Stack(states[j]), k, h);
            && (now.Some? ==> was.value.seqno <= now.value.seqno) && was.value.seqno < states[j].nextSeq
            && (!Spliced(steps, i, j) ==> now.Some?)
    decreases j
  {
    hide Inv, Does, Get, Stack;
    if i < j {
      ReadsRise(states, steps, i, j - 1, k, h);
      RunInv(states, steps, j - 1);
      StepRises(states[j - 1], steps[j - 1], states[j], k, h);
    } else {
      RunInv(states, steps, i);
      FoundIsOld(states[i], k, h);
    }
  }

  lemma FoundIsOld(s: State, k: Key, h: nat)
    requires Inv(s) && Get(Stack(s), k, h).Some?
    ensures var r := Get(Stack(s), k, h).value; Member(Stack(s), r) && Visible(r, k, h) && r.seqno < s.nextSeq
  {
    hide ViewOk, IdsOk, FlushOk, CompactOk, Get, Sorted, StrictlySorted, Chronological;
    GetIsNewest(Stack(s), k, h);
  }

  lemma StepRises(s: State, step: Step, s': State, k: Key, h: nat)
    requires Inv(s) && Does(s, step, s') && LiveBound(s, h)
    ensures var was, now := Get(Stack(s), k, h), Get(Stack(s'), k, h);
            && (Faded(was, now, step.SpliceRun?) || (now.Some? && s.nextSeq <= now.value.seqno))
            && s.nextSeq <= s'.nextSeq
  {
    hide Inv, Does, Get, Stack;
    StepFields(s, step, s');
    match step
    case SpliceRun => SplicedReads(s, s', k, h);
    case Write(ops) =>
      WriteReads(s, ops, s', k, h);
      LookupMember(Stamp(ops, s.nextSeq), k, h);
    case Freeze => FlushReads(s, step, s', k, h);
    case Publish => FlushReads(s, step, s', k, h);
    case ClearFrozen => FlushReads(s, step, s', k, h);
    case _ => QuietReads(s, step, s');
  }

  // ------------------------------------------------------- the moment of a scan

  /** A freeze behind the second copy has reached the tables of the third. */
  predicate Late(steps: seq<Step>, a: nat, b: nat, c: nat)
    requires a <= b <= c <= |steps|
  {
    LastPublished(steps, a, c) > LastFreeze(steps, a, b)
  }

  /** The moment a scan shows: the last freeze its copies have seen, or the moment
      of the first copy if they have seen none since. */
  function Moment(steps: seq<Step>, a: nat, b: nat, c: nat): (m: nat)
    requires a <= b <= c <= |steps|
    ensures a <= m <= c && (m > a ==> steps[m - 1].Freeze?)
  {
    if Late(steps, a, b, c) then LastPublished(steps, a, c) else LastFreeze(steps, a, b)
  }

  /** The copies that show that moment. */
  function Newer(b: State, c: State, late: bool): (stack: seq<seq<Record>>) {
    if late then Recs(c.tables) else Recs(c.tables) + FrozenLayer(b)
  }

  /** The copies from before it. */
  function Older(a: State, b: State, late: bool): (stack: seq<seq<Record>>) {
    if late then FrozenLayer(b) + [a.active] else [a.active]
  }

  /** A key the older copies have a value for and the newer ones have no version of. */
  ghost predicate Revived(states: seq<State>, steps: seq<Step>, a: nat, b: nat, c: nat, k: Key, h: nat)
    requires a <= b <= c <= |steps| && |states| == |steps| + 1
  {
    var late := Late(steps, a, b, c);
    && Moment(steps, a, b, c) > a
    && IsNewestIn(Newer(states[b], states[c], late), k, h, None)
    && exists v :: Live(Older(states[a], states[b], late), k, h, v)
  }

  /** First hit in the newer copies. */
  function NewerHit(b: State, c: State, late: bool, k: Key, h: nat): (o: Option<Record>) {
    if !late && b.frozen.Some? && Newest(b.frozen.value, k, h).Some? then Newest(b.frozen.value, k, h)
    else Get(Recs(c.tables), k, h)
  }

  lemma BelowHit(s: State, k: Key, h: nat)
    ensures Get(Below(s), k, h) ==
            if s.frozen.Some? && Newest(s.frozen.value, k, h).Some? then Newest(s.frozen.value, k, h)
            else Get(Recs(s.tables), k, h)
  {
    hide Get, Newest;
    if s.frozen.Some? {
      GetPush(Recs(s.tables), s.frozen.value, k, h);
    } else {
      assert Below(s) == Recs(s.tables);
    }
  }

  /** The newer copies hold what was read at the moment shown, or it has faded. */
  lemma NewerFades(states: seq<State>, steps: seq<Step>, a: nat, b: nat, c: nat, k: Key, h: nat)
    requires IsRun(states, steps) && Inv(states[0]) && a <= b <= c < |states|
    requires forall i :: a <= i <= c ==> LiveBound(states[i], h)
    ensures var late := Late(steps, a, b, c);
            Faded(Get(Below(states[Moment(steps, a, b, c)]), k, h), NewerHit(states[b], states[c], late, k, h),
                  Spliced(steps, a, c))
  {
    hide Inv, Does, Get, Newest, Below, Recs;
    TablesFade(states, steps, a, c, k, h);
    if !Late(steps, a, b, c) {
      PublishedFrom(steps, a, b, c);
      TablesFade(states, steps, b, c, k, h);
      BelowFades(states, steps, a, b, k, h);
      BelowHit(states[b], k, h);
      assert Spliced(steps, a, b) || Spliced(steps, b, c) ==> Spliced(steps, a, c);
    }
  }

  /** It is the newest there. */
  lemma NewerNewest(states: seq<State>, steps: seq<Step>, a: nat, b: nat, c: nat, k: Key, h: nat)
    requires IsRun(states, steps) && Inv(states[0]) && a <= b <= c < |states|
    requires forall i :: a <= i <= c ==> LiveBound(states[i], h)
    ensures var late := Late(steps, a, b, c);
            IsNewestIn(Newer(states[b], states[c], late), k, h, NewerHit(states[b], states[c], late, k, h))
  {
    hide Inv, Does, Get, Newest, Below, Recs, Member;
    RunInv(states, steps, b);
    RunInv(states, steps, c);
    TablesFirst(states[c], k, h);
    if !Late(steps, a, b, c) {
      PublishedFrom(steps, a, b, c);
      TablesFade(states, steps, b, c, k, h);
      FrozenFirst(states[b], states[c], Spliced(steps, b, c), k, h);
    }
  }

  lemma FrozenFirst(b: State, c: State, spliced: bool, k: Key, h: nat)
    requires Inv(b) && IsNewestIn(Recs(c.tables), k, h, Get(Recs(c.tables), k, h))
    requires || Faded(Get(Below(b), k, h), Get(Recs(c.tables), k, h), spliced)
             || Faded(Get(Recs(b.tables), k, h), Get(Recs(c.tables), k, h), spliced)
    ensures IsNewestIn(Newer(b, c, false), k, h, NewerHit(b, c, false, k, h))
  {
    hide Inv, Get, Newest, Below, Recs, Member;
    forall x: Record
      ensures Member(Newer(b, c, false), x) <==> Member(Recs(c.tables), x) || (b.frozen.Some? && x in b.frozen.value)
    {
      MemberConcat(Recs(c.tables), FrozenLayer(b), x);
      if b.frozen.Some? {
        MemberOne(b.frozen.value, x);
      } else {
        NoMember(x);
      }
    }
    if b.frozen.Some? {
      assert IsNewest(b.frozen.value, k, h, Newest(b.frozen.value, k, h));
      TablesFirst(b, k, h);
      BelowHit(b, k, h);
      BelowNewest(b, k, h);
      forall x: Record | Member(Recs(b.tables), x)
        ensures Member(Below(b), x)
      {
        TablesBelow(b, x);
      }
    }
  }

  /** Right after a freeze everything is read below the active MemTable. */
  lemma JustFrozen(states: seq<State>, steps: seq<Step>, m: nat, k: Key, h: nat)
    requires IsRun(states, steps) && 0 < m < |states| && steps[m - 1].Freeze?
    ensures Get(Below(states[m]), k, h) == Get(Stack(states[m]), k, h)
  {
    hide Get;
    assert Does(states[m - 1], steps[m - 1], states[m]);
    GetPush(Below(states[m]), [], k, h);
  }

  /** What a MemTable held is not newer than what is read later. */
  lemma HeldRises(states: seq<State>, steps: seq<Step>, i: nat, m: nat, k: Key, h: nat, r: Record)
    requires IsRun(states, steps) && Inv(states[0]) && i <= m < |states|
    requires forall t :: i <= t <= m ==> LiveBound(states[t], h)
    requires Member(Stack(states[i]), r) && Visible(r, k, h)
    ensures var now := Get(Stack(states[m]), k, h);
            (now.Some? ==> r.seqno <= now.value.seqno) && (!Spliced(steps, i, m) ==> now.Some?)
  {
    hide Inv, Does, Get, Stack, Member;
    RunInv(states, steps, i);
    StackFirst(states[i], k, h);
    ReadsRise(states, steps, i, m, k, h);
  }

  lemma StackFirst(s: State, k: Key, h: nat)
    requires Inv(s)
    ensures IsNewestIn(Stack(s), k, h, Get(Stack(s), k, h))
  {
    hide HistoryOk, ViewOk, IdsOk, FlushOk, CompactOk, Get, Layered;
    GetIsNewest(Stack(s), k, h);
  }

  lemma OlderMember(a: State, b: State, late: bool, x: Record)
    ensures Member(Older(a, b, late), x) <==> x in a.active || (late && b.frozen.Some? && x in b.frozen.value)
  {
    hide Member;
    MemberConcat(FrozenLayer(b), [a.active], x);
    MemberOne(a.active, x);
    if b.frozen.Some? {
      MemberOne(b.frozen.value, x);
    } else {
      NoMember(x);
    }
  }

  lemma NewerMember(b: State, c: State, late: bool, x: Record)
    ensures Member(Newer(b, c, late), x) <==>
              Member(Recs(c.tables), x) || (!late && b.frozen.Some? && x in b.frozen.value)
  {
    hide Member, Recs;
    MemberConcat(Recs(c.tables), FrozenLayer(b), x);
    if b.frozen.Some? {
      MemberOne(b.frozen.value, x);
    } else {
      NoMember(x);
    }
  }

  lemma NewestOnce(stack: seq<seq<Record>>, k: Key, h: nat, o: Option<Record>, o': Option<Record>)
    requires ConsistentStack(stack) && IsNewestIn(stack, k, h, o) && IsNewestIn(stack, k, h, o')
    ensures o' == o
  {
    hide Member;
  }

  lemma MixedConsistent(a: State, b: State, c: State)
    requires RunsOk(Mixed(a, b, c)) && Chronological(c.hist)
    ensures ConsistentStack(Stack(Mixed(a, b, c)))
  {
    hide Sorted, StrictlySorted, Chronological;
    ChronologicalConsistent(c.hist);
  }

  /** The newest of all copies is the newest of the older or of the newer ones. */
  lemma NewestOfBoth(a: State, b: State, c: State, late: bool, k: Key, h: nat, q: Option<Record>, r: Option<Record>,
                     o: Option<Record>)
    requires ConsistentStack(Stack(Mixed(a, b, c))) && IsNewestIn(Stack(Mixed(a, b, c)), k, h, o)
    requires IsNewestIn(Older(a, b, late), k, h, q) && IsNewestIn(Newer(b, c, late), k, h, r)
    ensures o == if r.None? || (q.Some? && q.value.seqno > r.value.seqno) then q else r
    ensures q.Some? && r.Some? && q.value.seqno == r.value.seqno ==> q == r
    ensures (exists v :: Live(Older(a, b, late), k, h, v)) <==> Value(q).Some?
  {
    hide Member;
    forall x: Record
      ensures Member(Stack(Mixed(a, b, c)), x) <==> Member(Older(a, b, late), x) || Member(Newer(b, c, late), x)
    {
      MixedMember(a, b, c, x);
      OlderMember(a, b, late, x);
      NewerMember(b, c, late, x);
    }
    NewestOnce(Stack(Mixed(a, b, c)), k, h, o, if r.None? || (q.Some? && q.value.seqno > r.value.seqno) then q else r);
    assert Value(q).Some? ==> Live(Older(a, b, late), k, h, Value(q).value);
  }

  /** The newest of the older copies, and which of them it stands in. */
  lemma OlderNewest(a: State, b: State, late: bool, k: Key, h: nat) returns (q: Option<Record>)
    ensures IsNewestIn(Older(a, b, late), k, h, q)
    ensures || q == Newest(a.active, k, h)
            || (&& late && b.frozen.Some? && q == Newest(b.frozen.value, k, h) && q.Some?
                && (Newest(a.active, k, h).Some? ==> Newest(a.active, k, h).value.seqno < q.value.seqno))
  {
    hide Member, Newest;
    forall x: Record
      ensures Member(Older(a, b, late), x) <==> x in a.active || (late && b.frozen.Some? && x in b.frozen.value)
    {
      OlderMember(a, b, late, x);
    }
    var u := Newest(a.active, k, h);
    var w := if late && b.frozen.Some? then Newest(b.frozen.value, k, h) else None;
    assert IsNewest(a.active, k, h, u) && (late && b.frozen.Some? ==> IsNewest(b.frozen.value, k, h, w));
    q := if w.Some? && (u.None? || u.value.seqno < w.value.seqno) then w else u;
  }

  lemma ActiveMember(s: State, k: Key, h: nat)
    ensures Newest(s.active, k, h).Some? ==>
              var r := Newest(s.active, k, h).value; Member(Stack(s), r) && Visible(r, k, h)
    ensures s.frozen.Some? && Newest(s.frozen.value, k, h).Some? ==>
              var r := Newest(s.frozen.value, k, h).value; Member(Stack(s), r) && Visible(r, k, h)
  {
    assert Stack(s)[|Stack(s)| - 1] == s.active;
    assert s.frozen.Some? ==> Stack(s)[|s.tables|] == s.frozen.value;
  }

  /** With no freeze seen, the first copy's moment. */
  lemma FirstMoment(s: State, k: Key, h: nat, q: Option<Record>, r: Option<Record>, spliced: bool)
    requires Inv(s) && LiveBound(s, h) && q == Newest(s.active, k, h) && Faded(Get(Below(s), k, h), r, spliced)
    ensures r.Some? && q.Some? ==> r.value.seqno <= q.value.seqno
    ensures Current(s, k, h) == if q.Some? then Value(q) else Value(r)
  {
    hide Inv, Get, Newest, Member, Below;
    if q.Some? {
      HitActive(s, k, h);
      ActiveNewest(s, k, h);
      BelowFirst(s, k, h);
    } else {
      MissedActive(s, k, h);
    }
  }

  lemma BelowFirst(s: State, k: Key, h: nat)
    requires Inv(s)
    ensures IsNewestIn(Below(s), k, h, Get(Below(s), k, h))
  {
    hide HistoryOk, ViewOk, IdsOk, FlushOk, CompactOk, Get, Over;
    LayeredConcat(Below(s), [s.active]);
    GetIsNewest(Below(s), k, h);
  }

  /** A freeze the third copy alone has seen came behind the second. */
  lemma LateIsBehind(steps: seq<Step>, a: nat, b: nat, c: nat)
    requires a <= b <= c <= |steps| && Late(steps, a, b, c)
    ensures b < Moment(steps, a, b, c)
  {
  }

  /** What the older copies hold is not newer than what was read at the moment. */
  lemma OlderRises(states: seq<State>, steps: seq<Step>, a: nat, b: nat, c: nat, k: Key, h: nat, q: Option<Record>)
    requires IsRun(states, steps) && Inv(states[0]) && a <= b <= c < |states| && q.Some?
    requires forall i :: a <= i <= c ==> LiveBound(states[i], h)
    requires || q == Newest(states[a].active, k, h)
             || (&& Late(steps, a, b, c) && states[b].frozen.Some?
                 && q == Newest(states[b].frozen.value, k, h))
    ensures var now := Get(Stack(states[Moment(steps, a, b, c)]), k, h);
            (now.Some? ==> q.value.seqno <= now.value.seqno) && (!Spliced(steps, a, c) ==> now.Some?)
  {
    hide Inv, Does, Get, Stack, Newest, Member;
    var m := Moment(steps, a, b, c);
    assert Spliced(steps, a, m) || Spliced(steps, b, m) ==> Spliced(steps, a, c);
    if q == Newest(states[a].active, k, h) {
      ActiveMember(states[a], k, h);
      HeldRises(states, steps, a, m, k, h, q.value);
    } else {
      LateIsBehind(steps, a, b, c);
      ActiveMember(states[b], k, h);
      HeldRises(states, steps, b, m, k, h, q.value);
    }
  }

  /** The moment an older copy shows: the first copy's, or the last freeze before
      the second. */
  lemma OlderMoment(states: seq<State>, steps: seq<Step>, a: nat, b: nat, k: Key, h: nat, q: Option<Record>)
    requires IsRun(states, steps) && Inv(states[0]) && a <= b < |states| && q.Some?
    requires forall i :: a <= i <= b ==> LiveBound(states[i], h)
    requires || q == Newest(states[a].active, k, h)
             || (&& states[b].frozen.Some? && q == Newest(states[b].frozen.value, k, h)
                 && (Newest(states[a].active, k, h).Some? ==> Newest(states[a].active, k, h).value.seqno < q.value.seqno))
    ensures Value(q) == Current(states[a], k, h) || Value(q) == Current(states[LastFreeze(steps, a, b)], k, h)
  {
    hide Inv, Does, Get, Newest, Member, Stack, Below, Lookup;
    RunInv(states, steps, a);
    if q == Newest(states[a].active, k, h) {
      HitActive(states[a], k, h);
    } else {
      BelowFades(states, steps, a, b, k, h);
      BelowHit(states[b], k, h);
      var g := LastFreeze(steps, a, b);
      RunInv(states, steps, g);
      if g > a {
        JustFrozen(states, steps, g, k, h);
        InvReads(states[g], k, h);
      } else {
        BelowFirst(states[a], k, h);
        ActiveNewest(states[a], k, h);
        MissedActive(states[a], k, h);
      }
    }
  }

  // ------------------------------------------------------------------ theorems

  /** Key by key: the scan shows one and the same moment, exactly where the key has
      not been revived. A revived key had been deleted by that moment and a splice
      fell between the copies; it shows the moment of an older copy. */
  lemma ScanKeyMoment(states: seq<State>, steps: seq<Step>, a: nat, b: nat, c: nat, k: Key, h: nat, o: Option<Record>)
    requires IsRun(states, steps) && Inv(states[0]) && a <= b <= c < |states|
    requires forall i :: a <= i <= c ==> LiveBound(states[i], h)
    requires IsNewestIn(Stack(Mixed(states[a], states[b], states[c])), k, h, o)
    ensures Value(o) == Current(states[Moment(steps, a, b, c)], k, h) <==> !Revived(states, steps, a, b, c, k, h)
    ensures Revived(states, steps, a, b, c, k, h) ==>
              && Current(states[Moment(steps, a, b, c)], k, h) == None && Spliced(steps, a, c)
              && (Value(o) == Current(states[a], k, h) || Value(o) == Current(states[LastFreeze(steps, a, b)], k, h))
  {
    hide Inv, Does, Get, Newest, Below, Stack, Member, Mixed, Older, Newer, NewerHit, Live, Lookup, Late, Moment, Spliced;
    var late, m := Late(steps, a, b, c), Moment(steps, a, b, c);
    var r := NewerHit(states[b], states[c], late, k, h);
    RunInv(states, steps, a);
    RunInv(states, steps, b);
    var q := OlderNewest(states[a], states[b], late, k, h);
    NewerNewest(states, steps, a, b, c, k, h);
    NewerFades(states, steps, a, b, c, k, h);
    CopiesConsistent(states, steps, a, b, c);
    NewestOfBoth(states[a], states[b], states[c], late, k, h, q, r, o);
    if m == a {
      NotLate(steps, a, b, c);
      FirstMoment(states[a], k, h, q, r, Spliced(steps, a, c));
    } else {
      RunInv(states, steps, m);
      JustFrozen(states, steps, m, k, h);
      InvReads(states[m], k, h);
      if q.Some? {
        OlderRises(states, steps, a, b, c, k, h, q);
        OlderMoment(states, steps, a, b, k, h, q);
      }
    }
  }

  lemma NotLate(steps: seq<Step>, a: nat, b: nat, c: nat)
    requires a <= b <= c <= |steps| && Moment(steps, a, b, c) == a
    ensures !Late(steps, a, b, c) && LastFreeze(steps, a, b) == a
  {
  }

  lemma CopiesConsistent(states: seq<State>, steps: seq<Step>, a: nat, b: nat, c: nat)
    requires IsRun(states, steps) && Inv(states[0]) && a <= b <= c < |states|
    ensures ConsistentStack(Stack(Mixed(states[a], states[b], states[c]))) && RunsOk(Mixed(states[a], states[b], states[c]))
  {
    hide Inv, Does, RunsOk, Mixed, Stack, Chronological;
    RunInv(states, steps, a);
    RunInv(states, steps, b);
    RunInv(states, steps, c);
    HistoryExtends(states, steps, a, c);
    HistoryExtends(states, steps, b, c);
    MixedRunsOk(states[a], states[b], states[c]);
    MixedConsistent(states[a], states[b], states[c]);
  }

  /** `pairs` is an exact scan of the history of `s`. */
  ghost predicate ShowsMoment(s: State, start: Option<Key>, end: Option<Key>, limit: nat, h: nat, pairs: seq<(Key, Bytes)>) {
    && |pairs| <= limit
    && (forall i, j :: 0 <= i < j < |pairs| ==> Less(pairs[i].0, pairs[j].0))
    && (forall p :: p in pairs ==> From(p.0, start) && Until(p.0, end) && Current(s, p.0, h) == Some(p.1))
    && forall k :: From(k, start) && Until(k, end) && Current(s, k, h).Some? ==>
         (k, Current(s, k, h).value) in pairs || (|pairs| == limit && forall p :: p in pairs ==> Less(p.0, k))
  }

  /** A pair of the scan is a key in range with the value of its newest copy. */
  lemma LiveInCopies(s: State, start: Option<Key>, end: Option<Key>, k: Key, h: nat, o: Option<Record>, v: Bytes)
    requires RunsOk(s) && ConsistentStack(Stack(s)) && IsNewestIn(Stack(s), k, h, o) && Until(k, end)
    ensures Live(ScanStack(s, start, end), k, h, v) <==> From(k, start) && Value(o) == Some(v)
  {
    hide RunsOk, ScanStack, Member, Stack;
    if Live(ScanStack(s, start, end), k, h, v) {
      var r := LiveRecord(s, start, end, k, h, v);
      NewestOnce(Stack(s), k, h, o, Some(r));
    }
    if From(k, start) && Value(o) == Some(v) {
      forall x: Record | x.key == k
        ensures Member(ScanStack(s, start, end), x) <==> Member(Stack(s), x)
      {
        ScanMembers(s, start, end, x);
      }
      assert IsNewestIn(ScanStack(s, start, end), k, h, o);
    }
  }

  /** For one key in range, in terms of what the scan finds. */
  lemma ScanKeyFound(states: seq<State>, steps: seq<Step>, a: nat, b: nat, c: nat, start: Option<Key>, end: Option<Key>,
                     k: Key, h: nat, v: Bytes)
    requires IsRun(states, steps) && Inv(states[0]) && a <= b <= c < |states| && Until(k, end)
    requires forall i :: a <= i <= c ==> LiveBound(states[i], h)
    ensures var found := Live(ScanStack(Mixed(states[a], states[b], states[c]), start, end), k, h, v);
            var now := Current(states[Moment(steps, a, b, c)], k, h);
            && (found ==> From(k, start) && (now == Some(v) <==> !Revived(states, steps, a, b, c, k, h)))
            && (From(k, start) && now == Some(v) ==> found)
  {
    hide Inv, Does, RunsOk, Mixed, Stack, ScanStack, Live, Current, Moment, Revived, ConsistentStack;
    var mixed := Mixed(states[a], states[b], states[c]);
    CopiesConsistent(states, steps, a, b, c);
    var o := SomeNewest(Stack(mixed), k, h);
    LiveInCopies(mixed, start, end, k, h, o, v);
    ScanKeyMoment(states, steps, a, b, c, k, h, o);
  }

  /** The whole scan shows the moment exactly when none of its pairs is revived. */
  lemma ScanAtMoment(states: seq<State>, steps: seq<Step>, a: nat, b: nat, c: nat, start: Option<Key>, end: Option<Key>,
                     limit: nat, h: nat, pairs: seq<(Key, Bytes)>)
    requires IsRun(states, steps) && Inv(states[0]) && a <= b <= c < |states|
    requires forall i :: a <= i <= c ==> LiveBound(states[i], h)
    requires IsScan(ScanStack(Mixed(states[a], states[b], states[c]), start, end), h, end, limit, pairs)
    ensures ShowsMoment(states[Moment(steps, a, b, c)], start, end, limit, h, pairs)
            <==> forall p :: p in pairs ==> !Revived(states, steps, a, b, c, p.0, h)
  {
    hide Inv, Does, Mixed, ScanStack, Live, Current, Moment, Revived, Less;
    var m, stack := Moment(steps, a, b, c), ScanStack(Mixed(states[a], states[b], states[c]), start, end);
    forall p | p in pairs
      ensures From(p.0, start) && Until(p.0, end)
              && (Current(states[m], p.0, h) == Some(p.1) <==> !Revived(states, steps, a, b, c, p.0, h))
    {
      ScanKeyFound(states, steps, a, b, c, start, end, p.0, h, p.1);
    }
    forall k | From(k, start) && Until(k, end) && Current(states[m], k, h).Some?
      ensures Live(stack, k, h, Current(states[m], k, h).value)
    {
      ScanKeyFound(states, steps, a, b, c, start, end, k, h, Current(states[m], k, h).value);
    }
  }

  /** With no freeze before the second copy, and none behind it published before the
      third, a scan shows the moment of the first, whatever else happens. */
  lemma ScanNoFreeze(states: seq<State>, steps: seq<Step>, a: nat, b: nat, c: nat, start: Option<Key>, end: Option<Key>,
                     limit: nat, h: nat, pairs: seq<(Key, Bytes)>)
    requires IsRun(states, steps) && Inv(states[0]) && a <= b <= c < |states|
    requires forall i :: a <= i <= c ==> LiveBound(states[i], h)
    requires forall i :: a <= i < b ==> !steps[i].Freeze?
    requires forall i, j :: b <= i < j < c ==> !(steps[i].Freeze? && steps[j].Publish?)
    requires IsScan(ScanStack(Mixed(states[a], states[b], states[c]), start, end), h, end, limit, pairs)
    ensures ShowsMoment(states[a], start, end, limit, h, pairs)
  {
    hide Inv, Does, Mixed, ScanStack, IsScan, ShowsMoment;
    ScanAtMoment(states, steps, a, b, c, start, end, limit, h, pairs);
    assert Moment(steps, a, b, c) == a;
  }

  /** With nothing spliced between the copies, a scan shows one moment. */
  lemma ScanNoSplice(states: seq<State>, steps: seq<Step>, a: nat, b: nat, c: nat, start: Option<Key>, end: Option<Key>,
                     limit: nat, h: nat, pairs: seq<(Key, Bytes)>)
    requires IsRun(states, steps) && Inv(states[0]) && a <= b <= c < |states|
    requires forall i :: a <= i <= c ==> LiveBound(states[i], h)
    requires forall i :: a <= i < c ==> !steps[i].SpliceRun?
    requires IsScan(ScanStack(Mixed(states[a], states[b], states[c]), start, end), h, end, limit, pairs)
    ensures ShowsMoment(states[Moment(steps, a, b, c)], start, end, limit, h, pairs)
  {
    hide Inv, Does, Mixed, ScanStack, IsScan, ShowsMoment, Moment, Revived, Stack, Current;
    ScanAtMoment(states, steps, a, b, c, start, end, limit, h, pairs);
    forall p | p in pairs
      ensures !Revived(states, steps, a, b, c, p.0, h)
    {
      var o := SomeNewest(Stack(Mixed(states[a], states[b], states[c])), p.0, h);
      ScanKeyMoment(states, steps, a, b, c, p.0, h, o);
    }
  }

  /** Through a snapshot whose batch is in, a scan shows the snapshot's moment,
      whatever is written, frozen, published or spliced while it copies. */
  lemma ScanThroughSnapshot(states: seq<State>, steps: seq<Step>, a: nat, b: nat, c: nat,
                            start: Option<Key>, end: Option<Key>, limit: nat, h: nat, pairs: seq<(Key, Bytes)>)
    requires IsRun(states, steps) && Inv(states[0]) && a <= b <= c < |states|
    requires h <= states[a].nextSeq && forall i :: a <= i <= c ==> h in states[i].snapshots
    requires IsScan(ScanStack(Mixed(states[a], states[b], states[c]), start, end), h, end, limit, pairs)
    ensures ShowsMoment(states[a], start, end, limit, h, pairs)
  {
    hide Inv, Does, Mixed, ScanStack, Live, Current, Less;
    ScanLinearizes(states, steps, a, b, c, start, end, limit, h, pairs);
    forall i, k | a <= i <= c
      ensures Current(states[i], k, h) == Current(states[a], k, h)
    {
      BelowHorizon(states, steps, a, i, k, h);
    }
    forall k | From(k, start) && Until(k, end) && Current(states[a], k, h).Some?
      ensures (k, Current(states[a], k, h).value) in pairs || (|pairs| == limit && forall p :: p in pairs ==> Less(p.0, k))
    {
      if v :| (k, v) in pairs {
        assert Seen(states, a, c, k, h, Some(v));
      }
    }
  }

  /** Nothing written since changes what stands below the horizon. */
  lemma {:induction false} BelowHorizon(states: seq<State>, steps: seq<Step>, a: nat, i: nat, k: Key, h: nat)
    requires IsRun(states, steps) && a <= i < |states| && h <= states[a].nextSeq
    ensures Current(states[i], k, h) == Current(states[a], k, h) && h <= states[i].nextSeq
    decreases i
  {
    hide Does, Lookup;
    if a < i {
      BelowHorizon(states, steps, a, i - 1, k, h);
      StepFields(states[i - 1], steps[i - 1], states[i]);
      if steps[i - 1].Write? {
        LookupIgnores(states[i - 1].hist, Stamp(steps[i - 1].ops, states[i - 1].nextSeq), k, h);
      }
    }
  }
}
