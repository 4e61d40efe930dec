/** Scans whose sources are copied at three moments, as a get looks at them: each
    key shows a value it had at some instant in between. The scan as a whole need not
    show any one instant. */
module ScanMoments {
  import opened Records
  import opened Layers
  import opened Retention
  import opened Engine
  import opened EngineSafety
  import opened PointReads
  import opened Ranges
  import opened Scan
  import opened EngineScan
  import opened Movement

  /** The sources of a scan that copies the active MemTable in `a`, the frozen one
      in `b` and the list of tables in `c`. */
  function Mixed(a: State, b: State, c: State): (s: State) {
    c.(active := a.active, frozen := b.frozen)
  }

  /** A record that came below the active MemTable since `a`: what is read there
      now was current at some instant since. */
  lemma {:induction false} FreshBelow(states: seq<State>, steps: seq<Step>, a: nat, j: nat, k: Key, h: nat, r: Record)
    requires IsRun(states, steps) && Inv(states[0]) && a <= j < |states|
    requires forall i :: a <= i <= j ==> LiveBound(states[i], h)
    requires Member(Below(states[j]), r) && !Member(Below(states[a]), r)
    ensures Seen(states, a, j, k, h, RestBelow(states[j], k, h))
    decreases j
  {
    hide Inv, Does, Get, Member, RestBelow, RestTables, Below;
    RunInv(states, steps, j - 1);
    StepRest(states[j - 1], steps[j - 1], states[j], k, h);
    assert Seen(states, a, j, k, h, Current(states[j], k, h));
    if Member(Below(states[j - 1]), r) {
      FreshBelow(states, steps, a, j - 1, k, h, r);
      SeenLater(states, a, j - 1, k, h, RestBelow(states[j - 1], k, h));
    } else {
      StepBelow(states[j - 1], steps[j - 1], states[j], r);
      StepInv(states[j - 1], steps[j - 1], states[j]);
      FreezeRest(states[j - 1], states[j], k, h);
    }
  }

  /** The same of a record that came into the tables. */
  lemma {:induction false} FreshTables(states: seq<State>, steps: seq<Step>, a: nat, j: nat, k: Key, h: nat, r: Record)
    requires IsRun(states, steps) && Inv(states[0]) && a <= j < |states|
    requires forall i :: a <= i <= j ==> LiveBound(states[i], h)
    requires Member(Recs(states[j].tables), r) && !Member(Below(states[a]), r)
    ensures Seen(states, a, j, k, h, RestTables(states[j], k, h))
    decreases j
  {
    hide Inv, Does, Get, Member, RestBelow, RestTables, Below;
    TablesBelow(states[a], r);
    RunInv(states, steps, j - 1);
    StepRest(states[j - 1], steps[j - 1], states[j], k, h);
    TablesBelow(states[j - 1], r);
    if Member(Recs(states[j - 1].tables), r) {
      FreshTables(states, steps, a, j - 1, k, h, r);
      SeenLater(states, a, j - 1, k, h, RestTables(states[j - 1], k, h));
    } else {
      StepTables(states[j - 1], steps[j - 1], states[j], r);
      PublishRest(states[j - 1], states[j], k, h);
    }
    FreshBelow(states, steps, a, j - 1, k, h, r);
    SeenLater(states, a, j - 1, k, h, RestBelow(states[j - 1], k, h));
  }

  /** The newest record of a key among sources copied at three moments has a value
      the key had at some instant between the first and the last. */
  lemma MixedNewest(states: seq<State>, steps: seq<Step>, a: nat, b: nat, c: nat, k: Key, h: nat, o: Option<Record>)
    requires IsRun(states, steps) && Inv(states[0]) && a <= b <= c < |states|
    requires forall i :: a <= i <= c ==> LiveBound(states[i], h)
    requires IsNewestIn(Stack(Mixed(states[a], states[b], states[c])), k, h, o)
    ensures Seen(states, a, c, k, h, Value(o))
  {
    hide Inv, Does, Get, Newest, RestBelow, RestTables, Current, Member;
    RunInv(states, steps, a);
    RunInv(states, steps, b);
    RunInv(states, steps, c);
    MixedParts(states[a], states[b], states[c], k, h, o);
    if o.None? {
      AfterFrozen(states, steps, a, b, c, k, h);
    } else if Newest(states[a].active, k, h) == o {
      HitActive(states[a], k, h);
      assert Seen(states, a, c, k, h, Current(states[a], k, h));
    } else if states[b].frozen.Some? && Newest(states[b].frozen.value, k, h) == o {
      FrozenRead(states[b], k, h);
      if Newest(states[a].active, k, h).None? {
        AfterActive(states, steps, a, b, k, h);
      } else {
        InFrozen(states[b], o.value);
        NotBelowActive(states[a], k, h, o.value);
        FreshBelow(states, steps, a, b, k, h, o.value);
      }
      SeenUntil(states, a, b, c, k, h, Value(o));
    } else if Newest(states[a].active, k, h).Some? {
      NotBelowActive(states[a], k, h, o.value);
      FreshTables(states, steps, a, c, k, h, o.value);
    } else if states[b].frozen.Some? && Newest(states[b].frozen.value, k, h).Some? {
      NotBelowFrozen(states[b], k, h, o.value);
      FreshTables(states, steps, b, c, k, h, o.value);
      SeenFrom(states, a, b, c, k, h, Value(o));
    } else {
      AfterFrozen(states, steps, a, b, c, k, h);
    }
  }

  lemma SeenUntil(states: seq<State>, a: nat, b: nat, c: nat, k: Key, h: nat, v: Option<Bytes>)
    requires b <= c < |states| && Seen(states, a, b, k, h, v)
    ensures Seen(states, a, c, k, h, v)
  {
    hide Current;
  }

  lemma SeenFrom(states: seq<State>, a: nat, b: nat, c: nat, k: Key, h: nat, v: Option<Bytes>)
    requires a <= b && c < |states| && Seen(states, b, c, k, h, v)
    ensures Seen(states, a, c, k, h, v)
  {
    hide Current;
  }

  lemma InFrozen(s: State, r: Record)
    requires s.frozen.Some? && r in s.frozen.value
    ensures Member(Below(s), r)
  {
    assert Below(s)[|s.tables|] == s.frozen.value;
  }

  /** Where the newest record of the mixed sources comes from. */
  lemma MixedParts(a: State, b: State, c: State, k: Key, h: nat, o: Option<Record>)
    requires Inv(a) && Inv(b) && Inv(c) && IsNewestIn(Stack(Mixed(a, b, c)), k, h, o)
    ensures o.None? ==>
              && Newest(a.active, k, h).None? && (b.frozen.Some? ==> Newest(b.frozen.value, k, h).None?)
              && RestTables(c, k, h) == None
    ensures o.Some? ==>
              var r := o.value;
              && Visible(r, k, h)
              && (Newest(a.active, k, h).Some? ==> Newest(a.active, k, h).value.seqno <= r.seqno)
              && (b.frozen.Some? && Newest(b.frozen.value, k, h).Some? ==>
                Newest(b.frozen.value, k, h).value.seqno <= r.seqno)
    ensures o.Some? ==>
              || Newest(a.active, k, h) == o
              || (b.frozen.Some? && o.value in b.frozen.value && Newest(b.frozen.value, k, h) == o)
              || (Member(Recs(c.tables), o.value) && RestTables(c, k, h) == Value(o))
  {
    hide Inv, Get, Newest, Layered, Consistent;
    var mixed := Mixed(a, b, c);
    forall x: Record
      ensures Member(Stack(mixed), x) <==>
                x in a.active || (b.frozen.Some? && x in b.frozen.value) || Member(Recs(c.tables), x)
    {
      MixedMember(a, b, c, x);
    }
    LayersConsistent(a);
    LayersConsistent(b);
    TablesFirst(c, k, h);
    assert IsNewest(a.active, k, h, Newest(a.active, k, h));
    if b.frozen.Some? {
      assert IsNewest(b.frozen.value, k, h, Newest(b.frozen.value, k, h));
    }
    if o.Some? {
      var r := o.value;
      if r in a.active {
        NewestUnique(a.active, k, h, o);
      } else if b.frozen.Some? && r in b.frozen.value {
        NewestUnique(b.frozen.value, k, h, o);
      }
    }
  }

  lemma MixedMember(a: State, b: State, c: State, x: Record)
    ensures Member(Stack(Mixed(a, b, c)), x) <==>
              x in a.active || (b.frozen.Some? && x in b.frozen.value) || Member(Recs(c.tables), x)
  {
    hide Member;
    var mixed := Mixed(a, b, c);
    MemberConcat(Below(mixed), [a.active], x);
    MemberConcat(Recs(c.tables), FrozenLayer(mixed), x);
    MemberOne(a.active, x);
    if b.frozen.Some? {
      MemberOne(b.frozen.value, x);
    } else {
      NoMember(x);
    }
  }

  /** First hit in the tables is the newest there. */
  lemma TablesFirst(s: State, k: Key, h: nat)
    requires Inv(s)
    ensures IsNewestIn(Recs(s.tables), k, h, Get(Recs(s.tables), k, h)) && ConsistentStack(Recs(s.tables))
  {
    hide HistoryOk, ViewOk, IdsOk, FlushOk, CompactOk, Get, Sorted, StrictlySorted, Over;
    LayeredConcat(Below(s), [s.active]);
    LayeredConcat(Recs(s.tables), FrozenLayer(s));
    GetIsNewest(Recs(s.tables), k, h);
    TablesConsistent(s);
  }

  lemma TablesConsistent(s: State)
    requires Inv(s)
    ensures ConsistentStack(Recs(s.tables))
  {
    hide Layered, Shows, IsCompaction, Covers, StrictlySorted, Sorted;
    ChronologicalConsistent(s.hist);
    forall x | Member(Recs(s.tables), x)
      ensures x in s.hist
    {
      var i :| 0 <= i < |Recs(s.tables)| && x in Recs(s.tables)[i];
      assert Stack(s)[i] == Recs(s.tables)[i];
    }
  }

  /** A hit in the active MemTable is newer than anything beneath. */
  lemma ActiveNewest(s: State, k: Key, h: nat)
    requires Inv(s)
    ensures Newest(s.active, k, h).Some? ==>
              forall r :: Member(Below(s), r) && Visible(r, k, h) ==> r.seqno <= Newest(s.active, k, h).value.seqno
  {
    hide HistoryOk, ViewOk, IdsOk, FlushOk, CompactOk, Get, Layered, Newest;
    GetIsNewest(Stack(s), k, h);
    GetPush(Below(s), s.active, k, h);
    forall r | Member(Below(s), r)
      ensures Member(Stack(s), r)
    {
      MemberConcat(Below(s), [s.active], r);
    }
  }

  lemma NotBelowActive(s: State, k: Key, h: nat, r: Record)
    requires Inv(s) && Visible(r, k, h) && Newest(s.active, k, h).Some?
    requires Newest(s.active, k, h).value != r && Newest(s.active, k, h).value.seqno <= r.seqno
    ensures !Member(Below(s), r)
  {
    hide Inv, Member, Newest;
    var u := Newest(s.active, k, h).value;
    ActiveNewest(s, k, h);
    assert u in s.active by { NewestIn(s.active, k, h); }
    MemberConcat(Below(s), [s.active], r);
    MemberConcat(Below(s), [s.active], u);
    MemberOne(s.active, u);
    if Member(Below(s), r) {
      UniqueIn(s, u, r);
    }
  }

  lemma NewestIn(run: seq<Record>, k: Key, h: nat)
    ensures Newest(run, k, h).Some? ==> Newest(run, k, h).value in run
  {
  }

  lemma NotBelowFrozen(s: State, k: Key, h: nat, r: Record)
    requires Inv(s) && Visible(r, k, h) && s.frozen.Some? && Newest(s.frozen.value, k, h).Some?
    requires Newest(s.frozen.value, k, h).value != r && Newest(s.frozen.value, k, h).value.seqno <= r.seqno
    ensures !Member(Below(s), r)
  {
    hide Inv, Member, Newest;
    var u := Newest(s.frozen.value, k, h).value;
    BelowNewest(s, k, h);
    assert u in s.frozen.value by { NewestIn(s.frozen.value, k, h); }
    InFrozen(s, u);
    MemberConcat(Below(s), [s.active], r);
    MemberConcat(Below(s), [s.active], u);
    if Member(Below(s), r) {
      UniqueIn(s, u, r);
    }
  }

  /** A hit in the frozen one is newer than anything in the tables. */
  lemma BelowNewest(s: State, k: Key, h: nat)
    requires Inv(s)
    ensures s.frozen.Some? && Newest(s.frozen.value, k, h).Some? ==>
              forall r :: Member(Below(s), r) && Visible(r, k, h) ==> r.seqno <= Newest(s.frozen.value, k, h).value.seqno
  {
    hide HistoryOk, ViewOk, IdsOk, FlushOk, CompactOk, Get, Over, Newest;
    LayeredConcat(Below(s), [s.active]);
    GetIsNewest(Below(s), k, h);
    if s.frozen.Some? {
      GetPush(Recs(s.tables), s.frozen.value, k, h);
    }
  }

  // ------------------------------------------------------------ the whole scan

  lemma {:induction false} HistoryExtends(states: seq<State>, steps: seq<Step>, i: nat, j: nat)
    requires IsRun(states, steps) && i <= j < |states|
    ensures states[i].hist <= states[j].hist
    decreases j
  {
    hide Does;
    if i < j {
      HistoryExtends(states, steps, i, j - 1);
      StepFields(states[j - 1], steps[j - 1], states[j]);
    }
  }

  /** The mixed sources are fit to be merged. */
  lemma MixedRunsOk(a: State, b: State, c: State)
    requires Inv(a) && Inv(b) && Inv(c) && a.hist <= c.hist && b.hist <= c.hist
    ensures RunsOk(Mixed(a, b, c)) && Chronological(c.hist)
  {
    hide Layered, Shows, IsCompaction, Covers, StrictlySorted, Sorted, Chronological, ViewOk, IdsOk, FlushOk, CompactOk;
    var mixed := Mixed(a, b, c);
    assert Stack(a)[|Stack(a)| - 1] == a.active;
    assert b.frozen.Some? ==> Stack(b)[|b.tables|] == b.frozen.value;
    assert forall r :: r in a.hist ==> r in c.hist;
    assert forall r :: r in b.hist ==> r in c.hist;
    forall i, r | 0 <= i < |Stack(mixed)| && r in Stack(mixed)[i]
      ensures r in c.hist
    {
      if i < |c.tables| {
        assert Stack(c)[i] == Stack(mixed)[i];
      } else if i < |Stack(mixed)| - 1 {
        assert Stack(mixed)[i] == b.frozen.value;
      }
    }
  }

  /** A scan is linearizable key by key: each pair it yields was current at some
      instant between its first copy and its last, and a key of the range it does
      not yield was absent at some such instant, or lies beyond the limit. */
  lemma ScanLinearizes(states: seq<State>, steps: seq<Step>, a: nat, b: nat, c: nat, start: Option<Key>, end: Option<Key>,
                       limit: nat, h: nat, pairs: seq<(Key, Bytes)>)
    requires IsRun(states, steps) && Inv(states[0]) && a <= b <= c < |states|
    requires forall i :: a <= i <= c ==> LiveBound(states[i], h)
    requires IsScan(ScanStack(Mixed(states[a], states[b], states[c]), start, end), h, end, limit, pairs)
    ensures forall i :: 0 <= i < |pairs| ==>
              && From(pairs[i].0, start) && Until(pairs[i].0, end)
              && Seen(states, a, c, pairs[i].0, h, Some(pairs[i].1))
    ensures forall k :: From(k, start) && Until(k, end) ==>
              || (exists v :: (k, v) in pairs)
              || (|pairs| == limit && forall p :: p in pairs ==> Less(p.0, k))
              || Seen(states, a, c, k, h, None)
  {
    hide Inv, Does, Live, ScanStack, Seen, Member, Stack;
    var mixed := Mixed(states[a], states[b], states[c]);
    RunInv(states, steps, a);
    RunInv(states, steps, b);
    RunInv(states, steps, c);
    HistoryExtends(states, steps, a, c);
    HistoryExtends(states, steps, b, c);
    MixedRunsOk(states[a], states[b], states[c]);
    forall i | 0 <= i < |pairs|
      ensures From(pairs[i].0, start) && Until(pairs[i].0, end) && Seen(states, a, c, pairs[i].0, h, Some(pairs[i].1))
    {
      var r := LiveRecord(mixed, start, end, pairs[i].0, h, pairs[i].1);
      MixedNewest(states, steps, a, b, c, pairs[i].0, h, Some(r));
    }
    forall k | From(k, start) && Until(k, end) && !(exists v :: (k, v) in pairs)
               && !(|pairs| == limit && forall p :: p in pairs ==> Less(p.0, k))
      ensures Seen(states, a, c, k, h, None)
    {
      assert forall v :: !Live(ScanStack(mixed, start, end), k, h, v);
      var o := NotLive(mixed, start, end, k, h);
      MixedNewest(states, steps, a, b, c, k, h, o);
    }
  }

  /** A pair of the scan is the newest record of its key among the sources. */
  lemma LiveRecord(s: State, start: Option<Key>, end: Option<Key>, k: Key, h: nat, v: Bytes) returns (r: Record)
    requires RunsOk(s) && Live(ScanStack(s, start, end), k, h, v) && Until(k, end)
    ensures From(k, start) && IsNewestIn(Stack(s), k, h, Some(r)) && r.value == Some(v)
  {
    hide RunsOk, ScanStack, Member;
    var stack := ScanStack(s, start, end);
    r :| IsNewestIn(stack, k, h, Some(r)) && r.value == Some(v);
    forall x: Record | x.key == k
      ensures Member(stack, x) <==> Member(Stack(s), x) && From(k, start)
    {
      ScanMembers(s, start, end, x);
    }
  }

  /** A key the scan does not find has no newest record, or a tombstone. */
  lemma NotLive(s: State, start: Option<Key>, end: Option<Key>, k: Key, h: nat) returns (o: Option<Record>)
    requires RunsOk(s) && From(k, start) && Until(k, end) && forall v :: !Live(ScanStack(s, start, end), k, h, v)
    ensures IsNewestIn(Stack(s), k, h, o) && Value(o) == None
  {
    hide RunsOk, ScanStack, Member, Stack;
    var stack := ScanStack(s, start, end);
    forall x: Record | x.key == k
      ensures Member(stack, x) <==> Member(Stack(s), x)
    {
      ScanMembers(s, start, end, x);
    }
    o := SomeNewest(Stack(s), k, h);
    assert IsNewestIn(stack, k, h, o);
    assert o.Some? && o.value.value.Some? ==> Live(stack, k, h, o.value.value.value);
  }

  /** Among finitely many records there is a newest one. */
  lemma {:induction false} SomeNewest(stack: seq<seq<Record>>, k: Key, h: nat) returns (o: Option<Record>)
    ensures IsNewestIn(stack, k, h, o)
  {
    hide Newest, Member;
    if stack == [] {
      o := None;
      forall x: Record
        ensures !Member(stack, x)
      {
        NoMember(x);
      }
    } else {
      var below, top := stack[..|stack| - 1], stack[|stack| - 1];
      var p := SomeNewest(below, k, h);
      var q := Newest(top, k, h);
      assert stack == below + [top];
      forall x: Record
        ensures Member(stack, x) <==> Member(below, x) || x in top
      {
        MemberConcat(below, [top], x);
        MemberOne(top, x);
      }
      o := if q.None? || (p.Some? && p.value.seqno >= q.value.seqno) then p else q;
    }
  }
}
