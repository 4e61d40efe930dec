/** Scans of the whole engine: taken in one state, they agree with point reads, key
    by key. */
module EngineScan {
  import opened Records
  import opened Layers
  import opened Retention
  import opened Engine
  import opened EngineSafety
  import opened Ranges
  import opened Scan

  /** The sources a scan merges: copies of the MemTables clipped to the range, and
      every table from the start key on. */
  function ScanStack(s: State, start: Option<Key>, end: Option<Key>): (stack: seq<seq<Record>>) {
    [Clip(AtLeast(s.active, start), end)]
    + (if s.frozen.Some? then [Clip(AtLeast(s.frozen.value, start), end)] else [])
    + seq(|s.tables|, i requires 0 <= i < |s.tables| => AtLeast(s.tables[i].recs, start))
  }

  /** What a scan needs of its sources: each is sorted and holds records of the
      history. */
  ghost predicate RunsOk(s: State) {
    && Drawn(Stack(s), s.hist)
    && StrictlySorted(s.active)
    && (s.frozen.Some? ==> StrictlySorted(s.frozen.value))
    && forall i :: 0 <= i < |s.tables| ==> Sorted(s.tables[i].recs)
  }

  /** In range, the scan's sources hold what the layers hold. */
  lemma ScanMembers(s: State, start: Option<Key>, end: Option<Key>, x: Record)
    requires RunsOk(s) && Until(x.key, end)
    ensures Member(ScanStack(s, start, end), x) <==> Member(Stack(s), x) && From(x.key, start)
  {
    hide Drawn, Sorted, StrictlySorted, Member;
    var tables := seq(|s.tables|, i requires 0 <= i < |s.tables| => AtLeast(s.tables[i].recs, start));
    var mem := [Clip(AtLeast(s.active, start), end)];
    var older := if s.frozen.Some? then [Clip(AtLeast(s.frozen.value, start), end)] else [];
    MemberConcat(mem + older, tables, x);
    MemberConcat(mem, older, x);
    MemberConcat(Recs(s.tables) + FrozenLayer(s), [s.active], x);
    MemberConcat(Recs(s.tables), FrozenLayer(s), x);
    PartMember(s.active, start, end, x);
    if s.frozen.Some? {
      PartMember(s.frozen.value, start, end, x);
    } else {
      NoMember(x);
    }
    TablesMember(s, start, tables, x);
  }

  lemma NoMember(x: Record)
    ensures !Member([], x)
  {
  }

  lemma PartMember(run: seq<Record>, start: Option<Key>, end: Option<Key>, x: Record)
    requires StrictlySorted(run) && Until(x.key, end)
    ensures Member([Clip(AtLeast(run, start), end)], x) <==> Member([run], x) && From(x.key, start)
    ensures Sorted(Clip(AtLeast(run, start), end))
  {
    StrictIsSorted(run);
    AtLeastMembers(run, start);
    ClipMembers(AtLeast(run, start), end);
    MemberOne(run, x);
    MemberOne(Clip(AtLeast(run, start), end), x);
  }

  lemma TablesMember(s: State, start: Option<Key>, tables: seq<seq<Record>>, x: Record)
    requires RunsOk(s) && |tables| == |s.tables|
    requires forall i :: 0 <= i < |s.tables| ==> tables[i] == AtLeast(s.tables[i].recs, start)
    ensures Member(tables, x) <==> Member(Recs(s.tables), x) && From(x.key, start)
  {
    hide Drawn;
    forall i | 0 <= i < |s.tables|
      ensures x in tables[i] <==> x in Recs(s.tables)[i] && From(x.key, start)
    {
      AtLeastMembers(s.tables[i].recs, start);
    }
  }

  /** The scan's sources are fit to be merged. */
  lemma ScanMergeable(s: State, start: Option<Key>, end: Option<Key>)
    requires Chronological(s.hist) && RunsOk(s)
    ensures AllSorted(ScanStack(s, start, end)) && ConsistentStack(ScanStack(s, start, end))
  {
    hide Sorted, StrictlySorted, Clip, AtLeast, Chronological;
    var stack := ScanStack(s, start, end);
    forall i | 0 <= i < |stack|
      ensures Sorted(stack[i]) && forall x :: x in stack[i] ==> x in s.hist
    {
      SourceOk(s, start, end, i);
    }
    ChronologicalConsistent(s.hist);
  }

  lemma SourceOk(s: State, start: Option<Key>, end: Option<Key>, i: nat)
    requires RunsOk(s) && i < |ScanStack(s, start, end)|
    ensures Sorted(ScanStack(s, start, end)[i]) && forall x :: x in ScanStack(s, start, end)[i] ==> x in s.hist
  {
    hide Sorted, StrictlySorted, Clip, AtLeast;
    var m := if s.frozen.Some? then 2 else 1;
    if i == 0 {
      assert Stack(s)[|Stack(s)| - 1] == s.active;
      PartOk(s.active, start, end);
    } else if i < m {
      assert Stack(s)[|s.tables|] == s.frozen.value;
      PartOk(s.frozen.value, start, end);
    } else {
      assert Stack(s)[i - m] == s.tables[i - m].recs;
      AtLeastMembers(s.tables[i - m].recs, start);
    }
  }

  lemma PartOk(run: seq<Record>, start: Option<Key>, end: Option<Key>)
    requires StrictlySorted(run)
    ensures Sorted(Clip(AtLeast(run, start), end)) && forall x :: x in Clip(AtLeast(run, start), end) ==> x in run
  {
    hide Sorted, StrictlySorted, Clip, AtLeast;
    StrictIsSorted(run);
    AtLeastMembers(run, start);
    ClipMembers(AtLeast(run, start), end);
  }

  /** A key in range is live in the scan's sources with the value a point read
      gives, and a key before the start is not live there. */
  lemma LiveIsRead(s: State, start: Option<Key>, end: Option<Key>, k: Key, h: nat, v: Bytes)
    requires HistoryOk(s) && LayersOk(s) && Until(k, end)
    ensures Live(ScanStack(s, start, end), k, h, v) <==> From(k, start) && Value(Get(Stack(s), k, h)) == Some(v)
  {
    hide LayersOk, HistoryOk, ScanStack, Get, RunsOk;
    StackFacts(s);
    LayersRuns(s);
    var stack := ScanStack(s, start, end);
    forall x: Record | x.key == k
      ensures Member(stack, x) <==> Member(Stack(s), x) && From(k, start)
    {
      ScanMembers(s, start, end, x);
    }
    if From(k, start) {
      SameVisible(stack, Stack(s), k, h, v);
      GetIsNewest(Stack(s), k, h);
      var o := Get(Stack(s), k, h);
      if o.Some? {
        NewestSettled(Stack(s), o.value, h, v);
      }
    }
  }

  lemma LayersRuns(s: State)
    requires LayersOk(s)
    ensures RunsOk(s)
  {
  }

  lemma ScanReady(s: State, start: Option<Key>, end: Option<Key>)
    requires Inv(s)
    ensures AllSorted(ScanStack(s, start, end)) && ConsistentStack(ScanStack(s, start, end))
  {
    hide LayersOk, ViewOk, IdsOk, FlushOk, CompactOk, AllSorted, ConsistentStack, ScanStack, RunsOk, Chronological;
    LayersRuns(s);
    ScanMergeable(s, start, end);
  }

  lemma StackFacts(s: State)
    requires HistoryOk(s) && LayersOk(s)
    ensures Layered(Stack(s)) && ConsistentStack(Stack(s))
  {
    ChronologicalConsistent(s.hist);
  }

  /** Every scan in every state of every run from a healthy state: strictly ascending keys, each with the
      value a point read at the same bound gives, none in range missing before
      the last one, and none missing at all unless the limit was reached. */
  lemma ScanMatchesGets(states: seq<State>, steps: seq<Step>, n: nat, start: Option<Key>, end: Option<Key>,
                        limit: nat, h: nat, pairs: seq<(Key, Bytes)>)
    requires IsRun(states, steps) && Inv(states[0]) && n < |states|
    requires IsScan(ScanStack(states[n], start, end), h, end, limit, pairs)
    ensures |pairs| <= limit && forall i, j :: 0 <= i < j < |pairs| ==> Less(pairs[i].0, pairs[j].0)
    ensures forall i :: 0 <= i < |pairs| ==>
              && From(pairs[i].0, start) && Until(pairs[i].0, end)
              && Value(Get(Stack(states[n]), pairs[i].0, h)) == Some(pairs[i].1)
    ensures forall k :: From(k, start) && Until(k, end) && Value(Get(Stack(states[n]), k, h)).Some? ==>
              || (k, Value(Get(Stack(states[n]), k, h)).value) in pairs
              || (|pairs| == limit && forall p :: p in pairs ==> Less(p.0, k))
  {
    hide Live, Get, ScanStack, LayersOk, HistoryOk, ViewOk, FlushOk, CompactOk, IdsOk, Does, Stack;
    RunInv(states, steps, n);
    var s := states[n];
    forall i | 0 <= i < |pairs|
      ensures From(pairs[i].0, start) && Until(pairs[i].0, end) && Value(Get(Stack(s), pairs[i].0, h)) == Some(pairs[i].1)
    {
      LiveIsRead(s, start, end, pairs[i].0, h, pairs[i].1);
    }
    forall k | From(k, start) && Until(k, end) && Value(Get(Stack(s), k, h)).Some?
      ensures Live(ScanStack(s, start, end), k, h, Value(Get(Stack(s), k, h)).value) && Until(k, end)
    {
      LiveIsRead(s, start, end, k, h, Value(Get(Stack(s), k, h)).value);
    }
  }
}
