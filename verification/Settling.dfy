/** How much of the history stands below the active MemTable: a prefix of it, which
    only grows. */
module Settling {
  import opened Records
  import opened Layers
  import opened Engine
  import opened EngineSafety
  import opened PointReads
  import opened Movement

  /** The stack shows exactly the first `n` records of the history. */
  ghost predicate Holds(stack: seq<seq<Record>>, hist: seq<Record>, n: nat) {
    n <= |hist| && Shows(stack, hist[..n], U64_MAX) && Drawn(stack, hist[..n])
  }

  lemma HoldsGrows(stack: seq<seq<Record>>, hist: seq<Record>, more: seq<Record>, n: nat)
    requires Holds(stack, hist, n)
    ensures Holds(stack, hist + more, n)
  {
    assert (hist + more)[..n] == hist[..n];
  }

  lemma HoldsAll(s: State)
    requires Inv(s)
    ensures Holds(Stack(s), s.hist, |s.hist|)
  {
    hide Layered, Shows, StrictlySorted, Sorted, Chronological, CompactOk, FlushOk, IdsOk;
    assert s.hist[..|s.hist|] == s.hist;
    assert LiveBound(s, U64_MAX);
  }

  /** Two stacks with the same answers, the second with no record of its own. */
  lemma HoldsSame(a: seq<seq<Record>>, b: seq<seq<Record>>, hist: seq<Record>, n: nat)
    requires Holds(a, hist, n) && forall k :: Value(Get(b, k, U64_MAX)) == Value(Get(a, k, U64_MAX))
    requires forall r :: Member(b, r) ==> Member(a, r)
    ensures Holds(b, hist, n)
  {
    hide Get, Lookup, Drawn, Member;
    assert Drawn(b, hist[..n]) by { DrawnSame(a, b, hist[..n]); }
  }

  lemma DrawnSame(a: seq<seq<Record>>, b: seq<seq<Record>>, hist: seq<Record>)
    requires Drawn(a, hist) && forall r :: Member(b, r) ==> Member(a, r)
    ensures Drawn(b, hist)
  {
    forall i, r | 0 <= i < |b| && r in b[i]
      ensures r in hist
    {
      assert Member(b, r) && Member(a, r);
    }
  }

  lemma FreezeSettles(s: State, s': State)
    requires Inv(s) && Does(s, Freeze, s')
    ensures Holds(Below(s'), s'.hist, |s'.hist|)
  {
    hide Holds, HistoryOk, LayersOk, ViewOk, IdsOk, CompactOk;
    HoldsAll(s);
    assert Below(s') == Stack(s);
  }

  /** A publication, its end and a splice move records but change no answer. */
  lemma MoveSettles(s: State, step: Step, s': State, m: nat)
    requires Inv(s) && Does(s, step, s') && (step.Publish? || step.ClearFrozen? || step.SpliceRun?)
    requires Holds(Below(s), s.hist, m)
    ensures Holds(Below(s'), s.hist, m)
  {
    hide Holds, Inv, Get, Does, Member, Below;
    assert LiveBound(s, U64_MAX);
    forall k
      ensures Value(Get(Below(s'), k, U64_MAX)) == Value(Get(Below(s), k, U64_MAX))
    {
      if step.Publish? {
        PublishRest(s, s', k, U64_MAX);
      } else if step.ClearFrozen? {
        ClearRest(s, s', k, U64_MAX);
      } else {
        SpliceTablesRest(s, s', k, U64_MAX);
      }
    }
    forall r: Record | Member(Below(s'), r)
      ensures Member(Below(s), r)
    {
      if step.SpliceRun? {
        SpliceBelow(s, s', r);
      } else {
        FlushMembers(s, step, s', r);
      }
    }
    HoldsSame(Below(s), Below(s'), s.hist, m);
  }

  /** The prefix of the history that stands below the active MemTable never
      shrinks, and a freeze makes it the whole history. */
  lemma StepSettles(s: State, step: Step, s': State, m: nat) returns (m': nat)
    requires Inv(s) && Does(s, step, s') && Holds(Below(s), s.hist, m)
    ensures Holds(Below(s'), s'.hist, m') && m <= m' && (step.Freeze? ==> m' == |s'.hist|)
  {
    hide Inv, Does, Holds, Below;
    m' := m;
    StepFields(s, step, s');
    if step.Freeze? {
      FreezeSettles(s, s');
      HoldsLength(Below(s), s.hist, m);
      m' := |s'.hist|;
    } else if step.Publish? || step.ClearFrozen? || step.SpliceRun? {
      MoveSettles(s, step, s', m);
    } else {
      SameBelow(s, step, s');
      HoldsGrows(Below(s), s.hist, s'.hist[|s.hist|..], m);
      assert s.hist + s'.hist[|s.hist|..] == s'.hist;
    }
  }

  lemma HoldsLength(stack: seq<seq<Record>>, hist: seq<Record>, n: nat)
    requires Holds(stack, hist, n)
    ensures n <= |hist|
  {
  }

  lemma {:induction false} RunSettles(states: seq<State>, steps: seq<Step>, i: nat, j: nat, m: nat) returns (m': nat)
    requires IsRun(states, steps) && Inv(states[0]) && i <= j < |states| && Holds(Below(states[i]), states[i].hist, m)
    ensures Holds(Below(states[j]), states[j].hist, m') && m <= m'
    decreases j
  {
    hide Inv, Does, Holds, Below;
    m' := m;
    if i < j {
      m' := RunSettles(states, steps, i, j - 1, m);
      RunInv(states, steps, j - 1);
      m' := StepSettles(states[j - 1], steps[j - 1], states[j], m');
    }
  }

  /** With nothing buffered, everything stands below. */
  lemma EmptySettles(s: State)
    requires Inv(s) && s.flush.NoFlush? && s.active == []
    ensures Holds(Below(s), s.hist, |s.hist|) && Below(s) == Recs(s.tables)
  {
    hide HistoryOk, LayersOk, ViewOk, IdsOk, CompactOk, Holds, Get, Member;
    HoldsAll(s);
    var base := Recs(s.tables);
    assert Below(s) == base && Stack(s) == base + [[]];
    forall k
      ensures Value(Get(base, k, U64_MAX)) == Value(Get(base + [[]], k, U64_MAX))
    {
      GetPush(base, [], k, U64_MAX);
    }
    forall r: Record | Member(base, r)
      ensures Member(base + [[]], r)
    {
      MemberConcat(base, [[]], r);
    }
    HoldsSame(base + [[]], base, s.hist, |s.hist|);
  }
}
