/** What a read means: the newest visible version in a run, the first hit down
    a stack of layers, and the plain append-only history both have to agree with. */
module Layers {
  import opened Records

  /** Visible to a read of `k` at bound `h`. */
  predicate Visible(r: Record, k: Key, h: nat) {
    r.key == k && r.seqno < h
  }

  ghost predicate IsNewest(run: seq<Record>, k: Key, h: nat, o: Option<Record>) {
    match o
    case None => forall x :: x in run ==> !Visible(x, k, h)
    case Some(r) => r in run && Visible(r, k, h) && forall x :: x in run && Visible(x, k, h) ==> x.seqno <= r.seqno
  }

  /** The newest version of `k` below `h` in one run, in whatever order the run is. */
  function Newest(run: seq<Record>, k: Key, h: nat): (o: Option<Record>)
    ensures IsNewest(run, k, h, o)
  {
    if run == [] then
      None
    else
      var rest := Newest(run[1..], k, h);
      if Visible(run[0], k, h) && (rest.None? || rest.value.seqno <= run[0].seqno) then Some(run[0]) else rest
  }

  lemma NewestUnique(run: seq<Record>, k: Key, h: nat, o: Option<Record>)
    requires Consistent(run) && IsNewest(run, k, h, o)
    ensures o == Newest(run, k, h)
  {
  }

  /** What a reader is handed: absence and a tombstone are the same answer. */
  function Value(o: Option<Record>): Option<Bytes> {
    if o.Some? then o.value.value else None
  }

  // ------------------------------------------------------------------ history

  /** The reference: scan the history of writes from its end. */
  function Lookup(hist: seq<Record>, k: Key, h: nat): (o: Option<Record>) {
    if hist == [] then
      None
    else if Visible(hist[|hist| - 1], k, h) then
      Some(hist[|hist| - 1])
    else
      Lookup(hist[..|hist| - 1], k, h)
  }

  /** Records appear in the history in the order of their sequence numbers. */
  predicate Chronological(hist: seq<Record>) {
    forall i, j :: 0 <= i < j < |hist| ==> hist[i].seqno < hist[j].seqno
  }

  lemma ChronologicalConsistent(hist: seq<Record>)
    requires Chronological(hist)
    ensures Consistent(hist)
  {
    forall a, b | a in hist && b in hist && a.seqno == b.seqno
      ensures a == b
    {
      var i: nat :| i < |hist| && hist[i] == a;
      var j: nat :| j < |hist| && hist[j] == b;
      assert i == j;
    }
  }

  lemma {:induction false} LookupIsNewest(hist: seq<Record>, k: Key, h: nat)
    requires Chronological(hist)
    ensures IsNewest(hist, k, h, Lookup(hist, k, h))
  {
    if hist != [] {
      var front, last := hist[..|hist| - 1], hist[|hist| - 1];
      assert hist == front + [last];
      LookupIsNewest(front, k, h);
      forall x | x in front
        ensures x.seqno < last.seqno
      {
        var i: nat :| i < |front| && front[i] == x;
        assert hist[i].seqno < hist[|hist| - 1].seqno;
      }
    }
  }

  lemma {:induction false} LookupConcat(a: seq<Record>, b: seq<Record>, k: Key, h: nat)
    ensures Lookup(a + b, k, h) == (if Lookup(b, k, h).Some? then Lookup(b, k, h) else Lookup(a, k, h))
    decreases |b|
  {
    if b == [] {
      assert a + b == a;
    } else {
      assert (a + b)[..|a + b| - 1] == a + b[..|b| - 1];
      LookupConcat(a, b[..|b| - 1], k, h);
    }
  }

  /** Bounds above everything give the same answers. */
  lemma {:induction false} LookupAbove(hist: seq<Record>, k: Key, h: nat, h': nat)
    requires forall r :: r in hist ==> r.seqno < h && r.seqno < h'
    ensures Lookup(hist, k, h) == Lookup(hist, k, h')
  {
    if hist != [] {
      assert hist[|hist| - 1] in hist;
      LookupAbove(hist[..|hist| - 1], k, h, h');
    }
  }

  lemma {:induction false} NewestAbove(run: seq<Record>, k: Key, h: nat, h': nat)
    requires forall r :: r in run ==> r.seqno < h && r.seqno < h'
    ensures Newest(run, k, h) == Newest(run, k, h')
  {
    if run != [] {
      assert run[0] in run;
      NewestAbove(run[1..], k, h, h');
    }
  }

  lemma {:induction false} GetAbove(stack: seq<seq<Record>>, k: Key, h: nat, h': nat)
    requires forall i, r :: 0 <= i < |stack| && r in stack[i] ==> r.seqno < h && r.seqno < h'
    ensures Get(stack, k, h) == Get(stack, k, h')
  {
    if stack != [] {
      NewestAbove(stack[|stack| - 1], k, h, h');
      GetAbove(stack[..|stack| - 1], k, h, h');
    }
  }

  /** Records at or above a bound leave the lookup at that bound unchanged. */
  lemma LookupIgnores(hist: seq<Record>, more: seq<Record>, k: Key, h: nat)
    requires forall x :: x in more ==> !Visible(x, k, h)
    ensures Lookup(hist + more, k, h) == Lookup(hist, k, h)
  {
    LookupConcat(hist, more, k, h);
    LookupMember(more, k, h);
  }

  lemma {:induction false} LookupMember(hist: seq<Record>, k: Key, h: nat)
    ensures var o := Lookup(hist, k, h); o.Some? ==> o.value in hist && Visible(o.value, k, h)
  {
    if hist != [] {
      LookupMember(hist[..|hist| - 1], k, h);
    }
  }

  // ------------------------------------------------------------------- layers

  /** First hit down a stack of runs listed oldest to newest. */
  function Get(stack: seq<seq<Record>>, k: Key, h: nat): (o: Option<Record>) {
    if stack == [] then
      None
    else
      var top := Newest(stack[|stack| - 1], k, h);
      if top.Some? then top else Get(stack[..|stack| - 1], k, h)
  }

  /** A newer layer that holds a version of a key also holds every younger
      version of it that an older layer holds. */
  ghost predicate Over(newer: seq<Record>, older: seq<Record>) {
    forall u, r :: u in newer && r in older && u.key == r.key && u.seqno < r.seqno ==> r in newer
  }

  ghost predicate Layered(stack: seq<seq<Record>>) {
    forall i, j :: 0 <= i < j < |stack| ==> Over(stack[j], stack[i])
  }

  ghost predicate Member(stack: seq<seq<Record>>, r: Record) {
    exists i :: 0 <= i < |stack| && r in stack[i]
  }

  ghost predicate IsNewestIn(stack: seq<seq<Record>>, k: Key, h: nat, o: Option<Record>) {
    match o
    case None => forall x :: Member(stack, x) ==> !Visible(x, k, h)
    case Some(r) =>
      Member(stack, r) && Visible(r, k, h) && forall x :: Member(stack, x) && Visible(x, k, h) ==> x.seqno <= r.seqno
  }

  /** Every layer of the stack draws its records from `hist`. */
  ghost predicate Drawn(stack: seq<seq<Record>>, hist: seq<Record>) {
    forall i, r :: 0 <= i < |stack| && r in stack[i] ==> r in hist
  }

  /** In a layered stack the first hit is the newest version of all layers. */
  lemma {:induction false} GetIsNewest(stack: seq<seq<Record>>, k: Key, h: nat)
    requires Layered(stack)
    ensures IsNewestIn(stack, k, h, Get(stack, k, h))
  {
    if stack != [] {
      var top, below := stack[|stack| - 1], stack[..|stack| - 1];
      assert forall i, j :: 0 <= i < j < |below| ==> Over(stack[j], stack[i]);
      GetIsNewest(below, k, h);
      var o := Get(stack, k, h);
      forall x | Member(stack, x)
        ensures x in top || Member(below, x)
      {
        var i :| 0 <= i < |stack| && x in stack[i];
        if i < |below| {
          assert x in below[i];
        }
      }
      if o.Some? {
        if Newest(top, k, h).Some? {
          assert Member(stack, o.value);
          forall x | Member(stack, x) && Visible(x, k, h)
            ensures x.seqno <= o.value.seqno
          {
            var i :| 0 <= i < |stack| && x in stack[i];
            assert i < |stack| - 1 ==> Over(stack[|stack| - 1], stack[i]);
          }
        } else {
          MemberPrefix(stack, |stack| - 1, o.value);
        }
      }
    }
  }

  lemma MemberPrefix(stack: seq<seq<Record>>, n: nat, r: Record)
    requires n <= |stack| && Member(stack[..n], r)
    ensures Member(stack, r)
  {
    var i :| 0 <= i < |stack[..n]| && r in stack[..n][i];
    assert r in stack[i];
  }

  lemma {:induction false} GetConcat(a: seq<seq<Record>>, b: seq<seq<Record>>, k: Key, h: nat)
    ensures Get(a + b, k, h) == (if Get(b, k, h).Some? then Get(b, k, h) else Get(a, k, h))
  {
    if b == [] {
      assert a + b == a;
    } else {
      var front := b[..|b| - 1];
      assert (a + b)[|a + b| - 1] == b[|b| - 1];
      assert (a + b)[..|a + b| - 1] == a + front;
      GetConcat(a, front, k, h);
    }
  }

  lemma GetOne(run: seq<Record>, k: Key, h: nat)
    ensures Get([run], k, h) == Newest(run, k, h)
  {
    assert [run][..0] == [];
  }

  lemma GetPush(stack: seq<seq<Record>>, top: seq<Record>, k: Key, h: nat)
    ensures Get(stack + [top], k, h) == (if Newest(top, k, h).Some? then Newest(top, k, h) else Get(stack, k, h))
  {
    assert (stack + [top])[..|stack|] == stack;
  }

  /** The stack answers every read at bound `h` as the history does. */
  ghost predicate Shows(stack: seq<seq<Record>>, hist: seq<Record>, h: nat) {
    forall k :: Value(Get(stack, k, h)) == Value(Lookup(hist, k, h))
  }

  // ------------------------------------------------------- stacks of stacks

  /** Every layer of `newer` lies over every layer of `older`. */
  ghost predicate AllOver(newer: seq<seq<Record>>, older: seq<seq<Record>>) {
    forall i, j :: 0 <= i < |older| && 0 <= j < |newer| ==> Over(newer[j], older[i])
  }

  lemma LayeredConcat(a: seq<seq<Record>>, b: seq<seq<Record>>)
    ensures Layered(a + b) <==> Layered(a) && Layered(b) && AllOver(b, a)
  {
    hide Over;
    var c := a + b;
    assert forall i :: 0 <= i < |a| ==> c[i] == a[i];
    assert forall j :: 0 <= j < |b| ==> c[|a| + j] == b[j];
    if Layered(c) {
      assert Layered(a);
      assert Layered(b);
      assert AllOver(b, a);
    }
    if Layered(a) && Layered(b) && AllOver(b, a) {
      forall i, j | 0 <= i < j < |c|
        ensures Over(c[j], c[i])
      {
        if j < |a| {
        } else if i < |a| {
          assert c[j] == b[j - |a|];
        } else {
          assert c[i] == b[i - |a|] && c[j] == b[j - |a|];
        }
      }
    }
  }

  lemma AllOverConcat(newer: seq<seq<Record>>, a: seq<seq<Record>>, b: seq<seq<Record>>)
    ensures AllOver(newer, a + b) <==> AllOver(newer, a) && AllOver(newer, b)
    ensures AllOver(a + b, newer) <==> AllOver(a, newer) && AllOver(b, newer)
  {
    hide Over;
    var c := a + b;
    assert forall i :: 0 <= i < |a| ==> c[i] == a[i];
    assert forall j :: 0 <= j < |b| ==> c[|a| + j] == b[j];
    assert forall i :: |a| <= i < |c| ==> c[i] == b[i - |a|];
  }

  lemma MemberConcat(a: seq<seq<Record>>, b: seq<seq<Record>>, r: Record)
    ensures Member(a + b, r) <==> Member(a, r) || Member(b, r)
  {
    var c := a + b;
    if i :| 0 <= i < |a| && r in a[i] {
      assert r in c[i];
    }
    if j :| 0 <= j < |b| && r in b[j] {
      assert r in c[|a| + j];
    }
    if i :| 0 <= i < |c| && r in c[i] {
      assert if i < |a| then r in a[i] else r in b[i - |a|];
    }
  }

  lemma MemberOne(run: seq<Record>, r: Record)
    ensures Member([run], r) <==> r in run
  {
    assert r in run ==> r in [run][0];
  }
}
