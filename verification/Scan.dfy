/** The range scan: a k-way merge over sorted sources that emits, in key order,
    the live value of every key in range. */
module Scan {
  import opened Records
  import opened Layers
  import opened Retention
  import opened Ranges

  /** A source yields its records and then, if it `fails`, one error. */
  datatype Source = Source(recs: seq<Record>, fails: bool)

  function Runs(sources: seq<Source>): (stack: seq<seq<Record>>)
    ensures |stack| == |sources|
    ensures forall i :: 0 <= i < |sources| ==> stack[i] == sources[i].recs
  {
    seq(|sources|, i requires 0 <= i < |sources| => sources[i].recs)
  }

  // ------------------------------------------------------------ what is emitted

  /** `v` is what a read of `k` at bound `h` over all sources gives. */
  ghost predicate Live(stack: seq<seq<Record>>, k: Key, h: nat, v: Bytes) {
    exists r :: IsNewestIn(stack, k, h, Some(r)) && r.value == Some(v)
  }

  /** Still to be emitted: live, in range, and not the key just done with. */
  ghost predicate Todo(stack: seq<seq<Record>>, h: nat, end: Option<Key>, done: Option<Key>, k: Key, v: Bytes) {
    Live(stack, k, h, v) && Until(k, end) && done != Some(k)
  }

  // --------------------------------------------------------- removing a record

  /** Two stacks that hold the same visible versions of `k` agree on it. */
  lemma SameVisible(a: seq<seq<Record>>, b: seq<seq<Record>>, k: Key, h: nat, v: Bytes)
    requires forall x :: Visible(x, k, h) ==> (Member(a, x) <==> Member(b, x))
    ensures Live(a, k, h, v) <==> Live(b, k, h, v)
  {
    forall r
      ensures IsNewestIn(a, k, h, Some(r)) <==> IsNewestIn(b, k, h, Some(r))
    {
    }
  }

  /** Popping the head of one source removes at most that record. */
  lemma PoppedMembers(stack: seq<seq<Record>>, i: nat, x: Record)
    requires i < |stack| && stack[i] != []
    ensures Member(stack[i := stack[i][1..]], x) ==> Member(stack, x)
    ensures Member(stack, x) ==> x == stack[i][0] || Member(stack[i := stack[i][1..]], x)
  {
    var stack' := stack[i := stack[i][1..]];
    assert stack[i] == [stack[i][0]] + stack[i][1..];
    if j :| 0 <= j < |stack'| && x in stack'[j] {
      assert x in stack[j];
    }
    if j :| 0 <= j < |stack| && x in stack[j] {
      assert x == stack[i][0] || x in stack'[j];
    }
  }

  lemma DroppedMembers(stack: seq<seq<Record>>, i: nat, x: Record)
    requires i < |stack|
    ensures Member(stack[i := []], x) ==> Member(stack, x)
    ensures Member(stack, x) ==> x in stack[i] || Member(stack[i := []], x)
  {
    var stack' := stack[i := []];
    if j :| 0 <= j < |stack'| && x in stack'[j] {
      assert x in stack[j];
    }
    if j :| 0 <= j < |stack| && x in stack[j] {
      assert x in stack[i] || x in stack'[j];
    }
  }

  // ------------------------------------------------------------- the least head

  /** `a` is taken before `b`: smaller key, then larger sequence number. */
  predicate HeadFirst(a: Record, b: Record) {
    Less(a.key, b.key) || (a.key == b.key && a.seqno >= b.seqno)
  }

  ghost predicate AllSorted(stack: seq<seq<Record>>) {
    forall i :: 0 <= i < |stack| ==> Sorted(stack[i])
  }

  ghost predicate LeastHead(stack: seq<seq<Record>>, i: nat) {
    && i < |stack| && stack[i] != []
    && forall j :: 0 <= j < |stack| && stack[j] != [] ==> HeadFirst(stack[i][0], stack[j][0])
  }

  /** The least head sorts no later than any record of any source. */
  lemma LeastOfAll(stack: seq<seq<Record>>, i: nat, x: Record)
    requires AllSorted(stack) && LeastHead(stack, i) && Member(stack, x)
    ensures InOrder(stack[i][0], x)
  {
    var j :| 0 <= j < |stack| && x in stack[j];
    var t :| 0 <= t < |stack[j]| && stack[j][t] == x;
    assert t > 0 ==> InOrder(stack[j][0], stack[j][t]);
    BeforeTransitive(stack[i][0], stack[j][0], x);
  }

  /** So if it is visible, it is the newest visible version of its key. */
  lemma LeastIsNewest(stack: seq<seq<Record>>, i: nat, h: nat)
    requires AllSorted(stack) && LeastHead(stack, i) && stack[i][0].seqno < h
    ensures IsNewestIn(stack, stack[i][0].key, h, Some(stack[i][0]))
  {
    var r := stack[i][0];
    assert r in stack[i];
    assert Member(stack, r);
    forall x | Member(stack, x) && Visible(x, r.key, h)
      ensures x.seqno <= r.seqno
    {
      LeastOfAll(stack, i, x);
      LessIrreflexive(r.key);
    }
  }

  /** Every key left is at or above the key just done with. */
  ghost predicate Floor(stack: seq<seq<Record>>, done: Option<Key>) {
    done.Some? ==> forall x :: Member(stack, x) ==> !Less(x.key, done.value)
  }

  // ------------------------------------------------------ one turn of the loop

  /** A record that is out of range, shadowed or invisible can be skipped. */
  lemma SkipKeeps(stack: seq<seq<Record>>, i: nat, h: nat, end: Option<Key>, done: Option<Key>, k: Key, v: Bytes)
    requires i < |stack| && stack[i] != []
    requires done == Some(stack[i][0].key) || stack[i][0].seqno >= h
    ensures Todo(stack, h, end, done, k, v) <==> Todo(stack[i := stack[i][1..]], h, end, done, k, v)
  {
    if done != Some(k) {
      forall x | Visible(x, k, h)
        ensures Member(stack, x) <==> Member(stack[i := stack[i][1..]], x)
      {
        PoppedMembers(stack, i, x);
      }
      SameVisible(stack, stack[i := stack[i][1..]], k, h, v);
    }
  }

  lemma DropKeeps(stack: seq<seq<Record>>, i: nat, h: nat, end: Option<Key>, done: Option<Key>, k: Key, v: Bytes)
    requires i < |stack| && stack[i] != [] && Sorted(stack[i]) && end.Some? && !Less(stack[i][0].key, end.value)
    ensures Todo(stack, h, end, done, k, v) <==> Todo(stack[i := []], h, end, done, k, v)
  {
    if Until(k, end) {
      forall x | Visible(x, k, h)
        ensures Member(stack, x) <==> Member(stack[i := []], x)
      {
        DroppedMembers(stack, i, x);
        if x in stack[i] {
          BeyondEnd(stack[i], end.value, x);
        }
      }
      SameVisible(stack, stack[i := []], k, h, v);
    }
  }

  lemma BeyondEnd(run: seq<Record>, end: Key, x: Record)
    requires run != [] && Sorted(run) && !Less(run[0].key, end) && x in run
    ensures !Less(x.key, end)
  {
    var t :| 0 <= t < |run| && run[t] == x;
    assert t > 0 ==> InOrder(run[0], run[t]);
    if Less(x.key, end) && Less(run[0].key, x.key) {
      LessTransitive(run[0].key, x.key, end);
    }
  }

  /** Taking the newest visible version of a key settles that key, and the key
      settled before it has nothing left. */
  lemma TakeSettles(stack: seq<seq<Record>>, i: nat, h: nat, end: Option<Key>, done: Option<Key>, k: Key, v: Bytes)
    requires AllSorted(stack) && ConsistentStack(stack) && LeastHead(stack, i) && Floor(stack, done)
    requires done != Some(stack[i][0].key) && stack[i][0].seqno < h && Until(stack[i][0].key, end)
    ensures var r, stack' := stack[i][0], stack[i := stack[i][1..]];
            && (Todo(stack', h, end, Some(r.key), k, v) <==> Todo(stack, h, end, done, k, v) && k != r.key)
            && (Todo(stack, h, end, done, r.key, v) <==> r.value == Some(v))
  {
    var r, stack' := stack[i][0], stack[i := stack[i][1..]];
    LeastIsNewest(stack, i, h);
    NewestSettled(stack, r, h, v);
    if k != r.key {
      forall x | Visible(x, k, h)
        ensures Member(stack, x) <==> Member(stack', x)
      {
        PoppedMembers(stack, i, x);
      }
      SameVisible(stack, stack', k, h, v);
      if done == Some(k) {
        NothingBelow(stack, i, k, h, v);
      }
    }
  }

  lemma NewestSettled(stack: seq<seq<Record>>, r: Record, h: nat, v: Bytes)
    requires ConsistentStack(stack) && IsNewestIn(stack, r.key, h, Some(r))
    ensures Live(stack, r.key, h, v) <==> r.value == Some(v)
  {
    if q :| IsNewestIn(stack, r.key, h, Some(q)) && q.value == Some(v) {
      assert q.seqno == r.seqno;
    }
  }

  lemma NothingBelow(stack: seq<seq<Record>>, i: nat, d: Key, h: nat, v: Bytes)
    requires AllSorted(stack) && LeastHead(stack, i) && !Less(stack[i][0].key, d) && stack[i][0].key != d
    ensures !Live(stack, d, h, v)
  {
    if r :| IsNewestIn(stack, d, h, Some(r)) && r.value == Some(v) {
      LeastOfAll(stack, i, r);
      assert false;
    }
  }

  lemma FloorPop(stack: seq<seq<Record>>, i: nat, done: Option<Key>)
    requires AllSorted(stack) && LeastHead(stack, i) && Floor(stack, done)
    ensures Floor(stack[i := stack[i][1..]], done) && Floor(stack[i := stack[i][1..]], Some(stack[i][0].key))
    ensures AllSorted(stack[i := stack[i][1..]])
  {
    var r := stack[i][0];
    forall x | Member(stack[i := stack[i][1..]], x)
      ensures Member(stack, x) && !Less(x.key, r.key)
    {
      PoppedMembers(stack, i, x);
      LeastOfAll(stack, i, x);
      BeforeTotal(r, x);
    }
  }

  // -------------------------------------------------------- the source's form

  predicate Failed(src: Source) {
    src.recs == [] && src.fails
  }

  /** The source fails before it leaves the range, so that its failure is met if the
      scan goes on long enough. */
  predicate Broken(src: Source, end: Option<Key>) {
    src.fails && forall x :: x in src.recs ==> Until(x.key, end)
  }

  /** Nothing below `k` is left. */
  ghost predicate Passed(sources: seq<Source>, k: Key) {
    forall i, x :: 0 <= i < |sources| && x in sources[i].recs ==> !Less(x.key, k)
  }

  /** Sources later in a scan: what is left of each, no failure forgotten, and of a
      source that is still to fail nothing gone but records that were passed. */
  ghost predicate Onward(was: seq<Source>, now: seq<Source>, end: Option<Key>) {
    && |now| == |was|
    && (forall i, x :: 0 <= i < |was| && x in now[i].recs ==> x in was[i].recs)
    && (forall i :: 0 <= i < |was| && Broken(was[i], end) ==> now[i].fails)
    && forall i :: 0 <= i < |was| && now[i].fails ==>
         was[i].fails && forall x :: x in was[i].recs ==> x in now[i].recs || (Until(x.key, end) && Passed(now, x.key))
  }

  /** The least head is passed over. */
  lemma OnwardDrop(was: seq<Source>, now: seq<Source>, end: Option<Key>, i: nat)
    requires Onward(was, now, end) && LeastHead(Runs(now), i) && AllSorted(Runs(now))
    ensures Until(now[i].recs[0].key, end) ==> Onward(was, now[i := Source(now[i].recs[1..], now[i].fails)], end)
    ensures !Until(now[i].recs[0].key, end) ==> Onward(was, now[i := Source([], false)], end)
  {
    hide LeastHead, AllSorted, Broken, Until;
    HeadPassed(now, i);
    var r, rest, none := now[i].recs[0], now[i := Source(now[i].recs[1..], now[i].fails)], now[i := Source([], false)];
    assert now[i].recs == [r] + now[i].recs[1..];
    assert Passed(rest, r.key);
    PassedOn(now, rest);
    PassedOn(now, none);
    if !Until(r.key, end) {
      NotBroken(was, now, end, i);
    }
  }

  lemma HeadPassed(now: seq<Source>, i: nat)
    requires LeastHead(Runs(now), i) && AllSorted(Runs(now))
    ensures i < |now| && now[i].recs != [] && Passed(now, now[i].recs[0].key)
  {
    hide AllSorted, LeastHead;
    HeadThere(Runs(now), i);
    var r := now[i].recs[0];
    forall j, x | 0 <= j < |now| && x in now[j].recs
      ensures !Less(x.key, r.key)
    {
      assert x in Runs(now)[j];
      assert Member(Runs(now), x);
      LeastOfAll(Runs(now), i, x);
      NotAfter(r, x);
    }
  }

  lemma NotAfter(r: Record, x: Record)
    requires InOrder(r, x)
    ensures !Less(x.key, r.key)
  {
    LessIrreflexive(r.key);
    if Less(r.key, x.key) {
      LessAsymmetric(r.key, x.key);
    }
  }

  lemma PassedOn(was: seq<Source>, now: seq<Source>)
    requires |now| == |was| && forall i, x :: 0 <= i < |was| && x in now[i].recs ==> x in was[i].recs
    ensures forall k :: Passed(was, k) ==> Passed(now, k)
  {
  }

  lemma NotBroken(was: seq<Source>, now: seq<Source>, end: Option<Key>, i: nat)
    requires Onward(was, now, end) && i < |now| && now[i].recs != [] && !Until(now[i].recs[0].key, end)
    ensures !Broken(was[i], end)
  {
    assert now[i].recs[0] in now[i].recs;
  }

  /** A failing source that has not failed yet still holds a key at or above the
      least one pending. */
  ghost predicate HeldBack(was: seq<Source>, end: Option<Key>, k: Key) {
    forall i :: 0 <= i < |was| && Broken(was[i], end) ==> exists x :: x in was[i].recs && !Less(x.key, k)
  }

  lemma NotYet(was: seq<Source>, now: seq<Source>, end: Option<Key>, best: nat)
    requires Onward(was, now, end) && LeastHead(Runs(now), best) && forall i :: 0 <= i < |now| ==> !Failed(now[i])
    ensures HeldBack(was, end, now[best].recs[0].key)
  {
    hide Broken;
    var k := now[best].recs[0].key;
    forall i | 0 <= i < |was| && Broken(was[i], end)
      ensures exists x :: x in was[i].recs && !Less(x.key, k)
    {
      var x := now[i].recs[0];
      assert Runs(now)[i][0] == x && HeadFirst(Runs(now)[best][0], x);
      assert x in now[i].recs;
      if Less(x.key, k) {
        LessAsymmetric(x.key, k);
      }
    }
  }

  /** The failure of source `i` is due: it comes within the range, and nothing that is
      pending lies below what the source had. */
  ghost predicate Met(was: seq<Source>, stack: seq<seq<Record>>, h: nat, end: Option<Key>, done: Option<Key>, i: nat) {
    && i < |was| && Broken(was[i], end)
    && forall k, v, x :: Todo(stack, h, end, done, k, v) && x in was[i].recs ==> !Less(k, x.key)
  }

  lemma FailureMet(was: seq<Source>, now: seq<Source>, h: nat, end: Option<Key>, done0: Option<Key>,
                   done: Option<Key>, i: nat)
    requires Onward(was, now, end) && i < |now| && Failed(now[i])
    requires forall k, v :: Todo(Runs(now), h, end, done, k, v) <==> Todo(Runs(was), h, end, done0, k, v)
    ensures i < |was| && Met(was, Runs(was), h, end, done0, i)
  {
    hide Less, Until;
    forall k, v, x | Todo(Runs(was), h, end, done0, k, v) && x in was[i].recs
      ensures !Less(k, x.key)
    {
      assert Todo(Runs(now), h, end, done, k, v);
      var r :| IsNewestIn(Runs(now), k, h, Some(r)) && r.value == Some(v);
      var j :| 0 <= j < |Runs(now)| && r in Runs(now)[j];
      assert r in now[j].recs;
    }
  }

  lemma NothingBroken(was: seq<Source>, now: seq<Source>, end: Option<Key>)
    requires Onward(was, now, end) && forall i :: 0 <= i < |now| ==> now[i] == Source([], false)
    ensures forall i :: 0 <= i < |was| ==> !Broken(was[i], end)
  {
  }

  /** Items left in all sources. */
  ghost function Items(sources: seq<Source>): (n: nat) {
    if sources == [] then 0 else |sources[0].recs| + (if sources[0].fails then 1 else 0) + Items(sources[1..])
  }

  lemma {:induction false} ItemsDrop(sources: seq<Source>, i: nat, src: Source)
    requires i < |sources|
    requires |src.recs| + (if src.fails then 1 else 0) < |sources[i].recs| + (if sources[i].fails then 1 else 0)
    ensures Items(sources[i := src]) < Items(sources)
  {
    if i == 0 {
      assert sources[i := src][1..] == sources[1..];
    } else {
      assert sources[i := src][1..] == sources[1..][i - 1 := src];
      ItemsDrop(sources[1..], i - 1, src);
    }
  }

  /** The index of the source to advance: one that has failed, or else the one
      whose head sorts first. */
  method NextSource(sources: seq<Source>) returns (best: Option<nat>)
    ensures best.None? ==> forall i :: 0 <= i < |sources| ==> sources[i] == Source([], false)
    ensures best.Some? ==> best.value < |sources|
    ensures best.Some? && Failed(sources[best.value]) ==> forall i :: 0 <= i < best.value ==> !Failed(sources[i])
    ensures best.Some? && !Failed(sources[best.value]) ==>
              LeastHead(Runs(sources), best.value) && forall i :: 0 <= i < |sources| ==> !Failed(sources[i])
  {
    best := None;
    for i := 0 to |sources|
      invariant forall j :: 0 <= j < i ==> !Failed(sources[j])
      invariant best.None? ==> forall j :: 0 <= j < i ==> sources[j].recs == []
      invariant best.Some? ==> best.value < i && sources[best.value].recs != []
      invariant best.Some? ==> forall j :: 0 <= j < i && sources[j].recs != [] ==>
                  HeadFirst(sources[best.value].recs[0], sources[j].recs[0])
    {
      if Failed(sources[i]) {
        return Some(i);
      }
      if sources[i].recs != [] {
        if best.None? {
          best := Some(i);
        } else {
          var head, current := sources[i].recs[0], sources[best.value].recs[0];
          LessTotal(head.key, current.key);
          if Less(head.key, current.key) || (head.key == current.key && head.seqno > current.seqno) {
            forall j | 0 <= j < i && sources[j].recs != []
              ensures HeadFirst(head, sources[j].recs[0])
            {
              BeforeTransitive(head, current, sources[j].recs[0]);
            }
            best := Some(i);
          }
        }
      }
    }
  }

  // ------------------------------------------------ turns, for all keys at once

  /** Sources as the merge holds them between two turns. */
  ghost predicate Mergeable(stack: seq<seq<Record>>, done: Option<Key>) {
    AllSorted(stack) && ConsistentStack(stack) && Floor(stack, done)
  }

  lemma MergeSorted(stack: seq<seq<Record>>, done: Option<Key>)
    requires Mergeable(stack, done)
    ensures AllSorted(stack)
  {
  }

  lemma SubConsistent(stack: seq<seq<Record>>, stack': seq<seq<Record>>)
    requires ConsistentStack(stack) && forall x :: Member(stack', x) ==> Member(stack, x)
    ensures ConsistentStack(stack')
  {
  }

  lemma SkipTurn(stack: seq<seq<Record>>, i: nat, h: nat, end: Option<Key>, done: Option<Key>)
    requires Mergeable(stack, done) && LeastHead(stack, i) && (done == Some(stack[i][0].key) || stack[i][0].seqno >= h)
    ensures var stack' := stack[i := stack[i][1..]];
            && Mergeable(stack', done)
            && forall k, v :: Todo(stack', h, end, done, k, v) <==> Todo(stack, h, end, done, k, v)
  {
    hide Todo, Member, ConsistentStack, LeastHead, Floor, AllSorted;
    assert i < |stack| && stack[i] != [] by { HeadThere(stack, i); }
    var stack' := stack[i := stack[i][1..]];
    FloorPop(stack, i, done);
    forall x
      ensures Member(stack', x) ==> Member(stack, x)
    {
      PoppedMembers(stack, i, x);
    }
    SubConsistent(stack, stack');
    forall k, v
      ensures Todo(stack', h, end, done, k, v) <==> Todo(stack, h, end, done, k, v)
    {
      SkipKeeps(stack, i, h, end, done, k, v);
    }
  }

  lemma HeadThere(stack: seq<seq<Record>>, i: nat)
    requires LeastHead(stack, i)
    ensures i < |stack| && stack[i] != []
  {
  }

  lemma DropTurn(stack: seq<seq<Record>>, i: nat, h: nat, end: Option<Key>, done: Option<Key>)
    requires Mergeable(stack, done) && i < |stack| && stack[i] != [] && end.Some? && !Less(stack[i][0].key, end.value)
    ensures var stack' := stack[i := []];
            && Mergeable(stack', done)
            && forall k, v :: Todo(stack', h, end, done, k, v) <==> Todo(stack, h, end, done, k, v)
  {
    hide Todo, Member, ConsistentStack;
    var stack' := stack[i := []];
    forall x
      ensures Member(stack', x) ==> Member(stack, x)
    {
      DroppedMembers(stack, i, x);
    }
    SubConsistent(stack, stack');
    assert Sorted(stack[i]);
    forall k, v
      ensures Todo(stack', h, end, done, k, v) <==> Todo(stack, h, end, done, k, v)
    {
      DropKeeps(stack, i, h, end, done, k, v);
    }
  }

  lemma TakeTurn(stack: seq<seq<Record>>, i: nat, h: nat, end: Option<Key>, done: Option<Key>)
    requires Mergeable(stack, done) && LeastHead(stack, i)
    requires done != Some(stack[i][0].key) && stack[i][0].seqno < h && Until(stack[i][0].key, end)
    ensures var r, stack' := stack[i][0], stack[i := stack[i][1..]];
            && Mergeable(stack', Some(r.key))
            && (forall k, v :: Todo(stack', h, end, Some(r.key), k, v) <==> Todo(stack, h, end, done, k, v) && k != r.key)
            && (forall v :: Todo(stack, h, end, done, r.key, v) <==> r.value == Some(v))
            && (forall k, v :: Todo(stack', h, end, Some(r.key), k, v) ==> Less(r.key, k))
  {
    hide Todo, Member, ConsistentStack, LeastHead, Floor, AllSorted;
    assert i < |stack| && stack[i] != [] by { HeadThere(stack, i); }
    var r, stack' := stack[i][0], stack[i := stack[i][1..]];
    FloorPop(stack, i, done);
    forall x
      ensures Member(stack', x) ==> Member(stack, x)
    {
      PoppedMembers(stack, i, x);
    }
    SubConsistent(stack, stack');
    forall k, v
      ensures Todo(stack', h, end, Some(r.key), k, v) <==> Todo(stack, h, end, done, k, v) && k != r.key
      ensures Todo(stack, h, end, done, r.key, v) <==> r.value == Some(v)
      ensures Todo(stack', h, end, Some(r.key), k, v) ==> Less(r.key, k)
    {
      TakeSettles(stack, i, h, end, done, k, v);
      TodoAbove(stack', h, end, r.key, k, v);
    }
  }

  /** Whatever is pending behind a floor lies above it. */
  lemma TodoAbove(stack: seq<seq<Record>>, h: nat, end: Option<Key>, d: Key, k: Key, v: Bytes)
    requires Floor(stack, Some(d))
    ensures Todo(stack, h, end, Some(d), k, v) ==> Less(d, k)
  {
    if Todo(stack, h, end, Some(d), k, v) {
      var r :| IsNewestIn(stack, k, h, Some(r)) && r.value == Some(v);
      assert Member(stack, r) && r.key == k;
      LessTotal(d, k);
    }
  }

  lemma NothingLeft(stack: seq<seq<Record>>, h: nat, end: Option<Key>, done: Option<Key>)
    requires forall i :: 0 <= i < |stack| ==> stack[i] == []
    ensures forall k, v :: !Todo(stack, h, end, done, k, v)
  {
    assert forall x :: !Member(stack, x);
  }

  lemma RunsUpdate(sources: seq<Source>, i: nat, src: Source)
    requires i < |sources|
    ensures Runs(sources[i := src]) == Runs(sources)[i := src.recs]
  {
  }

  /** The merge: sources with their heads, and the key just emitted or skipped. */
  class Merge {
    var sources: seq<Source>
    var done: Option<Key>
    const bound: nat
    const end: Option<Key>

    constructor (sources: seq<Source>, bound: nat, end: Option<Key>)
      requires AllSorted(Runs(sources)) && ConsistentStack(Runs(sources))
      ensures Valid()
      ensures this.sources == sources && done == None && this.bound == bound && this.end == end
    {
      this.sources, this.done, this.bound, this.end := sources, None, bound, end;
    }

    ghost predicate Valid()
      reads this
    {
      Mergeable(Runs(sources), done)
    }

    /** The next live pair: the least key pending, which is then the only pair no
        longer pending. An end is reported only when nothing is pending, an error
        only when a source failed. */
    method Next() returns (r: Option<Result<(Key, Bytes)>>)
      requires Valid()
      modifies `sources, `done
      ensures Valid()
      ensures r == None ==> forall k, v :: !Todo(old(Runs(sources)), bound, end, old(done), k, v)
      ensures r == None ==> forall i :: 0 <= i < |old(sources)| ==> !Broken(old(sources)[i], end)
      ensures r.Some? && r.value.Ok? ==>
                var (k, v) := r.value.value;
                && Todo(old(Runs(sources)), bound, end, old(done), k, v)
                && (forall k', v' :: Todo(Runs(sources), bound, end, done, k', v')
                      <==> Todo(old(Runs(sources)), bound, end, old(done), k', v') && k' != k)
                && forall k', v' :: Todo(Runs(sources), bound, end, done, k', v') ==> Less(k, k')
      ensures r.Some? && r.value.Ok? ==> HeldBack(old(sources), end, r.value.value.0) && Onward(old(sources), sources, end)
      ensures r.Some? && r.value.Err? ==>
                exists i :: 0 <= i < |old(sources)| && Met(old(sources), old(Runs(sources)), bound, end, old(done), i)
    {
      hide Mergeable, Todo, Runs, LeastHead, Broken, HeldBack, Onward, Met;
      ghost var stack0, done0, sources0 := Runs(sources), done, sources;
      OnwardSelf(sources, end);
      while true
        invariant Mergeable(Runs(sources), done)
        invariant Onward(sources0, sources, end)
        invariant forall k, v :: Todo(Runs(sources), bound, end, done, k, v) <==> Todo(stack0, bound, end, done0, k, v)
        decreases Items(sources)
      {
        ghost var stack, d := Runs(sources), done;
        var next := NextSource(sources);
        if next.None? {
          NothingLeft(stack, bound, end, done);
          NothingBroken(sources0, sources, end);
          return None;
        }
        var i := next.value;
        if Failed(sources[i]) {
          FailureMet(sources0, sources, bound, end, done0, done, i);
          RunsUpdate(sources, i, Source([], false));
          assert stack[i := []] == stack;
          sources := sources[i := Source([], false)];
          return Some(Err(Corrupt));
        }
        var src := sources[i];
        assert LeastHead(stack, i);
        HeadThere(stack, i);
        var record := src.recs[0];
        var rest := Source(src.recs[1..], src.fails);
        MergeSorted(stack, done);
        OnwardDrop(sources0, sources, end, i);
        NotYet(sources0, sources, end, i);
        ItemsDrop(sources, i, rest);
        ItemsDrop(sources, i, Source([], false));
        RunsUpdate(sources, i, rest);
        RunsUpdate(sources, i, Source([], false));
        if end.Some? && !Less(record.key, end.value) {
          DropTurn(stack, i, bound, end, done);
          sources := sources[i := Source([], false)];
        } else if done == Some(record.key) || record.seqno >= bound {
          SkipTurn(stack, i, bound, end, done);
          sources := sources[i := rest];
        } else {
          TakeTurn(stack, i, bound, end, done);
          sources := sources[i := rest];
          done := Some(record.key);
          if record.value.Some? {
            return Some(Ok((record.key, record.value.value)));
          }
        }
      }
    }
  }

  // ------------------------------------------------------------- a whole scan

  /** The first `limit` live pairs in range, in strictly ascending key order. */
  ghost predicate IsScan(stack: seq<seq<Record>>, h: nat, end: Option<Key>, limit: nat, pairs: seq<(Key, Bytes)>) {
    && |pairs| <= limit
    && (forall i, j :: 0 <= i < j < |pairs| ==> Less(pairs[i].0, pairs[j].0))
    && (forall i :: 0 <= i < |pairs| ==> Live(stack, pairs[i].0, h, pairs[i].1) && Until(pairs[i].0, end))
    && (forall k, v :: Live(stack, k, h, v) && Until(k, end) ==>
          (k, v) in pairs || (|pairs| == limit && forall p :: p in pairs ==> Less(p.0, k)))
  }

  /** What has been emitted and what is pending make up everything live. */
  ghost predicate Partition(stack: seq<seq<Record>>, h: nat, end: Option<Key>, pairs: seq<(Key, Bytes)>,
                            left: seq<seq<Record>>, done: Option<Key>) {
    && (forall i, j :: 0 <= i < j < |pairs| ==> Less(pairs[i].0, pairs[j].0))
    && (forall p :: p in pairs ==> Todo(stack, h, end, None, p.0, p.1))
    && (forall k, v :: Todo(stack, h, end, None, k, v) ==> (k, v) in pairs || Todo(left, h, end, done, k, v))
    && (forall k, v :: Todo(left, h, end, done, k, v) ==>
          Todo(stack, h, end, None, k, v) && forall p :: p in pairs ==> Less(p.0, k))
  }

  lemma EmitPair(stack: seq<seq<Record>>, h: nat, end: Option<Key>, pairs: seq<(Key, Bytes)>,
                 left: seq<seq<Record>>, done: Option<Key>, k: Key, v: Bytes, left': seq<seq<Record>>, done': Option<Key>)
    requires Partition(stack, h, end, pairs, left, done) && Todo(left, h, end, done, k, v)
    requires forall k', v' :: Todo(left', h, end, done', k', v') <==> Todo(left, h, end, done, k', v') && k' != k
    requires forall k', v' :: Todo(left', h, end, done', k', v') ==> Less(k, k')
    requires ConsistentStack(left)
    ensures Partition(stack, h, end, pairs + [(k, v)], left', done')
  {
    hide Less, ConsistentStack, Live, Until;
    var pairs' := pairs + [(k, v)];
    assert forall p :: p in pairs' <==> p in pairs || p == (k, v);
    assert (k, v) in pairs';
    forall i, j | 0 <= i < j < |pairs'|
      ensures Less(pairs'[i].0, pairs'[j].0)
    {
      if j == |pairs| {
        assert pairs[i] in pairs;
      }
    }
    forall k', v' | Todo(stack, h, end, None, k', v')
      ensures (k', v') in pairs' || Todo(left', h, end, done', k', v')
    {
      if (k', v') !in pairs && k' == k {
        OneValue(left, h, end, done, k, v, v');
      }
    }
  }

  /** A key has one live value. */
  lemma OneValue(stack: seq<seq<Record>>, h: nat, end: Option<Key>, done: Option<Key>, k: Key, v: Bytes, v': Bytes)
    requires ConsistentStack(stack) && Todo(stack, h, end, done, k, v) && Todo(stack, h, end, done, k, v')
    ensures v == v'
  {
    var r :| IsNewestIn(stack, k, h, Some(r)) && r.value == Some(v);
    var q :| IsNewestIn(stack, k, h, Some(q)) && q.value == Some(v');
    assert r.seqno == q.seqno;
  }

  lemma OnwardSelf(sources: seq<Source>, end: Option<Key>)
    ensures Onward(sources, sources, end)
  {
  }

  lemma OnwardAll(a: seq<Source>, b: seq<Source>, c: seq<Source>, end: Option<Key>)
    requires Onward(a, b, end)
    ensures Onward(b, c, end) ==> Onward(a, c, end)
    ensures (forall i :: 0 <= i < |b| ==> !Broken(b[i], end)) ==> forall i :: 0 <= i < |a| ==> !Broken(a[i], end)
  {
    hide Until, Passed;
    forall i | 0 <= i < |a| && Broken(a[i], end)
      ensures Broken(b[i], end)
    {
    }
    if Onward(b, c, end) {
      PassedOn(b, c);
    }
  }

  /** Fewer than `limit` live keys lie below what source `i` had when it failed. */
  ghost predicate MetEarly(sources: seq<Source>, h: nat, end: Option<Key>, limit: nat, i: nat) {
    && i < |sources| && Broken(sources[i], end)
    && exists pairs: seq<(Key, Bytes)> :: |pairs| < limit && AllBelow(sources, h, end, i, pairs)
  }

  ghost predicate AllBelow(sources: seq<Source>, h: nat, end: Option<Key>, i: nat, pairs: seq<(Key, Bytes)>)
    requires i < |sources|
  {
    forall k, v, x :: Live(Runs(sources), k, h, v) && Until(k, end) && x in sources[i].recs && Less(k, x.key) ==>
      (k, v) in pairs
  }

  lemma StillEarly(a: seq<Source>, b: seq<Source>, h: nat, end: Option<Key>, limit: nat, pairs: seq<(Key, Bytes)>,
                   done: Option<Key>, i: nat)
    requires Onward(a, b, end) && Met(b, Runs(b), h, end, done, i) && |pairs| < limit
    requires Partition(Runs(a), h, end, pairs, Runs(b), done)
    ensures i < |a| && MetEarly(a, h, end, limit, i)
  {
    hide Until, Less, Live;
    assert Broken(a[i], end);
    forall k, v, x | Live(Runs(a), k, h, v) && Until(k, end) && x in a[i].recs && Less(k, x.key)
      ensures (k, v) in pairs
    {
      assert Todo(Runs(a), h, end, None, k, v);
      if Todo(Runs(b), h, end, done, k, v) {
        PendingRecord(b, h, end, done, k, v, x.key);
      }
    }
    assert AllBelow(a, h, end, i, pairs);
  }

  /** A pending key is not below what was passed. */
  lemma PendingRecord(b: seq<Source>, h: nat, end: Option<Key>, done: Option<Key>, k: Key, v: Bytes, p: Key)
    requires Todo(Runs(b), h, end, done, k, v)
    ensures Passed(b, p) ==> !Less(k, p)
  {
    hide Less, Until;
    var r :| IsNewestIn(Runs(b), k, h, Some(r)) && r.value == Some(v);
    var j :| 0 <= j < |Runs(b)| && r in Runs(b)[j];
    assert r in b[j].recs;
  }

  lemma HeldBackBefore(a: seq<Source>, b: seq<Source>, end: Option<Key>, k: Key)
    requires Onward(a, b, end) && HeldBack(b, end, k)
    ensures HeldBack(a, end, k)
  {
    forall i | 0 <= i < |a| && Broken(a[i], end)
      ensures exists x :: x in a[i].recs && !Less(x.key, k)
    {
      assert Broken(b[i], end);
      var x :| x in b[i].recs && !Less(x.key, k);
    }
  }

  /** The loop of `scan_at`. Over sources that do not fail, the answer is exact. A
      source that fails within the range makes the scan fail, unless the limit is
      reached before that source is used up. */
  method ScanSources(sources: seq<Source>, bound: nat, end: Option<Key>, limit: nat) returns (r: Result<seq<(Key, Bytes)>>)
    requires AllSorted(Runs(sources)) && ConsistentStack(Runs(sources))
    ensures r.Ok? ==> |r.value| <= limit
    ensures r.Err? ==> exists i :: 0 <= i < |sources| && MetEarly(sources, bound, end, limit, i)
    ensures r.Ok? ==> IsScan(Runs(sources), bound, end, limit, r.value)
    ensures r.Ok? && |r.value| < limit ==> forall i :: 0 <= i < |sources| ==> !Broken(sources[i], end)
    ensures r.Ok? && r.value != [] ==> HeldBack(sources, end, r.value[|r.value| - 1].0)
  {
    hide AllSorted, ConsistentStack, Floor, Todo, Runs, Broken, Onward, HeldBack, Met, MetEarly;
    OnwardSelf(sources, end);
    if limit == 0 {
      return Ok([]);
    }
    ghost var stack := Runs(sources);
    var merge := new Merge(sources, bound, end);
    var pairs := [];
    while |pairs| < limit
      invariant |pairs| <= limit && merge.Valid()
      invariant Partition(stack, bound, end, pairs, Runs(merge.sources), merge.done)
      invariant Onward(sources, merge.sources, end) && (pairs != [] ==> HeldBack(sources, end, pairs[|pairs| - 1].0))
    {
      ghost var left, done, was := Runs(merge.sources), merge.done, merge.sources;
      var item := merge.Next();
      OnwardAll(sources, was, merge.sources, end);
      if item.None? {
        Exhausted(stack, bound, end, limit, pairs, left, done);
        return Ok(pairs);
      }
      if item.value.Err? {
        ghost var i :| 0 <= i < |was| && Met(was, left, bound, end, done, i);
        StillEarly(sources, was, bound, end, limit, pairs, done, i);
        return Err(item.value.error);
      }
      var (k, v) := item.value.value;
      HeldBackBefore(sources, was, end, k);
      EmitPair(stack, bound, end, pairs, left, done, k, v, Runs(merge.sources), merge.done);
      pairs := pairs + [(k, v)];
    }
    Full(stack, bound, end, limit, pairs, Runs(merge.sources), merge.done);
    return Ok(pairs);
  }

  lemma Exhausted(stack: seq<seq<Record>>, h: nat, end: Option<Key>, limit: nat, pairs: seq<(Key, Bytes)>,
                  left: seq<seq<Record>>, done: Option<Key>)
    requires Partition(stack, h, end, pairs, left, done) && |pairs| <= limit
    requires forall k, v :: !Todo(left, h, end, done, k, v)
    ensures IsScan(stack, h, end, limit, pairs)
  {
    hide Live;
    forall k, v | Live(stack, k, h, v) && Until(k, end)
      ensures (k, v) in pairs
    {
      assert Todo(stack, h, end, None, k, v);
    }
    assert forall i :: 0 <= i < |pairs| ==> pairs[i] in pairs;
  }

  lemma Full(stack: seq<seq<Record>>, h: nat, end: Option<Key>, limit: nat, pairs: seq<(Key, Bytes)>,
             left: seq<seq<Record>>, done: Option<Key>)
    requires Partition(stack, h, end, pairs, left, done) && |pairs| == limit
    ensures IsScan(stack, h, end, limit, pairs)
  {
    hide Live;
    forall k, v | Live(stack, k, h, v) && Until(k, end)
      ensures (k, v) in pairs || forall p :: p in pairs ==> Less(p.0, k)
    {
      assert Todo(stack, h, end, None, k, v);
    }
    assert forall i :: 0 <= i < |pairs| ==> pairs[i] in pairs;
  }
}
