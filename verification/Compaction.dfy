/** The merge of a compaction as the source runs it: a k-way merge through a
    heap, then key by key a sort, a retention pass and a peeling pass. */
module Compaction {
  import opened Records
  import opened Layers
  import opened Retention

  // ----------------------------------------------------------------- the stream

  predicate KeySorted(run: seq<Record>) {
    forall i, j :: 0 <= i < j < |run| ==> !Less(run[j].key, run[i].key)
  }

  /** All records of all runs, with multiplicity. */
  ghost function All(runs: seq<seq<Record>>): (m: multiset<Record>) {
    if runs == [] then multiset{} else multiset(runs[0]) + All(runs[1..])
  }

  lemma AssociateBags(a: multiset<Record>, b: multiset<Record>, c: multiset<Record>)
    ensures (a + b) + c == a + (b + c)
  {
  }

  lemma {:induction false} AllUpdate(runs: seq<seq<Record>>, i: nat, run: seq<Record>)
    requires i < |runs|
    ensures All(runs[i := run]) + multiset(runs[i]) == All(runs) + multiset(run)
  {
    var runs' := runs[i := run];
    if i == 0 {
      assert runs'[1..] == runs[1..] && runs'[0] == run;
    } else {
      assert runs'[1..] == runs[1..][i - 1 := run] && runs'[0] == runs[0];
      AllUpdate(runs[1..], i - 1, run);
      AssociateBags(multiset(runs[0]), All(runs'[1..]), multiset(runs[i]));
      AssociateBags(multiset(runs[0]), All(runs[1..]), multiset(run));
    }
  }

  lemma AllPop(runs: seq<seq<Record>>, i: nat)
    requires i < |runs| && runs[i] != []
    ensures All(runs) == multiset{runs[i][0]} + All(runs[i := runs[i][1..]])
  {
    var tail := runs[i][1..];
    AllUpdate(runs, i, tail);
    assert runs[i] == [runs[i][0]] + tail;
    var one, rest := multiset{runs[i][0]}, All(runs[i := tail]);
    assert multiset(runs[i]) == one + multiset(tail);
    assert rest + (one + multiset(tail)) == (one + rest) + multiset(tail);
    Cancel(All(runs), one + rest, multiset(tail));
  }

  lemma Cancel(a: multiset<Record>, b: multiset<Record>, t: multiset<Record>)
    requires a + t == b + t
    ensures a == b
  {
    forall x
      ensures a[x] == b[x]
    {
      assert (a + t)[x] == a[x] + t[x] && (b + t)[x] == b[x] + t[x];
    }
  }

  lemma {:induction false} AllMember(runs: seq<seq<Record>>, r: Record)
    ensures r in All(runs) <==> Member(runs, r)
  {
    if runs != [] {
      AllMember(runs[1..], r);
      assert runs == [runs[0]] + runs[1..];
      MemberConcat([runs[0]], runs[1..], r);
      MemberOne(runs[0], r);
    }
  }

  lemma {:induction false} AllEmpty(runs: seq<seq<Record>>)
    requires forall i :: 0 <= i < |runs| ==> runs[i] == []
    ensures All(runs) == multiset{}
  {
    if runs != [] {
      AllEmpty(runs[1..]);
    }
  }

  /** The heap's order on heads: by key, then by input. */
  predicate HeadLe(a: Record, i: nat, b: Record, j: nat) {
    Less(a.key, b.key) || (a.key == b.key && i <= j)
  }

  /** The input whose head the heap gives up first. */
  method PopMin(heap: map<nat, Record>, n: nat) returns (best: nat)
    requires heap != map[] && forall i :: i in heap ==> i < n
    ensures best in heap && forall j :: j in heap ==> HeadLe(heap[best], best, heap[j], j)
  {
    var found: Option<nat> := None;
    for i := 0 to n
      invariant found.None? ==> forall j :: 0 <= j < i ==> j !in heap
      invariant found.Some? ==> found.value in heap && found.value < i
      invariant found.Some? ==> forall j :: 0 <= j < i && j in heap ==> HeadLe(heap[found.value], found.value, heap[j], j)
    {
      if i in heap {
        if found.None? {
          found := Some(i);
        } else {
          LessTotal(heap[i].key, heap[found.value].key);
          if Less(heap[i].key, heap[found.value].key) {
            forall j | 0 <= j < i && j in heap
              ensures HeadLe(heap[i], i, heap[j], j)
            {
              HeadLeTransitive(heap[i], heap[found.value], found.value, heap[j], j);
            }
            found := Some(i);
          }
        }
      }
    }
    var some :| some in heap;
    assert found.Some?;
    best := found.value;
  }

  lemma HeadLeTransitive(a: Record, b: Record, i: nat, c: Record, j: nat)
    requires Less(a.key, b.key) && HeadLe(b, i, c, j)
    ensures Less(a.key, c.key)
  {
    if b.key != c.key {
      LessTransitive(a.key, b.key, c.key);
    }
  }

  /** Every record emitted so far sorts no later than any key still to come. */
  ghost predicate Ahead(stream: seq<Record>, left: seq<seq<Record>>) {
    forall r, i, x :: r in stream && 0 <= i < |left| && x in left[i] ==> !Less(x.key, r.key)
  }

  /** The heap and the iterators hold what is left of each input: its head in the
      heap, the rest behind it. */
  ghost predicate HeapHolds(heap: map<nat, Record>, iters: seq<seq<Record>>, left: seq<seq<Record>>) {
    && |iters| == |left|
    && (forall i :: i in heap ==> i < |left|)
    && forall i :: 0 <= i < |left| ==>
         if i in heap then left[i] == [heap[i]] + iters[i] else left[i] == [] && iters[i] == []
  }

  /** Push the head of every input. */
  method FillHeap(inputs: seq<seq<Record>>) returns (heap: map<nat, Record>, iters: seq<seq<Record>>)
    ensures HeapHolds(heap, iters, inputs)
  {
    iters, heap := inputs, map[];
    for idx := 0 to |inputs|
      invariant |iters| == |inputs| && forall i :: i in heap ==> 0 <= i < idx
      invariant forall i :: 0 <= i < idx ==>
                  if i in heap then inputs[i] == [heap[i]] + iters[i] else inputs[i] == [] && iters[i] == []
      invariant forall i :: idx <= i < |inputs| ==> iters[i] == inputs[i]
    {
      if iters[idx] != [] {
        heap := heap[idx := iters[idx][0]];
        iters := iters[idx := iters[idx][1..]];
      }
    }
  }

  /** Replace a popped head by the next record of its input, if there is one. */
  method Refill(heap: map<nat, Record>, iters: seq<seq<Record>>, i: nat, ghost left: seq<seq<Record>>)
    returns (heap': map<nat, Record>, iters': seq<seq<Record>>)
    requires HeapHolds(heap, iters, left) && i in heap
    ensures left[i] != [] && HeapHolds(heap', iters', left[i := left[i][1..]])
  {
    if iters[i] != [] {
      heap' := heap[i := iters[i][0]];
      iters' := iters[i := iters[i][1..]];
    } else {
      heap' := heap - {i};
      iters' := iters;
    }
  }

  lemma Popped(heap: map<nat, Record>, iters: seq<seq<Record>>, left: seq<seq<Record>>, i: nat)
    requires HeapHolds(heap, iters, left) && i in heap
    requires forall j :: j in heap ==> HeadLe(heap[i], i, heap[j], j)
    ensures i < |left| && left[i] != [] && left[i][0] == heap[i] && left[i] == [heap[i]] + left[i][1..]
    ensures forall j :: 0 <= j < |left| && left[j] != [] ==> HeadLe(left[i][0], i, left[j][0], j)
  {
  }

  /** The k-way merge drained into one key-ascending stream: nothing is lost,
      nothing is invented, nothing is duplicated. */
  method MergeStream(inputs: seq<seq<Record>>) returns (stream: seq<Record>)
    requires forall i :: 0 <= i < |inputs| ==> Sorted(inputs[i])
    ensures KeySorted(stream)
    ensures multiset(stream) == All(inputs)
  {
    hide Sorted, Ahead, All, HeadLe;
    var heap, iters := FillHeap(inputs);
    ghost var left := inputs;
    stream := [];
    NothingAhead(left);
    while heap != map[]
      invariant |left| == |inputs| && HeapHolds(heap, iters, left)
      invariant forall i :: 0 <= i < |left| ==> Sorted(left[i])
      invariant multiset(stream) + All(left) == All(inputs)
      invariant KeySorted(stream) && Ahead(stream, left)
      decreases |All(left)|
    {
      hide KeySorted, HeapHolds;
      HeapBelow(heap, iters, left);
      var i := PopMin(heap, |inputs|);
      var r := heap[i];
      Popped(heap, iters, left, i);
      AllPop(left, i);
      assert multiset(stream + [r]) == multiset(stream) + multiset{r};
      AssociateBags(multiset(stream), multiset{r}, All(left[i := left[i][1..]]));
      EmitKeeps(stream, left, i, left[i := left[i][1..]]);
      heap, iters := Refill(heap, iters, i, left);
      left := left[i := left[i][1..]];
      stream := stream + [r];
    }
    AllEmpty(left);
  }

  lemma HeapBelow(heap: map<nat, Record>, iters: seq<seq<Record>>, left: seq<seq<Record>>)
    requires HeapHolds(heap, iters, left)
    ensures forall i :: i in heap ==> i < |left|
  {
  }

  lemma NothingAhead(left: seq<seq<Record>>)
    ensures Ahead([], left)
  {
  }

  /** Emitting the least head keeps the stream sorted and ahead of the rest. */
  lemma EmitKeeps(stream: seq<Record>, left: seq<seq<Record>>, i: nat, left': seq<seq<Record>>)
    requires i < |left| && left[i] != [] && left' == left[i := left[i][1..]]
    requires forall j :: 0 <= j < |left| ==> Sorted(left[j])
    requires KeySorted(stream) && Ahead(stream, left)
    requires forall j :: 0 <= j < |left| && left[j] != [] ==> HeadLe(left[i][0], i, left[j][0], j)
    ensures KeySorted(stream + [left[i][0]]) && Ahead(stream + [left[i][0]], left')
    ensures forall j :: 0 <= j < |left'| ==> Sorted(left'[j])
  {
    var r := left[i][0];
    forall j, x | 0 <= j < |left| && x in left[j]
      ensures !Less(x.key, r.key)
    {
      HeadIsLeast(left[i][0], i, left[j], j, x);
    }
    forall s, j, x | s in stream + [r] && 0 <= j < |left'| && x in left'[j]
      ensures !Less(x.key, s.key)
    {
      assert x in left[j];
    }
    assert r in left[i];
  }

  lemma HeadIsLeast(r: Record, i: nat, run: seq<Record>, j: nat, x: Record)
    requires Sorted(run) && x in run && HeadLe(r, i, run[0], j)
    ensures !Less(x.key, r.key)
  {
    var t: nat :| t < |run| && run[t] == x;
    if Less(x.key, r.key) {
      assert t > 0 ==> InOrder(run[0], run[t]);
      if Less(run[0].key, x.key) {
        LessTransitive(run[0].key, x.key, r.key);
      }
      LessAsymmetric(run[0].key, r.key);
      assert false;
    }
  }

  // ------------------------------------------------------------------ one group

  predicate SeqDescending(run: seq<Record>) {
    forall i, j :: 0 <= i < j < |run| ==> run[i].seqno >= run[j].seqno
  }

  /** Stable sort by descending sequence number. */
  function SortDescending(run: seq<Record>): (sorted: seq<Record>) {
    if run == [] then [] else InsertDescending(SortDescending(run[..|run| - 1]), run[|run| - 1])
  }

  function InsertDescending(run: seq<Record>, r: Record): (run': seq<Record>) {
    if run == [] || run[0].seqno < r.seqno then [r] + run else [run[0]] + InsertDescending(run[1..], r)
  }

  lemma {:induction false} InsertDescendingAdds(run: seq<Record>, r: Record)
    ensures multiset(InsertDescending(run, r)) == multiset(run) + multiset{r}
  {
    if run != [] && run[0].seqno >= r.seqno {
      InsertDescendingAdds(run[1..], r);
      assert run == [run[0]] + run[1..];
    }
  }

  lemma Descends(r: Record, run: seq<Record>)
    requires SeqDescending(run) && forall x :: x in run ==> x.seqno <= r.seqno
    ensures SeqDescending([r] + run)
  {
  }

  lemma {:induction false} InsertDescendingKeeps(run: seq<Record>, r: Record)
    requires SeqDescending(run)
    ensures SeqDescending(InsertDescending(run, r))
    ensures forall x :: x in InsertDescending(run, r) <==> x in run || x == r
  {
    if run != [] && run[0].seqno >= r.seqno {
      assert run == [run[0]] + run[1..];
      InsertDescendingKeeps(run[1..], r);
      Descends(run[0], InsertDescending(run[1..], r));
    } else {
      Descends(r, run);
    }
  }

  lemma {:induction false} SortDescendingKeeps(run: seq<Record>)
    ensures multiset(SortDescending(run)) == multiset(run) && SeqDescending(SortDescending(run))
  {
    if run != [] {
      assert run == run[..|run| - 1] + [run[|run| - 1]];
      SortDescendingKeeps(run[..|run| - 1]);
      InsertDescendingAdds(SortDescending(run[..|run| - 1]), run[|run| - 1]);
      InsertDescendingKeeps(SortDescending(run[..|run| - 1]), run[|run| - 1]);
    }
  }

  /** Kept by the retention pass over one key's versions. */
  ghost predicate RetainedIn(group: seq<Record>, min: nat, r: Record) {
    r in group && (r.seqno < min ==> forall x :: x in group && x.seqno < min ==> x.seqno <= r.seqno)
  }

  /** Everything at or above the horizon, and the newest version below it. */
  method KeepVersions(group: seq<Record>, min: nat) returns (kept: seq<Record>)
    requires SeqDescending(group) && Consistent(group)
    ensures kept <= group
    ensures forall r :: r in kept <==> RetainedIn(group, min, r)
  {
    kept := [];
    var newestBelowTaken := false;
    for i := 0 to |group|
      invariant |kept| <= i && kept == group[..|kept|]
      invariant !newestBelowTaken ==> |kept| == i && forall t :: 0 <= t < i ==> group[t].seqno >= min
      invariant newestBelowTaken ==>
                  && 0 < |kept| && group[|kept| - 1].seqno < min
                  && forall t :: 0 <= t < |kept| - 1 ==> group[t].seqno >= min
    {
      if group[i].seqno >= min {
        kept := kept + [group[i]];
      } else if !newestBelowTaken {
        kept := kept + [group[i]];
        newestBelowTaken := true;
      }
    }
    KeptMembers(group, min, |kept|, newestBelowTaken);
  }

  lemma KeptMembers(group: seq<Record>, min: nat, n: nat, taken: bool)
    requires SeqDescending(group) && Consistent(group) && n <= |group|
    requires !taken ==> n == |group| && forall t :: 0 <= t < n ==> group[t].seqno >= min
    requires taken ==> 0 < n && group[n - 1].seqno < min && forall t :: 0 <= t < n - 1 ==> group[t].seqno >= min
    ensures forall r :: r in group[..n] <==> RetainedIn(group, min, r)
  {
    forall r | r in group
      ensures r in group[..n] <==> RetainedIn(group, min, r)
    {
      var i :| 0 <= i < |group| && group[i] == r;
      if taken {
        var last := group[n - 1];
        assert last in group && last in group[..n];
        assert n <= i ==> r.seqno <= last.seqno;
        if r in group[..n] {
          var j :| 0 <= j < n && group[j] == r;
          if r.seqno < min {
            LastBelow(group, min, n);
          }
        } else {
          assert i >= n;
          assert r.seqno == last.seqno ==> r == last;
        }
      }
    }
  }

  lemma LastBelow(group: seq<Record>, min: nat, n: nat)
    requires SeqDescending(group) && 0 < n <= |group|
    requires group[n - 1].seqno < min && forall t :: 0 <= t < n - 1 ==> group[t].seqno >= min
    ensures forall x :: x in group && x.seqno < min ==> x.seqno <= group[n - 1].seqno
  {
    forall x | x in group && x.seqno < min
      ensures x.seqno <= group[n - 1].seqno
    {
      var j :| 0 <= j < |group| && group[j] == x;
      assert j >= n - 1;
    }
  }

  /** A tombstone with only tombstones kept at or below it. */
  ghost predicate PeeledIn(kept: seq<Record>, r: Record) {
    r in kept && forall x :: x in kept && x.seqno <= r.seqno ==> x.value.None?
  }

  /** Pop trailing tombstones. */
  method PeelTombstones(kept: seq<Record>) returns (peeled: seq<Record>)
    requires SeqDescending(kept) && Consistent(kept)
    ensures peeled <= kept
    ensures forall r :: r in peeled <==> r in kept && !PeeledIn(kept, r)
  {
    peeled := kept;
    while peeled != [] && peeled[|peeled| - 1].value.None?
      invariant peeled <= kept
      invariant forall i :: |peeled| <= i < |kept| ==> kept[i].value.None?
    {
      peeled := peeled[..|peeled| - 1];
    }
    PeeledSplit(kept, |peeled|);
  }

  lemma PeeledSplit(kept: seq<Record>, n: nat)
    requires SeqDescending(kept) && Consistent(kept) && n <= |kept|
    requires forall i :: n <= i < |kept| ==> kept[i].value.None?
    requires n > 0 ==> kept[n - 1].value.Some?
    ensures forall r :: r in kept[..n] <==> r in kept && !PeeledIn(kept, r)
  {
    var front := kept[..n];
    forall r | r in kept
      ensures r in front <==> !PeeledIn(kept, r)
    {
      var i :| 0 <= i < |kept| && kept[i] == r;
      if r in front {
        var j :| 0 <= j < n && kept[j] == r;
        assert kept[n - 1] in kept && kept[n - 1].seqno <= r.seqno;
      } else {
        forall x | x in kept && x.seqno <= r.seqno
          ensures x.value.None?
        {
          var j :| 0 <= j < |kept| && kept[j] == x;
          assert j < n ==> x in front;
          assert j < i ==> x.seqno >= r.seqno;
        }
      }
    }
  }

  // ------------------------------------------------------------- the whole merge

  /** All versions of one key, as one contiguous piece of the stream. */
  ghost predicate IsGroup(inputs: seq<seq<Record>>, k: Key, group: seq<Record>) {
    forall r :: r in group <==> Member(inputs, r) && r.key == k
  }

  /** The two passes over a group keep what retention keeps of its key. */
  lemma GroupKept(inputs: seq<seq<Record>>, drop: bool, min: nat, k: Key, group: seq<Record>, kept: seq<Record>,
                  out: seq<Record>)
    requires IsGroup(inputs, k, group)
    requires forall r :: r in kept <==> RetainedIn(group, min, r)
    requires if drop then forall r :: r in out <==> r in kept && !PeeledIn(kept, r) else out == kept
    ensures forall r :: r in out <==> r.key == k && Kept(inputs, drop, min, r)
  {
    forall r: Record | r.key == k
      ensures r in kept <==> Retained(inputs, min, r)
    {
    }
    forall r | r in kept
      ensures r.key == k && (PeeledIn(kept, r) <==> Peeled(inputs, min, r))
    {
    }
  }

  /** One key's versions through the sort, the retention pass and the peeling. */
  method CompactGroup(group: seq<Record>, drop: bool, min: nat, ghost inputs: seq<seq<Record>>, ghost k: Key)
    returns (out: seq<Record>)
    requires Consistent(group) && IsGroup(inputs, k, group)
    ensures SeqDescending(out) && multiset(out) <= multiset(group)
    ensures forall r :: r in out <==> r.key == k && Kept(inputs, drop, min, r)
  {
    SortDescendingKeeps(group);
    var sorted := SortDescending(group);
    SameMembers(sorted, group);
    var kept := KeepVersions(sorted, min);
    out := kept;
    if drop {
      assert Consistent(kept);
      out := PeelTombstones(kept);
    }
    PrefixBag(out, sorted);
    GroupKept(inputs, drop, min, k, sorted, kept, out);
  }

  lemma SameMembers(a: seq<Record>, b: seq<Record>)
    requires multiset(a) == multiset(b)
    ensures forall r :: r in a <==> r in b
  {
    forall r
      ensures r in a <==> r in b
    {
      assert r in a <==> r in multiset(a);
      assert r in b <==> r in multiset(b);
    }
  }

  /** Where the versions of the key at position `i` end. */
  method GroupEnd(stream: seq<Record>, i: nat) returns (j: nat)
    requires i < |stream|
    ensures i < j <= |stream|
    ensures forall t :: i <= t < j ==> stream[t].key == stream[i].key
    ensures j < |stream| ==> stream[j].key != stream[i].key
  {
    j := i + 1;
    while j < |stream| && stream[j].key == stream[i].key
      invariant i < j <= |stream|
      invariant forall t :: i <= t < j ==> stream[t].key == stream[i].key
    {
      j := j + 1;
    }
  }

  /** Everything before position `i` has a smaller key than everything after. */
  ghost predicate Boundary(stream: seq<Record>, i: nat)
    requires i <= |stream|
  {
    forall a, b :: 0 <= a < i <= b < |stream| ==> Less(stream[a].key, stream[b].key)
  }

  lemma NextBoundary(stream: seq<Record>, i: nat, j: nat)
    requires KeySorted(stream) && i < j <= |stream| && Boundary(stream, i)
    requires forall t :: i <= t < j ==> stream[t].key == stream[i].key
    requires j < |stream| ==> stream[j].key != stream[i].key
    ensures Boundary(stream, j)
  {
    forall a, b | 0 <= a < j <= b < |stream|
      ensures Less(stream[a].key, stream[b].key)
    {
      LessTotal(stream[i].key, stream[j].key);
      assert Less(stream[i].key, stream[j].key);
      if j < b {
        LessTotal(stream[j].key, stream[b].key);
        if Less(stream[j].key, stream[b].key) {
          LessTransitive(stream[i].key, stream[j].key, stream[b].key);
        }
      }
    }
  }

  lemma WholeGroup(inputs: seq<seq<Record>>, stream: seq<Record>, i: nat, j: nat)
    requires i < j <= |stream| && Boundary(stream, i) && Boundary(stream, j)
    requires forall r :: r in stream <==> Member(inputs, r)
    requires forall t :: i <= t < j ==> stream[t].key == stream[i].key
    ensures IsGroup(inputs, stream[i].key, stream[i..j])
  {
    var k := stream[i].key;
    forall r | r in stream && r.key == k
      ensures r in stream[i..j]
    {
      var t :| 0 <= t < |stream| && stream[t] == r;
      LessIrreflexive(k);
      assert i <= t < j;
      assert stream[i..j][t - i] == r;
    }
  }

  /** Groups in key order make a sorted run. */
  lemma AppendGroup(out: seq<Record>, group: seq<Record>, k: Key)
    requires Sorted(out) && SeqDescending(group)
    requires forall r :: r in group ==> r.key == k
    requires forall r :: r in out ==> Less(r.key, k)
    ensures Sorted(out + group)
  {
    var all := out + group;
    forall a, b | 0 <= a < b < |all|
      ensures InOrder(all[a], all[b])
    {
      if a < |out| <= b {
        assert all[a] in out && all[b] in group;
      } else if |out| <= a {
        assert all[a] in group && all[b] in group;
      }
    }
  }

  lemma PrefixBag(a: seq<Record>, b: seq<Record>)
    requires a <= b
    ensures multiset(a) <= multiset(b)
  {
    assert b == a + b[|a|..];
  }

  lemma BagsAdd(a: seq<Record>, b: seq<Record>, c: seq<Record>, d: seq<Record>)
    requires multiset(a) <= multiset(c) && multiset(b) <= multiset(d)
    ensures multiset(a + b) <= multiset(c + d)
  {
  }

  /** `compact`: the output holds exactly the records a compaction keeps, none of them
      more often than the inputs do. */
  method Compact(inputs: seq<seq<Record>>, drop: bool, min: nat) returns (out: seq<Record>)
    requires forall i :: 0 <= i < |inputs| ==> Sorted(inputs[i])
    requires ConsistentStack(inputs)
    ensures IsCompaction(inputs, drop, min, out) && multiset(out) <= All(inputs)
  {
    hide Sorted, Kept, InOrder, KeySorted, ConsistentStack, Member, SeqDescending, All;
    var stream := MergeStream(inputs);
    StreamMembers(inputs, stream);
    out := [];
    EmptyOut();
    var i := 0;
    while i < |stream|
      invariant 0 <= i <= |stream| && Boundary(stream, i)
      invariant Sorted(out) && multiset(out) <= multiset(stream[..i])
      invariant forall r :: r in out <==> r in stream[..i] && Kept(inputs, drop, min, r)
    {
      var j := GroupEnd(stream, i);
      NextBoundary(stream, i, j);
      WholeGroup(inputs, stream, i, j);
      StreamConsistent(inputs, stream, i, j);
      var kept := CompactGroup(stream[i..j], drop, min, inputs, stream[i].key);
      SmallerBefore(stream, i, out);
      AppendGroup(out, kept, stream[i].key);
      GroupDone(inputs, drop, min, stream, i, j, out, kept);
      BagsAdd(out, kept, stream[..i], stream[i..j]);
      assert stream[..j] == stream[..i] + stream[i..j];
      out := out + kept;
      i := j;
    }
    assert stream[..|stream|] == stream;
    AllKept(inputs, drop, min, stream);
  }

  lemma EmptyOut()
    ensures Sorted([])
  {
  }

  lemma StreamMembers(inputs: seq<seq<Record>>, stream: seq<Record>)
    requires multiset(stream) == All(inputs)
    ensures forall r :: r in stream <==> Member(inputs, r)
  {
    forall r
      ensures r in stream <==> Member(inputs, r)
    {
      AllMember(inputs, r);
      assert r in stream <==> r in multiset(stream);
    }
  }

  lemma StreamConsistent(inputs: seq<seq<Record>>, stream: seq<Record>, i: nat, j: nat)
    requires i <= j <= |stream| && ConsistentStack(inputs) && forall r :: r in stream <==> Member(inputs, r)
    ensures Consistent(stream[i..j])
  {
    assert forall r :: r in stream[i..j] ==> r in stream;
  }

  lemma SmallerBefore(stream: seq<Record>, i: nat, out: seq<Record>)
    requires i < |stream| && Boundary(stream, i) && forall r :: r in out ==> r in stream[..i]
    ensures forall r :: r in out ==> Less(r.key, stream[i].key)
  {
    forall r | r in out
      ensures Less(r.key, stream[i].key)
    {
      var t :| 0 <= t < i && stream[..i][t] == r;
      assert stream[t] == r;
    }
  }

  lemma GroupDone(inputs: seq<seq<Record>>, drop: bool, min: nat, stream: seq<Record>, i: nat, j: nat,
                  out: seq<Record>, kept: seq<Record>)
    requires i < j <= |stream| && IsGroup(inputs, stream[i].key, stream[i..j])
    requires forall r :: r in out <==> r in stream[..i] && Kept(inputs, drop, min, r)
    requires forall r :: r in kept <==> r.key == stream[i].key && Kept(inputs, drop, min, r)
    ensures forall r :: r in out + kept <==> r in stream[..j] && Kept(inputs, drop, min, r)
  {
    hide Retained, Peeled;
    assert stream[..j] == stream[..i] + stream[i..j];
    forall r | Kept(inputs, drop, min, r) && r.key == stream[i].key
      ensures r in stream[i..j]
    {
      KeptMember(inputs, drop, min, r);
    }
  }

  lemma AllKept(inputs: seq<seq<Record>>, drop: bool, min: nat, stream: seq<Record>)
    requires forall r :: r in stream <==> Member(inputs, r)
    ensures forall r :: Kept(inputs, drop, min, r) ==> r in stream
  {
  }
}
