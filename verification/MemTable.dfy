/** The MemTable: every buffered version of every key, held in the order a flush
    streams it out. The ordered map is modelled by its entries in order. */
module MemTables {
  import opened Records
  import opened Codec
  import opened Layers
  import opened Ranges

  predicate SameVersion(a: Record, b: Record) {
    a.key == b.key && a.seqno == b.seqno
  }

  /** Ordered-map insertion: a version already present is replaced. */
  function Insert(run: seq<Record>, r: Record): (run': seq<Record>) {
    if run == [] then
      [r]
    else if SameVersion(run[0], r) then
      [r] + run[1..]
    else if Before(r, run[0]) then
      [r] + run
    else
      [run[0]] + Insert(run[1..], r)
  }

  function InsertAll(run: seq<Record>, rs: seq<Record>): (run': seq<Record>)
    decreases |rs|
  {
    if rs == [] then run else InsertAll(Insert(run, rs[0]), rs[1..])
  }

  lemma {:induction false} InsertMembers(run: seq<Record>, r: Record)
    requires StrictlySorted(run)
    ensures forall x :: x in Insert(run, r) <==> x == r || (x in run && !SameVersion(x, r))
    decreases |run|
  {
    if run != [] {
      var tail := run[1..];
      assert run == [run[0]] + tail;
      if SameVersion(run[0], r) {
        forall x | x in tail
          ensures !SameVersion(x, r)
        {
          HeadBefore(run, x);
        }
      } else if Before(r, run[0]) {
        forall x | x in run
          ensures !SameVersion(x, r)
        {
          if x in tail {
            HeadBefore(run, x);
            BeforeTransitive(r, run[0], x);
          }
          BeforeTotal(r, x);
        }
      } else {
        InsertMembers(tail, r);
      }
    }
  }

  lemma HeadBefore(run: seq<Record>, x: Record)
    requires StrictlySorted(run) && run != [] && x in run[1..]
    ensures Before(run[0], x) && !SameVersion(run[0], x)
  {
    var i: nat :| i < |run[1..]| && run[1..][i] == x;
    assert Before(run[0], run[i + 1]);
    BeforeTotal(run[0], x);
  }

  lemma {:induction false} InsertSorted(run: seq<Record>, r: Record)
    requires StrictlySorted(run)
    ensures StrictlySorted(Insert(run, r))
    decreases |run|
  {
    if run != [] {
      var tail := run[1..];
      assert StrictlySorted(tail);
      if SameVersion(run[0], r) {
        forall x | x in tail
          ensures Before(r, x)
        {
          HeadBefore(run, x);
        }
        Push(r, tail);
      } else if Before(r, run[0]) {
        forall x | x in run
          ensures Before(r, x)
        {
          if x in tail {
            HeadBefore(run, x);
            BeforeTransitive(r, run[0], x);
          }
        }
        Push(r, run);
      } else {
        InsertSorted(tail, r);
        InsertMembers(tail, r);
        BeforeTotal(run[0], r);
        forall x | x in Insert(tail, r)
          ensures Before(run[0], x)
        {
          if x in tail {
            HeadBefore(run, x);
          }
        }
        Push(run[0], Insert(tail, r));
      }
    }
  }

  lemma Push(r: Record, run: seq<Record>)
    requires StrictlySorted(run) && forall x :: x in run ==> Before(r, x)
    ensures StrictlySorted([r] + run)
  {
    var s := [r] + run;
    forall i, j | 0 <= i < j < |s|
      ensures Before(s[i], s[j])
    {
      assert s[j] == run[j - 1] && s[j] in run;
      if i > 0 {
        assert s[i] == run[i - 1];
      }
    }
  }

  /** Buffering a list of records keeps the order and holds exactly the union,
      provided equal version numbers mean equal records. */
  lemma {:induction false} InsertAllMembers(run: seq<Record>, rs: seq<Record>)
    requires StrictlySorted(run) && Consistent(run + rs)
    ensures StrictlySorted(InsertAll(run, rs))
    ensures forall x :: x in InsertAll(run, rs) <==> x in run || x in rs
    decreases |rs|
  {
    if rs != [] {
      var run' := Insert(run, rs[0]);
      InsertSorted(run, rs[0]);
      InsertMembers(run, rs[0]);
      assert rs == [rs[0]] + rs[1..];
      assert rs[0] in run + rs;
      assert forall x :: x in run ==> x in run + rs;
      assert forall x :: x in run' + rs[1..] ==> x in run + rs;
      InsertAllMembers(run', rs[1..]);
    }
  }

  /** Replay is order-independent: logs holding the same records rebuild the
      same MemTable, whatever the order and the repetitions. */
  lemma ReplayOrderIrrelevant(a: seq<Record>, b: seq<Record>)
    requires Consistent(a) && forall x :: x in a <==> x in b
    ensures InsertAll([], a) == InsertAll([], b)
  {
    assert [] + a == a && [] + b == b;
    InsertAllMembers([], a);
    InsertAllMembers([], b);
    StrictlySortedUnique(InsertAll([], a), InsertAll([], b));
  }

  /** In particular the log rewritten from a MemTable in its own order rebuilds
      that MemTable. */
  lemma RewriteRebuilds(run: seq<Record>)
    requires StrictlySorted(run) && Consistent(run)
    ensures InsertAll([], run) == run
  {
    assert [] + run == run;
    InsertAllMembers([], run);
    StrictlySortedUnique(InsertAll([], run), run);
  }

  // ------------------------------------------------------------------ the table

  function SumLen(run: seq<Record>): (n: nat) {
    if run == [] then 0 else EncodedLen(run[0]) + SumLen(run[1..])
  }

  /** The record stored under the version of `r`, if there is one. */
  function Find(run: seq<Record>, r: Record): (o: Option<Record>)
    ensures o.Some? ==> o.value in run && SameVersion(o.value, r)
    ensures o.None? ==> forall x :: x in run ==> !SameVersion(x, r)
  {
    if run == [] then None else if SameVersion(run[0], r) then Some(run[0]) else Find(run[1..], r)
  }

  /** Replacing a version changes the size by the difference of the encodings. */
  lemma {:induction false} InsertLen(run: seq<Record>, r: Record)
    requires StrictlySorted(run)
    ensures SumLen(Insert(run, r)) ==
            SumLen(run) + EncodedLen(r) - (if Find(run, r).Some? then EncodedLen(Find(run, r).value) else 0)
    decreases |run|
  {
    hide EncodedLen, StrictlySorted, Before;
    if run == [] {
      assert [r][1..] == [];
    } else if SameVersion(run[0], r) {
      assert ([r] + run[1..])[1..] == run[1..];
    } else if Before(r, run[0]) {
      assert ([r] + run)[1..] == run;
      AbsentBefore(run, r);
    } else {
      SortedTail(run);
      InsertLen(run[1..], r);
      assert ([run[0]] + Insert(run[1..], r))[1..] == Insert(run[1..], r);
    }
  }

  lemma SortedTail(run: seq<Record>)
    requires StrictlySorted(run) && run != []
    ensures StrictlySorted(run[1..])
  {
  }

  lemma AbsentBefore(run: seq<Record>, r: Record)
    requires StrictlySorted(run) && run != [] && Before(r, run[0])
    ensures Find(run, r).None?
  {
    forall x | x in run
      ensures !SameVersion(x, r)
    {
      assert run == [run[0]] + run[1..];
      if x in run[1..] {
        HeadBefore(run, x);
        BeforeTransitive(r, run[0], x);
      }
      BeforeTotal(r, x);
    }
  }

  /** In a sorted run the first version below the bound is the newest one. */
  lemma FirstIsNewest(run: seq<Record>, k: Key, h: nat, i: nat)
    requires Sorted(run) && i < |run| && Visible(run[i], k, h) && forall j :: 0 <= j < i ==> !Visible(run[j], k, h)
    ensures IsNewest(run, k, h, Some(run[i]))
  {
    forall x | x in run && Visible(x, k, h)
      ensures x.seqno <= run[i].seqno
    {
      var j :| 0 <= j < |run| && run[j] == x;
      assert i < j ==> InOrder(run[i], run[j]);
      LessIrreflexive(k);
    }
  }

  /** Where the records at or above `start` begin. */
  method LowerBound(run: seq<Record>, start: Option<Key>) returns (i: nat)
    ensures i <= |run| && AtLeast(run, start) == run[i..]
  {
    i := 0;
    while i < |run| && start.Some? && Less(run[i].key, start.value)
      invariant 0 <= i <= |run| && AtLeast(run, start) == AtLeast(run[i..], start)
    {
      i := i + 1;
    }
  }

  /** The records before the first one at or past `end`. */
  method TakeUntil(run: seq<Record>, end: Option<Key>) returns (part: seq<Record>)
    ensures part == Clip(run, end)
  {
    part := [];
    var i := 0;
    assert run[0..] == run;
    while i < |run| && (end.Some? ==> Less(run[i].key, end.value))
      invariant 0 <= i <= |run| && Clip(run, end) == part + Clip(run[i..], end)
    {
      assert run[i..][1..] == run[i + 1..];
      part := part + [run[i]];
      i := i + 1;
    }
    assert part + [] == part;
  }

  class MemTable {
    var entries: seq<Record>
    var size: nat
    const threshold: nat

    constructor (threshold: nat)
      ensures Valid() && entries == [] && this.threshold == threshold
    {
      entries, size, this.threshold := [], 0, threshold;
    }

    ghost predicate Valid()
      reads this
    {
      StrictlySorted(entries) && size == SumLen(entries)
    }

    /** Buffer a record. The size stays the sum of the encoded lengths. */
    method Add(record: Record)
      requires Valid()
      modifies this
      ensures Valid() && entries == Insert(old(entries), record)
    {
      InsertLen(entries, record);
      InsertSorted(entries, record);
      var replaced := Find(entries, record);
      entries := Insert(entries, record);
      size := if replaced.Some? then size + EncodedLen(record) - EncodedLen(replaced.value) else size + EncodedLen(record);
    }

    /** The newest version of `key` below `bound`: versions of a key are stored
        newest first, so the first one below the bound. */
    method GetAt(key: Key, bound: nat) returns (r: Option<Record>)
      requires Valid()
      ensures IsNewest(entries, key, bound, r)
      ensures Consistent(entries) ==> r == Newest(entries, key, bound)
    {
      for i := 0 to |entries|
        invariant forall j :: 0 <= j < i ==> !Visible(entries[j], key, bound)
      {
        if entries[i].key == key && entries[i].seqno < bound {
          StrictIsSorted(entries);
          FirstIsNewest(entries, key, bound, i);
          if Consistent(entries) {
            NewestUnique(entries, key, bound, Some(entries[i]));
          }
          return Some(entries[i]);
        }
      }
      return None;
    }

    /** Records of the range, in the order of the table. */
    method Range(start: Option<Key>, end: Option<Key>) returns (part: seq<Record>)
      requires Valid()
      ensures part == Clip(AtLeast(entries, start), end)
    {
      hide StrictlySorted, AtLeast, Clip, SumLen;
      var i := LowerBound(entries, start);
      part := TakeUntil(entries[i..], end);
    }

    predicate IsEmpty()
      reads this
    {
      entries == []
    }

    predicate IsFull()
      reads this
    {
      size >= threshold
    }
  }
}
