/** Parts of a sorted run: the records from a start key on, and those before an
    end key. */
module Ranges {
  import opened Records

  /** Drop records while their key is below `start`. */
  function AtLeast(run: seq<Record>, start: Option<Key>): (part: seq<Record>) {
    if start.None? || run == [] || !Less(run[0].key, start.value) then run else AtLeast(run[1..], start)
  }

  /** Take records while their key is below `end`. */
  function Clip(run: seq<Record>, end: Option<Key>): (part: seq<Record>) {
    if run == [] || (end.Some? && !Less(run[0].key, end.value)) then [] else [run[0]] + Clip(run[1..], end)
  }

  predicate From(k: Key, start: Option<Key>) {
    start.Some? ==> !Less(k, start.value)
  }

  predicate Until(k: Key, end: Option<Key>) {
    end.Some? ==> Less(k, end.value)
  }

  /** A range holds its start key and everything above it, and stops short of its
      end key. */
  lemma RangeEnds(k: Key, start: Key, end: Key)
    ensures From(k, None) && Until(k, None)
    ensures From(k, Some(start)) <==> k == start || exists p: nat :: PartsAt(start, k, p)
    ensures Until(k, Some(end)) <==> exists p: nat :: PartsAt(k, end, p)
    ensures !Until(end, Some(end))
  {
    hide PartsAt;
    LessIsByteOrder(start, k);
    LessIsByteOrder(k, end);
    LessTotal(k, start);
    LessIrreflexive(start);
    LessIrreflexive(end);
    if Less(start, k) {
      LessAsymmetric(start, k);
    }
  }

  /** On a sorted run both are filters. */
  lemma {:induction false} AtLeastMembers(run: seq<Record>, start: Option<Key>)
    requires Sorted(run)
    ensures Sorted(AtLeast(run, start))
    ensures forall x :: x in AtLeast(run, start) <==> x in run && From(x.key, start)
    decreases |run|
  {
    if run != [] {
      var tail := run[1..];
      assert run == [run[0]] + tail;
      if start.Some? && Less(run[0].key, start.value) {
        AtLeastMembers(tail, start);
      } else {
        forall x | x in run
          ensures From(x.key, start)
        {
          HeadLeast(run, x);
          if start.Some? && Less(x.key, start.value) && Less(run[0].key, x.key) {
            LessTransitive(run[0].key, x.key, start.value);
          }
        }
      }
    }
  }

  lemma {:induction false} ClipMembers(run: seq<Record>, end: Option<Key>)
    requires Sorted(run)
    ensures Sorted(Clip(run, end))
    ensures forall x :: x in Clip(run, end) <==> x in run && Until(x.key, end)
    decreases |run|
  {
    if run != [] {
      var tail := run[1..];
      assert run == [run[0]] + tail;
      if end.Some? && !Less(run[0].key, end.value) {
        forall x | x in run
          ensures !Less(x.key, end.value)
        {
          HeadLeast(run, x);
          if Less(x.key, end.value) && Less(run[0].key, x.key) {
            LessTransitive(run[0].key, x.key, end.value);
          }
        }
      } else {
        ClipMembers(tail, end);
        ClipSorted(run, end);
      }
    }
  }

  lemma ClipSorted(run: seq<Record>, end: Option<Key>)
    requires run != [] && Sorted(run) && Sorted(Clip(run[1..], end))
    requires forall x :: x in Clip(run[1..], end) ==> x in run[1..]
    ensures Sorted([run[0]] + Clip(run[1..], end))
  {
    var part := [run[0]] + Clip(run[1..], end);
    forall i, j | 0 <= i < j < |part|
      ensures InOrder(part[i], part[j])
    {
      assert part[j] == Clip(run[1..], end)[j - 1];
      if i == 0 {
        assert part[j] in run[1..];
        var t :| 0 <= t < |run| - 1 && run[1..][t] == part[j];
        assert run[t + 1] == part[j];
      } else {
        assert part[i] == Clip(run[1..], end)[i - 1];
      }
    }
  }

  lemma HeadLeast(run: seq<Record>, x: Record)
    requires Sorted(run) && x in run
    ensures run[0].key == x.key || Less(run[0].key, x.key)
  {
    var t :| 0 <= t < |run| && run[t] == x;
    assert t > 0 ==> InOrder(run[0], run[t]);
  }
}
