/** Size-tiered picking: the first maximal run of adjacent tables in one size tier
    that is long enough. */
module Picker {
  import opened Records

  /** Bit width of a file size: `64 - leading_zeros`. */
  function Tier(size: nat): (t: nat) {
    if size == 0 then 0 else 1 + Tier(size / 2)
  }

  /** Sizes share a tier when they lie between the same powers of two. */
  lemma {:induction false} TierBounds(size: nat)
    ensures size > 0 ==> Power2(Tier(size) - 1) <= size < Power2(Tier(size))
    ensures size == 0 <==> Tier(size) == 0
  {
    if size > 1 {
      TierBounds(size / 2);
      assert Tier(size) >= 2;
    }
  }

  function Power2(n: nat): (p: nat) {
    if n == 0 then 1 else 2 * Power2(n - 1)
  }

  predicate SameTier(sizes: seq<nat>, i: nat, j: nat)
    requires i < j <= |sizes|
  {
    forall t :: i <= t < j ==> Tier(sizes[t]) == Tier(sizes[i])
  }

  /** A run of one tier that cannot be extended. */
  predicate Maximal(sizes: seq<nat>, i: nat, j: nat)
    requires i < j <= |sizes|
  {
    && SameTier(sizes, i, j)
    && (j < |sizes| ==> Tier(sizes[j]) != Tier(sizes[i]))
    && (i > 0 ==> Tier(sizes[i - 1]) != Tier(sizes[i]))
  }

  /** Before `n`, every run of one tier is too short. */
  ghost predicate NoneBefore(sizes: seq<nat>, n: nat, threshold: nat) {
    n <= |sizes| && forall a: nat, b: nat :: a < b <= n && SameTier(sizes, a, b) ==> b - a < threshold
  }

  /** The end of the run that starts at `i`. */
  method RunEnd(sizes: seq<nat>, i: nat) returns (j: nat)
    requires i < |sizes|
    ensures i < j <= |sizes| && SameTier(sizes, i, j) && (j < |sizes| ==> Tier(sizes[j]) != Tier(sizes[i]))
  {
    j := i;
    while j < |sizes| && Tier(sizes[j]) == Tier(sizes[i])
      invariant i <= j <= |sizes| && forall t :: i <= t < j ==> Tier(sizes[t]) == Tier(sizes[i])
      invariant j == i ==> j < |sizes|
    {
      j := j + 1;
    }
  }

  /** `None` exactly when no adjacent tables of one tier reach the threshold; else
      the first maximal run that does. */
  method PickCompaction(sizes: seq<nat>, threshold: nat) returns (r: Option<(nat, nat)>)
    ensures r.None? ==> NoneBefore(sizes, |sizes|, threshold)
    ensures r.Some? ==>
              && r.value.0 < r.value.1 <= |sizes| && r.value.1 - r.value.0 >= threshold
              && Maximal(sizes, r.value.0, r.value.1) && NoneBefore(sizes, r.value.0, threshold)
  {
    if |sizes| < threshold {
      return None;
    }
    var i := 0;
    while i < |sizes|
      invariant 0 <= i <= |sizes| && NoneBefore(sizes, i, threshold)
      invariant 0 < i < |sizes| ==> Tier(sizes[i - 1]) != Tier(sizes[i])
      decreases |sizes| - i
    {
      var j := RunEnd(sizes, i);
      if j - i >= threshold {
        return Some((i, j));
      }
      Extend(sizes, i, j, threshold);
      i := j;
    }
    return None;
  }

  lemma Extend(sizes: seq<nat>, i: nat, j: nat, threshold: nat)
    requires i < j <= |sizes| && NoneBefore(sizes, i, threshold) && SameTier(sizes, i, j) && j - i < threshold
    requires i > 0 ==> Tier(sizes[i - 1]) != Tier(sizes[i])
    ensures NoneBefore(sizes, j, threshold)
    ensures j < |sizes| && Tier(sizes[j]) != Tier(sizes[i]) ==> Tier(sizes[j - 1]) != Tier(sizes[j])
  {
    forall a: nat, b: nat | a < b <= j && SameTier(sizes, a, b)
      ensures b - a < threshold
    {
      if b > i {
        assert a >= i;
      }
    }
  }

  /** Below a threshold of two there is always a run to merge while there is a table
      at all. */
  lemma LowThreshold(sizes: seq<nat>, threshold: nat)
    requires threshold <= 1
    ensures NoneBefore(sizes, |sizes|, threshold) <==> sizes == []
  {
    if sizes != [] {
      assert SameTier(sizes, 0, 1);
    }
  }
}
