/** The Bloom filter of an SSTable, at bit level: double hashing with wrap-around,
    bits packed eight to a byte, and the encoded form
    `[k:4][bit_count:8][bits...]`. */
module Bloom {
  import opened Records
  import opened Codec

  type U64 = n: nat | n < U64_LIMIT

  /** The two seeded hashes of a key. Nothing below depends on what they are. */
  datatype Hashes = Hashes(h1: Bytes -> U64, h2: Bytes -> U64)

  // ---------------------------------------------------------------------- bits

  function Mask(j: nat): (m: bv8)
    requires j < 8
    ensures m != 0
  {
    match j
    case 0 => 1
    case 1 => 2
    case 2 => 4
    case 3 => 8
    case 4 => 16
    case 5 => 32
    case 6 => 64
    case 7 => 128
  }

  lemma MasksDisjoint(i: nat, j: nat)
    requires i < 8 && j < 8 && i != j
    ensures Mask(i) & Mask(j) == 0
  {
    if i == 0 || i == 1 {
    } else if i == 2 || i == 3 {
    } else if i == 4 || i == 5 {
    }
  }

  lemma OrMask(b: bv8, m: bv8, m': bv8)
    ensures (b | m) & m == m
    ensures m & m' == 0 ==> (b | m) & m' == b & m'
  {
  }

  function ByteLen(bitCount: nat): (n: nat)
    ensures forall i :: 0 <= i < bitCount ==> i / 8 < n
  {
    (bitCount + 7) / 8
  }

  predicate BitAt(bits: seq<bv8>, n: nat)
    requires n / 8 < |bits|
  {
    bits[n / 8] & Mask(n % 8) != 0
  }

  /** Setting one bit sets that bit and no other. */
  lemma SetOneBit(bits: seq<bv8>, n: nat, m: nat)
    requires n / 8 < |bits| && m / 8 < |bits|
    ensures BitAt(bits[n / 8 := bits[n / 8] | Mask(n % 8)], m) <==> m == n || BitAt(bits, m)
  {
    var b := bits[n / 8];
    if n / 8 == m / 8 {
      if n % 8 == m % 8 {
        assert n == 8 * (n / 8) + n % 8 && m == 8 * (m / 8) + m % 8;
        OrMask(b, Mask(n % 8), 0);
      } else {
        MasksDisjoint(n % 8, m % 8);
        OrMask(b, Mask(n % 8), Mask(m % 8));
      }
    }
  }

  // -------------------------------------------------------------------- probes

  /** The `i`-th bit of a key: `h1 + i * h2` in 64-bit wrapping arithmetic,
      reduced to the size of the filter. */
  function Probe(hs: Hashes, key: Key, i: nat, bitCount: nat): (n: nat)
    requires bitCount > 0
    ensures n < bitCount
  {
    (hs.h1(key) + (i * hs.h2(key)) % U64_LIMIT) % U64_LIMIT % bitCount
  }

  ghost function Probes(hs: Hashes, key: Key, k: nat, bitCount: nat): (s: set<nat>)
    requires bitCount > 0
  {
    set i | 0 <= i < k :: Probe(hs, key, i, bitCount)
  }

  ghost function BitSet(bits: seq<bv8>, bitCount: nat): (s: set<nat>)
    requires |bits| == ByteLen(bitCount)
  {
    set n | 0 <= n < bitCount && BitAt(bits, n)
  }

  // ----------------------------------------------------------------- the filter

  class BloomFilter {
    const hs: Hashes
    const bits: array<bv8>
    const bitCount: nat
    const k: nat

    /** An empty filter. Its size comes from a floating-point estimate that is not
        part of this model; any positive size will do. */
    constructor (hs: Hashes, bitCount: nat, k: nat)
      requires 0 < bitCount < U64_LIMIT && 0 < k < U32_LIMIT
      ensures Valid() && fresh(bits) && this.hs == hs && this.bitCount == bitCount && this.k == k
      ensures Members() == {}
    {
      this.hs, this.bitCount, this.k := hs, bitCount, k;
      this.bits := new bv8[ByteLen(bitCount)](_ => 0);
    }

    /** A filter read back from its encoding. */
    constructor FromBits(hs: Hashes, bitCount: nat, k: nat, raw: seq<bv8>)
      requires 0 < bitCount < U64_LIMIT && 0 < k < U32_LIMIT && |raw| == ByteLen(bitCount)
      ensures Valid() && fresh(bits) && this.hs == hs && this.bitCount == bitCount && this.k == k && bits[..] == raw
    {
      this.hs, this.bitCount, this.k := hs, bitCount, k;
      this.bits := new bv8[|raw|](i requires 0 <= i < |raw| => raw[i]);
    }

    ghost predicate Valid()
      reads this, bits
    {
      0 < bitCount < U64_LIMIT && 0 < k < U32_LIMIT && bits.Length == ByteLen(bitCount)
    }

    /** The positions of the bits that are set. */
    ghost function Members(): (s: set<nat>)
      reads this, bits
      requires Valid()
    {
      BitSet(bits[..], bitCount)
    }

    /** Exactly the bits of the key are added. */
    method Insert(key: Key)
      requires Valid()
      modifies bits
      ensures Valid() && Members() == old(Members()) + Probes(hs, key, k, bitCount)
    {
      ghost var before := bits[..];
      for i := 0 to k
        invariant forall n :: 0 <= n < bitCount ==>
                    (BitAt(bits[..], n) <==> BitAt(before, n) || exists t :: 0 <= t < i && Probe(hs, key, t, bitCount) == n)
      {
        var bit := Probe(hs, key, i, bitCount);
        ghost var was := bits[..];
        bits[bit / 8] := bits[bit / 8] | Mask(bit % 8);
        assert bits[..] == was[bit / 8 := was[bit / 8] | Mask(bit % 8)];
        forall n | 0 <= n < bitCount
          ensures BitAt(bits[..], n) <==> n == bit || BitAt(was, n)
        {
          SetOneBit(was, bit, n);
        }
      }
    }

    /** Possibly a member: every bit of the key is set. */
    method Contains(key: Key) returns (r: bool)
      requires Valid()
      ensures r <==> Probes(hs, key, k, bitCount) <= Members()
    {
      for i := 0 to k
        invariant forall t :: 0 <= t < i ==> Probe(hs, key, t, bitCount) in Members()
      {
        var bit := Probe(hs, key, i, bitCount);
        assert bits[..][bit / 8] == bits[bit / 8];
        if bits[bit / 8] & Mask(bit % 8) == 0 {
          assert bit in Probes(hs, key, k, bitCount) && bit !in Members();
          return false;
        }
      }
      return true;
    }

    method Encode() returns (buf: Bytes)
      requires Valid()
      ensures buf == EncodeFilter(k, bitCount, bits[..])
    {
      buf := U32Bytes(k) + U64Bytes(bitCount) + FromBits8(bits[..]);
    }
  }

  // ------------------------------------------------------------------- encoding

  function FromBits8(bits: seq<bv8>): (b: Bytes)
    ensures |b| == |bits|
  {
    seq(|bits|, i requires 0 <= i < |bits| => bits[i] as int)
  }

  function ToBits8(b: Bytes): (bits: seq<bv8>)
    ensures |bits| == |b|
  {
    seq(|b|, i requires 0 <= i < |b| => b[i] as bv8)
  }

  function EncodeFilter(k: nat, bitCount: nat, bits: seq<bv8>): (b: Bytes) {
    U32Bytes(k) + U64Bytes(bitCount) + FromBits8(bits)
  }

  /** The checks of `decode`, in its order, and the fields it accepts. */
  function DecodeFilter(b: Bytes): (r: Result<(nat, nat, seq<bv8>)>) {
    if |b| < 12 then
      Err(Corrupt)
    else
      var k, bitCount := ReadU32(b[..4]), ReadU64(b[4..12]);
      if |b| != 12 + ByteLen(bitCount) || k == 0 || bitCount == 0 then
        Err(Corrupt)
      else
        Ok((k, bitCount, ToBits8(b[12..])))
  }

  lemma ByteRoundTrip(b: bv8)
    ensures (b as int) as bv8 == b
  {
  }

  /** A written filter decodes to itself. */
  lemma FilterRoundTrip(k: nat, bitCount: nat, bits: seq<bv8>)
    requires 0 < k < U32_LIMIT && 0 < bitCount < U64_LIMIT && |bits| == ByteLen(bitCount)
    ensures DecodeFilter(EncodeFilter(k, bitCount, bits)) == Ok((k, bitCount, bits))
  {
    var b := EncodeFilter(k, bitCount, bits);
    U32RoundTrip(k);
    U64RoundTrip(bitCount);
    assert b[..4] == U32Bytes(k) && b[4..12] == U64Bytes(bitCount) && b[12..] == FromBits8(bits);
    forall i | 0 <= i < |bits|
      ensures ToBits8(FromBits8(bits))[i] == bits[i]
    {
      ByteRoundTrip(bits[i]);
    }
    assert ToBits8(FromBits8(bits)) == bits;
  }

  method Reload(hs: Hashes, b: Bytes) returns (r: Result<BloomFilter>)
    ensures DecodeFilter(b).Err? ==> r == Err(Corrupt)
    ensures DecodeFilter(b).Ok? ==>
              && r.Ok? && fresh(r.value) && fresh(r.value.bits) && r.value.Valid() && r.value.hs == hs
              && (r.value.k, r.value.bitCount, r.value.bits[..]) == DecodeFilter(b).value
  {
    var d := DecodeFilter(b);
    if d.Err? { return Err(Corrupt); }
    var (k, bitCount, raw) := d.value;
    var f := new BloomFilter.FromBits(hs, bitCount, k, raw);
    return Ok(f);
  }

  // ---------------------------------------------------------- no false negatives

  /** The bits a list of keys sets. */
  ghost function AllProbes(hs: Hashes, keys: seq<Key>, k: nat, bitCount: nat): (s: set<nat>)
    requires bitCount > 0
  {
    if keys == [] then {} else AllProbes(hs, keys[..|keys| - 1], k, bitCount) + Probes(hs, keys[|keys| - 1], k, bitCount)
  }

  lemma {:induction false} InsertedProbes(hs: Hashes, keys: seq<Key>, k: nat, bitCount: nat, key: Key)
    requires bitCount > 0 && key in keys
    ensures Probes(hs, key, k, bitCount) <= AllProbes(hs, keys, k, bitCount)
  {
    if keys[|keys| - 1] != key {
      assert key in keys[..|keys| - 1];
      InsertedProbes(hs, keys[..|keys| - 1], k, bitCount, key);
    }
  }

  /** Build a filter over keys, write it, read it back: no key that was inserted
      is ever reported absent, whatever the hashes. */
  method NoFalseNegatives(hs: Hashes, keys: seq<Key>, bitCount: nat, k: nat, key: Key) returns (r: bool)
    requires 0 < bitCount < U64_LIMIT && 0 < k < U32_LIMIT
    ensures key in keys ==> r
    ensures r <==> Probes(hs, key, k, bitCount) <= AllProbes(hs, keys, k, bitCount)
  {
    var f := new BloomFilter(hs, bitCount, k);
    for i := 0 to |keys|
      invariant f.Valid() && f.Members() == AllProbes(hs, keys[..i], k, bitCount)
    {
      f.Insert(keys[i]);
      assert keys[..i + 1][..i] == keys[..i];
    }
    assert keys[..|keys|] == keys;
    var buf := f.Encode();
    FilterRoundTrip(f.k, f.bitCount, f.bits[..]);
    var g := Reload(hs, buf);
    if key in keys {
      InsertedProbes(hs, keys, k, bitCount, key);
    }
    r := g.value.Contains(key);
  }
}
