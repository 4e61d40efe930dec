/** The byte formats, field by field: what stands at which offset of a record, a
    frame, a header, an edit, a filter and a table file. Numbers are given digit by
    digit, and reading is given as a value, neither by way of the other. */
module Formats {
  import opened Records
  import opened Codec
  import opened Header
  import opened Framing
  import opened Wal
  import opened Manifest
  import opened Bloom
  import opened SsTableFile

  // ----------------------------------------------------------------- integers

  function Pow256(i: nat): (p: nat)
    ensures p > 0
  {
    if i == 0 then 1 else 256 * Pow256(i - 1)
  }

  /** Byte `i` of a number, least significant first. */
  function Digit(n: nat, i: nat): (d: Byte) {
    n / Pow256(i) % 256
  }

  /** The digits of a number of `len` bytes stand at `at`. */
  predicate NumberAt(b: Bytes, at: nat, len: nat, n: nat) {
    at + len <= |b| && forall i :: 0 <= i < len ==> b[at + i] == Digit(n, i)
  }

  /** What bytes are worth, least significant first. */
  function LittleEndian(b: Bytes): (n: nat) {
    if b == [] then 0 else b[0] + 256 * LittleEndian(b[1..])
  }

  lemma Powers()
    ensures Pow256(0) == 1 && Pow256(1) == 0x100 && Pow256(2) == 0x1_0000 && Pow256(3) == 0x100_0000
    ensures Pow256(4) == 0x1_0000_0000 && Pow256(5) == 0x100_0000_0000 && Pow256(6) == 0x1_0000_0000_0000
    ensures Pow256(7) == 0x100_0000_0000_0000
  {
    assert Pow256(2) == 256 * Pow256(1) && Pow256(3) == 256 * Pow256(2) && Pow256(4) == 256 * Pow256(3);
    assert Pow256(5) == 256 * Pow256(4) && Pow256(6) == 256 * Pow256(5) && Pow256(7) == 256 * Pow256(6);
  }

  lemma U32Digits(n: nat)
    ensures NumberAt(U32Bytes(n), 0, 4, n)
  {
    hide Pow256;
    Powers();
  }

  lemma U64Digits(n: nat)
    ensures NumberAt(U64Bytes(n), 0, 8, n)
  {
    hide Pow256;
    Powers();
    var low, high := n % 0x1_0000_0000, n / 0x1_0000_0000;
    LowDigits(n, low, high);
    HighDigits(n, high);
  }

  lemma LowDigits(n: nat, low: nat, high: nat)
    requires n == 0x1_0000_0000 * high + low && low < 0x1_0000_0000
    ensures low % 0x100 == n % 0x100 && low / 0x100 % 0x100 == n / 0x100 % 0x100
    ensures low / 0x1_0000 % 0x100 == n / 0x1_0000 % 0x100 && low / 0x100_0000 % 0x100 == n / 0x100_0000 % 0x100
  {
    SameLow(n, low, 0x100_0000 * high);
    ShiftOne(n, low, high);
    SameLow(n / 0x100, low / 0x100, 0x1_0000 * high);
    ShiftTwo(n, low, high);
    SameLow(n / 0x1_0000, low / 0x1_0000, 0x100 * high);
    ShiftThree(n, low, high);
    SameLow(n / 0x100_0000, low / 0x100_0000, high);
  }

  lemma SameLow(n: nat, low: nat, q: nat)
    requires n == 0x100 * q + low
    ensures n % 0x100 == low % 0x100
  {
  }

  lemma ShiftOne(n: nat, low: nat, high: nat)
    requires n == 0x1_0000_0000 * high + low
    ensures n / 0x100 == 0x100 * (0x1_0000 * high) + low / 0x100
  {
  }

  lemma ShiftTwo(n: nat, low: nat, high: nat)
    requires n == 0x1_0000_0000 * high + low
    ensures n / 0x1_0000 == 0x100 * (0x100 * high) + low / 0x1_0000
  {
  }

  lemma ShiftThree(n: nat, low: nat, high: nat)
    requires n == 0x1_0000_0000 * high + low
    ensures n / 0x100_0000 == 0x100 * high + low / 0x100_0000
  {
  }

  lemma HighDigits(n: nat, high: nat)
    requires high == n / 0x1_0000_0000
    ensures high / 0x100 == n / 0x100_0000_0000 && high / 0x1_0000 == n / 0x1_0000_0000_0000
    ensures high / 0x100_0000 == n / 0x100_0000_0000_0000
  {
  }

  lemma ReadU32Value(b: Bytes)
    requires |b| == 4
    ensures ReadU32(b) == LittleEndian(b)
  {
    assert b[1..][1..] == b[2..] && b[2..][1..] == b[3..] && b[3..][1..] == [];
    assert LittleEndian(b[3..]) == b[3] + 256 * LittleEndian([]);
    assert LittleEndian(b[2..]) == b[2] + 256 * LittleEndian(b[3..]);
    assert LittleEndian(b[1..]) == b[1] + 256 * LittleEndian(b[2..]);
  }

  lemma {:induction false} LittleEndianConcat(a: Bytes, b: Bytes)
    ensures LittleEndian(a + b) == LittleEndian(a) + Pow256(|a|) * LittleEndian(b)
  {
    if a == [] {
      assert a + b == b;
    } else {
      assert (a + b)[1..] == a[1..] + b;
      LittleEndianConcat(a[1..], b);
      Spread(a[0], LittleEndian(a[1..]), Pow256(|a| - 1), LittleEndian(b));
    }
  }

  lemma Spread(x: nat, l: nat, p: nat, v: nat)
    ensures x + 256 * (l + p * v) == (x + 256 * l) + (256 * p) * v
  {
  }

  lemma ReadU64Value(b: Bytes)
    requires |b| == 8
    ensures ReadU64(b) == LittleEndian(b)
  {
    hide ReadU32, LittleEndian, Pow256;
    Powers();
    ReadU32Value(b[..4]);
    ReadU32Value(b[4..]);
    assert b == b[..4] + b[4..];
    LittleEndianConcat(b[..4], b[4..]);
  }

  lemma NumberShifts(a: Bytes, b: Bytes, c: Bytes, len: nat, n: nat)
    requires NumberAt(b, 0, len, n)
    ensures NumberAt(a + (b + c), |a|, len, n)
  {
    hide Digit;
    forall i | 0 <= i < len
      ensures (a + (b + c))[|a| + i] == Digit(n, i)
    {
      assert b[0 + i] == Digit(n, i);
    }
  }

  // ------------------------------------------------------------------- records

  /** `[seq:8][type:1][key_len:4][key][val_len:4][val]`. */
  lemma RecordLayout(r: Record)
    ensures var b, n, val := Encode(r), |r.key|, ValueBytes(r.value);
            && |b| == 17 + n + |val|
            && NumberAt(b, 0, 8, r.seqno) && b[8] == (if r.value.Some? then 0 else 1)
            && NumberAt(b, 9, 4, n) && b[13..13 + n] == r.key
            && NumberAt(b, 13 + n, 4, |val|) && b[17 + n..] == val
            && val == (if r.value.Some? then r.value.value else [])
  {
    hide NumberAt, U32Bytes, U64Bytes;
    var b, n, val := Encode(r), |r.key|, ValueBytes(r.value);
    var no, kind: Bytes, keyLen, valLen := U64Bytes(r.seqno), [if r.value.Some? then 0 else 1], U32Bytes(n), U32Bytes(|val|);
    U64Digits(r.seqno);
    U32Digits(n);
    U32Digits(|val|);
    NumberShifts([], no, kind + (keyLen + (r.key + (valLen + val))), 8, r.seqno);
    NumberShifts(no + kind, keyLen, r.key + (valLen + val), 4, n);
    NumberShifts(no + kind + keyLen + r.key, valLen, val, 4, |val|);
    assert b == [] + (no + (kind + (keyLen + (r.key + (valLen + val)))));
    assert b == (no + kind) + (keyLen + (r.key + (valLen + val)));
    assert b == (no + kind + keyLen + r.key) + (valLen + val);
  }

  /** Decoding any bytes: a record needs its fixed fields and the lengths they
      announce, and a type of zero or one; everything else is refused. */
  lemma DecodeLayout(b: Bytes)
    ensures var nk := if |b| >= 13 then LittleEndian(b[9..13]) else 0;
            var nv := if |b| >= 17 + nk then LittleEndian(b[13 + nk..17 + nk]) else 0;
            Decode(b) ==
              if |b| < 17 + nk + nv || b[8] > 1 then Err(Corrupt)
              else Ok((Record(b[13..13 + nk], if b[8] == 0 then Some(b[17 + nk..17 + nk + nv]) else None,
                              LittleEndian(b[..8])), b[17 + nk + nv..]))
  {
    hide ReadU32, ReadU64, LittleEndian;
    if |b| >= 13 {
      assert b[8..][1..][..4] == b[9..13];
      ReadU64Value(b[..8]);
      ReadU32Value(b[9..13]);
      var nk := LittleEndian(b[9..13]);
      if |b| >= 13 + nk {
        DecodeKey(b, nk);
        if |b| >= 17 + nk {
          ReadU32Value(b[13 + nk..17 + nk]);
          DecodeValue(b, nk, LittleEndian(b[13 + nk..17 + nk]));
        }
      }
    }
  }

  lemma DecodeKey(b: Bytes, nk: nat)
    requires |b| >= 13 + nk
    ensures b[8..][1..][4..][..nk] == b[13..13 + nk] && b[8..][1..][4..][nk..] == b[13 + nk..]
  {
  }

  lemma DecodeValue(b: Bytes, nk: nat, nv: nat)
    requires |b| >= 17 + nk
    ensures b[13 + nk..][..4] == b[13 + nk..17 + nk] && b[13 + nk..][4..] == b[17 + nk..]
    ensures |b| >= 17 + nk + nv ==>
              b[17 + nk..][..nv] == b[17 + nk..17 + nk + nv] && b[17 + nk..][nv..] == b[17 + nk + nv..]
  {
  }

  // -------------------------------------------------------- headers and frames

  /** `LSMW`, `LSMM`, the version, and two bytes of zero. */
  lemma HeaderBytes(version: nat)
    requires version < 0x100
    ensures EncodeHeader(WAL_MAGIC, version) == [0x4C, 0x53, 0x4D, 0x57, version, 0, 0, 0]
    ensures EncodeHeader(MANIFEST_MAGIC, version) == [0x4C, 0x53, 0x4D, 0x4D, version, 0, 0, 0]
    ensures forall cs :: LogFile(cs, []) == [0x4C, 0x53, 0x4D, 0x57, 3, 0, 0, 0]
    ensures forall cs :: ManifestFile(cs, []) == [0x4C, 0x53, 0x4D, 0x4D, 2, 0, 0, 0]
  {
  }

  /** `[crc:4][len:4][payload]`, the checksum that of the payload alone. */
  lemma FrameLayout(hash: Bytes -> Word, payload: Bytes)
    ensures var b := Frame(hash, payload);
            NumberAt(b, 0, 4, hash(payload)) && NumberAt(b, 4, 4, |payload|) && b[8..] == payload
  {
    hide NumberAt, U32Bytes;
    var crc, len := U32Bytes(hash(payload)), U32Bytes(|payload|);
    U32Digits(hash(payload));
    U32Digits(|payload|);
    NumberShifts([], crc, len + payload, 4, hash(payload));
    NumberShifts(crc, len, payload, 4, |payload|);
    assert Frame(hash, payload) == [] + (crc + (len + payload)) && Frame(hash, payload) == crc + (len + payload);
  }

  /** `[count:4]` and the records one behind the other. */
  lemma PayloadLayout(batch: seq<Record>)
    ensures NumberAt(Payload(batch), 0, 4, |batch|) && Payload(batch)[4..] == EncodeAll(batch)
  {
    hide NumberAt, U32Bytes;
    U32Digits(|batch|);
    NumberShifts([], U32Bytes(|batch|), EncodeAll(batch), 4, |batch|);
    assert Payload(batch) == [] + (U32Bytes(|batch|) + EncodeAll(batch));
  }

  // ------------------------------------------------------------------ manifest

  /** `[tag:1][body:8]`, with tags from zero in the order of the source. */
  lemma EditLayout(n: nat)
    ensures forall e :: e in [AddTable(n), DeleteTable(n), SetNextSeq(n), SetNextSstId(n)] ==>
              |EncodeEdit(e)| == 9 && NumberAt(EncodeEdit(e), 1, 8, n)
    ensures EncodeEdit(AddTable(n))[0] == 0 && EncodeEdit(DeleteTable(n))[0] == 1
    ensures EncodeEdit(SetNextSeq(n))[0] == 2 && EncodeEdit(SetNextSstId(n))[0] == 3
  {
    hide NumberAt, U64Bytes;
    U64Digits(n);
    forall e: VersionEdit | Body(e) == n
      ensures NumberAt(EncodeEdit(e), 1, 8, n)
    {
      NumberShifts([Tag(e)], U64Bytes(n), [], 8, n);
      assert EncodeEdit(e) == [Tag(e)] + (U64Bytes(n) + []);
    }
  }

  /** Decoding any bytes: nine of them, with a tag below four. */
  lemma DecodeEditLayout(b: Bytes)
    ensures DecodeEdit(b) ==
              if |b| != 9 || b[0] > 3 then Err(Corrupt)
              else var n := LittleEndian(b[1..]);
                Ok(if b[0] == 0 then AddTable(n) else if b[0] == 1 then DeleteTable(n)
                   else if b[0] == 2 then SetNextSeq(n) else SetNextSstId(n))
  {
    hide ReadU64, LittleEndian;
    if |b| == 9 {
      ReadU64Value(b[1..9]);
      assert b[1..9] == b[1..];
    }
  }

  // -------------------------------------------------------------------- tables

  /** `[k:4][bit_count:8][bits]`. */
  lemma FilterLayout(k: nat, bitCount: nat, bits: seq<bv8>)
    ensures var b := EncodeFilter(k, bitCount, bits);
            && |b| == 12 + |bits| && NumberAt(b, 0, 4, k) && NumberAt(b, 4, 8, bitCount)
            && forall i :: 0 <= i < |bits| ==> b[12 + i] == bits[i] as int
  {
    hide NumberAt, U32Bytes, U64Bytes;
    var x, y, z := U32Bytes(k), U64Bytes(bitCount), FromBits8(bits);
    U32Digits(k);
    U64Digits(bitCount);
    NumberShifts([], x, y + z, 4, k);
    NumberShifts(x, y, z, 8, bitCount);
    assert EncodeFilter(k, bitCount, bits) == [] + (x + (y + z)) && EncodeFilter(k, bitCount, bits) == x + (y + z);
  }

  /** Decoding any bytes as a filter: both parameters positive, and exactly as many
      bytes behind them as the bits need. */
  lemma DecodeFilterLayout(b: Bytes)
    ensures var k := if |b| >= 12 then LittleEndian(b[..4]) else 0;
            var n := if |b| >= 12 then LittleEndian(b[4..12]) else 0;
            if k == 0 || n == 0 || |b| != 12 + (n + 7) / 8 then DecodeFilter(b) == Err(Corrupt)
            else
              && DecodeFilter(b).Ok? && DecodeFilter(b).value.0 == k && DecodeFilter(b).value.1 == n
              && |DecodeFilter(b).value.2| == |b| - 12
              && forall i :: 0 <= i < |b| - 12 ==> DecodeFilter(b).value.2[i] == b[12 + i] as bv8
  {
    hide ReadU32, ReadU64, LittleEndian;
    if |b| >= 12 {
      ReadU32Value(b[..4]);
      ReadU64Value(b[4..12]);
    }
  }

  /** `[key_len:4][key][offset:8][comp_len:4]`. */
  lemma EntryLayout(e: IndexEntry)
    ensures var b, n := EntryBytes(e), |e.firstKey|;
            && |b| == 16 + n && NumberAt(b, 0, 4, n) && b[4..4 + n] == e.firstKey
            && NumberAt(b, 4 + n, 8, e.offset) && NumberAt(b, 12 + n, 4, e.compLen)
  {
    hide NumberAt, U32Bytes, U64Bytes;
    var n, len, off, comp := |e.firstKey|, U32Bytes(|e.firstKey|), U64Bytes(e.offset), U32Bytes(e.compLen);
    U32Digits(n);
    U64Digits(e.offset);
    U32Digits(e.compLen);
    NumberShifts([], len, e.firstKey + (off + comp), 4, n);
    NumberShifts(len + e.firstKey, off, comp, 8, e.offset);
    NumberShifts(len + e.firstKey + off, comp, [], 4, e.compLen);
    var b := EntryBytes(e);
    assert b == [] + (len + (e.firstKey + (off + comp)));
    assert b == (len + e.firstKey) + (off + comp);
    assert b == (len + e.firstKey + off) + (comp + []);
  }

  /** The last forty-four bytes: where index and filter begin, how long they are, the
      number of records, the format version two and `LSM2`. */
  lemma FooterLayout(data: Bytes, index: seq<IndexEntry>, bloom: Bytes, count: nat)
    ensures var b := TableFile(data, index, bloom, count);
            var f, i := |b| - 44, |IndexBytes(index)|;
            && |b| == |data| + i + |bloom| + 44
            && b[..|data|] == data && b[|data|..|data| + i] == IndexBytes(index) && b[|data| + i..f] == bloom
            && NumberAt(b, f, 8, |data|) && NumberAt(b, f + 8, 4, |index|) && NumberAt(b, f + 12, 8, |data| + i)
            && NumberAt(b, f + 20, 8, |bloom|) && NumberAt(b, f + 28, 8, count)
            && b[f + 36..] == [2, 0, 0, 0, 0x4C, 0x53, 0x4D, 0x32]
  {
    hide NumberAt, IndexBytes, U64Bytes;
    var i := |IndexBytes(index)|;
    var front := data + IndexBytes(index) + bloom;
    var foot := Footer(|data|, |index|, |data| + i, |bloom|, count);
    FooterDigits(|data|, |index|, |data| + i, |bloom|, count);
    assert TableFile(data, index, bloom, count) == front + foot;
    Behind(front, foot, 0, 8, |data|);
    Behind(front, foot, 8, 4, |index|);
    Behind(front, foot, 12, 8, |data| + i);
    Behind(front, foot, 20, 8, |bloom|);
    Behind(front, foot, 28, 8, count);
    assert (front + foot)[|front| + 36..] == foot[36..];
  }

  lemma Behind(front: Bytes, b: Bytes, at: nat, len: nat, n: nat)
    requires NumberAt(b, at, len, n)
    ensures NumberAt(front + b, |front| + at, len, n)
  {
    hide Digit;
    forall i | 0 <= i < len
      ensures (front + b)[|front| + at + i] == Digit(n, i)
    {
      assert b[at + i] == Digit(n, i);
    }
  }

  lemma FooterDigits(io: nat, n: nat, bo: nat, bl: nat, count: nat)
    ensures var f := Footer(io, n, bo, bl, count);
            && NumberAt(f, 0, 8, io) && NumberAt(f, 8, 4, n) && NumberAt(f, 12, 8, bo) && NumberAt(f, 20, 8, bl)
            && NumberAt(f, 28, 8, count) && f[36..] == [2, 0, 0, 0, 0x4C, 0x53, 0x4D, 0x32]
  {
    hide NumberAt, U64Bytes, U32Bytes;
    var f := Footer(io, n, bo, bl, count);
    U64Digits(io);
    U32Digits(n);
    U64Digits(bo);
    U64Digits(bl);
    U64Digits(count);
    assert f[0..8] == U64Bytes(io);
    Within(f, 0, 8, io);
    assert f[8..12] == U32Bytes(n);
    Within(f, 8, 4, n);
    assert f[12..20] == U64Bytes(bo);
    Within(f, 12, 8, bo);
    assert f[20..28] == U64Bytes(bl);
    Within(f, 20, 8, bl);
    assert f[28..36] == U64Bytes(count);
    Within(f, 28, 8, count);
    assert f[36..] == U32Bytes(FORMAT_VERSION) + MAGIC;
    Two();
  }

  lemma Two()
    ensures U32Bytes(FORMAT_VERSION) == [2, 0, 0, 0]
  {
  }

  lemma Within(b: Bytes, at: nat, len: nat, n: nat)
    requires at + len <= |b| && NumberAt(b[at..at + len], 0, len, n)
    ensures NumberAt(b, at, len, n)
  {
    hide Digit;
    forall i | 0 <= i < len
      ensures b[at + i] == Digit(n, i)
    {
      assert b[at..at + len][0 + i] == Digit(n, i);
    }
  }

  /** Opening any bytes as a table: without a whole footer, without `LSM2` at its end,
      or with offsets out of order or range, the file is refused. */
  lemma OpenChecks(b: Bytes)
    ensures |b| < 44 || b[|b| - 4..] != [0x4C, 0x53, 0x4D, 0x32] ==> Open(b) == Err(BadFormat)
    ensures |b| >= 44 ==>
              var f := b[|b| - 44..];
              var io, bo, bl := LittleEndian(f[..8]), LittleEndian(f[12..20]), LittleEndian(f[20..28]);
              && (io > bo || bo + bl > |b| - 44 ==> Open(b) == Err(BadFormat))
              && (Open(b).Ok? ==>
                    && |Open(b).value.index| == LittleEndian(f[8..12]) && Open(b).value.count == LittleEndian(f[28..36])
                    && var filter := DecodeFilter(b[bo..bo + bl]);
                    && filter.Ok? && filter.value.0 == Open(b).value.k && filter.value.1 == Open(b).value.bitCount
                    && filter.value.2 == Open(b).value.bits)
  {
    hide ReadU32, ReadU64, LittleEndian, ReadEntries, DecodeFilter;
    if |b| >= 44 {
      var f := b[|b| - 44..];
      assert f[40..44] == b[|b| - 4..] && f[0..8] == f[..8];
      ReadU64Value(f[..8]);
      ReadU32Value(f[8..12]);
      ReadU64Value(f[12..20]);
      ReadU64Value(f[20..28]);
      ReadU64Value(f[28..36]);
      var io, bo := LittleEndian(f[..8]), LittleEndian(f[12..20]);
      if io <= bo <= |b| - 44 {
        EntriesRead(b[io..bo], LittleEndian(f[8..12]));
      }
    }
  }

  lemma {:induction false} EntriesRead(b: Bytes, n: nat)
    ensures ReadEntries(b, n).Ok? ==> |ReadEntries(b, n).value| == n
    decreases n
  {
    if n > 0 {
      var e := ReadEntry(b);
      if e.Ok? {
        EntriesRead(e.value.1, n - 1);
      }
    }
  }

  // -------------------------------------------------------------------- probes

  /** The running sum a probe loop would keep, in 64-bit wrapping arithmetic. */
  function Running(hs: Hashes, key: Key, i: nat): (n: nat) {
    if i == 0 then hs.h1(key) else (Running(hs, key, i - 1) + hs.h2(key)) % 0x1_0000_0000_0000_0000
  }

  /** Probe `i` is the first hash advanced `i` times by the second, with wrap-around,
      and only then reduced to the size of the filter. */
  lemma ProbeIsRunning(hs: Hashes, key: Key, i: nat, bitCount: nat)
    requires bitCount > 0
    ensures Probe(hs, key, i, bitCount) == Running(hs, key, i) % bitCount
  {
    RunningSum(hs, key, i);
    var a, m := hs.h1(key), i * hs.h2(key);
    WrapOnce(a, m);
  }

  lemma WrapOnce(a: nat, m: nat)
    ensures (a + m % 0x1_0000_0000_0000_0000) % 0x1_0000_0000_0000_0000 == (a + m) % 0x1_0000_0000_0000_0000
  {
  }

  lemma {:induction false} RunningSum(hs: Hashes, key: Key, i: nat)
    ensures Running(hs, key, i) == (hs.h1(key) + i * hs.h2(key)) % 0x1_0000_0000_0000_0000
  {
    if i > 0 {
      RunningSum(hs, key, i - 1);
      OnceMore(i, hs.h2(key));
      WrapOnce(hs.h2(key), hs.h1(key) + (i - 1) * hs.h2(key));
    }
  }

  lemma OnceMore(i: nat, h: nat)
    requires i > 0
    ensures i * h == (i - 1) * h + h
  {
  }

  /** Bit `n` of a filter is bit `n % 8`, from the low end, of byte `n / 8`. */
  lemma MaskIsShift(j: nat)
    requires j < 8
    ensures Mask(j) == 1 as bv8 << j
  {
  }
}
