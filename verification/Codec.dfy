/** Little-endian integers and the binary form of a record:
    `[seq:8][type:1][key_len:4][key][val_len:4][val]`. */
module Codec {
  import opened Records

  // ----------------------------------------------------------------- integers

  /** The low 32 bits of `n`, least significant byte first. */
  function U32Bytes(n: nat): (b: Bytes)
    ensures |b| == 4
  {
    [n % 0x100, n / 0x100 % 0x100, n / 0x1_0000 % 0x100, n / 0x100_0000 % 0x100]
  }

  function ReadU32(b: Bytes): (n: Word)
    requires |b| == 4
  {
    b[0] + 0x100 * (b[1] as int) + 0x1_0000 * (b[2] as int) + 0x100_0000 * (b[3] as int)
  }

  function U64Bytes(n: nat): (b: Bytes)
    ensures |b| == 8
  {
    U32Bytes(n % U32_LIMIT) + U32Bytes(n / U32_LIMIT)
  }

  function ReadU64(b: Bytes): (n: nat)
    requires |b| == 8
  {
    ReadU32(b[..4]) + U32_LIMIT * ReadU32(b[4..])
  }

  lemma U32RoundTrip(n: nat)
    requires n < U32_LIMIT
    ensures ReadU32(U32Bytes(n)) == n
  {
    var a, b, c := n / 0x100, n / 0x1_0000, n / 0x100_0000;
    assert n == n % 0x100 + 0x100 * a;
    assert a == a % 0x100 + 0x100 * b;
    assert b == b % 0x100 + 0x100 * c;
    assert c % 0x100 == c;
  }

  lemma U64RoundTrip(n: nat)
    requires n < U64_LIMIT
    ensures ReadU64(U64Bytes(n)) == n
  {
    var low, high := n % U32_LIMIT, n / U32_LIMIT;
    U32RoundTrip(low);
    U32RoundTrip(high);
    assert U64Bytes(n)[..4] == U32Bytes(low) && U64Bytes(n)[4..] == U32Bytes(high);
  }

  // ------------------------------------------------------------------ records

  function ValueBytes(v: Option<Bytes>): (b: Bytes) {
    if v.Some? then v.value else []
  }

  function EncodedLen(r: Record): (n: nat) {
    8 + 1 + 4 + |r.key| + 4 + |ValueBytes(r.value)|
  }

  function Encode(r: Record): (b: Bytes)
    ensures |b| == EncodedLen(r)
  {
    U64Bytes(r.seqno) + ([if r.value.Some? then 0 else 1] +
    (U32Bytes(|r.key|) + (r.key + (U32Bytes(|ValueBytes(r.value)|) + ValueBytes(r.value)))))
  }

  /** The lengths and the sequence number fit their fields. */
  predicate Fits(r: Record) {
    r.seqno < U64_LIMIT && |r.key| < U32_LIMIT && |ValueBytes(r.value)| < U32_LIMIT
  }

  function Take(b: Bytes, n: nat): (r: Result<(Bytes, Bytes)>)
    ensures r.Ok? ==> |r.value.0| == n && |r.value.1| + n == |b|
  {
    if n <= |b| then Ok((b[..n], b[n..])) else Err(Corrupt)
  }

  /** Parse one record off the front, handing back what follows it. */
  function Decode(b: Bytes): (r: Result<(Record, Bytes)>)
    ensures r.Ok? ==> |r.value.1| < |b|
  {
    var (no, b1) :- Take(b, 8);
    var (kind, b2) :- Take(b1, 1);
    var (keyLen, b3) :- Take(b2, 4);
    var (key, b4) :- Take(b3, ReadU32(keyLen));
    var (valLen, b5) :- Take(b4, 4);
    var (val, rest) :- Take(b5, ReadU32(valLen));
    if kind[0] == 0 then
      Ok((Record(key, Some(val), ReadU64(no)), rest))
    else if kind[0] == 1 then
      Ok((Record(key, None, ReadU64(no)), rest))
    else
      Err(Corrupt)
  }

  lemma TakeFront(front: Bytes, back: Bytes)
    ensures Take(front + back, |front|) == Ok((front, back))
  {
    assert (front + back)[..|front|] == front && (front + back)[|front|..] == back;
  }

  lemma DecodeEncode(r: Record, rest: Bytes)
    requires Fits(r)
    ensures Decode(Encode(r) + rest) == Ok((r, rest))
  {
    var val := ValueBytes(r.value);
    var kind: Bytes := [if r.value.Some? then 0 else 1];
    var b5 := val + rest;
    var b4 := U32Bytes(|val|) + b5;
    var b3 := r.key + b4;
    var b2 := U32Bytes(|r.key|) + b3;
    var b1 := kind + b2;
    assert Encode(r) + rest == U64Bytes(r.seqno) + b1;
    TakeFront(U64Bytes(r.seqno), b1);
    TakeFront(kind, b2);
    TakeFront(U32Bytes(|r.key|), b3);
    TakeFront(r.key, b4);
    TakeFront(U32Bytes(|val|), b5);
    TakeFront(val, rest);
    U64RoundTrip(r.seqno);
    U32RoundTrip(|r.key|);
    U32RoundTrip(|val|);
  }

  /** What decodes keeps decoding, to the same record, when bytes follow. */
  lemma DecodeExtend(b: Bytes, more: Bytes)
    requires Decode(b).Ok?
    ensures Decode(b + more) == Ok((Decode(b).value.0, Decode(b).value.1 + more))
  {
    var b1 := b[8..];
    var b2 := b1[1..];
    var b3 := b2[4..];
    var b4 := b3[ReadU32(b2[..4])..];
    var b5 := b4[4..];
    TakeExtend(b, 8, more);
    TakeExtend(b1, 1, more);
    TakeExtend(b2, 4, more);
    TakeExtend(b3, ReadU32(b2[..4]), more);
    TakeExtend(b4, 4, more);
    TakeExtend(b5, ReadU32(b4[..4]), more);
  }

  lemma TakeExtend(b: Bytes, n: nat, more: Bytes)
    requires n <= |b|
    ensures Take(b + more, n) == Ok((b[..n], b[n..] + more))
  {
    assert (b + more)[..n] == b[..n] && (b + more)[n..] == b[n..] + more;
  }

  lemma NoPrefixDecodes(whole: Bytes, r: Record, cut: nat)
    requires cut < |whole| && Decode(whole) == Ok((r, []))
    ensures Decode(whole[..cut]) == Err(Corrupt)
  {
    var front, back := whole[..cut], whole[cut..];
    assert whole == front + back;
    if Decode(front).Ok? {
      DecodeExtend(front, back);
    }
  }

  /** No proper prefix of an encoding decodes. */
  lemma DecodeTruncated(r: Record, cut: nat)
    requires Fits(r) && cut < |Encode(r)|
    ensures Decode(Encode(r)[..cut]) == Err(Corrupt)
  {
    hide Decode;
    DecodeEncode(r, []);
    assert Encode(r) + [] == Encode(r);
    NoPrefixDecodes(Encode(r), r, cut);
  }

  // ------------------------------------------------------- runs of encodings

  function EncodeAll(rs: seq<Record>): (b: Bytes) {
    if rs == [] then [] else Encode(rs[0]) + EncodeAll(rs[1..])
  }

  predicate AllFit(rs: seq<Record>) {
    forall r :: r in rs ==> Fits(r)
  }

  /** Parse exactly `n` records. */
  function DecodeN(b: Bytes, n: nat): (r: Result<(seq<Record>, Bytes)>)
    decreases n
  {
    if n == 0 then
      Ok(([], b))
    else
      var (first, b') :- Decode(b);
      AfterN([first], DecodeN(b', n - 1))
  }

  /** Put `rs` in front of the records of a decoded rest. */
  function AfterN(rs: seq<Record>, r: Result<(seq<Record>, Bytes)>): (r': Result<(seq<Record>, Bytes)>)
    ensures rs == [] ==> r' == r
  {
    match r
    case Ok((more, rest)) => assert rs == [] ==> rs + more == more; Ok((rs + more, rest))
    case Err(e) => Err(e)
  }

  lemma AfterAfterN(rs: seq<Record>, first: Record, r: Result<(seq<Record>, Bytes)>)
    ensures AfterN(rs, AfterN([first], r)) == AfterN(rs + [first], r)
  {
    if r.Ok? {
      assert rs + ([first] + r.value.0) == (rs + [first]) + r.value.0;
    }
  }

  lemma DecodeNStep(b: Bytes, first: Record, tail: Bytes, others: seq<Record>, rest: Bytes)
    requires Decode(b) == Ok((first, tail)) && DecodeN(tail, |others|) == Ok((others, rest))
    ensures DecodeN(b, |others| + 1) == Ok(([first] + others, rest))
  {
  }

  lemma {:induction false} DecodeNEncodeAll(rs: seq<Record>, rest: Bytes)
    requires AllFit(rs)
    ensures DecodeN(EncodeAll(rs) + rest, |rs|) == Ok((rs, rest))
  {
    if rs == [] {
      assert EncodeAll(rs) + rest == rest;
    } else {
      var tail := EncodeAll(rs[1..]) + rest;
      assert EncodeAll(rs) + rest == Encode(rs[0]) + tail;
      DecodeEncode(rs[0], tail);
      DecodeNEncodeAll(rs[1..], rest);
      DecodeNStep(Encode(rs[0]) + tail, rs[0], tail, rs[1..], rest);
      assert rs == [rs[0]] + rs[1..];
    }
  }

  /** Put `rs` in front of what the rest of some bytes gave. */
  function After(rs: seq<Record>, r: Result<seq<Record>>): (r': Result<seq<Record>>)
    ensures rs == [] ==> r' == r
  {
    match r
    case Ok(more) => assert rs == [] ==> rs + more == more; Ok(rs + more)
    case Err(e) => Err(e)
  }

  lemma AfterNothing(rs: seq<Record>)
    ensures After(rs, Ok([])) == Ok(rs)
  {
    assert rs + [] == rs;
  }

  lemma AfterStops(rs: seq<Record>, e: Error)
    ensures After(rs, Err(e)) == Err(e)
  {
  }

  lemma AfterAfter(a: seq<Record>, b: seq<Record>, r: Result<seq<Record>>)
    ensures After(a, After(b, r)) == After(a + b, r)
  {
    if r.Ok? {
      assert a + (b + r.value) == (a + b) + r.value;
    }
  }

  /** Parse records until the bytes run out: the body of a data block. */
  function DecodeAll(b: Bytes): (r: Result<seq<Record>>)
    decreases |b|
  {
    if b == [] then
      Ok([])
    else
      var (first, b') :- Decode(b);
      After([first], DecodeAll(b'))
  }

  lemma {:induction false} DecodeAllEncodeAll(rs: seq<Record>)
    requires AllFit(rs)
    ensures DecodeAll(EncodeAll(rs)) == Ok(rs)
  {
    hide Decode, Encode;
    if rs != [] {
      DecodeEncode(rs[0], EncodeAll(rs[1..]));
      DecodeAllEncodeAll(rs[1..]);
      DecodeAllStep(EncodeAll(rs), rs[0], EncodeAll(rs[1..]), rs[1..]);
      assert rs == [rs[0]] + rs[1..];
    }
  }

  lemma DecodeAllStep(b: Bytes, first: Record, tail: Bytes, others: seq<Record>)
    requires Decode(b) == Ok((first, tail)) && DecodeAll(tail) == Ok(others)
    ensures DecodeAll(b) == Ok([first] + others)
  {
    hide Decode;
    assert b != [];
  }

  lemma {:induction false} EncodeAllConcat(a: seq<Record>, b: seq<Record>)
    ensures EncodeAll(a + b) == EncodeAll(a) + EncodeAll(b)
  {
    if a == [] {
      assert a + b == b;
    } else {
      assert (a + b)[1..] == a[1..] + b;
      EncodeAllConcat(a[1..], b);
    }
  }

  lemma EncodeAllEmpty()
    ensures EncodeAll([]) == []
  {
  }

  lemma Associate(a: Bytes, b: Bytes, c: Bytes)
    ensures (a + b) + c == a + (b + c)
  {
  }

  lemma EncodeAllPush(rs: seq<Record>, i: nat)
    requires i < |rs|
    ensures EncodeAll(rs[..i + 1]) == EncodeAll(rs[..i]) + Encode(rs[i])
  {
    EncodeAllConcat(rs[..i], [rs[i]]);
    assert rs[..i + 1] == rs[..i] + [rs[i]];
    assert EncodeAll([rs[i]]) == Encode(rs[i]) + EncodeAll([rs[i]][1..]);
  }

  // -------------------------------------------------------- the source's form

  /** `encode_into`: the fields are appended to a growing buffer. */
  method EncodeInto(r: Record, buf: Bytes) returns (out: Bytes)
    ensures out == buf + Encode(r)
  {
    out := buf + U64Bytes(r.seqno);
    out := out + [if r.value.Some? then 0 else 1];
    out := out + U32Bytes(|r.key|);
    out := out + r.key;
    match r.value {
      case Some(v) =>
        out := out + U32Bytes(|v|);
        out := out + v;
      case None =>
        out := out + U32Bytes(0);
    }
  }

  /** Bounds-checked cursor over a byte slice. */
  class Reader {
    const buf: Bytes
    var pos: nat

    constructor (buf: Bytes, pos: nat)
      ensures this.buf == buf && this.pos == pos
    {
      this.buf := buf;
      this.pos := pos;
    }

    /** Advance over `n` bytes, or fail and stay where it is. */
    method Slice(n: nat) returns (r: Result<Bytes>)
      requires pos <= |buf|
      modifies this
      ensures old(pos) + n <= |buf| ==> r == Ok(buf[old(pos)..old(pos) + n]) && pos == old(pos) + n
      ensures old(pos) + n > |buf| ==> r == Err(Corrupt) && pos == old(pos)
      ensures Take(buf[old(pos)..], n) == if r.Ok? then Ok((r.value, buf[pos..])) else Err(Corrupt)
    {
      var end := pos + n;
      if end <= |buf| {
        r := Ok(buf[pos..end]);
        assert buf[pos..][..n] == buf[pos..end] && buf[pos..][n..] == buf[end..];
        pos := end;
      } else {
        r := Err(Corrupt);
      }
    }
  }

  /** `decode_at`: on success the position moves past the record, on failure it
      does not move. */
  method DecodeAt(buf: Bytes, pos: nat) returns (r: Result<Record>, next: nat)
    requires pos <= |buf|
    ensures next <= |buf|
    ensures match Decode(buf[pos..])
            case Ok((rec, rest)) => r == Ok(rec) && buf[next..] == rest && pos < next
            case Err(e) => r == Err(e) && next == pos
  {
    next := pos;
    var c := new Reader(buf, pos);
    var no := c.Slice(8);
    if no.Err? { return Err(no.error), pos; }
    var kind := c.Slice(1);
    if kind.Err? { return Err(kind.error), pos; }
    var keyLen := c.Slice(4);
    if keyLen.Err? { return Err(keyLen.error), pos; }
    var key := c.Slice(ReadU32(keyLen.value));
    if key.Err? { return Err(key.error), pos; }
    var valLen := c.Slice(4);
    if valLen.Err? { return Err(valLen.error), pos; }
    var val := c.Slice(ReadU32(valLen.value));
    if val.Err? { return Err(val.error), pos; }
    if kind.value[0] == 0 {
      return Ok(Record(key.value, Some(val.value), ReadU64(no.value))), c.pos;
    } else if kind.value[0] == 1 {
      return Ok(Record(key.value, None, ReadU64(no.value))), c.pos;
    } else {
      return Err(Corrupt), pos;
    }
  }
}
