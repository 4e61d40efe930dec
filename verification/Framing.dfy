/** The frame shared by the write-ahead log and the manifest:
    `[crc:4][payload_len:4][payload]`, the checksum covering the payload. */
module Framing {
  import opened Records
  import opened Codec

  const FRAME_HEADER: nat := 8

  function Frame(hash: Bytes -> Word, payload: Bytes): (b: Bytes)
    ensures |b| == FRAME_HEADER + |payload|
  {
    U32Bytes(hash(payload)) + U32Bytes(|payload|) + payload
  }

  /** The four parts of a frame at the front of a buffer. */
  lemma FrameParts(hash: Bytes -> Word, payload: Bytes, rest: Bytes)
    requires |payload| < U32_LIMIT
    ensures var b := Frame(hash, payload) + rest;
            && ReadU32(b[..4]) == hash(payload) && ReadU32(b[4..8]) == |payload|
            && b[FRAME_HEADER..FRAME_HEADER + |payload|] == payload && b[FRAME_HEADER + |payload|..] == rest
  {
    var b := Frame(hash, payload) + rest;
    assert b[..4] == U32Bytes(hash(payload)) && b[4..8] == U32Bytes(|payload|);
    U32RoundTrip(hash(payload));
    U32RoundTrip(|payload|);
  }

  lemma TornPrefix(hash: Bytes -> Word, payload: Bytes, cut: nat)
    requires cut <= |Frame(hash, payload)|
    ensures cut >= FRAME_HEADER ==> Frame(hash, payload)[..cut][4..8] == U32Bytes(|payload|)
  {
  }

  /** A slice of the rest of a buffer is a slice of the buffer. */
  lemma SliceOfRest(b: Bytes, pos: nat, from: nat, to: nat)
    requires from <= to && pos + to <= |b|
    ensures b[pos..][from..to] == b[pos + from..pos + to]
    ensures b[pos..][to..] == b[pos + to..]
  {
  }

  lemma CutInside(a: Bytes, b: Bytes, cut: nat)
    requires cut <= |b|
    ensures (a + b)[..|a| + cut] == a + b[..cut]
  {
  }
}
