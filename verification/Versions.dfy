/** Files of earlier builds, and frames that verify and do not decode. Every log and
    manifest an earlier build wrote replays to what was written, each version under
    its own checksum and framing. */
module Versions {
  import opened Records
  import opened Codec
  import opened Header
  import opened Framing
  import opened Wal
  import opened Manifest

  // -------------------------------------------------------- logs of version two

  /** Version two: counted frames under the first checksum. Any cut replays to the
      batches that lie whole before it, as many as fit. */
  lemma ReplayVersionTwo(cs: Checksums, frames: seq<seq<Record>>, cut: nat) returns (n: nat)
    requires FramesFit(frames) && cut <= |EncodeHeader(WAL_MAGIC, 2) + Frames(cs.isoHdlc, frames)|
    ensures n <= |frames|
    ensures Wal.Replay(cs, (EncodeHeader(WAL_MAGIC, 2) + Frames(cs.isoHdlc, frames))[..cut]) == Ok(Concat(frames[..n]))
    ensures n > 0 ==> HEADER_LEN + |Frames(cs.isoHdlc, frames[..n])| <= cut
    ensures n < |frames| ==> cut < HEADER_LEN + |Frames(cs.isoHdlc, frames[..n + 1])|
  {
    hide ReplayFrames, Frames, EncodeHeader, Classify, Concat;
    var head, body := EncodeHeader(WAL_MAGIC, 2), Frames(cs.isoHdlc, frames);
    if cut < HEADER_LEN {
      n := 0;
      assert (head + body)[..cut] == head[..cut] && frames[..0] == [];
      HeaderCut(cs, 2, cut);
    } else {
      n := WholeFrames(cs.isoHdlc, frames, cut - HEADER_LEN);
      WholeFramesExact(cs.isoHdlc, frames, cut - HEADER_LEN);
      CutInside(head, body, cut - HEADER_LEN);
      Counting(cs, 2, body[..cut - HEADER_LEN]);
      ReplayCut(cs.isoHdlc, frames, cut - HEADER_LEN);
    }
  }

  /** What a version makes of the bytes behind its header. */
  lemma Counting(cs: Checksums, version: nat, rest: Bytes)
    requires 1 <= version <= 3
    ensures Wal.Replay(cs, EncodeHeader(WAL_MAGIC, version) + rest) ==
            ReplayFrames(if version == 3 then cs.castagnoli else cs.isoHdlc, version >= 2, rest)
  {
    hide ReplayFrames, EncodeHeader, Classify;
    ClassifyEncoded(WAL_MAGIC, version, WAL_VERSION, rest);
    assert (EncodeHeader(WAL_MAGIC, version) + rest)[HEADER_LEN..] == rest;
  }

  lemma HeaderCut(cs: Checksums, version: nat, cut: nat)
    requires cut < HEADER_LEN
    ensures Wal.Replay(cs, EncodeHeader(WAL_MAGIC, version)[..cut]) == Ok([]) && Concat([]) == []
  {
    hide ReplayFrames, Classify;
    var b := EncodeHeader(WAL_MAGIC, version)[..cut];
    ClassifyCut(WAL_MAGIC, version, WAL_VERSION, cut);
    assert b[0..] == b;
    ReplayNothing(cs.isoHdlc, false, b);
  }

  // ------------------------------------- logs of version one and without header

  /** One record a frame, with no count in front. */
  function Alone(hash: Bytes -> Word, rs: seq<Record>): (b: Bytes) {
    if rs == [] then [] else Frame(hash, Encode(rs[0])) + Alone(hash, rs[1..])
  }

  predicate AloneFit(rs: seq<Record>) {
    forall r :: r in rs ==> Fits(r) && |Encode(r)| < U32_LIMIT
  }

  lemma AloneDecodes(r: Record)
    requires Fits(r)
    ensures DecodePayload(false, Encode(r)) == Ok([r])
  {
    DecodeEncode(r, []);
    assert Encode(r) + [] == Encode(r);
    NothingDecoded([]);
    DecodeNStep(Encode(r), r, [], [], []);
    assert [r] + [] == [r];
  }

  lemma ReplayAloneWhole(hash: Bytes -> Word, r: Record, rest: Bytes)
    requires Fits(r) && |Encode(r)| < U32_LIMIT
    ensures ReplayFrames(hash, false, Frame(hash, Encode(r)) + rest) == After([r], ReplayFrames(hash, false, rest))
  {
    hide Encode, DecodePayload;
    FrameParts(hash, Encode(r), rest);
    AloneDecodes(r);
  }

  lemma {:induction false} ReplayAlone(hash: Bytes -> Word, rs: seq<Record>, cut: nat) returns (n: nat)
    requires AloneFit(rs) && cut <= |Alone(hash, rs)|
    ensures n <= |rs| && ReplayFrames(hash, false, Alone(hash, rs)[..cut]) == Ok(rs[..n])
    ensures |Alone(hash, rs[..n])| <= cut && (n < |rs| ==> cut < |Alone(hash, rs[..n + 1])|)
    decreases |rs|
  {
    hide ReplayFrames, Frame, Encode;
    n := 0;
    if rs == [] {
      ReplayNothing(hash, false, Alone(hash, rs)[..cut]);
    } else {
      var first, others := Frame(hash, Encode(rs[0])), Alone(hash, rs[1..]);
      assert rs[0] in rs;
      assert forall r :: r in rs[1..] ==> r in rs;
      AloneOne(hash, rs);
      if cut < |first| {
        assert (first + others)[..cut] == first[..cut];
        TornPrefix(hash, Encode(rs[0]), cut);
        ReplayTorn(hash, false, Encode(rs[0]), first[..cut]);
      } else {
        var m := ReplayAlone(hash, rs[1..], cut - |first|);
        assert (first + others)[..cut] == first + others[..cut - |first|];
        ReplayAloneWhole(hash, rs[0], others[..cut - |first|]);
        n := m + 1;
        AlonePush(hash, rs, m);
      }
    }
  }

  lemma AloneOne(hash: Bytes -> Word, rs: seq<Record>)
    requires rs != []
    ensures Alone(hash, rs[..1]) == Frame(hash, Encode(rs[0])) && Alone(hash, rs[..0]) == []
  {
    assert rs[..1][1..] == [] && rs[..1][0] == rs[0];
    assert Alone(hash, rs[..1]) == Frame(hash, Encode(rs[0])) + Alone(hash, rs[..1][1..]);
  }

  lemma AlonePush(hash: Bytes -> Word, rs: seq<Record>, m: nat)
    requires rs != [] && m < |rs|
    ensures rs[..m + 1] == [rs[0]] + rs[1..][..m]
    ensures |Alone(hash, rs[..m + 1])| == |Frame(hash, Encode(rs[0]))| + |Alone(hash, rs[1..][..m])|
    ensures m + 1 < |rs| ==>
              |Alone(hash, rs[..m + 2])| == |Frame(hash, Encode(rs[0]))| + |Alone(hash, rs[1..][..m + 1])|
  {
    hide Frame;
    assert rs[..m + 1][1..] == rs[1..][..m];
    if m + 1 < |rs| {
      assert rs[..m + 2][1..] == rs[1..][..m + 1];
    }
  }

  /** Version one: a record a frame under the first checksum. */
  lemma ReplayVersionOne(cs: Checksums, rs: seq<Record>, cut: nat) returns (n: nat)
    requires AloneFit(rs) && cut <= |EncodeHeader(WAL_MAGIC, 1) + Alone(cs.isoHdlc, rs)|
    ensures n <= |rs|
    ensures Wal.Replay(cs, (EncodeHeader(WAL_MAGIC, 1) + Alone(cs.isoHdlc, rs))[..cut]) == Ok(rs[..n])
    ensures n > 0 ==> HEADER_LEN + |Alone(cs.isoHdlc, rs[..n])| <= cut
    ensures n < |rs| ==> cut < HEADER_LEN + |Alone(cs.isoHdlc, rs[..n + 1])|
  {
    hide ReplayFrames, Alone, EncodeHeader, Classify;
    var head, body := EncodeHeader(WAL_MAGIC, 1), Alone(cs.isoHdlc, rs);
    if cut < HEADER_LEN {
      n := 0;
      assert (head + body)[..cut] == head[..cut] && rs[..0] == [];
      HeaderCut(cs, 1, cut);
    } else {
      n := ReplayAlone(cs.isoHdlc, rs, cut - HEADER_LEN);
      CutInside(head, body, cut - HEADER_LEN);
      Counting(cs, 1, body[..cut - HEADER_LEN]);
    }
  }

  /** A log from before headers: the same frames from the first byte on, as long as
      they do not happen to begin with the magic. */
  lemma ReplayHeaderless(cs: Checksums, rs: seq<Record>, cut: nat) returns (n: nat)
    requires AloneFit(rs) && cut <= |Alone(cs.isoHdlc, rs)|
    requires cut >= HEADER_LEN ==> Alone(cs.isoHdlc, rs)[..4] != [0x4C, 0x53, 0x4D, 0x57]
    ensures n <= |rs| && Wal.Replay(cs, Alone(cs.isoHdlc, rs)[..cut]) == Ok(rs[..n])
    ensures |Alone(cs.isoHdlc, rs[..n])| <= cut && (n < |rs| ==> cut < |Alone(cs.isoHdlc, rs[..n + 1])|)
  {
    hide ReplayFrames, Alone;
    n := ReplayAlone(cs.isoHdlc, rs, cut);
    var b := Alone(cs.isoHdlc, rs)[..cut];
    if cut == 0 {
      ReplayNothing(cs.isoHdlc, false, b);
    } else {
      assert b[0..] == b;
      assert cut >= HEADER_LEN ==> b[..4] == Alone(cs.isoHdlc, rs)[..4];
    }
  }

  /** What an append adds to a log of each kind: the frame that kind replays. */
  lemma AppendedFrame(cs: Checksums, records: seq<Record>)
    requires records != []
    ensures forall kind :: kind in [Versioned(2), Versioned(3)] ==> Counted(kind)
    ensures !Counted(Versioned(1)) && !Counted(Legacy)
    ensures Frame(WalChecksum(cs, Versioned(3)), PayloadAs(true, records)) == Frame(cs.castagnoli, Payload(records))
    ensures Frame(WalChecksum(cs, Versioned(2)), PayloadAs(true, records)) == Frame(cs.isoHdlc, Payload(records))
    ensures |records| == 1 ==>
              && Frame(WalChecksum(cs, Versioned(1)), PayloadAs(false, records)) == Frame(cs.isoHdlc, Encode(records[0]))
              && Frame(WalChecksum(cs, Legacy), PayloadAs(false, records)) == Frame(cs.isoHdlc, Encode(records[0]))
  {
    hide Frame, Encode;
    if |records| == 1 {
      assert records[1..] == [] && EncodeAll(records) == Encode(records[0]) + EncodeAll(records[1..]);
      assert PayloadAs(false, records) == Encode(records[0]);
    }
  }

  // ------------------------------------------------ frames that do not decode

  /** Bytes behind the announced records, or too few for them, make a payload
      corrupt. */
  lemma PayloadStrict(batch: seq<Record>, extra: Bytes, cut: nat)
    requires BatchFits(batch)
    ensures extra != [] ==> DecodePayload(true, Payload(batch) + extra) == Err(Corrupt)
    ensures cut < |Payload(batch)| ==> DecodePayload(true, Payload(batch)[..cut]) == Err(Corrupt)
  {
    hide DecodeN, EncodeAll, ReadU32;
    U32RoundTrip(|batch|);
    var p := Payload(batch) + extra;
    assert p[..4] == U32Bytes(|batch|) && p[4..] == EncodeAll(batch) + extra;
    DecodeNEncodeAll(batch, extra);
    if 4 <= cut < |Payload(batch)| {
      var q := Payload(batch)[..cut];
      assert q[..4] == U32Bytes(|batch|) && q[4..] == EncodeAll(batch)[..cut - 4];
      DecodeNCut(batch, cut - 4);
    }
  }

  lemma {:induction false} DecodeNCut(rs: seq<Record>, cut: nat)
    requires AllFit(rs) && cut < |EncodeAll(rs)|
    ensures DecodeN(EncodeAll(rs)[..cut], |rs|) == Err(Corrupt)
    decreases |rs|
  {
    hide Decode, Encode;
    var first, others := Encode(rs[0]), EncodeAll(rs[1..]);
    assert rs[0] in rs;
    if cut < |first| {
      assert (first + others)[..cut] == first[..cut];
      DecodeTruncated(rs[0], cut);
    } else {
      assert (first + others)[..cut] == first + others[..cut - |first|];
      DecodeEncode(rs[0], others[..cut - |first|]);
      assert forall r :: r in rs[1..] ==> r in rs;
      DecodeNCut(rs[1..], cut - |first|);
    }
  }

  /** A frame whose checksum holds and whose payload does not decode is no torn tail:
      the log is refused. */
  lemma CorruptFrameRefused(cs: Checksums, frames: seq<seq<Record>>, payload: Bytes, rest: Bytes)
    requires FramesFit(frames) && |payload| < U32_LIMIT && DecodePayload(true, payload) == Err(Corrupt)
    ensures Wal.Replay(cs, LogFile(cs, frames) + (Frame(cs.castagnoli, payload) + rest)) == Err(Corrupt)
  {
    hide Wal.Replay, LogFile, DecodePayload, Frame;
    ReplayLogThen(cs, frames, Frame(cs.castagnoli, payload) + rest);
    RefusedFrame(cs.castagnoli, payload, rest);
    AfterStops(Concat(frames), Corrupt);
  }

  lemma RefusedFrame(hash: Bytes -> Word, payload: Bytes, rest: Bytes)
    requires |payload| < U32_LIMIT && DecodePayload(true, payload) == Err(Corrupt)
    ensures ReplayFrames(hash, true, Frame(hash, payload) + rest) == Err(Corrupt)
  {
    hide DecodePayload;
    FrameParts(hash, payload, rest);
  }

  // ----------------------------------------------------------------- manifests

  /** Version one: the same edits under the first checksum. Any cut behind the
      header. */
  lemma ManifestVersionOne(cs: Checksums, edits: seq<VersionEdit>, cut: nat)
    requires EditsFit(edits) && cut <= EDIT_LEN * |edits|
    ensures Manifest.Replay(cs, EncodeHeader(MANIFEST_MAGIC, 1) + EditFrames(cs.isoHdlc, edits)[..cut]) ==
            if 0 < cut < EDIT_LEN then Err(Corrupt) else Ok(Fold(DEFAULT, edits[..cut / EDIT_LEN]))
  {
    hide ReplayEdits, Classify, EncodeHeader, EditFrames, Fold;
    var head, kept := EncodeHeader(MANIFEST_MAGIC, 1), EditFrames(cs.isoHdlc, edits)[..cut];
    ClassifyEncoded(MANIFEST_MAGIC, 1, MANIFEST_VERSION, kept);
    assert (head + kept)[HEADER_LEN..] == kept;
    ReplayCutEdits(cs.isoHdlc, DEFAULT, 0, edits, cut);
  }

  /** A manifest from before headers. */
  lemma ManifestHeaderless(cs: Checksums, edits: seq<VersionEdit>, cut: nat)
    requires EditsFit(edits) && cut <= EDIT_LEN * |edits|
    requires cut >= HEADER_LEN ==> EditFrames(cs.isoHdlc, edits)[..4] != [0x4C, 0x53, 0x4D, 0x4D]
    ensures Manifest.Replay(cs, EditFrames(cs.isoHdlc, edits)[..cut]) ==
            if 0 < cut < EDIT_LEN then Err(Corrupt) else Ok(Fold(DEFAULT, edits[..cut / EDIT_LEN]))
  {
    hide ReplayEdits, EditFrames;
    var b := EditFrames(cs.isoHdlc, edits)[..cut];
    ReplayCutEdits(cs.isoHdlc, DEFAULT, 0, edits, cut);
    if cut == 0 {
      assert edits[..0] == [];
      FoldNothing(DEFAULT);
    } else {
      assert b[0..] == b;
      assert cut >= HEADER_LEN ==> b[..4] == EditFrames(cs.isoHdlc, edits)[..4];
    }
  }

  /** Behind whole edits, replay goes on with whatever is there. */
  lemma {:induction false} EditsThen(hash: Bytes -> Word, s: ManifestState, n: nat, edits: seq<VersionEdit>, tail: Bytes)
    requires EditsFit(edits)
    ensures ReplayEdits(hash, s, n, EditFrames(hash, edits) + tail) ==
            ReplayEdits(hash, Fold(s, edits), n + |edits|, tail)
    decreases |edits|
  {
    hide ReplayEdits, EditFrame;
    if edits == [] {
      assert EditFrames(hash, edits) + tail == tail;
    } else {
      assert edits[0] in edits;
      assert forall e :: e in edits[1..] ==> e in edits;
      Associate(EditFrame(hash, edits[0]), EditFrames(hash, edits[1..]), tail);
      ReplayOneEdit(hash, s, n, edits[0], EditFrames(hash, edits[1..]) + tail);
      EditsThen(hash, Apply(s, edits[0]), n + 1, edits[1..], tail);
    }
  }

  /** Behind the edits of a manifest: a tail that does not verify is ignored, and a
      frame that verifies and is no edit makes the manifest refused. */
  lemma ManifestTail(cs: Checksums, edits: seq<VersionEdit>, tail: Bytes)
    requires edits != [] && EditsFit(edits)
    ensures var r := Manifest.Replay(cs, ManifestFile(cs, edits) + tail);
            && (!Verified(cs.castagnoli, tail) ==> r == Ok(Fold(DEFAULT, edits)))
            && (Verified(cs.castagnoli, tail) && NoEdit(tail[8..8 + ReadU32(tail[4..8])]) ==> r == Err(Corrupt))
  {
    hide ReplayEdits, EditFrames, EncodeHeader, Classify, Verified, Fold;
    var head, body := EncodeHeader(MANIFEST_MAGIC, MANIFEST_VERSION), EditFrames(cs.castagnoli, edits);
    Associate(head, body, tail);
    ClassifyEncoded(MANIFEST_MAGIC, MANIFEST_VERSION, MANIFEST_VERSION, body + tail);
    assert (head + (body + tail))[HEADER_LEN..] == body + tail;
    EditsThen(cs.castagnoli, DEFAULT, 0, edits, tail);
    EditTail(cs.castagnoli, Fold(DEFAULT, edits), |edits|, tail);
  }

  /** Not nine bytes, or an unknown tag. */
  predicate NoEdit(payload: Bytes) {
    |payload| != 9 || payload[0] > 3
  }

  lemma EditTail(hash: Bytes -> Word, s: ManifestState, n: nat, tail: Bytes)
    ensures !Verified(hash, tail) ==> ReplayEdits(hash, s, n, tail) == Ok((s, n))
    ensures Verified(hash, tail) && NoEdit(tail[8..8 + ReadU32(tail[4..8])]) ==>
              ReplayEdits(hash, s, n, tail) == Err(Corrupt)
  {
  }
}
