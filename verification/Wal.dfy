/** The write-ahead log: one checksummed frame per batch,
    `[crc:4][len:4][count:4][records]`, and a replay that stops at the first
    frame that is not whole. */
module Wal {
  import opened Records
  import opened Codec
  import opened Header
  import opened Framing

  // ------------------------------------------------------------------ writing

  function Payload(batch: seq<Record>): (b: Bytes) {
    U32Bytes(|batch|) + EncodeAll(batch)
  }

  /** A batch whose lengths fit the 32-bit fields of its frame. */
  predicate BatchFits(batch: seq<Record>) {
    batch != [] && |batch| < U32_LIMIT && AllFit(batch) && |Payload(batch)| < U32_LIMIT
  }

  predicate FramesFit(frames: seq<seq<Record>>) {
    forall f :: f in frames ==> BatchFits(f)
  }

  function Frames(hash: Bytes -> Word, frames: seq<seq<Record>>): (b: Bytes) {
    if frames == [] then [] else Frame(hash, Payload(frames[0])) + Frames(hash, frames[1..])
  }

  /** The file this build writes for a list of batches. */
  function LogFile(cs: Checksums, frames: seq<seq<Record>>): (b: Bytes) {
    EncodeHeader(WAL_MAGIC, WAL_VERSION) + Frames(cs.castagnoli, frames)
  }

  function Concat(frames: seq<seq<Record>>): (rs: seq<Record>) {
    if frames == [] then [] else frames[0] + Concat(frames[1..])
  }

  // ----------------------------------------------------------------- replaying

  /** Decode one verified payload, all of it or an error. */
  function DecodePayload(counted: bool, payload: Bytes): (r: Result<seq<Record>>) {
    if counted && |payload| < 4 then
      Err(Corrupt)
    else
      var count := if counted then ReadU32(payload[..4]) else 1;
      var (batch, rest) :- DecodeN(if counted then payload[4..] else payload, count);
      if rest != [] then Err(Corrupt) else Ok(batch)
  }

  /** Replay frames off the front of `b`. */
  function ReplayFrames(hash: Bytes -> Word, counted: bool, b: Bytes): (r: Result<seq<Record>>)
    decreases |b|
  {
    if |b| < FRAME_HEADER then
      Ok([])
    else
      var len := ReadU32(b[4..8]);
      if FRAME_HEADER + len > |b| then
        Ok([])
      else
        var payload := b[FRAME_HEADER..FRAME_HEADER + len];
        if hash(payload) != ReadU32(b[..4]) then
          Ok([])
        else
          var batch :- DecodePayload(counted, payload);
          After(batch, ReplayFrames(hash, counted, b[FRAME_HEADER + len..]))
  }

  predicate Counted(kind: Kind) {
    !(kind.Legacy? || (kind.Versioned? && kind.version == 1))
  }

  function Replay(cs: Checksums, b: Bytes): (r: Result<seq<Record>>) {
    var kind :- Classify(b, WAL_MAGIC, WAL_VERSION);
    if kind.Empty? then
      Ok([])
    else
      ReplayFrames(WalChecksum(cs, kind), Counted(kind), b[FramesStart(kind)..])
  }

  // --------------------------------------------------------------- truncation

  /** How many of the frames lie whole within the first `cut` bytes. */
  function WholeFrames(hash: Bytes -> Word, frames: seq<seq<Record>>, cut: nat): (n: nat)
    ensures n <= |frames|
  {
    if frames == [] || cut < |Frame(hash, Payload(frames[0]))| then
      0
    else
      1 + WholeFrames(hash, frames[1..], cut - |Frame(hash, Payload(frames[0]))|)
  }

  /** The count is the largest number of leading frames that fit. */
  lemma {:induction false} WholeFramesExact(hash: Bytes -> Word, frames: seq<seq<Record>>, cut: nat)
    ensures var n := WholeFrames(hash, frames, cut);
            |Frames(hash, frames[..n])| <= cut && (n < |frames| ==> cut < |Frames(hash, frames[..n + 1])|)
  {
    hide Frame, Payload;
    if frames != [] {
      var first := Frame(hash, Payload(frames[0]));
      var n := WholeFrames(hash, frames, cut);
      if cut < |first| {
        assert frames[..1] == [frames[0]] && Frames(hash, frames[..1]) == first + Frames(hash, frames[..1][1..]);
      } else {
        WholeFramesExact(hash, frames[1..], cut - |first|);
        assert frames[..n][1..] == frames[1..][..n - 1];
        if n < |frames| {
          assert frames[..n + 1][1..] == frames[1..][..n];
        }
      }
    }
  }

  lemma PayloadDecodes(batch: seq<Record>)
    requires BatchFits(batch)
    ensures DecodePayload(true, Payload(batch)) == Ok(batch)
  {
    var p := Payload(batch);
    U32RoundTrip(|batch|);
    assert p[..4] == U32Bytes(|batch|) && p[4..] == EncodeAll(batch) == EncodeAll(batch) + [];
    DecodeNEncodeAll(batch, []);
  }

  /** A whole frame contributes its batch and replay goes on behind it. */
  lemma ReplayWhole(hash: Bytes -> Word, batch: seq<Record>, rest: Bytes)
    requires BatchFits(batch)
    ensures ReplayFrames(hash, true, Frame(hash, Payload(batch)) + rest) == After(batch, ReplayFrames(hash, true, rest))
  {
    FrameParts(hash, Payload(batch), rest);
    PayloadDecodes(batch);
  }

  lemma ReplayNothing(hash: Bytes -> Word, counted: bool, b: Bytes)
    requires |b| < FRAME_HEADER
    ensures ReplayFrames(hash, counted, b) == Ok([])
  {
  }

  /** A frame that is not whole contributes nothing and ends the replay. The
      length check alone decides this; no property of the checksum is used. */
  lemma ReplayTorn(hash: Bytes -> Word, counted: bool, payload: Bytes, torn: Bytes)
    requires |payload| < U32_LIMIT
    requires |torn| < |Frame(hash, payload)|
    requires |torn| >= FRAME_HEADER ==> torn[4..8] == U32Bytes(|payload|)
    ensures ReplayFrames(hash, counted, torn) == Ok([])
  {
    U32RoundTrip(|payload|);
  }

  lemma BatchPayload(batch: seq<Record>)
    requires BatchFits(batch)
    ensures 4 < |Payload(batch)| < U32_LIMIT
  {
    assert EncodeAll(batch) == Encode(batch[0]) + EncodeAll(batch[1..]);
  }

  /** Replay of any cut of a list of frames is the batches that fit whole. */
  lemma {:induction false} ReplayCut(hash: Bytes -> Word, frames: seq<seq<Record>>, cut: nat)
    requires FramesFit(frames) && cut <= |Frames(hash, frames)|
    ensures ReplayFrames(hash, true, Frames(hash, frames)[..cut]) ==
            Ok(Concat(frames[..WholeFrames(hash, frames, cut)]))
  {
    hide ReplayFrames, Frame, Payload;
    if frames == [] {
      ReplayNothing(hash, true, Frames(hash, frames)[..cut]);
    } else {
      var payload := Payload(frames[0]);
      var first, others := Frame(hash, payload), Frames(hash, frames[1..]);
      assert frames[0] in frames;
      assert forall f :: f in frames[1..] ==> f in frames;
      if cut < |first| {
        assert (first + others)[..cut] == first[..cut];
        TornPrefix(hash, payload, cut);
        ReplayTorn(hash, true, payload, first[..cut]);
      } else {
        ReplayCut(hash, frames[1..], cut - |first|);
        assert (first + others)[..cut] == first + others[..cut - |first|];
        ReplayWhole(hash, frames[0], others[..cut - |first|]);
        var n := WholeFrames(hash, frames, cut);
        assert frames[..n][1..] == frames[1..][..n - 1];
      }
    }
  }

  /** Replay of any cut of a log file: exactly the batches whose frames lie
      whole before the cut, as many as fit, and never a part of one. */
  lemma ReplayTruncated(cs: Checksums, frames: seq<seq<Record>>, cut: nat)
    requires FramesFit(frames) && cut <= |LogFile(cs, frames)|
    ensures var n := if cut < HEADER_LEN then 0 else WholeFrames(cs.castagnoli, frames, cut - HEADER_LEN);
            && Replay(cs, LogFile(cs, frames)[..cut]) == Ok(Concat(frames[..n]))
            && (n > 0 ==> |LogFile(cs, frames[..n])| <= cut)
            && (n < |frames| ==> cut < |LogFile(cs, frames[..n + 1])|)
  {
    hide ReplayFrames, WholeFrames, Replay, Frames, EncodeHeader;
    if cut < HEADER_LEN {
      ReplayInHeader(cs, frames, cut);
      assert frames[..0] == [];
    } else {
      WholeFramesExact(cs.castagnoli, frames, cut - HEADER_LEN);
      ReplayBehindHeader(cs, frames, cut - HEADER_LEN);
    }
  }

  lemma ReplayInHeader(cs: Checksums, frames: seq<seq<Record>>, cut: nat)
    requires cut < HEADER_LEN
    ensures Replay(cs, LogFile(cs, frames)[..cut]) == Ok([])
  {
    hide ReplayFrames, Frames, Classify, EncodeHeader;
    var head, body := EncodeHeader(WAL_MAGIC, WAL_VERSION), Frames(cs.castagnoli, frames);
    assert (head + body)[..cut] == head[..cut];
    ClassifyCut(WAL_MAGIC, WAL_VERSION, WAL_VERSION, cut);
    assert head[..cut][0..] == head[..cut];
    ReplayNothing(cs.isoHdlc, false, head[..cut]);
  }

  lemma ReplayBehindHeader(cs: Checksums, frames: seq<seq<Record>>, cut: nat)
    requires FramesFit(frames) && cut <= |Frames(cs.castagnoli, frames)|
    ensures Replay(cs, LogFile(cs, frames)[..HEADER_LEN + cut]) ==
            Ok(Concat(frames[..WholeFrames(cs.castagnoli, frames, cut)]))
  {
    hide ReplayFrames, WholeFrames, Frames, Classify, EncodeHeader, Concat;
    var head, body := EncodeHeader(WAL_MAGIC, WAL_VERSION), Frames(cs.castagnoli, frames);
    CutInside(head, body, cut);
    ClassifyEncoded(WAL_MAGIC, WAL_VERSION, WAL_VERSION, body[..cut]);
    assert (head + body[..cut])[HEADER_LEN..] == body[..cut];
    ReplayCut(cs.castagnoli, frames, cut);
  }

  // ------------------------------------------------------------ crash images

  lemma {:induction false} FramesConcat(hash: Bytes -> Word, a: seq<seq<Record>>, b: seq<seq<Record>>)
    ensures Frames(hash, a + b) == Frames(hash, a) + Frames(hash, b)
  {
    if a == [] {
      assert a + b == b;
    } else {
      assert (a + b)[1..] == a[1..] + b;
      FramesConcat(hash, a[1..], b);
      var first := Frame(hash, Payload(a[0]));
      assert (first + Frames(hash, a[1..])) + Frames(hash, b) == first + (Frames(hash, a[1..]) + Frames(hash, b));
    }
  }

  lemma {:induction false} ConcatConcat(a: seq<seq<Record>>, b: seq<seq<Record>>)
    ensures Concat(a + b) == Concat(a) + Concat(b)
  {
    if a == [] {
      assert a + b == b;
    } else {
      assert (a + b)[1..] == a[1..] + b;
      ConcatConcat(a[1..], b);
    }
  }

  lemma FramesOne(hash: Bytes -> Word, batch: seq<Record>)
    ensures Frames(hash, [batch]) == Frame(hash, Payload(batch)) && Concat([batch]) == batch
  {
    assert [batch][1..] == [];
    assert Frames(hash, [batch][1..]) == [] && Concat([batch][1..]) == [];
  }

  lemma LogAppend(cs: Checksums, frames: seq<seq<Record>>, batch: seq<Record>)
    ensures LogFile(cs, frames + [batch]) == LogFile(cs, frames) + Frame(cs.castagnoli, Payload(batch))
  {
    FramesConcat(cs.castagnoli, frames, [batch]);
    FramesOne(cs.castagnoli, batch);
  }

  /** A crash `cut` bytes into the append of a batch: replay shows every earlier
      batch, and the interrupted one only if all of it is there. */
  lemma ReplayInFlight(cs: Checksums, frames: seq<seq<Record>>, batch: seq<Record>, cut: nat)
    requires FramesFit(frames) && BatchFits(batch)
    requires cut <= |Frame(cs.castagnoli, Payload(batch))|
    ensures Replay(cs, LogFile(cs, frames) + Frame(cs.castagnoli, Payload(batch))[..cut]) ==
            Ok(Concat(frames) + if cut == |Frame(cs.castagnoli, Payload(batch))| then batch else [])
  {
    hide Replay, Frame, Payload, BatchFits;
    var hash, frame := cs.castagnoli, Frame(cs.castagnoli, Payload(batch));
    var all := frames + [batch];
    var at := |LogFile(cs, frames)| + cut;
    LogAppend(cs, frames, batch);
    CutInside(LogFile(cs, frames), frame, cut);
    ReplayTruncated(cs, all, at);
    WholePrefix(hash, frames, batch, cut);
    assert all[..|frames|] == frames && all[..|frames| + 1] == all;
    ConcatConcat(frames, [batch]);
    FramesOne(hash, batch);
    assert Concat(frames) + [] == Concat(frames);
  }

  lemma {:induction false} WholePrefix(hash: Bytes -> Word, frames: seq<seq<Record>>, batch: seq<Record>, cut: nat)
    requires cut <= |Frame(hash, Payload(batch))|
    ensures WholeFrames(hash, frames + [batch], |Frames(hash, frames)| + cut) ==
            |frames| + if cut == |Frame(hash, Payload(batch))| then 1 else 0
  {
    hide Frame, Payload;
    var all := frames + [batch];
    if frames == [] {
      assert all[0] == batch && all[1..] == [];
    } else {
      assert all[0] == frames[0] && all[1..] == frames[1..] + [batch];
      WholePrefix(hash, frames[1..], batch, cut);
    }
  }

  // ------------------------------------------------------------- torn tails

  /** The frame at the front of `b` is whole and its checksum accepts it. */
  predicate Verified(hash: Bytes -> Word, b: Bytes) {
    && |b| >= FRAME_HEADER
    && var len := ReadU32(b[4..8]);
    && FRAME_HEADER + len <= |b| && hash(b[FRAME_HEADER..FRAME_HEADER + len]) == ReadU32(b[..4])
  }

  lemma ReplayUnverified(hash: Bytes -> Word, counted: bool, b: Bytes)
    requires !Verified(hash, b)
    ensures ReplayFrames(hash, counted, b) == Ok([])
  {
  }

  /** A payload of more than a count never decodes to nothing. */
  lemma ReplayVerified(hash: Bytes -> Word, b: Bytes)
    requires Verified(hash, b) && ReadU32(b[4..8]) != 4
    ensures ReplayFrames(hash, true, b) != Ok([])
  {
    var len := ReadU32(b[4..8]);
    var payload := b[FRAME_HEADER..FRAME_HEADER + len];
    var batch := DecodePayload(true, payload);
    assert |payload| == len;
    assert batch.Ok? ==> batch.value != [] by {
      if len > 4 {
        NothingDecoded(payload[4..]);
      }
    }
  }

  lemma NothingDecoded(b: Bytes)
    ensures DecodeN(b, 0) == Ok(([], b))
  {
  }

  /** Behind whole frames, replay goes on with whatever is there. */
  lemma {:induction false} ReplayThen(hash: Bytes -> Word, frames: seq<seq<Record>>, tail: Bytes)
    requires FramesFit(frames)
    ensures ReplayFrames(hash, true, Frames(hash, frames) + tail) == After(Concat(frames), ReplayFrames(hash, true, tail))
  {
    hide ReplayFrames, Frame, Payload, BatchFits;
    if frames == [] {
      assert Frames(hash, frames) + tail == tail;
      AfterAll(ReplayFrames(hash, true, tail));
    } else {
      assert frames[0] in frames;
      assert forall f :: f in frames[1..] ==> f in frames;
      ReplayThen(hash, frames[1..], tail);
      var first, others := Frame(hash, Payload(frames[0])), Frames(hash, frames[1..]);
      Associate(first, others, tail);
      ReplayWhole(hash, frames[0], others + tail);
      AfterAfter(frames[0], Concat(frames[1..]), ReplayFrames(hash, true, tail));
    }
  }

  lemma AfterAll(r: Result<seq<Record>>)
    ensures After([], r) == r
  {
    assert r.Ok? ==> [] + r.value == r.value;
  }

  lemma ReplayLogThen(cs: Checksums, frames: seq<seq<Record>>, tail: Bytes)
    requires FramesFit(frames)
    ensures Replay(cs, LogFile(cs, frames) + tail) == After(Concat(frames), ReplayFrames(cs.castagnoli, true, tail))
  {
    hide ReplayFrames, Frames, EncodeHeader, Classify;
    var head, body := EncodeHeader(WAL_MAGIC, WAL_VERSION), Frames(cs.castagnoli, frames) + tail;
    Associate(head, Frames(cs.castagnoli, frames), tail);
    ClassifyEncoded(WAL_MAGIC, WAL_VERSION, WAL_VERSION, body);
    assert (head + body)[HEADER_LEN..] == body;
    ReplayThen(cs.castagnoli, frames, tail);
  }

  /** Nothing behind the last whole frame is replayed, however it got there,
      exactly when what is there does not begin with a frame that verifies. (A
      frame of an empty batch, four bytes long, is never written.) */
  lemma TailIsLost(cs: Checksums, frames: seq<seq<Record>>, tail: Bytes)
    requires FramesFit(frames)
    ensures !Verified(cs.castagnoli, tail) ==> Replay(cs, LogFile(cs, frames) + tail) == Ok(Concat(frames))
    ensures Verified(cs.castagnoli, tail) && ReadU32(tail[4..8]) != 4 ==>
              Replay(cs, LogFile(cs, frames) + tail) != Ok(Concat(frames))
  {
    hide ReplayFrames, Replay, LogFile;
    ReplayLogThen(cs, frames, tail);
    if !Verified(cs.castagnoli, tail) {
      ReplayUnverified(cs.castagnoli, true, tail);
      AfterNothing(Concat(frames));
    } else if |tail| >= 8 && ReadU32(tail[4..8]) != 4 {
      ReplayVerified(cs.castagnoli, tail);
      AfterSame(Concat(frames), ReplayFrames(cs.castagnoli, true, tail));
    }
  }

  lemma AfterSame(rs: seq<Record>, r: Result<seq<Record>>)
    ensures After(rs, r) == Ok(rs) ==> r == Ok([])
  {
    assert r.Ok? ==> |rs + r.value| == |rs| + |r.value|;
  }

  /** The bytes behind a torn frame complete it, and its checksum accepts them. */
  predicate Completed(hash: Bytes -> Word, payload: Bytes, b: Bytes) {
    |b| >= FRAME_HEADER + |payload| && hash(b[FRAME_HEADER..FRAME_HEADER + |payload|]) == hash(payload)
  }

  /** Opening for append does not remove a torn tail. Behind a frame torn in its
      payload, nothing that is appended is replayed, exactly when it does not
      happen to complete that frame under the same checksum. */
  lemma AppendBehindTornTailIsLost(cs: Checksums, frames: seq<seq<Record>>, torn: seq<Record>, cut: nat, more: Bytes)
    requires FramesFit(frames) && BatchFits(torn)
    requires FRAME_HEADER <= cut < |Frame(cs.castagnoli, Payload(torn))|
    ensures Replay(cs, LogFile(cs, frames) + (Frame(cs.castagnoli, Payload(torn))[..cut] + more)) == Ok(Concat(frames))
            <==> !Completed(cs.castagnoli, Payload(torn), Frame(cs.castagnoli, Payload(torn))[..cut] + more)
  {
    hide Payload, BatchFits, Frame, Replay, Verified, Completed, LogFile;
    BatchPayload(torn);
    TornHead(cs.castagnoli, Payload(torn), cut, more);
    TailIsLost(cs, frames, Frame(cs.castagnoli, Payload(torn))[..cut] + more);
  }

  /** A frame torn behind its header still says what it would have been. */
  lemma TornHead(hash: Bytes -> Word, payload: Bytes, cut: nat, more: Bytes)
    requires |payload| < U32_LIMIT && FRAME_HEADER <= cut < |Frame(hash, payload)|
    ensures var tail := Frame(hash, payload)[..cut] + more;
            && |tail| >= 8 && ReadU32(tail[..4]) == hash(payload) && ReadU32(tail[4..8]) == |payload|
            && (Verified(hash, tail) <==> Completed(hash, payload, tail))
  {
    hide ReadU32;
    var frame := Frame(hash, payload);
    var tail := frame[..cut] + more;
    FrameParts(hash, payload, []);
    assert frame + [] == frame;
    assert tail[..4] == frame[..4];
    assert tail[4..8] == frame[4..8];
  }

  /** The tail an interrupted append leaves does not verify. */
  lemma TornUnverified(hash: Bytes -> Word, payload: Bytes, cut: nat)
    requires |payload| < U32_LIMIT && cut < |Frame(hash, payload)|
    ensures !Verified(hash, Frame(hash, payload)[..cut])
  {
    if cut >= FRAME_HEADER {
      TornHead(hash, payload, cut, []);
      assert Frame(hash, payload)[..cut] + [] == Frame(hash, payload)[..cut];
    }
  }

  /** The header itself torn, and anything appended behind it. A magic cut short
      makes the file one from before headers; a magic that is whole turns the
      bytes behind it into a version, which may be one this build refuses. In no
      case is a frame replayed unless the bytes at the place replay looks verify. */
  lemma HeaderTorn(cs: Checksums, cut: nat, more: Bytes)
    requires 0 < cut < HEADER_LEN
    ensures Classify(EncodeHeader(WAL_MAGIC, WAL_VERSION)[..cut], WAL_MAGIC, WAL_VERSION) == Ok(Legacy)
    ensures Replay(cs, EncodeHeader(WAL_MAGIC, WAL_VERSION)[..cut]) == Ok([])
    ensures var b := EncodeHeader(WAL_MAGIC, WAL_VERSION)[..cut] + more;
            if |b| < HEADER_LEN || b[..4] != WAL_MAGIC then
              !Verified(cs.isoHdlc, b) ==> Replay(cs, b) == Ok([])
            else
              var version := b[4] as nat + 0x100 * b[5] as nat;
              if version > WAL_VERSION then Replay(cs, b) == Err(BadFormat)
              else !Verified(WalChecksum(cs, Versioned(version)), b[HEADER_LEN..]) ==> Replay(cs, b) == Ok([])
    ensures cut >= 6 && cut + |more| >= HEADER_LEN ==>
              var b := EncodeHeader(WAL_MAGIC, WAL_VERSION)[..cut] + more;
              b[..4] == WAL_MAGIC && b[4] as nat + 0x100 * b[5] as nat == WAL_VERSION
  {
    hide ReplayFrames, Verified, EncodeHeader;
    var head := EncodeHeader(WAL_MAGIC, WAL_VERSION)[..cut];
    var b := head + more;
    ClassifyCut(WAL_MAGIC, WAL_VERSION, WAL_VERSION, cut);
    ReplayNothing(cs.isoHdlc, false, head);
    assert head[0..] == head && b[0..] == b;
    if |b| < HEADER_LEN || b[..4] != WAL_MAGIC {
      if !Verified(cs.isoHdlc, b) {
        ReplayUnverified(cs.isoHdlc, false, b);
      }
    } else {
      var version := b[4] as nat + 0x100 * b[5] as nat;
      var kind := Versioned(version);
      if version <= WAL_VERSION && !Verified(WalChecksum(cs, kind), b[HEADER_LEN..]) {
        ReplayUnverified(WalChecksum(cs, kind), Counted(kind), b[HEADER_LEN..]);
      }
    }
    if cut >= 6 && |b| >= HEADER_LEN {
      HeaderFront(b, cut);
    }
  }

  lemma HeaderFront(b: Bytes, cut: nat)
    requires 6 <= cut <= |b| && cut < HEADER_LEN <= |b| && b[..cut] == EncodeHeader(WAL_MAGIC, WAL_VERSION)[..cut]
    ensures b[..4] == WAL_MAGIC && b[4] as nat + 0x100 * b[5] as nat == WAL_VERSION
  {
    var head := EncodeHeader(WAL_MAGIC, WAL_VERSION);
    assert b[..4] == b[..cut][..4] == head[..cut][..4] == head[..4];
    assert b[4] == b[..cut][4] == head[4];
    assert b[5] == b[..cut][5] == head[5];
  }

  // -------------------------------------------------------- the source's form

  /** One turn of the replay loop: `Some` batch and the end of its frame, or
      `None` when replay stops here. */
  method NextFrame(hash: Bytes -> Word, counted: bool, b: Bytes, pos: nat)
    returns (r: Result<Option<seq<Record>>>, end: nat)
    requires pos + FRAME_HEADER <= |b|
    ensures pos < end
    ensures r.Ok? && r.value.Some? ==> end <= |b|
    ensures ReplayFrames(hash, counted, b[pos..]) ==
            match r
            case Ok(Some(batch)) => After(batch, ReplayFrames(hash, counted, b[end..]))
            case Ok(None) => Ok([])
            case Err(e) => Err(e)
  {
    hide DecodePayload, ReadU32;
    ghost var rest := b[pos..];
    assert rest[..4] == rest[0..4];
    var crc := ReadU32(b[pos..pos + 4]);
    var len := ReadU32(b[pos + 4..pos + 8]);
    SliceOfRest(b, pos, 0, 4);
    SliceOfRest(b, pos, 4, 8);
    var start := pos + FRAME_HEADER;
    end := start + len;
    if end > |b| { return Ok(None), end; }
    var payload := b[start..end];
    SliceOfRest(b, pos, FRAME_HEADER, FRAME_HEADER + len);
    if hash(payload) != crc { return Ok(None), end; }
    var batch := ReadPayload(counted, payload);
    if batch.Err? { return Err(batch.error), end; }
    return Ok(Some(batch.value)), end;
  }

  /** `replay`: one pass over the file with a moving position. */
  method ReplayFile(cs: Checksums, b: Bytes) returns (r: Result<seq<Record>>)
    ensures r == Replay(cs, b)
  {
    hide ReplayFrames, After;
    var classified := Classify(b, WAL_MAGIC, WAL_VERSION);
    if classified.Err? { return Err(classified.error); }
    var kind := classified.value;
    if kind.Empty? { return Ok([]); }
    var counted, hash := Counted(kind), WalChecksum(cs, kind);
    var records, pos := [], FramesStart(kind);
    while pos + FRAME_HEADER <= |b|
      invariant FramesStart(kind) <= pos <= |b|
      invariant ReplayFrames(hash, counted, b[FramesStart(kind)..]) ==
                After(records, ReplayFrames(hash, counted, b[pos..]))
    {
      var batch, end := NextFrame(hash, counted, b, pos);
      if batch.Err? {
        AfterStops(records, batch.error);
        return Err(batch.error);
      }
      if batch.value.None? {
        AfterNothing(records);
        return Ok(records);
      }
      AfterAfter(records, batch.value.value, ReplayFrames(hash, counted, b[end..]));
      records := records + batch.value.value;
      pos := end;
    }
    ReplayNothing(hash, counted, b[pos..]);
    AfterNothing(records);
    return Ok(records);
  }

  /** The records of one frame, decoded into a scratch vector and committed only
      when the whole frame parses. */
  method ReadPayload(counted: bool, payload: Bytes) returns (r: Result<seq<Record>>)
    ensures r == DecodePayload(counted, payload)
  {
    hide Decode;
    var pos, count := 0, 1;
    if counted {
      if |payload| < 4 { return Err(Corrupt); }
      pos := 4;
      count := ReadU32(payload[0..4]);
    }
    var batch := [];
    ghost var start := pos;
    assert payload[start..] == if counted then payload[4..] else payload;
    for i := 0 to count
      invariant 0 <= pos <= |payload|
      invariant DecodeN(payload[start..], count) == AfterN(batch, DecodeN(payload[pos..], count - i))
    {
      var rec, next := DecodeAt(payload, pos);
      if rec.Err? { return Err(rec.error); }
      AfterAfterN(batch, rec.value, DecodeN(payload[next..], count - i - 1));
      batch := batch + [rec.value];
      pos := next;
    }
    assert batch + [] == batch;
    if pos != |payload| { return Err(Corrupt); }
    return Ok(batch);
  }

  /** An open log. `kind` was decided by what the file already held. */
  class Log {
    const cs: Checksums
    var file: Bytes
    var kind: Kind

    /** A fresh log holds only its header. */
    constructor Create(cs: Checksums)
      ensures this.cs == cs && file == LogFile(cs, []) && kind == Versioned(WAL_VERSION)
    {
      this.cs := cs;
      file := EncodeHeader(WAL_MAGIC, WAL_VERSION);
      kind := Versioned(WAL_VERSION);
    }

    /** Open an existing file, of a kind already classified, for appending. */
    constructor Append(cs: Checksums, existing: Bytes, found: Kind)
      requires Classify(existing, WAL_MAGIC, WAL_VERSION) == Ok(found)
      ensures this.cs == cs
      ensures existing == [] ==> file == LogFile(cs, []) && kind == Versioned(WAL_VERSION)
      ensures existing != [] ==> file == existing && kind == found
    {
      this.cs := cs;
      file := if existing == [] then EncodeHeader(WAL_MAGIC, WAL_VERSION) else existing;
      kind := if found.Empty? then Versioned(WAL_VERSION) else found;
    }

    /** Append a batch as one frame. A version 1 or headerless file refuses a
        batch of more than one record and is left as it was. */
    method AppendBatch(records: seq<Record>) returns (r: Result<()>)
      modifies `file
      ensures records == [] ==> r == Ok(()) && file == old(file)
      ensures records != [] && !Counted(kind) && |records| > 1 ==> r == Err(BadFormat) && file == old(file)
      ensures records != [] && (Counted(kind) || |records| == 1) ==>
                r == Ok(()) && file == old(file) + Frame(WalChecksum(cs, kind), PayloadAs(Counted(kind), records))
    {
      if records == [] { return Ok(()); }
      if !Counted(kind) && |records| > 1 { return Err(BadFormat); }
      var payload := BuildPayload(Counted(kind), records);
      var hash := WalChecksum(cs, kind);
      file := file + (U32Bytes(hash(payload)) + U32Bytes(|payload|) + payload);
      return Ok(());
    }
  }

  /** The payload of a frame, with or without the batch count. */
  function PayloadAs(counted: bool, records: seq<Record>): (b: Bytes)
    ensures counted ==> b == Payload(records)
  {
    (if counted then U32Bytes(|records|) else []) + EncodeAll(records)
  }

  method BuildPayload(counted: bool, records: seq<Record>) returns (payload: Bytes)
    ensures payload == PayloadAs(counted, records)
  {
    hide Encode, EncodeAll, U32Bytes;
    payload := if counted then U32Bytes(|records|) else [];
    ghost var front := payload;
    EncodeAllEmpty();
    assert records[..0] == [] && front + [] == front;
    for i := 0 to |records|
      invariant payload == front + EncodeAll(records[..i])
    {
      EncodeAllPush(records, i);
      Associate(front, EncodeAll(records[..i]), Encode(records[i]));
      payload := EncodeInto(records[i], payload);
    }
    assert records[..|records|] == records;
  }
}
