/** The manifest: an append-only log of version edits, its replay, and the
    rollover into a fresh generation. */
module Manifest {
  import opened Records
  import opened Codec
  import opened Header
  import opened Framing

  const PAYLOAD_LEN: nat := 9
  const EDIT_LEN: nat := 17

  datatype VersionEdit = AddTable(id: nat) | DeleteTable(id: nat) | SetNextSeq(n: nat) | SetNextSstId(n: nat)

  datatype ManifestState = ManifestState(live: set<nat>, nextSeq: nat, nextSstId: nat)

  const DEFAULT: ManifestState := ManifestState({}, 0, 0)

  // --------------------------------------------------------------------- edits

  function Tag(e: VersionEdit): (t: Byte) {
    match e
    case AddTable(_) => 0
    case DeleteTable(_) => 1
    case SetNextSeq(_) => 2
    case SetNextSstId(_) => 3
  }

  function Body(e: VersionEdit): (n: nat) {
    match e
    case AddTable(id) => id
    case DeleteTable(id) => id
    case SetNextSeq(n) => n
    case SetNextSstId(n) => n
  }

  function EncodeEdit(e: VersionEdit): (b: Bytes)
    ensures |b| == PAYLOAD_LEN
  {
    [Tag(e)] + U64Bytes(Body(e))
  }

  function DecodeEdit(b: Bytes): (r: Result<VersionEdit>) {
    if |b| != PAYLOAD_LEN then
      Err(Corrupt)
    else
      var body := ReadU64(b[1..9]);
      match b[0]
      case 0 => Ok(AddTable(body))
      case 1 => Ok(DeleteTable(body))
      case 2 => Ok(SetNextSeq(body))
      case 3 => Ok(SetNextSstId(body))
      case _ => Err(Corrupt)
  }

  lemma EditRoundTrip(e: VersionEdit)
    requires Body(e) < U64_LIMIT
    ensures DecodeEdit(EncodeEdit(e)) == Ok(e)
  {
    assert EncodeEdit(e)[1..9] == U64Bytes(Body(e));
    U64RoundTrip(Body(e));
  }

  function Apply(s: ManifestState, e: VersionEdit): (s': ManifestState) {
    match e
    case AddTable(id) => s.(live := s.live + {id})
    case DeleteTable(id) => s.(live := s.live - {id})
    case SetNextSeq(n) => s.(nextSeq := n)
    case SetNextSstId(n) => s.(nextSstId := n)
  }

  function Fold(s: ManifestState, edits: seq<VersionEdit>): (s': ManifestState)
    decreases |edits|
  {
    if edits == [] then s else Fold(Apply(s, edits[0]), edits[1..])
  }

  lemma {:induction false} FoldConcat(s: ManifestState, a: seq<VersionEdit>, b: seq<VersionEdit>)
    ensures Fold(s, a + b) == Fold(Fold(s, a), b)
    decreases |a|
  {
    if a == [] {
      assert a + b == b;
    } else {
      assert (a + b)[1..] == a[1..] + b;
      FoldConcat(Apply(s, a[0]), a[1..], b);
    }
  }

  // ------------------------------------------------------------ snapshot edits

  function Least(s: set<nat>): (m: nat)
    requires s != {}
    ensures m in s && forall x :: x in s ==> m <= x
  {
    LeastExists(s);
    var m :| m in s && forall x :: x in s ==> m <= x;
    m
  }

  ghost predicate IsLeast(s: set<nat>, m: nat) {
    m in s && forall x :: x in s ==> m <= x
  }

  lemma {:induction false} LeastExists(s: set<nat>)
    requires s != {}
    ensures exists m :: IsLeast(s, m)
  {
    var a :| a in s;
    if s == {a} {
      assert IsLeast(s, a);
    } else {
      assert s - {a} != {} by { assert s <= {a} + (s - {a}); }
      LeastExists(s - {a});
      var m :| IsLeast(s - {a}, m);
      assert forall x :: x in s ==> x == a || x in s - {a};
      assert IsLeast(s, if a < m then a else m);
    }
  }

  /** The elements of a set in ascending order. */
  function Ascending(s: set<nat>): (ids: seq<nat>)
    ensures forall x :: x in ids <==> x in s
    ensures forall i, j :: 0 <= i < j < |ids| ==> ids[i] < ids[j]
    decreases |s|
  {
    if s == {} then
      []
    else
      var m := Least(s);
      var rest := Ascending(s - {m});
      assert forall x :: x in s <==> x == m || x in s - {m};
      [m] + rest
  }

  /** A strictly ascending sequence is determined by its elements. */
  lemma {:induction false} AscendingUnique(ids: seq<nat>, s: set<nat>)
    requires forall i, j :: 0 <= i < j < |ids| ==> ids[i] < ids[j]
    requires forall x :: x in ids <==> x in s
    ensures Ascending(s) == ids
    decreases |ids|
  {
    assert |ids| > 0 ==> ids[0] in ids;
    if s != {} {
      LeastFirst(ids, s);
      AscendingTail(ids);
      AscendingUnique(ids[1..], s - {ids[0]});
    }
  }

  lemma LeastFirst(ids: seq<nat>, s: set<nat>)
    requires s != {} && (forall i, j :: 0 <= i < j < |ids| ==> ids[i] < ids[j]) && forall x :: x in ids <==> x in s
    ensures ids != [] && Least(s) == ids[0]
  {
    var m := Least(s);
    assert m in ids;
    assert ids[0] in ids;
  }

  lemma AscendingTail(ids: seq<nat>)
    requires ids != [] && forall i, j :: 0 <= i < j < |ids| ==> ids[i] < ids[j]
    ensures forall x :: x in ids[1..] <==> x in ids && x != ids[0]
  {
  }

  function Adds(ids: seq<nat>): (edits: seq<VersionEdit>)
    ensures |edits| == |ids|
  {
    if ids == [] then [] else [AddTable(ids[0])] + Adds(ids[1..])
  }

  /** The edits that seed a fresh generation. */
  function SnapshotEdits(s: ManifestState): (edits: seq<VersionEdit>)
    ensures |edits| >= 2
  {
    [SetNextSeq(s.nextSeq), SetNextSstId(s.nextSstId)] + Adds(Ascending(s.live))
  }

  lemma {:induction false} FoldAdds(s: ManifestState, ids: seq<nat>)
    ensures Fold(s, Adds(ids)) == s.(live := s.live + set x | x in ids)
    decreases |ids|
  {
    if ids == [] {
      assert s.live + (set x | x in ids) == s.live;
    } else {
      var s' := Apply(s, AddTable(ids[0]));
      assert Adds(ids)[1..] == Adds(ids[1..]);
      FoldAdds(s', ids[1..]);
      assert s.live + (set x | x in ids) == s'.live + set x | x in ids[1..];
    }
  }

  lemma FoldOne(ms: ManifestState, e: VersionEdit)
    ensures Fold(ms, [e]) == Apply(ms, e)
  {
    assert [e][1..] == [];
    assert Fold(Apply(ms, e), []) == Apply(ms, e);
  }

  lemma FoldTwo(s: ManifestState, a: VersionEdit, b: VersionEdit)
    ensures Fold(s, [a, b]) == Apply(Apply(s, a), b)
  {
    assert [a, b][1..] == [b] && [b][1..] == [];
    assert Fold(Apply(s, a), [b]) == Fold(Apply(Apply(s, a), b), []);
  }

  /** Replayed into an empty state, the snapshot edits give the state back. */
  lemma SnapshotReplays(s: ManifestState)
    ensures Fold(DEFAULT, SnapshotEdits(s)) == s
  {
    var ids := Ascending(s.live);
    var two := [SetNextSeq(s.nextSeq), SetNextSstId(s.nextSstId)];
    FoldConcat(DEFAULT, two, Adds(ids));
    FoldTwo(DEFAULT, two[0], two[1]);
    FoldAdds(Fold(DEFAULT, two), ids);
    assert (set x | x in ids) == s.live;
  }

  // ------------------------------------------------------------------ the file

  function EditFrame(hash: Bytes -> Word, e: VersionEdit): (b: Bytes)
    ensures |b| == EDIT_LEN
  {
    Frame(hash, EncodeEdit(e))
  }

  function EditFrames(hash: Bytes -> Word, edits: seq<VersionEdit>): (b: Bytes)
    ensures |b| == EDIT_LEN * |edits|
  {
    if edits == [] then [] else EditFrame(hash, edits[0]) + EditFrames(hash, edits[1..])
  }

  function ManifestFile(cs: Checksums, edits: seq<VersionEdit>): (b: Bytes) {
    EncodeHeader(MANIFEST_MAGIC, MANIFEST_VERSION) + EditFrames(cs.castagnoli, edits)
  }

  predicate EditsFit(edits: seq<VersionEdit>) {
    forall e :: e in edits ==> Body(e) < U64_LIMIT
  }

  /** Replay frames off the front of `b`, counting them. */
  function ReplayEdits(hash: Bytes -> Word, s: ManifestState, n: nat, b: Bytes): (r: Result<(ManifestState, nat)>)
    decreases |b|
  {
    if |b| < FRAME_HEADER then
      Ok((s, n))
    else
      var len := ReadU32(b[4..8]);
      if FRAME_HEADER + len > |b| then
        Ok((s, n))
      else
        var payload := b[FRAME_HEADER..FRAME_HEADER + len];
        if hash(payload) != ReadU32(b[..4]) then
          Ok((s, n))
        else
          var e :- DecodeEdit(payload);
          ReplayEdits(hash, Apply(s, e), n + 1, b[FRAME_HEADER + len..])
  }

  /** A file with bytes in it and not one readable frame is refused. */
  function Replay(cs: Checksums, b: Bytes): (r: Result<ManifestState>) {
    var kind :- Classify(b, MANIFEST_MAGIC, MANIFEST_VERSION);
    if kind.Empty? then
      Ok(DEFAULT)
    else
      var (s, n) :- ReplayEdits(ManifestChecksum(cs, kind), DEFAULT, 0, b[FramesStart(kind)..]);
      if n == 0 && |b| > FramesStart(kind) then Err(Corrupt) else Ok(s)
  }

  lemma ReplayOneEdit(hash: Bytes -> Word, s: ManifestState, n: nat, e: VersionEdit, rest: Bytes)
    requires Body(e) < U64_LIMIT
    ensures ReplayEdits(hash, s, n, EditFrame(hash, e) + rest) == ReplayEdits(hash, Apply(s, e), n + 1, rest)
  {
    FrameParts(hash, EncodeEdit(e), rest);
    EditRoundTrip(e);
  }

  lemma ReplayTornEdit(hash: Bytes -> Word, s: ManifestState, n: nat, e: VersionEdit, cut: nat)
    requires cut < EDIT_LEN
    ensures ReplayEdits(hash, s, n, EditFrame(hash, e)[..cut]) == Ok((s, n))
  {
    TornPrefix(hash, EncodeEdit(e), cut);
    U32RoundTrip(PAYLOAD_LEN);
  }

  lemma ReplayNoEdit(hash: Bytes -> Word, s: ManifestState, n: nat)
    ensures ReplayEdits(hash, s, n, []) == Ok((s, n))
  {
  }

  lemma {:induction false} ReplayCutEdits(hash: Bytes -> Word, s: ManifestState, n: nat, edits: seq<VersionEdit>, cut: nat)
    requires EditsFit(edits) && cut <= EDIT_LEN * |edits|
    ensures ReplayEdits(hash, s, n, EditFrames(hash, edits)[..cut]) ==
            Ok((Fold(s, edits[..cut / EDIT_LEN]), n + cut / EDIT_LEN))
    decreases |edits|
  {
    hide ReplayEdits, EditFrame;
    if edits == [] {
      ReplayNoEdit(hash, s, n);
      assert EditFrames(hash, edits)[..cut] == [];
    } else {
      var first, others := EditFrame(hash, edits[0]), EditFrames(hash, edits[1..]);
      assert edits[0] in edits;
      if cut < EDIT_LEN {
        assert (first + others)[..cut] == first[..cut];
        ReplayTornEdit(hash, s, n, edits[0], cut);
      } else {
        assert (first + others)[..cut] == first + others[..cut - EDIT_LEN];
        ReplayOneEdit(hash, s, n, edits[0], others[..cut - EDIT_LEN]);
        assert forall e :: e in edits[1..] ==> e in edits;
        ReplayCutEdits(hash, Apply(s, edits[0]), n + 1, edits[1..], cut - EDIT_LEN);
        var m := cut / EDIT_LEN;
        assert (cut - EDIT_LEN) / EDIT_LEN == m - 1;
        assert edits[..m][1..] == edits[1..][..m - 1];
      }
    }
  }

  /** Replay of any cut of a manifest: empty at zero bytes and at the bare
      header, refused while bytes remain without one whole frame, and otherwise
      the edits whose frames are whole. */
  lemma ReplayTruncated(cs: Checksums, edits: seq<VersionEdit>, cut: nat)
    requires EditsFit(edits) && cut <= |ManifestFile(cs, edits)|
    ensures Replay(cs, ManifestFile(cs, edits)[..cut]) ==
            if cut == 0 || cut == HEADER_LEN then Ok(DEFAULT)
            else if cut < HEADER_LEN + EDIT_LEN then Err(Corrupt)
            else Ok(Fold(DEFAULT, edits[..(cut - HEADER_LEN) / EDIT_LEN]))
  {
    hide ReplayEdits, Classify, EncodeHeader;
    var head, body := EncodeHeader(MANIFEST_MAGIC, MANIFEST_VERSION), EditFrames(cs.castagnoli, edits);
    if cut < HEADER_LEN {
      assert (head + body)[..cut] == head[..cut];
      ClassifyCut(MANIFEST_MAGIC, MANIFEST_VERSION, MANIFEST_VERSION, cut);
      ReplayTooShort(cs.isoHdlc, head[..cut][0..]);
    } else {
      var kept := body[..cut - HEADER_LEN];
      assert (head + body)[..cut] == head + kept;
      ClassifyEncoded(MANIFEST_MAGIC, MANIFEST_VERSION, MANIFEST_VERSION, kept);
      assert (head + kept)[HEADER_LEN..] == kept;
      ReplayCutEdits(cs.castagnoli, DEFAULT, 0, edits, cut - HEADER_LEN);
      if cut < HEADER_LEN + EDIT_LEN {
        assert edits[..0] == [];
      }
    }
  }

  lemma ReplayTooShort(hash: Bytes -> Word, b: Bytes)
    requires |b| < FRAME_HEADER
    ensures ReplayEdits(hash, DEFAULT, 0, b) == Ok((DEFAULT, 0))
  {
  }

  lemma {:induction false} EditFramesConcat(hash: Bytes -> Word, a: seq<VersionEdit>, b: seq<VersionEdit>)
    ensures EditFrames(hash, a + b) == EditFrames(hash, a) + EditFrames(hash, b)
  {
    if a == [] {
      assert a + b == b;
    } else {
      assert (a + b)[1..] == a[1..] + b;
      EditFramesConcat(hash, a[1..], b);
      Associate(EditFrame(hash, a[0]), EditFrames(hash, a[1..]), EditFrames(hash, b));
    }
  }

  lemma ManifestAppend(cs: Checksums, edits: seq<VersionEdit>, more: seq<VersionEdit>)
    ensures ManifestFile(cs, edits + more) == ManifestFile(cs, edits) + EditFrames(cs.castagnoli, more)
    ensures |ManifestFile(cs, edits)| == HEADER_LEN + EDIT_LEN * |edits|
  {
    hide EncodeHeader, EditFrames;
    EditFramesConcat(cs.castagnoli, edits, more);
    Associate(EncodeHeader(MANIFEST_MAGIC, MANIFEST_VERSION), EditFrames(cs.castagnoli, edits),
      EditFrames(cs.castagnoli, more));
  }

  /** A crash `cut` bytes into the append of a batch of edits keeps the edits
      whose frames are whole: a batch is not atomic. */
  lemma ReplayInFlight(cs: Checksums, edits: seq<VersionEdit>, more: seq<VersionEdit>, cut: nat)
    requires edits != [] && EditsFit(edits) && EditsFit(more) && cut <= EDIT_LEN * |more|
    ensures Replay(cs, ManifestFile(cs, edits) + EditFrames(cs.castagnoli, more)[..cut]) ==
            Ok(Fold(Fold(DEFAULT, edits), more[..cut / EDIT_LEN]))
  {
    hide Replay, ManifestFile, Fold, EditFrames;
    var hash := cs.castagnoli;
    var all, at := edits + more, |ManifestFile(cs, edits)| + cut;
    ManifestAppend(cs, edits, more);
    CutInside(ManifestFile(cs, edits), EditFrames(hash, more), cut);
    ReplayTruncated(cs, all, at);
    var m := cut / EDIT_LEN;
    assert (at - HEADER_LEN) / EDIT_LEN == |edits| + m;
    assert all[..|edits| + m] == edits + more[..m];
    FoldConcat(DEFAULT, edits, more[..m]);
  }

  // ------------------------------------------------------------------ rollover

  /** The manifest files of a directory: the generation `CURRENT` names, and the
      contents of each generation on disk. */
  datatype Dir = Dir(current: nat, gens: map<nat, Bytes>)

  function OpenDir(cs: Checksums, d: Dir): (r: Result<ManifestState>) {
    if d.current in d.gens then Replay(cs, d.gens[d.current]) else Ok(DEFAULT)
  }

  /** The file that seeds a fresh generation. */
  function Generation(cs: Checksums, s: ManifestState): (b: Bytes) {
    ManifestFile(cs, SnapshotEdits(s))
  }

  lemma GenerationReplays(cs: Checksums, s: ManifestState)
    requires EditsFit(SnapshotEdits(s))
    ensures Replay(cs, Generation(cs, s)) == Ok(s)
  {
    hide Replay, ManifestFile, SnapshotEdits, Fold;
    var edits := SnapshotEdits(s);
    ReplayInFlight(cs, edits, [], 0);
    assert ManifestFile(cs, edits) + EditFrames(cs.castagnoli, [])[..0] == ManifestFile(cs, edits);
    var none: seq<VersionEdit> := [];
    assert none[..0 / EDIT_LEN] == none;
    FoldNothing(Fold(DEFAULT, edits));
    SnapshotReplays(s);
  }

  lemma FoldNothing(s: ManifestState)
    ensures Fold(s, []) == s
  {
  }

  /** Where a rollover can be interrupted: with any part of the new generation
      written, after `CURRENT` has been swapped, or after the old one is gone. */
  datatype RolloverPoint = Writing(cut: nat) | Swapped | Removed

  function RolloverImage(cs: Checksums, d: Dir, s: ManifestState, at: RolloverPoint): (d': Dir)
    requires at.Writing? ==> at.cut <= |Generation(cs, s)|
  {
    var next := d.current + 1;
    match at
    case Writing(cut) => d.(gens := d.gens[next := Generation(cs, s)[..cut]])
    case Swapped => Dir(next, d.gens[next := Generation(cs, s)])
    case Removed => Dir(next, d.gens[next := Generation(cs, s)] - {d.current})
  }

  /** A directory interrupted anywhere in a rollover opens to the same state. */
  lemma RolloverCrashSafe(cs: Checksums, d: Dir, s: ManifestState, at: RolloverPoint)
    requires OpenDir(cs, d) == Ok(s) && EditsFit(SnapshotEdits(s))
    requires at.Writing? ==> at.cut <= |Generation(cs, s)|
    ensures OpenDir(cs, RolloverImage(cs, d, s, at)) == Ok(s)
  {
    hide Replay, Generation;
    GenerationReplays(cs, s);
  }

  // -------------------------------------------------------- the source's form

  /** `replay`: one pass over the file, counting the frames that verify. */
  method ReplayFile(cs: Checksums, b: Bytes) returns (r: Result<ManifestState>)
    ensures r == Replay(cs, b)
  {
    hide DecodeEdit, Apply, ReadU32;
    var classified := Classify(b, MANIFEST_MAGIC, MANIFEST_VERSION);
    if classified.Err? { return Err(classified.error); }
    var kind := classified.value;
    if kind.Empty? { return Ok(DEFAULT); }
    var hash, first := ManifestChecksum(cs, kind), FramesStart(kind);
    var state, pos, frames := DEFAULT, first, 0;
    while pos + FRAME_HEADER <= |b|
      invariant first <= pos <= |b|
      invariant ReplayEdits(hash, DEFAULT, 0, b[first..]) == ReplayEdits(hash, state, frames, b[pos..])
    {
      ghost var rest := b[pos..];
      var crc, len := ReadU32(b[pos..pos + 4]), ReadU32(b[pos + 4..pos + 8]);
      SliceOfRest(b, pos, 0, 4);
      SliceOfRest(b, pos, 4, 8);
      var start := pos + FRAME_HEADER;
      var end := start + len;
      if end > |b| { break; }
      var payload := b[start..end];
      SliceOfRest(b, pos, FRAME_HEADER, FRAME_HEADER + len);
      if hash(payload) != crc { break; }
      var edit := DecodeEdit(payload);
      if edit.Err? { return Err(edit.error); }
      state := Apply(state, edit.value);
      frames := frames + 1;
      pos := end;
    }
    if frames == 0 && |b| > first { return Err(Corrupt); }
    return Ok(state);
  }

  /** The open manifest, appending to the generation `CURRENT` names. */
  class ManifestLog {
    const cs: Checksums
    var dir: Dir

    constructor (cs: Checksums, dir: Dir)
      requires dir.current in dir.gens
      ensures Valid() && this.cs == cs && this.dir == dir
    {
      this.cs, this.dir := cs, dir;
    }

    ghost predicate Valid()
      reads this
    {
      dir.current in dir.gens
    }

    /** One frame per edit, appended in order. */
    method AppendBatch(edits: seq<VersionEdit>)
      requires Valid()
      modifies this
      ensures Valid()
      ensures dir == old(dir).(gens := old(dir).gens[old(dir).current :=
                old(dir).gens[old(dir).current] + EditFrames(cs.castagnoli, edits)])
    {
      hide EditFrame, Frame;
      var file := dir.gens[dir.current];
      ghost var was := file;
      assert edits[..0] == [] && was + EditFrames(cs.castagnoli, []) == was;
      for i := 0 to |edits|
        invariant dir == old(dir) && file == was + EditFrames(cs.castagnoli, edits[..i])
      {
        PushEdit(cs.castagnoli, edits, i);
        Associate(was, EditFrames(cs.castagnoli, edits[..i]), EditFrame(cs.castagnoli, edits[i]));
        file := file + EditFrame(cs.castagnoli, edits[i]);
      }
      assert edits[..|edits|] == edits;
      dir := dir.(gens := dir.gens[dir.current := file]);
    }

    /** Write the state into the next generation, which nothing names yet. */
    method WriteGeneration(state: ManifestState)
      requires Valid()
      modifies this
      ensures Valid() && dir == old(dir).(gens := old(dir).gens[old(dir).current + 1 := Generation(cs, state)])
    {
      dir := dir.(gens := dir.gens[dir.current + 1 := Generation(cs, state)]);
    }

    /** Point `CURRENT` at the next generation, once all of it is written. */
    method SwapCurrent(ghost state: ManifestState)
      requires Valid() && dir.current + 1 in dir.gens && dir.gens[dir.current + 1] == Generation(cs, state)
      modifies this
      ensures Valid() && dir == old(dir).(current := old(dir).current + 1)
    {
      dir := dir.(current := dir.current + 1);
    }

    /** Remove a generation that `CURRENT` no longer names. */
    method RemoveGeneration(prev: nat)
      requires Valid() && prev != dir.current
      modifies this
      ensures Valid() && dir == old(dir).(gens := old(dir).gens - {prev})
    {
      dir := dir.(gens := dir.gens - {prev});
    }

    /** Write the state into a fresh generation, swap `CURRENT`, remove the old
        one: the directory still opens to the state, and nothing but the new
        generation and the removed one has changed. */
    method Rollover(state: ManifestState)
      requires Valid() && OpenDir(cs, dir) == Ok(state) && EditsFit(SnapshotEdits(state))
      modifies this
      ensures Valid() && dir == RolloverImage(cs, old(dir), state, Removed)
      ensures OpenDir(cs, dir) == Ok(state)
    {
      hide Replay, ManifestFile, SnapshotEdits, Generation;
      RolloverCrashSafe(cs, dir, state, Removed);
      var prev := dir.current;
      WriteGeneration(state);
      SwapCurrent(state);
      RemoveGeneration(prev);
    }
  }

  lemma PushEdit(hash: Bytes -> Word, edits: seq<VersionEdit>, i: nat)
    requires i < |edits|
    ensures EditFrames(hash, edits[..i + 1]) == EditFrames(hash, edits[..i]) + EditFrame(hash, edits[i])
  {
    assert edits[..i + 1] == edits[..i] + [edits[i]];
    EditFramesConcat(hash, edits[..i], [edits[i]]);
    assert EditFrames(hash, [edits[i]]) == EditFrame(hash, edits[i]) + EditFrames(hash, [edits[i]][1..]);
  }
}
