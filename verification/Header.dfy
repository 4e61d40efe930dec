/** The eight bytes in front of a log file, `[magic:4][version:2][reserved:2]`,
    and what they decide: where frames start and which checksum covers them. */
module Header {
  import opened Records

  const HEADER_LEN: nat := 8
  const WAL_MAGIC: Bytes := [0x4C, 0x53, 0x4D, 0x57]
  const MANIFEST_MAGIC: Bytes := [0x4C, 0x53, 0x4D, 0x4D]
  const WAL_VERSION: nat := 3
  const MANIFEST_VERSION: nat := 2

  datatype Kind = Empty | Versioned(version: nat) | Legacy

  /** The two checksum algorithms. Their internals are not part of this model:
      every result below holds for any two functions. */
  datatype Checksums = Checksums(isoHdlc: Bytes -> Word, castagnoli: Bytes -> Word)

  function EncodeHeader(magic: Bytes, version: nat): (b: Bytes)
    requires |magic| == 4
    ensures |b| == HEADER_LEN
  {
    magic + [version % 0x100, version / 0x100 % 0x100, 0, 0]
  }

  function Classify(b: Bytes, magic: Bytes, newest: nat): (r: Result<Kind>) {
    if b == [] then
      Ok(Empty)
    else if |b| >= HEADER_LEN && b[..4] == magic then
      var version := b[4] + 0x100 * (b[5] as int);
      if version > newest then Err(BadFormat) else Ok(Versioned(version))
    else
      Ok(Legacy)
  }

  function FramesStart(kind: Kind): (n: nat) {
    if kind.Legacy? then 0 else HEADER_LEN
  }

  function WalChecksum(cs: Checksums, kind: Kind): Bytes -> Word {
    if kind.Versioned? && kind.version >= 3 then cs.castagnoli else cs.isoHdlc
  }

  function ManifestChecksum(cs: Checksums, kind: Kind): Bytes -> Word {
    if kind.Versioned? && kind.version >= 2 then cs.castagnoli else cs.isoHdlc
  }

  /** A written header is read back as its own version whatever follows it,
      unless the version is newer than the reader. */
  lemma ClassifyEncoded(magic: Bytes, version: nat, newest: nat, rest: Bytes)
    requires |magic| == 4 && version < 0x1_0000
    ensures Classify(EncodeHeader(magic, version) + rest, magic, newest) ==
            if version > newest then Err(BadFormat) else Ok(Versioned(version))
  {
    var b := EncodeHeader(magic, version) + rest;
    assert b[..4] == magic;
    assert b[4] == version % 0x100 && b[5] == version / 0x100;
  }

  /** A file cut inside its header is never taken for a header. */
  lemma ClassifyCut(magic: Bytes, version: nat, newest: nat, cut: nat)
    requires |magic| == 4 && cut < HEADER_LEN
    ensures Classify(EncodeHeader(magic, version)[..cut], magic, newest) == Ok(if cut == 0 then Empty else Legacy)
  {
  }
}
