/** The file of an SSTable: compressed data blocks, a block index, the Bloom
    filter and a footer; written in one pass and read back by offset. */
module SsTableFile {
  import opened Records
  import opened Codec
  import opened Blocks
  import opened Bloom

  const FOOTER_LEN: nat := 44
  const BLOCK_SIZE: nat := 4096
  const FORMAT_VERSION: nat := 2
  const MAGIC: Bytes := [0x4C, 0x53, 0x4D, 0x32]

  /** The block compressor. Only its round trip is used, and that its output, which
      starts with the size, is never empty. */
  datatype Lz = Lz(compress: Bytes -> Bytes, decompress: Bytes -> Result<Bytes>) {
    ghost predicate RoundTrips() {
      forall b :: compress(b) != [] && decompress(compress(b)) == Ok(b)
    }
  }

  datatype IndexEntry = IndexEntry(firstKey: Key, offset: nat, compLen: nat)

  // ------------------------------------------------------------------ the parts

  function BlockBytes(lz: Lz, block: seq<Record>): (b: Bytes) {
    lz.compress(EncodeAll(block))
  }

  function DataBytes(lz: Lz, blocks: seq<seq<Record>>): (b: Bytes) {
    if blocks == [] then [] else DataBytes(lz, blocks[..|blocks| - 1]) + BlockBytes(lz, blocks[|blocks| - 1])
  }

  function IndexOf(lz: Lz, blocks: seq<seq<Record>>): (index: seq<IndexEntry>)
    requires forall i :: 0 <= i < |blocks| ==> blocks[i] != []
    ensures |index| == |blocks|
  {
    if blocks == [] then
      []
    else
      var front, last := blocks[..|blocks| - 1], blocks[|blocks| - 1];
      IndexOf(lz, front) + [IndexEntry(last[0].key, |DataBytes(lz, front)|, |BlockBytes(lz, last)|)]
  }

  function EntryBytes(e: IndexEntry): (b: Bytes)
    ensures |b| == 16 + |e.firstKey|
  {
    U32Bytes(|e.firstKey|) + (e.firstKey + (U64Bytes(e.offset) + U32Bytes(e.compLen)))
  }

  function IndexBytes(index: seq<IndexEntry>): (b: Bytes) {
    if index == [] then [] else EntryBytes(index[0]) + IndexBytes(index[1..])
  }

  function Footer(indexOffset: nat, entries: nat, bloomOffset: nat, bloomLen: nat, count: nat): (b: Bytes)
    ensures |b| == FOOTER_LEN
  {
    U64Bytes(indexOffset) + U32Bytes(entries) + U64Bytes(bloomOffset) + U64Bytes(bloomLen) + U64Bytes(count)
    + U32Bytes(FORMAT_VERSION) + MAGIC
  }

  function TableFile(data: Bytes, index: seq<IndexEntry>, bloom: Bytes, count: nat): (b: Bytes) {
    data + IndexBytes(index) + bloom
    + Footer(|data|, |index|, |data| + |IndexBytes(index)|, |bloom|, count)
  }

  predicate EntryFits(e: IndexEntry) {
    |e.firstKey| < U32_LIMIT && e.offset < U64_LIMIT && e.compLen < U32_LIMIT
  }

  /** Everything fits its field. */
  predicate FileFits(data: Bytes, index: seq<IndexEntry>, bloom: Bytes, count: nat) {
    && |index| < U32_LIMIT && count < U64_LIMIT
    && |TableFile(data, index, bloom, count)| < U64_LIMIT
    && forall e :: e in index ==> EntryFits(e)
  }

  // -------------------------------------------------------------------- opening

  function ReadEntry(b: Bytes): (r: Result<(IndexEntry, Bytes)>) {
    var (len, b1) :- Take(b, 4);
    var (key, b2) :- Take(b1, ReadU32(len));
    var (off, b3) :- Take(b2, 8);
    var (comp, rest) :- Take(b3, 4);
    Ok((IndexEntry(key, ReadU64(off), ReadU32(comp)), rest))
  }

  function ReadEntries(b: Bytes, n: nat): (r: Result<seq<IndexEntry>>)
    decreases n
  {
    if n == 0 then
      Ok([])
    else
      var (e, b') :- ReadEntry(b);
      var others :- ReadEntries(b', n - 1);
      Ok([e] + others)
  }

  datatype Parsed = Parsed(index: seq<IndexEntry>, k: nat, bitCount: nat, bits: seq<bv8>, count: nat)

  /** `open`: footer, then index, then filter. */
  function Open(b: Bytes): (r: Result<Parsed>) {
    if |b| < FOOTER_LEN then
      Err(BadFormat)
    else
      var start := |b| - FOOTER_LEN;
      var f := b[start..];
      if f[40..44] != MAGIC then
        Err(BadFormat)
      else
        var indexOffset, entries, bloomOffset := ReadU64(f[0..8]), ReadU32(f[8..12]), ReadU64(f[12..20]);
        var bloomLen, count := ReadU64(f[20..28]), ReadU64(f[28..36]);
        if indexOffset > bloomOffset || bloomOffset + bloomLen > start then
          Err(BadFormat)
        else
          var index :- ReadEntries(b[indexOffset..bloomOffset], entries);
          var (k, bitCount, bits) :- DecodeFilter(b[bloomOffset..bloomOffset + bloomLen]);
          Ok(Parsed(index, k, bitCount, bits, count))
  }

  lemma EntryRoundTrip(e: IndexEntry, rest: Bytes)
    requires EntryFits(e)
    ensures ReadEntry(EntryBytes(e) + rest) == Ok((e, rest))
  {
    var b3 := U32Bytes(e.compLen) + rest;
    var b2 := U64Bytes(e.offset) + b3;
    var b1 := e.firstKey + b2;
    assert EntryBytes(e) + rest == U32Bytes(|e.firstKey|) + b1;
    TakeFront(U32Bytes(|e.firstKey|), b1);
    TakeFront(e.firstKey, b2);
    TakeFront(U64Bytes(e.offset), b3);
    TakeFront(U32Bytes(e.compLen), rest);
    U32RoundTrip(|e.firstKey|);
    U64RoundTrip(e.offset);
    U32RoundTrip(e.compLen);
  }

  lemma {:induction false} IndexRoundTrip(index: seq<IndexEntry>)
    requires forall e :: e in index ==> EntryFits(e)
    ensures ReadEntries(IndexBytes(index), |index|) == Ok(index)
  {
    hide ReadEntry, EntryBytes;
    if index != [] {
      assert index[0] in index;
      EntryRoundTrip(index[0], IndexBytes(index[1..]));
      assert forall e :: e in index[1..] ==> e in index;
      IndexRoundTrip(index[1..]);
      assert index == [index[0]] + index[1..];
    }
  }

  lemma FooterFields(io: nat, n: nat, bo: nat, bl: nat, count: nat)
    requires io < U64_LIMIT && n < U32_LIMIT && bo < U64_LIMIT && bl < U64_LIMIT && count < U64_LIMIT
    ensures var f := Footer(io, n, bo, bl, count);
            && f[40..44] == MAGIC && ReadU64(f[0..8]) == io && ReadU32(f[8..12]) == n && ReadU64(f[12..20]) == bo
            && ReadU64(f[20..28]) == bl && ReadU64(f[28..36]) == count
  {
    hide U64Bytes, U32Bytes, ReadU64, ReadU32;
    var f := Footer(io, n, bo, bl, count);
    assert f[0..8] == U64Bytes(io);
    assert f[8..12] == U32Bytes(n);
    assert f[12..20] == U64Bytes(bo);
    assert f[20..28] == U64Bytes(bl);
    assert f[28..36] == U64Bytes(count);
    assert f[40..44] == MAGIC;
    U64RoundTrip(io);
    U32RoundTrip(n);
    U64RoundTrip(bo);
    U64RoundTrip(bl);
    U64RoundTrip(count);
  }

  /** Opening a file the writer produced gives its index and its filter back. */
  lemma OpenWritten(data: Bytes, index: seq<IndexEntry>, k: nat, bitCount: nat, bits: seq<bv8>, count: nat)
    requires 0 < k < U32_LIMIT && 0 < bitCount < U64_LIMIT && |bits| == ByteLen(bitCount)
    requires FileFits(data, index, EncodeFilter(k, bitCount, bits), count)
    ensures Open(TableFile(data, index, EncodeFilter(k, bitCount, bits), count)) ==
            Ok(Parsed(index, k, bitCount, bits, count))
  {
    hide Footer, IndexBytes, EncodeFilter, DecodeFilter, ReadEntries, EntryFits, ReadU32, ReadU64;
    var bloom := EncodeFilter(k, bitCount, bits);
    var ib := IndexBytes(index);
    var io, bo := |data|, |data| + |ib|;
    var f := Footer(io, |index|, bo, |bloom|, count);
    var b := TableFile(data, index, bloom, count);
    FileSlices(data, ib, bloom, f);
    FooterFields(io, |index|, bo, |bloom|, count);
    IndexRoundTrip(index);
    FilterRoundTrip(k, bitCount, bits);
  }

  lemma FileSlices(data: Bytes, ib: Bytes, bloom: Bytes, f: Bytes)
    ensures var b := data + ib + bloom + f;
            && b[|b| - |f|..] == f && b[|data|..|data| + |ib|] == ib
            && b[|data| + |ib|..|data| + |ib| + |bloom|] == bloom
  {
  }

  // ---------------------------------------------------------------- block data

  /** The index entry of a block gives its first key and the place of its bytes. */
  lemma {:induction false} IndexedBlock(lz: Lz, blocks: seq<seq<Record>>, i: nat)
    requires (forall j :: 0 <= j < |blocks| ==> blocks[j] != []) && i < |blocks|
    ensures var e, data := IndexOf(lz, blocks)[i], DataBytes(lz, blocks);
            && e.firstKey == blocks[i][0].key
            && e.offset + e.compLen <= |data| && data[e.offset..e.offset + e.compLen] == BlockBytes(lz, blocks[i])
    decreases |blocks|
  {
    hide BlockBytes;
    var front, last := blocks[..|blocks| - 1], blocks[|blocks| - 1];
    if i < |front| {
      IndexedBlock(lz, front, i);
      assert front[i] == blocks[i];
    }
  }

  /** No two blocks start at the same offset. */
  lemma {:induction false} OffsetsAscend(lz: Lz, blocks: seq<seq<Record>>, i: nat, j: nat)
    requires lz.RoundTrips() && (forall t :: 0 <= t < |blocks| ==> blocks[t] != []) && i < j < |blocks|
    ensures IndexOf(lz, blocks)[i].offset < IndexOf(lz, blocks)[j].offset
    decreases |blocks|
  {
    hide BlockBytes;
    var front := blocks[..|blocks| - 1];
    if j < |front| {
      OffsetsAscend(lz, front, i, j);
    } else {
      IndexedBlock(lz, front, i);
      NotEmpty(lz, front, i);
    }
  }

  lemma NotEmpty(lz: Lz, blocks: seq<seq<Record>>, i: nat)
    requires lz.RoundTrips() && i < |blocks|
    ensures BlockBytes(lz, blocks[i]) != []
  {
  }

  /** A data block read through its index entry is the block that was written. */
  lemma LoadedBlock(lz: Lz, blocks: seq<seq<Record>>, i: nat, file: Bytes)
    requires lz.RoundTrips() && (forall j :: 0 <= j < |blocks| ==> blocks[j] != []) && i < |blocks|
    requires DataBytes(lz, blocks) <= file && AllFit(blocks[i])
    ensures var e := IndexOf(lz, blocks)[i];
            e.offset + e.compLen <= |file| && ReadBlock(lz, file[e.offset..e.offset + e.compLen]) == Ok(blocks[i])
  {
    hide DataBytes, IndexOf, BlockBytes, ReadBlock, Lz.RoundTrips, AllFit;
    LoadedBytes(lz, blocks, i, file);
    BlockReads(lz, blocks[i]);
  }

  lemma LoadedBytes(lz: Lz, blocks: seq<seq<Record>>, i: nat, file: Bytes)
    requires (forall j :: 0 <= j < |blocks| ==> blocks[j] != []) && i < |blocks| && DataBytes(lz, blocks) <= file
    ensures var e := IndexOf(lz, blocks)[i];
            e.offset + e.compLen <= |file| && file[e.offset..e.offset + e.compLen] == BlockBytes(lz, blocks[i])
  {
    hide DataBytes, IndexOf, BlockBytes;
    IndexedBlock(lz, blocks, i);
    var e := IndexOf(lz, blocks)[i];
    PrefixSlice(DataBytes(lz, blocks), file, e.offset, e.offset + e.compLen);
  }

  lemma PrefixSlice(a: Bytes, b: Bytes, from: nat, to: nat)
    requires a <= b && from <= to <= |a|
    ensures b[from..to] == a[from..to]
  {
  }

  lemma BlockReads(lz: Lz, block: seq<Record>)
    requires lz.RoundTrips() && AllFit(block)
    ensures ReadBlock(lz, BlockBytes(lz, block)) == Ok(block)
  {
    hide EncodeAll, DecodeAll, AllFit;
    DecodeAllEncodeAll(block);
  }

  /** Decompress and decode. */
  function ReadBlock(lz: Lz, comp: Bytes): (r: Result<seq<Record>>) {
    var raw :- lz.decompress(comp);
    DecodeAll(raw)
  }

  // -------------------------------------------------------------------- writing

  function Keys(rs: seq<Record>): (keys: seq<Key>)
    ensures |keys| == |rs| && forall i :: 0 <= i < |rs| ==> keys[i] == rs[i].key
  {
    seq(|rs|, i requires 0 <= i < |rs| => rs[i].key)
  }

  lemma {:induction false} EncodeAllLen(rs: seq<Record>)
    ensures |EncodeAll(rs)| == 0 <==> rs == []
  {
  }

  /** Close the current block, if it holds anything. */
  method FlushBlock(lz: Lz, block: Bytes, firstKey: Key, data: Bytes, index: seq<IndexEntry>,
                    ghost blocks: seq<seq<Record>>, ghost cur: seq<Record>)
    returns (data': Bytes, index': seq<IndexEntry>, ghost blocks': seq<seq<Record>>)
    requires block == EncodeAll(cur) && (cur != [] ==> firstKey == cur[0].key)
    requires forall i :: 0 <= i < |blocks| ==> blocks[i] != []
    requires data == DataBytes(lz, blocks) && index == IndexOf(lz, blocks)
    ensures blocks' == if cur == [] then blocks else blocks + [cur]
    ensures forall i :: 0 <= i < |blocks'| ==> blocks'[i] != []
    ensures data' == DataBytes(lz, blocks') && index' == IndexOf(lz, blocks')
  {
    EncodeAllLen(cur);
    if block == [] {
      return data, index, blocks;
    }
    var comp := lz.compress(block);
    blocks' := blocks + [cur];
    assert blocks'[..|blocks'| - 1] == blocks;
    data' := data + comp;
    index' := index + [IndexEntry(firstKey, |data|, |comp|)];
  }

  /** The writer's state after the first `i` records: closed blocks, and the
      records of the open one. */
  ghost predicate Cutting(records: seq<Record>, i: nat, blocks: seq<seq<Record>>, cur: seq<Record>) {
    && i <= |records| && Flatten(blocks) + cur == records[..i]
    && (forall j :: 0 <= j < |blocks| ==> blocks[j] != [])
    && (forall j :: 0 < j < |blocks| ==> blocks[j - 1][|blocks[j - 1]| - 1].key != blocks[j][0].key)
    && (blocks != [] && cur != [] ==> blocks[|blocks| - 1][|blocks[|blocks| - 1]| - 1].key != cur[0].key)
    && (blocks != [] && cur == [] && i < |records| ==> blocks[|blocks| - 1][|blocks[|blocks| - 1]| - 1].key != records[i].key)
  }

  lemma CutRecord(records: seq<Record>, i: nat, blocks: seq<seq<Record>>, cur: seq<Record>)
    requires Cutting(records, i, blocks, cur) && i < |records|
    ensures Cutting(records, i + 1, blocks, cur + [records[i]])
  {
    assert records[..i + 1] == records[..i] + [records[i]];
  }

  lemma CutBlock(records: seq<Record>, i: nat, blocks: seq<seq<Record>>, cur: seq<Record>)
    requires Cutting(records, i, blocks, cur) && cur != []
    requires i < |records| ==> records[i].key != cur[|cur| - 1].key
    ensures Cutting(records, i, blocks + [cur], [])
  {
    FlattenConcat(blocks, [cur]);
    assert [cur][1..] == [] && Flatten([cur]) == cur;
    assert Flatten(blocks + [cur]) + [] == Flatten(blocks) + cur;
  }

  /** No block boundary was passed over inside `b`: at each place where the key
      changes, what came before was still too small. */
  ghost predicate Early(b: seq<Record>) {
    forall p :: 0 < p < |b| ==> |EncodeAll(b[..p])| < 4096 || b[p].key == b[p - 1].key
  }

  /** Every block was closed at the first chance, and only the last may be small. */
  ghost predicate Tight(blocks: seq<seq<Record>>) {
    && (forall j :: 0 <= j < |blocks| ==> Early(blocks[j]))
    && forall j :: 0 <= j < |blocks| - 1 ==> |EncodeAll(blocks[j])| >= 4096
  }

  /** The same in the middle of the loop. */
  ghost predicate Sized(records: seq<Record>, i: nat, blocks: seq<seq<Record>>, cur: seq<Record>) {
    && (forall j :: 0 <= j < |blocks| ==> Early(blocks[j]) && |EncodeAll(blocks[j])| >= BLOCK_SIZE)
    && Early(cur)
    && (cur != [] && |EncodeAll(cur)| >= BLOCK_SIZE ==> i < |records| && records[i].key == cur[|cur| - 1].key)
  }

  lemma EarlyPush(records: seq<Record>, i: nat, blocks: seq<seq<Record>>, cur: seq<Record>)
    requires Sized(records, i, blocks, cur) && i < |records|
    ensures Early(cur + [records[i]])
  {
    hide EncodeAll;
    var next := cur + [records[i]];
    forall p | 0 < p < |next|
      ensures |EncodeAll(next[..p])| < BLOCK_SIZE || next[p].key == next[p - 1].key
    {
      assert next[..p] == cur[..p];
      assert cur[..|cur|] == cur;
    }
  }

  /** The writer's variables after `i` records. */
  datatype Writer = Writer(block: Bytes, firstKey: Key, data: Bytes, index: seq<IndexEntry>)

  ghost predicate Writing(lz: Lz, records: seq<Record>, i: nat, w: Writer, blocks: seq<seq<Record>>, cur: seq<Record>) {
    && Cutting(records, i, blocks, cur)
    && w.block == EncodeAll(cur) && (cur != [] ==> w.firstKey == cur[0].key)
    && w.data == DataBytes(lz, blocks) && w.index == IndexOf(lz, blocks)
  }

  /** One turn of the writer's loop. A block is closed once it is large enough and
      the next record has another key. */
  method WriteRecord(lz: Lz, records: seq<Record>, i: nat, w: Writer, ghost blocks: seq<seq<Record>>, ghost cur: seq<Record>)
    returns (w': Writer, ghost blocks': seq<seq<Record>>, ghost cur': seq<Record>)
    requires i < |records| && Writing(lz, records, i, w, blocks, cur) && Sized(records, i, blocks, cur)
    ensures Writing(lz, records, i + 1, w', blocks', cur') && Sized(records, i + 1, blocks', cur')
  {
    hide Encode, EncodeAll, DataBytes, IndexOf, Early, Cutting, Flatten;
    var record := records[i];
    EarlyPush(records, i, blocks, cur);
    EarlyNothing();
    EncodeAllLen(cur);
    BlocksSome(records, i, blocks, cur);
    var firstKey := if w.block == [] then record.key else w.firstKey;
    PushEncode(cur, record);
    var block := EncodeInto(record, w.block);
    CutRecord(records, i, blocks, cur);
    blocks', cur' := blocks, cur + [record];
    w' := Writer(block, firstKey, w.data, w.index);
    var nextDiffers := i + 1 == |records| || records[i + 1].key != record.key;
    if |block| >= BLOCK_SIZE && nextDiffers {
      CutBlock(records, i + 1, blocks', cur');
      var data, index;
      data, index, blocks' := FlushBlock(lz, block, firstKey, w.data, w.index, blocks', cur');
      EncodeAllEmpty();
      w', cur' := Writer([], firstKey, data, index), [];
    }
  }

  lemma BlocksSome(records: seq<Record>, i: nat, blocks: seq<seq<Record>>, cur: seq<Record>)
    requires Cutting(records, i, blocks, cur)
    ensures forall j :: 0 <= j < |blocks| ==> blocks[j] != []
  {
  }

  lemma EarlyNothing()
    ensures Early([])
  {
  }

  /** The loop of `write`: the data and the index of a partition of the records
      that splits no key and closes each block at the first chance, and every key
      in the filter. */
  method WriteBlocks(lz: Lz, records: seq<Record>, bloom: BloomFilter)
    returns (data: Bytes, index: seq<IndexEntry>, ghost blocks: seq<seq<Record>>)
    requires bloom.Valid()
    modifies bloom.bits
    ensures bloom.Valid()
    ensures bloom.Members() == old(bloom.Members()) + AllProbes(bloom.hs, Keys(records), bloom.k, bloom.bitCount)
    ensures IsPartition(records, blocks) && Tight(blocks)
    ensures data == DataBytes(lz, blocks) && index == IndexOf(lz, blocks)
  {
    hide Encode, EncodeAll, DataBytes, IndexOf, Probes, BitSet, Writing, IsPartition, Flatten, Early, Tight;
    EarlyNothing();
    var w := Writer([], [], [], []);
    ghost var cur: seq<Record> := [];
    blocks := [];
    StartWriting(lz, records);
    ghost var members := bloom.Members();
    NoProbes(bloom.hs, bloom.k, bloom.bitCount);
    for i := 0 to |records|
      invariant bloom.Valid()
      invariant bloom.Members() == members + AllProbes(bloom.hs, Keys(records[..i]), bloom.k, bloom.bitCount)
      invariant Writing(lz, records, i, w, blocks, cur) && Sized(records, i, blocks, cur)
    {
      bloom.Insert(records[i].key);
      PushKey(records, i, bloom.hs, bloom.k, bloom.bitCount, members);
      w, blocks, cur := WriteRecord(lz, records, i, w, blocks, cur);
    }
    assert records[..|records|] == records;
    data, index, blocks := LastBlock(lz, records, w, blocks, cur);
  }

  /** The block still open at the end. */
  method LastBlock(lz: Lz, records: seq<Record>, w: Writer, ghost blocks: seq<seq<Record>>, ghost cur: seq<Record>)
    returns (data: Bytes, index: seq<IndexEntry>, ghost blocks': seq<seq<Record>>)
    requires Writing(lz, records, |records|, w, blocks, cur) && Sized(records, |records|, blocks, cur)
    ensures IsPartition(records, blocks') && Tight(blocks')
    ensures data == DataBytes(lz, blocks') && index == IndexOf(lz, blocks')
  {
    hide Encode, EncodeAll, DataBytes, IndexOf, Early;
    assert records[..|records|] == records;
    if cur != [] {
      CutBlock(records, |records|, blocks, cur);
    }
    data, index, blocks' := FlushBlock(lz, w.block, w.firstKey, w.data, w.index, blocks, cur);
    assert Flatten(blocks') + [] == Flatten(blocks');
  }

  lemma StartWriting(lz: Lz, records: seq<Record>)
    ensures Writing(lz, records, 0, Writer([], [], [], []), [], [])
  {
    EmptyParts(lz);
    assert Flatten([]) + [] == records[..0];
  }

  lemma EmptyParts(lz: Lz)
    ensures EncodeAll([]) == [] && DataBytes(lz, []) == [] && IndexOf(lz, []) == []
  {
  }

  lemma NoProbes(hs: Hashes, k: nat, bitCount: nat)
    requires bitCount > 0
    ensures AllProbes(hs, [], k, bitCount) == {}
  {
  }

  lemma PushEncode(cur: seq<Record>, r: Record)
    ensures EncodeAll(cur + [r]) == EncodeAll(cur) + Encode(r)
  {
    var all := cur + [r];
    EncodeAllPush(all, |cur|);
    assert all[..|cur| + 1] == all && all[..|cur|] == cur;
  }

  lemma PushKey(records: seq<Record>, i: nat, hs: Hashes, k: nat, bitCount: nat, members: set<nat>)
    requires i < |records| && bitCount > 0
    ensures members + AllProbes(hs, Keys(records[..i]), k, bitCount) + Probes(hs, records[i].key, k, bitCount) ==
            members + AllProbes(hs, Keys(records[..i + 1]), k, bitCount)
  {
    var keys := Keys(records[..i + 1]);
    assert keys[..|keys| - 1] == Keys(records[..i]) && keys[|keys| - 1] == records[i].key;
  }
}
