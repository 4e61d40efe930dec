/** Reading an SSTable: cached block loads, point lookups behind the Bloom filter,
    full walks and lazy range scans. */
module SsTable {
  import opened Records
  import opened Codec
  import opened Layers
  import opened Ranges
  import opened Blocks
  import opened Bloom
  import opened SsTableFile

  const BLOCK_CACHE_CAP: nat := 64

  // ----------------------------------------------------------------- the cache

  ghost predicate NoDuplicates(order: seq<nat>) {
    forall i, j :: 0 <= i < j < |order| ==> order[i] != order[j]
  }

  /** A bounded cache of decoded blocks, evicting the oldest insertion. */
  class BlockCache {
    var blocks: map<nat, seq<Record>>
    var order: seq<nat>

    constructor ()
      ensures Valid() && blocks == map[] && order == []
    {
      blocks, order := map[], [];
    }

    /** The queue lists the cached offsets, each once, at most the capacity. */
    ghost predicate Valid()
      reads this
    {
      && NoDuplicates(order)
      && (forall o :: o in order <==> o in blocks)
      && |order| <= 64
    }

    function Get(offset: nat): (o: Option<seq<Record>>)
      reads this
    {
      if offset in blocks then Some(blocks[offset]) else None
    }

    /** The block is cached afterwards; at capacity exactly the oldest entry goes. */
    method Put(offset: nat, block: seq<Record>)
      requires Valid()
      modifies this
      ensures Valid() && offset in blocks
      ensures old(offset in blocks) ==> blocks == old(blocks) && order == old(order)
      ensures !old(offset in blocks) && |old(order)| < 64 ==>
                blocks == old(blocks)[offset := block] && order == old(order) + [offset]
      ensures !old(offset in blocks) && |old(order)| == 64 ==>
                blocks == (old(blocks) - {old(order)[0]})[offset := block] && order == old(order)[1..] + [offset]
    {
      if offset in blocks {
        return;
      }
      if |order| >= BLOCK_CACHE_CAP {
        var evicted := order[0];
        order := order[1..];
        blocks := blocks - {evicted};
      }
      blocks := blocks[offset := block];
      order := order + [offset];
    }
  }

  // ---------------------------------------------------------------- the reader

  class SsTableReader {
    const lz: Lz
    const file: Bytes
    const index: seq<IndexEntry>
    const bloom: BloomFilter
    const bloomEnabled: bool
    const cache: BlockCache
    /** What the file was written from. */
    ghost const records: seq<Record>
    ghost const parts: seq<seq<Record>>

    /** `open` on a file the writer produced. */
    constructor (lz: Lz, file: Bytes, parsed: Parsed, bloom: BloomFilter, bloomEnabled: bool,
                 ghost records: seq<Record>, ghost parts: seq<seq<Record>>)
      requires lz.RoundTrips() && Sorted(records) && AllFit(records) && IsPartition(records, parts)
      requires DataBytes(lz, parts) <= file && parsed.index == IndexOf(lz, parts)
      requires bloom.Valid()
      requires forall r :: r in records ==> Probes(bloom.hs, r.key, bloom.k, bloom.bitCount) <= bloom.Members()
      ensures Valid() && this.records == records && this.bloom == bloom && fresh(cache) && this.file == file
    {
      this.lz, this.file, this.index, this.bloom, this.bloomEnabled := lz, file, parsed.index, bloom, bloomEnabled;
      this.records, this.parts := records, parts;
      this.cache := new BlockCache();
    }

    ghost predicate Valid()
      reads this, bloom, bloom.bits, cache
    {
      && lz.RoundTrips() && Sorted(records) && AllFit(records) && IsPartition(records, parts)
      && DataBytes(lz, parts) <= file && index == IndexOf(lz, parts)
      && bloom.Valid()
      && (forall r :: r in records ==> Probes(bloom.hs, r.key, bloom.k, bloom.bitCount) <= bloom.Members())
      && cache.Valid() && Coherent()
    }

    /** Each cached block is the block of its offset. */
    ghost predicate Coherent()
      reads this, cache
    {
      forall i :: 0 <= i < |index| && |index| == |parts| && index[i].offset in cache.blocks ==>
        cache.blocks[index[i].offset] == parts[i]
    }

    /** A block through the cache is the block as written, cached or not. */
    method LoadBlock(i: nat) returns (r: Result<seq<Record>>)
      requires Valid() && i < |index|
      modifies cache
      ensures Valid() && i < |parts| && r == Ok(parts[i])
    {
      hide IndexOf, DataBytes, IsPartition, AllFit, Sorted, Lz.RoundTrips, BloomFilter.Members;
      IndexLen(lz, records, parts);
      PartFits(i);
      var e := index[i];
      var hit := cache.Get(e.offset);
      if hit.Some? {
        return Ok(hit.value);
      }
      LoadedBlock(lz, parts, i, file);
      var comp := file[e.offset..e.offset + e.compLen];
      r := ReadBlockBytes(lz, comp);
      forall j | 0 <= j < |index| && j != i
        ensures index[j].offset != e.offset
      {
        if i < j {
          OffsetsAscend(lz, parts, i, j);
        } else {
          OffsetsAscend(lz, parts, j, i);
        }
      }
      cache.Put(e.offset, r.value);
    }

    lemma Facts()
      requires Valid()
      ensures IsPartition(records, parts) && Sorted(records)
    {
    }

    lemma PartFits(i: nat)
      requires Valid() && i < |parts|
      ensures AllFit(parts[i])
    {
      forall x | x in parts[i]
        ensures Fits(x)
      {
        assert Member(parts, x);
        FlattenMember(parts, x);
      }
    }

    /** A point lookup refines a linear scan of the records: the newest version of
        the key below the bound, or none if there is none. */
    method GetAt(key: Key, bound: nat) returns (r: Result<Option<Record>>)
      requires Valid()
      modifies cache
      ensures Valid()
      ensures r.Ok? && IsNewest(records, key, bound, r.value)
    {
      hide IndexOf, DataBytes, Lz.RoundTrips, BloomFilter.Members, AllFit, Sorted, Probes;
      IndexLen(lz, records, parts);
      if index == [] {
        assert Flatten(parts) == [];
        return Ok(None);
      }
      if bloomEnabled {
        var maybe := bloom.Contains(key);
        if !maybe {
          return Ok(None);
        }
      }
      var keys := IndexKeys(index);
      IndexFirstKeys(lz, records, parts);
      FirstKeysAscend(records, parts);
      var at := BracketingBlock(keys, key);
      if at.None? {
        BlockAnswers(records, parts, key, bound, 0, None);
        return Ok(None);
      }
      var block := LoadBlock(at.value);
      BlockSorted(records, parts, at.value);
      var o := ScanBlock(block.value, key, bound);
      BlockAnswers(records, parts, key, bound, at.value + 1, o);
      return Ok(o);
    }

    /** A full walk returns the records written, in order. */
    method IterAll() returns (r: Result<seq<Record>>)
      requires Valid()
      modifies cache
      ensures Valid() && r == Ok(records)
    {
      hide IndexOf, DataBytes, Lz.RoundTrips, BloomFilter.Members, AllFit, Sorted, Probes, Coherent;
      IndexLen(lz, records, parts);
      var all := [];
      for i := 0 to |index|
        invariant Valid() && all == Flatten(parts[..i])
      {
        var block := LoadBlock(i);
        FlattenConcat(parts[..i], [parts[i]]);
        assert parts[..i + 1] == parts[..i] + [parts[i]];
        assert [parts[i]][1..] == [] && Flatten([parts[i]]) == parts[i] + Flatten([parts[i]][1..]);
        all := all + block.value;
      }
      assert parts[..|parts|] == parts;
      return Ok(all);
    }
  }

  method ReadBlockBytes(lz: Lz, comp: Bytes) returns (r: Result<seq<Record>>)
    ensures r == ReadBlock(lz, comp)
  {
    var raw := lz.decompress(comp);
    if raw.Err? { return Err(raw.error); }
    var records, pos := [], 0;
    while pos < |raw.value|
      invariant 0 <= pos <= |raw.value|
      invariant DecodeAll(raw.value) == After(records, DecodeAll(raw.value[pos..]))
      decreases |raw.value| - pos
    {
      hide Decode;
      var rec, next := DecodeAt(raw.value, pos);
      if rec.Err? { return Err(rec.error); }
      AfterAfter(records, [rec.value], DecodeAll(raw.value[next..]));
      records := records + [rec.value];
      pos := next;
    }
    assert records + [] == records;
    return Ok(records);
  }

  function IndexKeys(index: seq<IndexEntry>): (keys: seq<Key>)
    ensures |keys| == |index| && forall i :: 0 <= i < |index| ==> keys[i] == index[i].firstKey
  {
    seq(|index|, i requires 0 <= i < |index| => index[i].firstKey)
  }

  lemma IndexLen(lz: Lz, records: seq<Record>, parts: seq<seq<Record>>)
    requires IsPartition(records, parts)
    ensures (forall i :: 0 <= i < |parts| ==> parts[i] != []) && |IndexOf(lz, parts)| == |parts|
  {
  }

  lemma IndexFirstKeys(lz: Lz, records: seq<Record>, parts: seq<seq<Record>>)
    requires IsPartition(records, parts)
    ensures IndexKeys(IndexOf(lz, parts)) == FirstKeys(parts)
  {
    hide IndexOf, DataBytes;
    forall i | 0 <= i < |parts|
      ensures IndexOf(lz, parts)[i].firstKey == parts[i][0].key
    {
      IndexedBlock(lz, parts, i);
    }
  }

  // ------------------------------------------------------------- lazy range scan

  /** The first block that could hold a key at or above `start`. */
  method FirstBlock(index: seq<IndexEntry>, start: Option<Key>) returns (b: nat)
    requires KeysAscend(IndexKeys(index))
    ensures b <= |index| && (b == |index| <==> index == [])
    ensures start.None? ==> b == 0
    ensures start.Some? && index != [] ==>
              Brackets(IndexKeys(index), start.value, b + 1) || (b == 0 && Brackets(IndexKeys(index), start.value, 0))
  {
    if index == [] || start.None? {
      return 0;
    }
    var at := BracketingBlock(IndexKeys(index), start.value);
    return if at.Some? then at.value else 0;
  }

  /** What a scan standing at a block and a position has yet to yield. */
  ghost function Remaining(parts: seq<seq<Record>>, block: nat, pos: nat, start: Option<Key>): (run: seq<Record>)
    requires block <= |parts| && (block < |parts| ==> pos <= |parts[block]|)
  {
    if block == |parts| then [] else AtLeast(parts[block][pos..], start) + Flatten(parts[block + 1..])
  }

  /** A lazy walk over one table from a starting key, one block at a time. */
  class TableScan {
    const reader: SsTableReader
    var block: nat
    var loaded: Option<seq<Record>>
    var pos: nat
    var start: Option<Key>

    constructor (reader: SsTableReader, first: nat, start: Option<Key>)
      requires reader.Valid() && |reader.index| == |reader.parts| && first <= |reader.parts|
      ensures Valid() && fresh(this) && this.reader == reader && Left() == Remaining(reader.parts, first, 0, start)
    {
      this.reader, this.block, this.loaded, this.pos, this.start := reader, first, None, 0, start;
      new;
      hide SsTableReader.Valid, Remaining;
    }

    ghost predicate Valid()
      reads this, reader, reader.bloom, reader.bloom.bits, reader.cache
    {
      && reader.Valid() && |reader.index| == |reader.parts| && block <= |reader.parts|
      && (loaded.Some? ==> block < |reader.parts| && loaded.value == reader.parts[block] && pos <= |loaded.value|)
      && (loaded.None? ==> pos == 0)
    }

    /** The records this scan has yet to yield. */
    ghost function Left(): (run: seq<Record>)
      reads this, reader, reader.bloom, reader.bloom.bits, reader.cache
      requires Valid()
    {
      Remaining(reader.parts, block, pos, start)
    }

    /** The next record of the suffix, or the end of it. */
    method Next() returns (r: Option<Result<Record>>)
      requires Valid()
      modifies this, reader.cache
      ensures Valid()
      ensures r == None ==> old(Left()) == [] && Left() == []
      ensures r.Some? ==> r.value.Ok? && old(Left()) == [r.value.value] + Left()
    {
      hide SsTableReader.Valid, Flatten, AtLeast;
      ghost var left := Left();
      while true
        invariant Valid() && Left() == left
        decreases |reader.parts| - block, if block < |reader.parts| then |reader.parts[block]| - pos else 0
      {
        reader.Facts();
        if loaded.None? {
          if block >= |reader.index| {
            return None;
          }
          var b := reader.LoadBlock(block);
          loaded, pos := Some(b.value), 0;
        }
        if pos < |loaded.value| {
          var record := loaded.value[pos];
          StepScan(reader.records, reader.parts, block, pos, start);
          pos := pos + 1;
          if start.Some? && Less(record.key, start.value) {
            continue;
          }
          return Some(Ok(record));
        } else {
          NextBlock(reader.parts, block, start);
          block, loaded, pos, start := block + 1, None, 0, None;
        }
      }
    }
  }

  /** `scan`: a walk over exactly the records at or above the start key. */
  method StartScan(reader: SsTableReader, start: Option<Key>) returns (scan: TableScan)
    requires reader.Valid()
    ensures scan.Valid() && fresh(scan) && scan.reader == reader && scan.Left() == AtLeast(reader.records, start)
  {
    hide IndexOf, DataBytes, AtLeast, Flatten, Brackets, SsTableReader.Coherent, BloomFilter.Members,
      BlockCache.Valid, AllFit, Sorted, Lz.RoundTrips, KeysAscend;
    IndexLen(reader.lz, reader.records, reader.parts);
    IndexFirstKeys(reader.lz, reader.records, reader.parts);
    FirstKeysAscend(reader.records, reader.parts);
    var first := FirstBlock(reader.index, start);
    ScanStarts(reader.lz, reader.records, reader.parts, first, start);
    scan := new TableScan(reader, first, start);
  }

  lemma ScanStarts(lz: Lz, records: seq<Record>, parts: seq<seq<Record>>, first: nat, start: Option<Key>)
    requires IsPartition(records, parts) && Sorted(records)
    requires first <= |parts| && (first == |parts| <==> parts == [])
    requires start.None? ==> first == 0
    requires start.Some? && parts != [] ==>
               || Brackets(IndexKeys(IndexOf(lz, parts)), start.value, first + 1)
               || (first == 0 && Brackets(IndexKeys(IndexOf(lz, parts)), start.value, 0))
    ensures Remaining(parts, first, 0, start) == AtLeast(records, start)
  {
    hide IndexOf;
    if parts != [] {
      assert parts[first][0..] == parts[first];
      if start.Some? {
        IndexFirstKeys(lz, records, parts);
        ScanFrom(records, parts, start.value, first);
      }
    }
  }

  /** Stepping over one record of a block. */
  lemma StepScan(records: seq<Record>, parts: seq<seq<Record>>, block: nat, pos: nat, start: Option<Key>)
    requires IsPartition(records, parts) && Sorted(records) && block < |parts| && pos < |parts[block]|
    ensures var r := parts[block][pos];
            Remaining(parts, block, pos, start) ==
              (if start.Some? && Less(r.key, start.value) then [] else [r]) + Remaining(parts, block, pos + 1, start)
  {
    var run, r := parts[block][pos..], parts[block][pos];
    BlockSorted(records, parts, block);
    assert run[0] == r && run[1..] == parts[block][pos + 1..];
    if start.Some? && !Less(r.key, start.value) && run[1..] != [] {
      assert InOrder(run[0], run[1]);
      if Less(run[1].key, start.value) && r.key != run[1].key {
        LessTransitive(r.key, run[1].key, start.value);
      }
    }
    assert AtLeast(run, start) == (if start.Some? && Less(r.key, start.value) then [] else [r]) + AtLeast(run[1..], start);
  }

  lemma NextBlock(parts: seq<seq<Record>>, block: nat, start: Option<Key>)
    requires block < |parts|
    ensures Remaining(parts, block, |parts[block]|, start) == Remaining(parts, block + 1, 0, None)
  {
    assert parts[block][|parts[block]|..] == [];
    assert AtLeast([], start) == [];
    var rest := parts[block + 1..];
    if rest != [] {
      assert rest[0] == parts[block + 1] && rest[1..] == parts[block + 2..];
      assert parts[block + 1][0..] == parts[block + 1];
    }
  }

  // ------------------------------------------------------------ write, then open

  /** `write`: the file of a partition of the records, its index, and a filter
      holding every key. */
  method WriteTable(lz: Lz, hs: Hashes, records: seq<Record>, bitCount: nat, k: nat)
    returns (file: Bytes, ghost parts: seq<seq<Record>>, ghost bits: seq<bv8>)
    requires 0 < bitCount < U64_LIMIT && 0 < k < U32_LIMIT
    ensures IsPartition(records, parts) && Tight(parts) && |bits| == ByteLen(bitCount)
    ensures file == TableFile(DataBytes(lz, parts), IndexOf(lz, parts), EncodeFilter(k, bitCount, bits), |records|)
    ensures BitSet(bits, bitCount) == AllProbes(hs, Keys(records), k, bitCount)
  {
    hide DataBytes, IndexOf, IndexBytes, EncodeFilter, BitSet, Tight;
    var bloom := new BloomFilter(hs, bitCount, k);
    var data, index;
    data, index, parts := WriteBlocks(lz, records, bloom);
    bits := bloom.bits[..];
    var bloomBytes := bloom.Encode();
    var ib := IndexBytes(index);
    file := data + ib + bloomBytes + Footer(|data|, |index|, |data| + |ib|, |bloomBytes|, |records|);
  }

  /** Opening what `write` wrote gives a reader over the same records. */
  method OpenTable(lz: Lz, hs: Hashes, file: Bytes, bloomEnabled: bool,
                   ghost records: seq<Record>, ghost parts: seq<seq<Record>>, ghost k: nat, ghost bitCount: nat,
                   ghost bits: seq<bv8>)
    returns (reader: SsTableReader)
    requires lz.RoundTrips() && Sorted(records) && AllFit(records) && IsPartition(records, parts)
    requires 0 < k < U32_LIMIT && 0 < bitCount < U64_LIMIT && |bits| == ByteLen(bitCount)
    requires BitSet(bits, bitCount) == AllProbes(hs, Keys(records), k, bitCount)
    requires FileFits(DataBytes(lz, parts), IndexOf(lz, parts), EncodeFilter(k, bitCount, bits), |records|)
    requires file == TableFile(DataBytes(lz, parts), IndexOf(lz, parts), EncodeFilter(k, bitCount, bits), |records|)
    ensures fresh(reader) && reader.Valid() && reader.records == records && reader.file == file
  {
    hide DataBytes, IndexOf, IndexBytes, EncodeFilter, BitSet, AllProbes, Open, FileFits, Flatten, Sorted, AllFit,
      Footer, Lz.RoundTrips;
    OpenWritten(DataBytes(lz, parts), IndexOf(lz, parts), k, bitCount, bits, |records|);
    var p := Open(file).value;
    var bloom := new BloomFilter.FromBits(hs, p.bitCount, p.k, p.bits);
    forall x | x in records
      ensures Probes(hs, x.key, k, bitCount) <= AllProbes(hs, Keys(records), k, bitCount)
    {
      var i :| 0 <= i < |records| && records[i] == x;
      assert Keys(records)[i] == x.key;
      InsertedProbes(hs, Keys(records), k, bitCount, x.key);
    }
    DataFirst(DataBytes(lz, parts), IndexBytes(IndexOf(lz, parts)), EncodeFilter(k, bitCount, bits));
    reader := new SsTableReader(lz, file, p, bloom, bloomEnabled, records, parts);
  }

  lemma DataFirst(data: Bytes, ib: Bytes, bloom: Bytes)
    ensures forall f: Bytes :: data <= data + ib + bloom + f
  {
  }
}
