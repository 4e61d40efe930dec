/** Gets, scans and merges on the reader objects of the live tables, and the way of a
    table from records through its file to a reader. */
module ReaderStack {
  import opened Records
  import opened Codec
  import opened Layers
  import opened Retention
  import opened Ranges
  import opened Bloom
  import opened Blocks
  import opened SsTableFile
  import opened SsTable
  import opened Scan
  import opened Compaction

  /** A reader over each run of a stack, no two sharing a cache. */
  ghost predicate ReadersOf(readers: seq<SsTableReader>, stack: seq<seq<Record>>)
    reads readers, set i | 0 <= i < |readers| :: readers[i].bloom, set i | 0 <= i < |readers| :: readers[i].bloom.bits,
          set i | 0 <= i < |readers| :: readers[i].cache
  {
    && |readers| == |stack|
    && (forall i :: 0 <= i < |readers| ==> readers[i].Valid() && readers[i].records == stack[i])
    && forall i, j :: 0 <= i < j < |readers| ==> readers[i].cache != readers[j].cache
  }

  /** Newest table first, first hit wins: the layered read of the stack. */
  method SearchTables(readers: seq<SsTableReader>, ghost stack: seq<seq<Record>>, key: Key, bound: nat)
    returns (r: Option<Record>)
    requires ReadersOf(readers, stack) && forall i :: 0 <= i < |stack| ==> Consistent(stack[i])
    modifies set i | 0 <= i < |readers| :: readers[i].cache
    ensures ReadersOf(readers, stack) && r == Get(stack, key, bound)
  {
    hide Get, Newest, SsTableReader.Valid, Consistent;
    var i := |readers|;
    assert stack[..i] == stack;
    while i > 0
      invariant 0 <= i <= |readers| && ReadersOf(readers, stack)
      invariant Get(stack, key, bound) == Get(stack[..i], key, bound)
    {
      i := i - 1;
      assert stack[..i + 1] == stack[..i] + [stack[i]];
      GetPush(stack[..i], stack[i], key, bound);
      var hit := readers[i].GetAt(key, bound);
      NewestUnique(stack[i], key, bound, hit.value);
      if hit.value.Some? {
        return hit.value;
      }
    }
    NothingThere(stack[..0], key, bound);
    r := None;
  }

  lemma NothingThere(stack: seq<seq<Record>>, k: Key, h: nat)
    requires stack == []
    ensures Get(stack, k, h) == None
  {
  }

  /** Everything a lazy scan yields. */
  method DrainScan(reader: SsTableReader, start: Option<Key>) returns (recs: seq<Record>)
    requires reader.Valid()
    modifies reader.cache
    ensures reader.Valid() && recs == AtLeast(reader.records, start)
  {
    hide SsTableReader.Valid, AtLeast, Remaining;
    var scan := StartScan(reader, start);
    recs := [];
    ghost var all := AtLeast(reader.records, start);
    var more := true;
    while more
      invariant scan.Valid() && scan.reader == reader && fresh(scan) && recs + scan.Left() == all
      invariant !more ==> scan.Left() == []
      decreases |all| - |recs|, more
    {
      ghost var left := scan.Left();
      var r := scan.Next();
      if r.None? {
        more := false;
      } else {
        assert recs + left == recs + [r.value.value] + scan.Left();
        recs := recs + [r.value.value];
      }
    }
  }

  /** One scan source a table, in table order. */
  method ScanReaders(readers: seq<SsTableReader>, ghost stack: seq<seq<Record>>, start: Option<Key>)
    returns (sources: seq<Source>)
    requires ReadersOf(readers, stack)
    modifies set i | 0 <= i < |readers| :: readers[i].cache
    ensures ReadersOf(readers, stack) && |sources| == |stack|
    ensures forall i :: 0 <= i < |stack| ==> sources[i] == Source(AtLeast(stack[i], start), false)
  {
    hide SsTableReader.Valid, AtLeast;
    sources := [];
    for i := 0 to |readers|
      invariant ReadersOf(readers, stack) && |sources| == i
      invariant forall j :: 0 <= j < i ==> sources[j] == Source(AtLeast(stack[j], start), false)
    {
      var recs := DrainScan(readers[i], start);
      sources := sources + [Source(recs, false)];
    }
  }

  /** A merge fed by full walks over its input tables. */
  method CompactReaders(readers: seq<SsTableReader>, ghost stack: seq<seq<Record>>, drop: bool, min: nat)
    returns (out: seq<Record>)
    requires ReadersOf(readers, stack) && ConsistentStack(stack) && forall i :: 0 <= i < |stack| ==> Sorted(stack[i])
    modifies set i | 0 <= i < |readers| :: readers[i].cache
    ensures ReadersOf(readers, stack) && IsCompaction(stack, drop, min, out)
  {
    hide SsTableReader.Valid, ConsistentStack, Sorted, IsCompaction;
    var inputs := [];
    for i := 0 to |readers|
      invariant ReadersOf(readers, stack) && inputs == stack[..i]
    {
      var recs := readers[i].IterAll();
      inputs := inputs + [recs.value];
    }
    assert stack[..|readers|] == stack;
    out := Compact(inputs, drop, min);
  }

  /** However the records are split into blocks, the lengths fit their fields. */
  ghost predicate FitsFile(lz: Lz, records: seq<Record>, k: nat, bitCount: nat)
    requires 0 < bitCount
  {
    forall parts, bits :: IsPartition(records, parts) && |bits| == ByteLen(bitCount) ==>
      FileFits(DataBytes(lz, parts), IndexOf(lz, parts), EncodeFilter(k, bitCount, bits), |records|)
  }

  /** Write a table and open it: a reader over the same records. */
  method WriteAndOpen(lz: Lz, hs: Hashes, records: seq<Record>, bitCount: nat, k: nat, bloomEnabled: bool)
    returns (file: Bytes, reader: SsTableReader)
    requires lz.RoundTrips() && Sorted(records) && AllFit(records)
    requires 0 < bitCount < U64_LIMIT && 0 < k < U32_LIMIT && FitsFile(lz, records, k, bitCount)
    ensures fresh(reader) && reader.Valid() && reader.records == records && reader.file == file
  {
    hide SsTableReader.Valid, Sorted, AllFit, FileFits, DataBytes, IndexOf, EncodeFilter, BitSet, AllProbes, IsPartition,
      Lz.RoundTrips, TableFile;
    ghost var parts, bits;
    file, parts, bits := SsTable.WriteTable(lz, hs, records, bitCount, k);
    reader := OpenTable(lz, hs, file, bloomEnabled, records, parts, k, bitCount, bits);
  }
}
