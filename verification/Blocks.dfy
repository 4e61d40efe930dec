/** A sorted run cut into blocks that never split a key, and the two ways to find
    one's place in it: the block a point lookup scans, and the block a range scan
    starts from. */
module Blocks {
  import opened Records
  import opened Layers
  import opened Ranges
  import opened MemTables

  function Flatten(blocks: seq<seq<Record>>): (run: seq<Record>) {
    if blocks == [] then [] else blocks[0] + Flatten(blocks[1..])
  }

  /** Blocks of `records`: none empty, and no key in two of them. */
  ghost predicate IsPartition(records: seq<Record>, blocks: seq<seq<Record>>) {
    && Flatten(blocks) == records
    && (forall i :: 0 <= i < |blocks| ==> blocks[i] != [])
    && forall i :: 0 < i < |blocks| ==> blocks[i - 1][|blocks[i - 1]| - 1].key != blocks[i][0].key
  }

  lemma {:induction false} FlattenMember(blocks: seq<seq<Record>>, x: Record)
    ensures x in Flatten(blocks) <==> Member(blocks, x)
  {
    if blocks != [] {
      FlattenMember(blocks[1..], x);
      assert blocks == [blocks[0]] + blocks[1..];
      MemberConcat([blocks[0]], blocks[1..], x);
      MemberOne(blocks[0], x);
    }
  }

  lemma {:induction false} FlattenConcat(a: seq<seq<Record>>, b: seq<seq<Record>>)
    ensures Flatten(a + b) == Flatten(a) + Flatten(b)
  {
    if a == [] {
      assert a + b == b;
    } else {
      assert (a + b)[1..] == a[1..] + b;
      FlattenConcat(a[1..], b);
    }
  }

  // ------------------------------------------------------------------- ordering

  /** Dropping the first block leaves a partition of the rest. */
  lemma PartitionTail(records: seq<Record>, blocks: seq<seq<Record>>)
    requires IsPartition(records, blocks) && Sorted(records) && blocks != []
    ensures IsPartition(records[|blocks[0]|..], blocks[1..]) && Sorted(records[|blocks[0]|..])
    ensures records == blocks[0] + records[|blocks[0]|..] && Sorted(blocks[0])
  {
    var n := |blocks[0]|;
    assert records == blocks[0] + Flatten(blocks[1..]);
    assert records[n..] == Flatten(blocks[1..]);
    assert forall i :: 0 <= i < n ==> blocks[0][i] == records[i];
    assert forall i :: 0 < i < |blocks[1..]| ==> blocks[1..][i - 1] == blocks[i] && blocks[1..][i] == blocks[i + 1];
  }

  /** Every key of the first block is below every later key. */
  lemma FirstBelowRest(records: seq<Record>, blocks: seq<seq<Record>>, x: Record, y: Record)
    requires IsPartition(records, blocks) && Sorted(records) && blocks != []
    requires x in blocks[0] && y in Flatten(blocks[1..])
    ensures Less(x.key, y.key)
  {
    var n := |blocks[0]|;
    PartitionTail(records, blocks);
    var rest := records[n..];
    assert rest == Flatten(blocks[1..]);
    assert blocks[1..] != [];
    assert rest[0] == blocks[1][0];
    var i :| 0 <= i < n && blocks[0][i] == x;
    var j :| 0 <= j < |rest| && rest[j] == y;
    assert x == records[i] && y == records[n + j] && records[n - 1] == blocks[0][n - 1] && records[n] == blocks[1][0];
    assert InOrder(records[n - 1], records[n]);
    assert Less(records[n - 1].key, records[n].key);
    if i < n - 1 {
      BelowThrough(records[i], records[n - 1], records[n]);
    }
    if j > 0 {
      ThroughBelow(x, records[n], y);
    }
  }

  lemma BelowThrough(a: Record, b: Record, c: Record)
    requires InOrder(a, b) && Less(b.key, c.key)
    ensures Less(a.key, c.key)
  {
    if a.key != b.key {
      LessTransitive(a.key, b.key, c.key);
    }
  }

  lemma ThroughBelow(a: Record, b: Record, c: Record)
    requires Less(a.key, b.key) && InOrder(b, c)
    ensures Less(a.key, c.key)
  {
    if b.key != c.key {
      LessTransitive(a.key, b.key, c.key);
    }
  }

  /** Keys of an earlier block are below keys of a later one, and each block is
      sorted. */
  lemma {:induction false} BlocksOrdered(records: seq<Record>, blocks: seq<seq<Record>>, i: nat, j: nat)
    requires IsPartition(records, blocks) && Sorted(records) && i < j < |blocks|
    ensures forall x, y :: x in blocks[i] && y in blocks[j] ==> Less(x.key, y.key)
    decreases i
  {
    var tail := blocks[1..];
    if i == 0 {
      forall x, y | x in blocks[0] && y in blocks[j]
        ensures Less(x.key, y.key)
      {
        assert y in tail[j - 1];
        FlattenMember(tail, y);
        FirstBelowRest(records, blocks, x, y);
      }
    } else {
      PartitionTail(records, blocks);
      BlocksOrdered(records[|blocks[0]|..], tail, i - 1, j - 1);
      assert tail[i - 1] == blocks[i] && tail[j - 1] == blocks[j];
    }
  }

  lemma {:induction false} BlockSorted(records: seq<Record>, blocks: seq<seq<Record>>, i: nat)
    requires IsPartition(records, blocks) && Sorted(records) && i < |blocks|
    ensures Sorted(blocks[i])
    decreases i
  {
    PartitionTail(records, blocks);
    if i > 0 {
      BlockSorted(records[|blocks[0]|..], blocks[1..], i - 1);
      assert blocks[1..][i - 1] == blocks[i];
    }
  }

  // -------------------------------------------------------------- binary search

  predicate KeysAscend(keys: seq<Key>) {
    forall i, j :: 0 <= i < j < |keys| ==> Less(keys[i], keys[j])
  }

  /** The number of keys at or below `key`. */
  ghost predicate Brackets(keys: seq<Key>, key: Key, n: nat) {
    && n <= |keys|
    && (forall i :: 0 <= i < n ==> !Less(key, keys[i]))
    && (forall i :: n <= i < |keys| ==> Less(key, keys[i]))
  }

  /** The standard library's search: an index holding the key, or the index where
      it would be inserted. */
  method BinarySearch(keys: seq<Key>, key: Key) returns (found: bool, at: nat)
    requires KeysAscend(keys)
    ensures found ==> at < |keys| && keys[at] == key
    ensures !found ==> at <= |keys| && forall i :: 0 <= i < at ==> Less(keys[i], key)
    ensures !found ==> forall i :: at <= i < |keys| ==> Less(key, keys[i])
  {
    var lo, hi := 0, |keys|;
    while lo < hi
      invariant 0 <= lo <= hi <= |keys|
      invariant forall i :: 0 <= i < lo ==> Less(keys[i], key)
      invariant forall i :: hi <= i < |keys| ==> Less(key, keys[i])
    {
      var mid := lo + (hi - lo) / 2;
      if keys[mid] == key {
        return true, mid;
      } else if Less(keys[mid], key) {
        forall i | 0 <= i < mid
          ensures Less(keys[i], key)
        {
          LessTransitive(keys[i], keys[mid], key);
        }
        lo := mid + 1;
      } else {
        LessTotal(keys[mid], key);
        forall i | mid < i < |keys|
          ensures Less(key, keys[i])
        {
          LessTransitive(key, keys[mid], keys[i]);
        }
        hi := mid;
      }
    }
    return false, lo;
  }

  /** The last block whose first key is at or below `key`; `None` when the key
      precedes the table. */
  method BracketingBlock(keys: seq<Key>, key: Key) returns (b: Option<nat>)
    requires KeysAscend(keys)
    ensures b.None? ==> Brackets(keys, key, 0)
    ensures b.Some? ==> Brackets(keys, key, b.value + 1)
  {
    var found, at := BinarySearch(keys, key);
    if found {
      LessIrreflexive(key);
      forall i | 0 <= i < at
        ensures !Less(key, keys[i])
      {
        LessAsymmetric(keys[i], key);
      }
      return Some(at);
    }
    forall i | 0 <= i < at
      ensures !Less(key, keys[i])
    {
      LessAsymmetric(keys[i], key);
    }
    if at == 0 {
      return None;
    }
    return Some(at - 1);
  }

  function FirstKeys(blocks: seq<seq<Record>>): (keys: seq<Key>)
    requires forall i :: 0 <= i < |blocks| ==> blocks[i] != []
    ensures |keys| == |blocks| && forall i :: 0 <= i < |blocks| ==> keys[i] == blocks[i][0].key
  {
    seq(|blocks|, i requires 0 <= i < |blocks| => blocks[i][0].key)
  }

  lemma FirstKeysAscend(records: seq<Record>, blocks: seq<seq<Record>>)
    requires IsPartition(records, blocks) && Sorted(records)
    ensures KeysAscend(FirstKeys(blocks))
  {
    forall i, j | 0 <= i < j < |blocks|
      ensures Less(blocks[i][0].key, blocks[j][0].key)
    {
      BlocksOrdered(records, blocks, i, j);
      assert blocks[i][0] in blocks[i] && blocks[j][0] in blocks[j];
    }
  }

  // ------------------------------------------------------------- point lookups

  /** All versions of the key that the table holds are in the bracketing block. */
  lemma OnlyInBracket(records: seq<Record>, blocks: seq<seq<Record>>, key: Key, n: nat, x: Record)
    requires IsPartition(records, blocks) && Sorted(records) && Brackets(FirstKeys(blocks), key, n)
    requires x in records && x.key == key
    ensures n > 0 && x in blocks[n - 1]
  {
    FlattenMember(blocks, x);
    var j :| 0 <= j < |blocks| && x in blocks[j];
    BlockSorted(records, blocks, j);
    HeadLeast(blocks[j], x);
    LessIrreflexive(key);
    if j >= n {
      assert Less(key, FirstKeys(blocks)[j]);
      LessAsymmetric(key, blocks[j][0].key);
      assert false;
    }
    assert blocks[n - 1][0] in blocks[n - 1] && !Less(key, FirstKeys(blocks)[n - 1]);
    if j < n - 1 {
      BlocksOrdered(records, blocks, j, n - 1);
      assert false;
    }
  }

  /** The scan of one block, stopping at the first greater key. */
  method ScanBlock(block: seq<Record>, key: Key, bound: nat) returns (r: Option<Record>)
    requires Sorted(block)
    ensures IsNewest(block, key, bound, r)
  {
    for i := 0 to |block|
      invariant forall j :: 0 <= j < i ==> !Visible(block[j], key, bound)
    {
      LessTotal(block[i].key, key);
      if block[i].key == key {
        if block[i].seqno < bound {
          FirstIsNewest(block, key, bound, i);
          return Some(block[i]);
        }
      } else if Less(key, block[i].key) {
        forall j | i <= j < |block|
          ensures block[j].key != key
        {
          LessIrreflexive(key);
          if i < j {
            ThroughBelow(Record(key, None, 0), block[i], block[j]);
          }
        }
        return None;
      }
    }
    return None;
  }

  /** So the newest version in the bracketing block is the newest in the table. */
  lemma BlockAnswers(records: seq<Record>, blocks: seq<seq<Record>>, key: Key, bound: nat, n: nat, o: Option<Record>)
    requires IsPartition(records, blocks) && Sorted(records) && Brackets(FirstKeys(blocks), key, n)
    requires if n == 0 then o == None else IsNewest(blocks[n - 1], key, bound, o)
    ensures IsNewest(records, key, bound, o)
  {
    if o.Some? {
      assert Member(blocks, o.value);
      FlattenMember(blocks, o.value);
    }
    forall x | x in records && Visible(x, key, bound)
      ensures n > 0 && x in blocks[n - 1]
    {
      OnlyInBracket(records, blocks, key, n, x);
    }
  }

  // --------------------------------------------------------------- range scans

  lemma {:induction false} AtLeastConcat(a: seq<Record>, b: seq<Record>, start: Option<Key>)
    ensures AtLeast(a + b, start) == (if AtLeast(a, start) == [] then AtLeast(b, start) else AtLeast(a, start) + b)
  {
    if start.None? {
      assert a == [] ==> a + b == b;
    } else if a == [] {
      assert a + b == b;
    } else if Less(a[0].key, start.value) {
      assert (a + b)[1..] == a[1..] + b;
      AtLeastConcat(a[1..], b, start);
    }
  }

  lemma {:induction false} AllBelow(run: seq<Record>, start: Key)
    requires forall x :: x in run ==> Less(x.key, start)
    ensures AtLeast(run, Some(start)) == []
  {
    if run != [] {
      assert run[0] in run;
      AllBelow(run[1..], start);
    }
  }

  /** From the bracketing block on, only that block holds anything to skip. */
  lemma ScanFrom(records: seq<Record>, blocks: seq<seq<Record>>, start: Key, b: nat)
    requires IsPartition(records, blocks) && Sorted(records) && b < |blocks|
    requires Brackets(FirstKeys(blocks), start, b + 1) || (b == 0 && Brackets(FirstKeys(blocks), start, 0))
    ensures AtLeast(records, Some(start)) == AtLeast(blocks[b], Some(start)) + Flatten(blocks[b + 1..])
  {
    var front, rest := Flatten(blocks[..b]), Flatten(blocks[b + 1..]);
    assert blocks == blocks[..b] + ([blocks[b]] + blocks[b + 1..]);
    FlattenConcat(blocks[..b], [blocks[b]] + blocks[b + 1..]);
    assert ([blocks[b]] + blocks[b + 1..])[1..] == blocks[b + 1..];
    assert records == front + (blocks[b] + rest);
    forall x | x in front
      ensures Less(x.key, start)
    {
      FrontBelow(records, blocks, start, b, x);
    }
    AllBelow(front, start);
    AtLeastConcat(front, blocks[b] + rest, Some(start));
    AtLeastConcat(blocks[b], rest, Some(start));
    if rest != [] {
      RestAbove(records, blocks, start, b);
      assert AtLeast(rest, Some(start)) == rest;
    }
    assert [] + rest == rest;
  }

  lemma FrontBelow(records: seq<Record>, blocks: seq<seq<Record>>, start: Key, b: nat, x: Record)
    requires IsPartition(records, blocks) && Sorted(records) && b < |blocks|
    requires Brackets(FirstKeys(blocks), start, b + 1) || (b == 0 && Brackets(FirstKeys(blocks), start, 0))
    requires x in Flatten(blocks[..b])
    ensures Less(x.key, start)
  {
    FlattenMember(blocks[..b], x);
    var j :| 0 <= j < |blocks[..b]| && x in blocks[..b][j];
    BlocksOrdered(records, blocks, j, b);
    assert blocks[b][0] in blocks[b];
    assert !Less(start, FirstKeys(blocks)[b]);
    LessTotal(blocks[b][0].key, start);
    if blocks[b][0].key != start {
      LessTransitive(x.key, blocks[b][0].key, start);
    }
  }

  lemma RestAbove(records: seq<Record>, blocks: seq<seq<Record>>, start: Key, b: nat)
    requires IsPartition(records, blocks) && Sorted(records) && b < |blocks| && Flatten(blocks[b + 1..]) != []
    requires Brackets(FirstKeys(blocks), start, b + 1) || (b == 0 && Brackets(FirstKeys(blocks), start, 0))
    ensures !Less(Flatten(blocks[b + 1..])[0].key, start)
  {
    var rest := blocks[b + 1..];
    assert rest != [] && rest[0] == blocks[b + 1];
    assert Flatten(rest)[0] == blocks[b + 1][0];
    assert Less(start, FirstKeys(blocks)[b + 1]);
    LessAsymmetric(start, blocks[b + 1][0].key);
  }
}
