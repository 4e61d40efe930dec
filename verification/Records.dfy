/** Versioned records, the byte order on keys and the order in which every
    sorted run of the engine (MemTable, SSTable) stores its versions. */
module Records {

  datatype Option<+T> = None | Some(value: T)

  /** The two error kinds of the decoders and of replay. */
  datatype Error = Corrupt | BadFormat

  datatype Result<+T> = Ok(value: T) | Err(error: Error) {
    predicate IsFailure() {
      Err?
    }

    function PropagateFailure<U>(): Result<U>
      requires Err?
    {
      Err(error)
    }

    function Extract(): T
      requires Ok?
    {
      value
    }
  }

  type Byte = b: int | 0 <= b < 0x100
  type Bytes = seq<Byte>
  type Key = Bytes

  const U32_LIMIT: nat := 0x1_0000_0000
  const U64_LIMIT: nat := 0x1_0000_0000_0000_0000
  /** The bound of a read of the latest value. */
  const U64_MAX: nat := 0xFFFF_FFFF_FFFF_FFFF

  type Word = w: nat | w < U32_LIMIT

  /** One mutation; `value.None?` is a tombstone. */
  datatype Record = Record(key: Key, value: Option<Bytes>, seqno: nat)

  // ---------------------------------------------------------------- key order

  /** Lexicographic order on byte strings. */
  predicate Less(a: Key, b: Key)
    decreases |a|
  {
    b != [] && (a == [] || a[0] < b[0] || (a[0] == b[0] && Less(a[1..], b[1..])))
  }

  /** `a` and `b` agree on their first `p` bytes, and there `a` ends or has the
      smaller byte. */
  predicate PartsAt(a: Key, b: Key, p: nat) {
    && p <= |a| && p <= |b| && a[..p] == b[..p]
    && ((p == |a| && p < |b|) || (p < |a| && p < |b| && a[p] < b[p]))
  }

  lemma SameFirst(a: Key, b: Key, p: nat)
    requires p <= |a| && p <= |b| && a[..p] == b[..p]
    ensures p == 0 || (a != [] && b != [] && a[0] == b[0])
  {
    if p > 0 {
      assert a[0] == a[..p][0] && b[0] == b[..p][0];
    }
  }

  /** The byte order of vectors: decided at the first place where the two differ, a
      prefix before everything that extends it. */
  lemma {:induction false} LessIsByteOrder(a: Key, b: Key)
    ensures Less(a, b) <==> exists p: nat :: PartsAt(a, b, p)
    decreases |a|
  {
    forall p: nat | PartsAt(a, b, p)
      ensures p == 0 || (a != [] && b != [] && a[0] == b[0])
    {
      SameFirst(a, b, p);
    }
    if a == [] || b == [] || a[0] != b[0] {
      assert Less(a, b) ==> PartsAt(a, b, 0);
    } else {
      LessIsByteOrder(a[1..], b[1..]);
      assert a == [a[0]] + a[1..] && b == [b[0]] + b[1..];
      if p: nat :| PartsAt(a[1..], b[1..], p) {
        assert a[..p + 1] == [a[0]] + a[1..][..p] && b[..p + 1] == [b[0]] + b[1..][..p];
        assert PartsAt(a, b, p + 1);
      }
      if p: nat :| PartsAt(a, b, p) {
        assert p > 0;
        assert a[1..][..p - 1] == a[..p][1..] && b[1..][..p - 1] == b[..p][1..];
        assert PartsAt(a[1..], b[1..], p - 1);
      }
    }
  }

  lemma {:induction false} LessIrreflexive(a: Key)
    ensures !Less(a, a)
    decreases |a|
  {
    if a != [] {
      LessIrreflexive(a[1..]);
    }
  }

  lemma {:induction false} LessTransitive(a: Key, b: Key, c: Key)
    requires Less(a, b) && Less(b, c)
    ensures Less(a, c)
    decreases |a|
  {
    if a != [] && a[0] == b[0] && b[0] == c[0] {
      LessTransitive(a[1..], b[1..], c[1..]);
    }
  }

  lemma {:induction false} LessTotal(a: Key, b: Key)
    ensures a == b || Less(a, b) || Less(b, a)
    decreases |a|
  {
    if a != [] && b != [] && a[0] == b[0] {
      LessTotal(a[1..], b[1..]);
      assert a == [a[0]] + a[1..] && b == [b[0]] + b[1..];
    }
  }

  lemma LessAsymmetric(a: Key, b: Key)
    requires Less(a, b)
    ensures !Less(b, a) && a != b
  {
    LessIrreflexive(a);
    if Less(b, a) {
      LessTransitive(a, b, a);
    }
  }

  // ------------------------------------------------------------ version order

  /** `a` may be stored before `b`: keys ascend, and sequence numbers do not
      ascend within a key. */
  predicate InOrder(a: Record, b: Record) {
    Less(a.key, b.key) || (a.key == b.key && a.seqno >= b.seqno)
  }

  /** The order with equal versions excluded. */
  predicate Before(a: Record, b: Record) {
    Less(a.key, b.key) || (a.key == b.key && a.seqno > b.seqno)
  }

  /** The order of an SSTable. */
  predicate Sorted(run: seq<Record>) {
    forall i, j :: 0 <= i < j < |run| ==> InOrder(run[i], run[j])
  }

  /** The order of a MemTable, which holds each version once. */
  predicate StrictlySorted(run: seq<Record>) {
    forall i, j :: 0 <= i < j < |run| ==> Before(run[i], run[j])
  }

  /** Equal version numbers name one record. Sequence numbers are global, so the
      key does not enter. */
  ghost predicate Consistent(run: seq<Record>) {
    forall a, b :: a in run && b in run && a.seqno == b.seqno ==> a == b
  }

  lemma BeforeTransitive(a: Record, b: Record, c: Record)
    ensures Before(a, b) && Before(b, c) ==> Before(a, c)
    ensures InOrder(a, b) && InOrder(b, c) ==> InOrder(a, c)
  {
    if Less(a.key, b.key) && Less(b.key, c.key) {
      LessTransitive(a.key, b.key, c.key);
    }
  }

  lemma BeforeTotal(a: Record, b: Record)
    ensures Before(a, b) || Before(b, a) || (a.key == b.key && a.seqno == b.seqno)
    ensures Before(a, b) ==> !Before(b, a) && InOrder(a, b)
    ensures InOrder(a, b) <==> !Before(b, a)
  {
    LessTotal(a.key, b.key);
    LessIrreflexive(a.key);
    if Less(a.key, b.key) {
      LessAsymmetric(a.key, b.key);
    }
    if Less(b.key, a.key) {
      LessAsymmetric(b.key, a.key);
    }
  }

  lemma StrictIsSorted(run: seq<Record>)
    requires StrictlySorted(run)
    ensures Sorted(run)
  {
    forall i, j | 0 <= i < j < |run|
      ensures InOrder(run[i], run[j])
    {
      BeforeTotal(run[i], run[j]);
    }
  }

  /** A strictly sorted run is determined by the set of its records. */
  lemma {:induction false} StrictlySortedUnique(a: seq<Record>, b: seq<Record>)
    requires StrictlySorted(a) && StrictlySorted(b)
    requires forall r :: r in a <==> r in b
    ensures a == b
  {
    assert |b| > 0 ==> b[0] in b;
    if a != [] {
      assert a[0] in a;
      var i: nat :| i < |b| && b[i] == a[0];
      var j: nat :| j < |a| && a[j] == b[0];
      if i != 0 && j != 0 {
        BeforeTotal(a[0], b[0]);
      }
      assert a[0] == b[0];
      TailMembers(a);
      TailMembers(b);
      StrictlySortedUnique(a[1..], b[1..]);
    }
  }

  lemma TailMembers(a: seq<Record>)
    requires StrictlySorted(a) && a != []
    ensures forall r :: r in a[1..] <==> r in a && r != a[0]
  {
    forall r | r in a[1..]
      ensures r in a && r != a[0]
    {
      var i: nat :| i < |a[1..]| && a[1..][i] == r;
      assert Before(a[0], a[i + 1]);
      BeforeTotal(a[0], a[i + 1]);
    }
  }
}
