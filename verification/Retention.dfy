/** What a compaction is allowed to forget. The output of a merge is given as a
    set of records, without reference to how the merge computes it, and shown to
    answer reads as its inputs did. */
module Retention {
  import opened Records
  import opened Layers

  /** Kept for a snapshot at or above `min`, or the newest version below it. */
  ghost predicate Retained(inputs: seq<seq<Record>>, min: nat, r: Record) {
    && Member(inputs, r)
    && (r.seqno < min ==> forall x :: Member(inputs, x) && x.key == r.key && x.seqno < min ==> x.seqno <= r.seqno)
  }

  /** A tombstone with nothing but tombstones retained beneath it. */
  ghost predicate Peeled(inputs: seq<seq<Record>>, min: nat, r: Record) {
    && Retained(inputs, min, r)
    && forall x :: Retained(inputs, min, x) && x.key == r.key && x.seqno <= r.seqno ==> x.value.None?
  }

  ghost predicate Kept(inputs: seq<seq<Record>>, drop: bool, min: nat, r: Record) {
    Retained(inputs, min, r) && !(drop && Peeled(inputs, min, r))
  }

  lemma KeptMember(inputs: seq<seq<Record>>, drop: bool, min: nat, r: Record)
    requires Kept(inputs, drop, min, r)
    ensures Member(inputs, r)
  {
  }

  ghost predicate IsCompaction(inputs: seq<seq<Record>>, drop: bool, min: nat, out: seq<Record>) {
    Sorted(out) && forall r :: r in out <==> Kept(inputs, drop, min, r)
  }

  ghost predicate ConsistentStack(stack: seq<seq<Record>>) {
    forall a, b :: Member(stack, a) && Member(stack, b) && a.seqno == b.seqno ==> a == b
  }

  /** Some read at or above the horizon is answered by `r`. */
  ghost predicate Shown(inputs: seq<seq<Record>>, min: nat, r: Record) {
    exists h: nat :: h >= min && IsNewestIn(inputs, r.key, h, Some(r))
  }

  /** What is retained is exactly what some read at or above the horizon can still be
      answered by: nothing a snapshot needs is lost, and nothing else is kept. */
  lemma RetainedIsShown(inputs: seq<seq<Record>>, min: nat, r: Record)
    requires ConsistentStack(inputs)
    ensures Retained(inputs, min, r) <==> Shown(inputs, min, r)
  {
    hide Member, ConsistentStack;
    if Retained(inputs, min, r) {
      var h := if r.seqno < min then min else r.seqno + 1;
      assert IsNewestIn(inputs, r.key, h, Some(r));
    }
  }

  /** And what a merge of the oldest tables keeps: a record some such read shows, with
      a value at or beneath it that some such read shows. A tombstone stays only as
      long as it covers a value. */
  lemma KeptIsShown(inputs: seq<seq<Record>>, drop: bool, min: nat, r: Record)
    requires ConsistentStack(inputs)
    ensures Kept(inputs, drop, min, r) <==>
              && Shown(inputs, min, r)
              && (drop ==> exists x :: Shown(inputs, min, x) && x.key == r.key && x.seqno <= r.seqno && x.value.Some?)
  {
    hide Member, ConsistentStack, Retained, Shown;
    forall x
      ensures Retained(inputs, min, x) <==> Shown(inputs, min, x)
    {
      RetainedIsShown(inputs, min, x);
    }
  }

  /** The bounds a merge against horizon `min` is sound for: those at or above
      it, and those above everything in the run. */
  ghost predicate Covers(inputs: seq<seq<Record>>, min: nat, h: nat) {
    h >= min || forall x :: Member(inputs, x) ==> x.seqno < h
  }

  /** The newest version a covered bound sees is always retained. */
  lemma NewestRetained(inputs: seq<seq<Record>>, min: nat, k: Key, h: nat)
    requires Layered(inputs) && Covers(inputs, min, h)
    ensures Get(inputs, k, h).Some? ==> Retained(inputs, min, Get(inputs, k, h).value)
  {
    GetIsNewest(inputs, k, h);
  }

  /** At a covered bound the merged run gives the record its inputs gave, or it
      gives none where its inputs gave a tombstone that was peeled. */
  lemma CompactionNewest(inputs: seq<seq<Record>>, drop: bool, min: nat, out: seq<Record>, k: Key, h: nat)
    requires Layered(inputs) && ConsistentStack(inputs)
    requires IsCompaction(inputs, drop, min, out) && Covers(inputs, min, h)
    ensures var before, after := Get(inputs, k, h), Newest(out, k, h);
            if before.Some? && drop && Peeled(inputs, min, before.value) then after.None? else after == before
  {
    GetIsNewest(inputs, k, h);
    NewestRetained(inputs, min, k, h);
    var before, after := Get(inputs, k, h), Newest(out, k, h);
    if after.Some? {
      assert Kept(inputs, drop, min, after.value);
    }
    if before.Some? {
      if drop && Peeled(inputs, min, before.value) {
        PeeledDown(inputs, drop, min, out, before.value);
      } else {
        assert before.value in out;
      }
    }
  }

  /** Nothing at or below a peeled tombstone survives. */
  lemma PeeledDown(inputs: seq<seq<Record>>, drop: bool, min: nat, out: seq<Record>, t: Record)
    requires IsCompaction(inputs, drop, min, out) && drop && Peeled(inputs, min, t)
    ensures forall x :: x in out && x.key == t.key ==> x.seqno > t.seqno
  {
    forall x | x in out && x.key == t.key
      ensures x.seqno > t.seqno
    {
      assert Kept(inputs, drop, min, x);
      assert x.seqno <= t.seqno ==> Peeled(inputs, min, x);
    }
  }

  /** Replacing a run by its compaction changes no covered read. */
  lemma SpliceKeepsReads(pre: seq<seq<Record>>, inputs: seq<seq<Record>>, post: seq<seq<Record>>,
                         drop: bool, min: nat, out: seq<Record>, k: Key, h: nat)
    requires Layered(inputs) && ConsistentStack(inputs)
    requires IsCompaction(inputs, drop, min, out) && Covers(inputs, min, h)
    requires drop ==> pre == []
    ensures Value(Get(pre + inputs + post, k, h)) == Value(Get(pre + [out] + post, k, h))
  {
    GetConcat(pre + inputs, post, k, h);
    GetConcat(pre, inputs, k, h);
    GetConcat(pre + [out], post, k, h);
    GetPush(pre, out, k, h);
    CompactionNewest(inputs, drop, min, out, k, h);
  }

  /** A merged run lies over whatever holds only records its inputs also hold
      wherever they hold an older version: the inputs themselves, and every
      layer the inputs lie over. */
  lemma OutOver(inputs: seq<seq<Record>>, drop: bool, min: nat, out: seq<Record>, older: seq<Record>)
    requires IsCompaction(inputs, drop, min, out)
    requires forall u, r :: Member(inputs, u) && r in older && u.key == r.key && u.seqno < r.seqno ==> Member(inputs, r)
    ensures Over(out, older)
  {
    forall u, r | u in out && r in older && u.key == r.key && u.seqno < r.seqno
      ensures r in out
    {
      assert Kept(inputs, drop, min, u);
      assert Retained(inputs, min, r);
      assert Peeled(inputs, min, r) ==> Peeled(inputs, min, u);
      assert Kept(inputs, drop, min, r);
    }
  }

  lemma OutOverInput(inputs: seq<seq<Record>>, drop: bool, min: nat, out: seq<Record>, i: nat)
    requires i < |inputs| && IsCompaction(inputs, drop, min, out)
    ensures Over(out, inputs[i])
  {
    OutOver(inputs, drop, min, out, inputs[i]);
  }

  lemma OutOverOlder(inputs: seq<seq<Record>>, drop: bool, min: nat, out: seq<Record>, older: seq<Record>)
    requires IsCompaction(inputs, drop, min, out)
    requires forall i :: 0 <= i < |inputs| ==> Over(inputs[i], older)
    ensures Over(out, older)
  {
    forall u, r | Member(inputs, u) && r in older && u.key == r.key && u.seqno < r.seqno
      ensures Member(inputs, r)
    {
      var i :| 0 <= i < |inputs| && u in inputs[i];
      assert Over(inputs[i], older);
      assert r in inputs[i];
    }
    OutOver(inputs, drop, min, out, older);
  }

  lemma OverOut(inputs: seq<seq<Record>>, drop: bool, min: nat, out: seq<Record>, newer: seq<Record>)
    requires IsCompaction(inputs, drop, min, out)
    requires forall i :: 0 <= i < |inputs| ==> Over(newer, inputs[i])
    ensures Over(newer, out)
  {
    forall u, r | u in newer && r in out && u.key == r.key && u.seqno < r.seqno
      ensures r in newer
    {
      assert Kept(inputs, drop, min, r);
      var i :| 0 <= i < |inputs| && r in inputs[i];
    }
  }

  /** Any part of the inputs may still lie under the merged run: the stack
      stays layered whether the stale inputs are gone or not. */
  lemma SpliceKeepsLayers(pre: seq<seq<Record>>, inputs: seq<seq<Record>>, post: seq<seq<Record>>,
                          drop: bool, min: nat, out: seq<Record>, p: nat, q: nat)
    requires Layered(pre + inputs + post) && IsCompaction(inputs, drop, min, out)
    requires p <= q <= |inputs|
    ensures Layered(pre + inputs[p..q] + [out] + post)
  {
    hide Over, IsCompaction;
    var stale := inputs[p..q];
    LayeredConcat(pre + inputs, post);
    LayeredConcat(pre, inputs);
    AllOverConcat(post, pre, inputs);
    assert Layered(stale) && AllOver(stale, pre) && AllOver(post, stale);
    OutBetween(pre, inputs, post, drop, min, out);
    assert AllOver([out], stale);
    LayeredConcat(pre, stale);
    AllOverConcat([out], pre, stale);
    LayeredConcat(pre + stale, [out]);
    AllOverConcat(post, pre, stale);
    AllOverConcat(post, pre + stale, [out]);
    LayeredConcat(pre + stale + [out], post);
  }

  lemma OutBetween(pre: seq<seq<Record>>, inputs: seq<seq<Record>>, post: seq<seq<Record>>,
                   drop: bool, min: nat, out: seq<Record>)
    requires AllOver(inputs, pre) && AllOver(post, inputs) && IsCompaction(inputs, drop, min, out)
    ensures AllOver([out], pre) && AllOver([out], inputs) && AllOver(post, [out])
  {
    hide Over, IsCompaction;
    forall i | 0 <= i < |pre|
      ensures Over(out, pre[i])
    {
      OutOverOlder(inputs, drop, min, out, pre[i]);
    }
    forall i | 0 <= i < |inputs|
      ensures Over(out, inputs[i])
    {
      OutOverInput(inputs, drop, min, out, i);
    }
    forall j | 0 <= j < |post|
      ensures Over(post[j], out)
    {
      OverOut(inputs, drop, min, out, post[j]);
    }
  }
}
