/** Which reads a merge changes when its horizon was read too early: an exact
    condition, for any bound at all. */
module Forgetting {
  import opened Records
  import opened Layers
  import opened Retention

  /** The merge of `run` forgets what a read of `k` at `h` needs: nothing above the
      run answers it, a younger version below the merge's horizon stands over the
      one that does, and the layers beneath say something else. */
  ghost predicate Forgotten(pre: seq<seq<Record>>, run: seq<seq<Record>>, post: seq<seq<Record>>, min: nat, k: Key, h: nat) {
    && Get(post, k, h).None?
    && (exists v :: Member(run, v) && v.key == k && h <= v.seqno < min)
    && Get(run, k, h).Some?
    && Value(Get(run, k, h)) != Value(Get(pre, k, h))
  }

  /** With no version between the bound and the horizon, both see the same one. */
  lemma SameAcross(run: seq<seq<Record>>, drop: bool, min: nat, out: seq<Record>, k: Key, h: nat)
    requires Layered(run) && ConsistentStack(run) && IsCompaction(run, drop, min, out)
    requires h < min && !exists v :: Member(run, v) && v.key == k && h <= v.seqno < min
    ensures Get(run, k, min) == Get(run, k, h) && Newest(out, k, min) == Newest(out, k, h)
  {
    hide Sorted, Layered;
    GetIsNewest(run, k, h);
    GetIsNewest(run, k, min);
    forall x | x in out
      ensures Member(run, x)
    {
      assert Kept(run, drop, min, x);
    }
    assert Consistent(out);
    assert IsNewest(out, k, h, Newest(out, k, min));
    NewestUnique(out, k, h, Newest(out, k, min));
  }

  /** Under a younger version below the horizon, nothing is retained. */
  lemma NothingRetained(run: seq<seq<Record>>, drop: bool, min: nat, out: seq<Record>, k: Key, h: nat)
    requires IsCompaction(run, drop, min, out) && exists v :: Member(run, v) && v.key == k && h <= v.seqno < min
    ensures Newest(out, k, h).None?
  {
    var o := Newest(out, k, h);
    assert o.Some? ==> Kept(run, drop, min, o.value);
  }

  /** Replacing a run by its compaction changes the answer to a read, at whatever
      bound, exactly when the read is forgotten. */
  lemma SpliceForgets(pre: seq<seq<Record>>, run: seq<seq<Record>>, post: seq<seq<Record>>,
                      drop: bool, min: nat, out: seq<Record>, k: Key, h: nat)
    requires Layered(run) && ConsistentStack(run) && IsCompaction(run, drop, min, out) && (drop ==> pre == [])
    ensures Value(Get(pre + run + post, k, h)) == Value(Get(pre + [out] + post, k, h))
            <==> !Forgotten(pre, run, post, min, k, h)
  {
    hide Layered, ConsistentStack, IsCompaction, Get, Newest, Peeled;
    GetConcat(pre + run, post, k, h);
    GetConcat(pre, run, k, h);
    GetConcat(pre + [out], post, k, h);
    GetPush(pre, out, k, h);
    if exists v :: Member(run, v) && v.key == k && h <= v.seqno < min {
      NothingRetained(run, drop, min, out, k, h);
    } else if h >= min {
      SpliceKeepsReads(pre, run, post, drop, min, out, k, h);
    } else {
      SameAcross(run, drop, min, out, k, h);
      CompactionNewest(run, drop, min, out, k, min);
      NothingBeneath(k, h);
    }
  }

  lemma NothingBeneath(k: Key, h: nat)
    ensures Get([], k, h).None?
    ensures forall inputs, min, r :: Peeled(inputs, min, r) ==> r.value.None?
  {
  }
}
