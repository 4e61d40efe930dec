/** Which steps move records from layer to layer, and what a read then finds. */
module Movement {
  import opened Records
  import opened Layers
  import opened Retention
  import opened MemTables
  import opened Wal
  import opened Engine
  import opened EngineSafety

  /** Only a freeze brings a record below the active MemTable. */
  lemma StepBelow(s: State, step: Step, s': State, r: Record)
    requires Inv(s) && Does(s, step, s') && Member(Below(s'), r) && !Member(Below(s), r)
    ensures step.Freeze?
  {
    hide Inv, Get, Member, Below;
    if step.Publish? || step.ClearFrozen? {
      FlushMembers(s, step, s', r);
    } else if step.SpliceRun? {
      SpliceBelow(s, s', r);
    } else if !step.Freeze? {
      SameBelow(s, step, s');
    }
  }

  lemma FlushMembers(s: State, step: Step, s': State, r: Record)
    requires Inv(s) && Does(s, step, s') && (step.Publish? || step.ClearFrozen?)
    ensures Member(Below(s'), r) ==> Member(Below(s), r)
    ensures step.Publish? ==> (Member(Recs(s'.tables), r) ==> Member(Below(s), r))
    ensures step.ClearFrozen? ==> s'.tables == s.tables
  {
    hide HistoryOk, LayersOk, ViewOk, IdsOk, CompactOk, Member;
    var f := s.frozen.value;
    MemberConcat(Recs(s.tables), [f], r);
    if step.Publish? {
      assert Recs(s'.tables) == Recs(s.tables) + [f];
      assert Below(s') == Recs(s'.tables) + [f];
      MemberConcat(Recs(s'.tables), [f], r);
    } else {
      assert Below(s') == Recs(s.tables);
    }
  }

  lemma SpliceBelow(s: State, s': State, r: Record)
    requires Inv(s) && Does(s, SpliceRun, s')
    ensures Member(Below(s'), r) ==> Member(Below(s), r)
    ensures Member(Recs(s'.tables), r) ==> Member(Recs(s.tables), r)
  {
    hide Does, Inv, Member, Recs, IsCompaction, MergeOk;
    SpliceRest(s, s');
    SpliceTables(s, s');
    var m := s.compact.m;
    assert s.tables == s.tables[..m.start] + m.run + s.tables[m.start + |m.run|..];
    var out := Table(MaxId(m.run), m.out);
    SplitMember(s.tables[..m.start], m.run, s.tables[m.start + |m.run|..], r);
    SplitMember(s.tables[..m.start], [out], s.tables[m.start + |m.run|..], r);
    OutMember(s, m, out, r);
    MemberConcat(Recs(s.tables), FrozenLayer(s), r);
    MemberConcat(Recs(s'.tables), FrozenLayer(s), r);
  }

  lemma SplitMember(a: seq<Table>, b: seq<Table>, c: seq<Table>, r: Record)
    ensures Member(Recs(a + b + c), r) <==> Member(Recs(a), r) || Member(Recs(b), r) || Member(Recs(c), r)
  {
    hide Member;
    assert Recs(a + b + c) == Recs(a) + Recs(b) + Recs(c);
    MemberConcat(Recs(a) + Recs(b), Recs(c), r);
    MemberConcat(Recs(a), Recs(b), r);
  }

  lemma OutMember(s: State, m: Merge, out: Table, r: Record)
    requires MergeOk(s, m) && out.recs == m.out
    ensures Member(Recs([out]), r) ==> Member(Recs(m.run), r)
  {
    hide Retained, Peeled, Covers, Sorted;
    assert Recs([out]) == [m.out];
    if r in m.out {
      assert Kept(Recs(m.run), m.drop, m.min, r);
      KeptMember(Recs(m.run), m.drop, m.min, r);
    }
  }

  /** Only a publication brings a record into the tables, from right above them. */
  lemma StepTables(s: State, step: Step, s': State, r: Record)
    requires Inv(s) && Does(s, step, s') && Member(Recs(s'.tables), r) && !Member(Recs(s.tables), r)
    ensures step.Publish? && Member(Below(s), r)
  {
    hide Inv, Get, Member, Below;
    if step.Publish? || step.ClearFrozen? {
      FlushMembers(s, step, s', r);
    } else if step.SpliceRun? {
      SpliceBelow(s, s', r);
    } else {
      SameTables(s, step, s');
    }
  }

  lemma TablesBelow(s: State, r: Record)
    ensures Member(Recs(s.tables), r) ==> Member(Below(s), r)
  {
    hide Member;
    MemberConcat(Recs(s.tables), FrozenLayer(s), r);
  }

  // ------------------------------------------------------- what a read then finds

  /** Steps that leave every layer alone. */
  lemma QuietReads(s: State, step: Step, s': State)
    requires Does(s, step, s')
    requires !step.Write? && !step.Freeze? && !step.Publish? && !step.ClearFrozen? && !step.SpliceRun?
    ensures Stack(s') == Stack(s) && s'.nextSeq == s.nextSeq
  {
    hide IsCompaction, IsMinSnapshot;
  }

  /** An empty MemTable on top, and a layer that is there twice. */
  lemma FlushReads(s: State, step: Step, s': State, k: Key, h: nat)
    requires Inv(s) && Does(s, step, s') && (step.Freeze? || step.Publish? || step.ClearFrozen?)
    ensures Get(Stack(s'), k, h) == Get(Stack(s), k, h) && s'.nextSeq == s.nextSeq
  {
    hide Get, HistoryOk, LayersOk, ViewOk, CompactOk, IdsOk, Newest;
    if step.Freeze? {
      assert Stack(s') == Stack(s) + [[]];
      GetPush(Stack(s), [], k, h);
      NewestNothing(k, h);
    } else if step.Publish? {
      var f := s.frozen.value;
      assert Recs(s'.tables) == Recs(s.tables) + [f];
      assert Stack(s') == Recs(s.tables) + [f] + [f] + [s.active];
      Doubled(Recs(s.tables), f, [s.active], k, h);
    } else {
      var f, older := s.frozen.value, s.tables[..|s.tables| - 1];
      assert s.tables == older + [Table(s.flush.id, f)];
      assert Recs(s.tables) == Recs(older) + [f];
      assert Stack(s) == Recs(older) + [f] + [f] + [s.active];
      assert Stack(s') == Recs(older) + [f] + [s.active];
      Doubled(Recs(older), f, [s.active], k, h);
    }
  }

  lemma NewestNothing(k: Key, h: nat)
    ensures Newest([], k, h).None?
  {
  }

  /** The newest record of the batch below the bound, or the answer as before. */
  lemma WriteReads(s: State, ops: seq<Op>, s': State, k: Key, h: nat)
    requires Inv(s) && Does(s, Write(ops), s')
    ensures Get(Stack(s'), k, h) ==
            var o := Lookup(Stamp(ops, s.nextSeq), k, h); if o.Some? then o else Get(Stack(s), k, h)
  {
    hide Get, IsCompaction, Layered, Drawn, Shows, ViewOk, CompactOk, IdsOk, FlushOk, InsertAll, BatchFits, Newest,
      StrictlySorted, Consistent, Lookup;
    var batch := Stamp(ops, s.nextSeq);
    StampChronological(ops, s.nextSeq);
    WriteLayers(Below(s), s.active, s.hist, batch, s.nextSeq);
    NewestInsertAll(s.active, batch, k, h);
    assert Below(s') == Below(s);
    GetPush(Below(s), s.active, k, h);
    GetPush(Below(s), s'.active, k, h);
  }
}
