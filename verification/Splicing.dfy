/** Lists of tables with part of a run cut out: what a compaction's splice makes
    of the live set, and what a crash in the middle of one leaves. */
module Splicing {
  import opened Records
  import opened Engine

  function TableIds(tables: seq<Table>): (ids: set<nat>) {
    set t | t in tables :: t.id
  }

  ghost predicate Ascend(tables: seq<Table>) {
    forall i, j :: 0 <= i < j < |tables| ==> tables[i].id < tables[j].id
  }

  /** The run of `n` tables at `start` without its first `gone` tables, the last
      one holding `out` instead of its own records. */
  function CutRun(tables: seq<Table>, start: nat, n: nat, gone: nat, out: seq<Record>): (tables': seq<Table>)
    requires gone < n && start + n <= |tables|
  {
    tables[..start] + tables[start + gone..start + n - 1] + [Table(tables[start + n - 1].id, out)] + tables[start + n..]
  }

  /** Where the table at position `i` came from. */
  function Origin(start: nat, gone: nat, i: nat): (i': nat) {
    if i < start then i else i + gone
  }

  lemma CutIndex(tables: seq<Table>, start: nat, n: nat, gone: nat, out: seq<Record>)
    requires gone < n && start + n <= |tables|
    ensures var next, last := CutRun(tables, start, n, gone, out), start + n - 1;
            && |next| == |tables| - gone
            && (forall i :: 0 <= i < |next| ==>
                  next[i] == if i == last - gone then Table(tables[last].id, out) else tables[Origin(start, gone, i)])
  {
  }

  lemma CutAscends(tables: seq<Table>, start: nat, n: nat, gone: nat, out: seq<Record>)
    requires gone < n && start + n <= |tables| && Ascend(tables)
    ensures Ascend(CutRun(tables, start, n, gone, out))
  {
    CutIndex(tables, start, n, gone, out);
    var next := CutRun(tables, start, n, gone, out);
    assert forall i :: 0 <= i < |next| ==> next[i].id == tables[Origin(start, gone, i)].id;
  }

  lemma IdAt(tables: seq<Table>, i: nat)
    requires i < |tables|
    ensures tables[i].id in TableIds(tables)
  {
    assert tables[i] in tables;
  }

  /** Exactly the ids of the first `gone` tables of the run disappear. */
  lemma CutIds(tables: seq<Table>, start: nat, n: nat, gone: nat, out: seq<Record>)
    requires gone < n && start + n <= |tables| && Ascend(tables)
    ensures TableIds(CutRun(tables, start, n, gone, out)) == TableIds(tables) - TableIds(tables[start..start + gone])
  {
    hide CutRun, Ascend, TableIds;
    var next, cut := CutRun(tables, start, n, gone, out), tables[start..start + gone];
    forall id | id in TableIds(next)
      ensures id in TableIds(tables) && id !in TableIds(cut)
    {
      CutStays(tables, start, n, gone, out, id);
    }
    forall id | id in TableIds(tables) && id !in TableIds(cut)
      ensures id in TableIds(next)
    {
      CutKeeps(tables, start, n, gone, out, id);
    }
  }

  lemma CutSameIds(tables: seq<Table>, start: nat, n: nat, gone: nat, out: seq<Record>, i: nat)
    requires gone < n && start + n <= |tables| && i < |tables| - gone
    ensures |CutRun(tables, start, n, gone, out)| == |tables| - gone
    ensures CutRun(tables, start, n, gone, out)[i].id == tables[Origin(start, gone, i)].id
  {
    hide CutRun;
    CutIndex(tables, start, n, gone, out);
  }

  lemma CutStays(tables: seq<Table>, start: nat, n: nat, gone: nat, out: seq<Record>, id: nat)
    requires gone < n && start + n <= |tables| && Ascend(tables) && id in TableIds(CutRun(tables, start, n, gone, out))
    ensures id in TableIds(tables) && id !in TableIds(tables[start..start + gone])
  {
    hide CutRun, Ascend, TableIds;
    CutSameIds(tables, start, n, gone, out, 0);
    var i := IdIndex(CutRun(tables, start, n, gone, out), id);
    CutSameIds(tables, start, n, gone, out, i);
    IdAt(tables, Origin(start, gone, i));
    OutsideCut(tables, start, gone, Origin(start, gone, i));
  }

  lemma CutKeeps(tables: seq<Table>, start: nat, n: nat, gone: nat, out: seq<Record>, id: nat)
    requires gone < n && start + n <= |tables| && id in TableIds(tables) && id !in TableIds(tables[start..start + gone])
    ensures id in TableIds(CutRun(tables, start, n, gone, out))
  {
    hide CutRun, TableIds;
    var i := IdIndex(tables, id);
    InsideCut(tables, start, gone);
    var at := if i < start then i else i - gone;
    CutSameIds(tables, start, n, gone, out, at);
    IdAt(CutRun(tables, start, n, gone, out), at);
  }

  lemma IdIndex(tables: seq<Table>, id: nat) returns (i: nat)
    requires id in TableIds(tables)
    ensures i < |tables| && tables[i].id == id
  {
    var t :| t in tables && t.id == id;
    i :| 0 <= i < |tables| && tables[i] == t;
  }

  lemma InsideCut(tables: seq<Table>, start: nat, gone: nat)
    requires start + gone <= |tables|
    ensures forall i :: start <= i < start + gone ==> tables[i].id in TableIds(tables[start..start + gone])
  {
    var cut := tables[start..start + gone];
    forall i | start <= i < start + gone
      ensures tables[i].id in TableIds(cut)
    {
      IdAt(cut, i - start);
    }
  }

  lemma OutsideCut(tables: seq<Table>, start: nat, gone: nat, i: nat)
    requires Ascend(tables) && start + gone <= |tables| && i < |tables| && (i < start || start + gone <= i)
    ensures tables[i].id !in TableIds(tables[start..start + gone])
  {
    forall u | u in tables[start..start + gone]
      ensures u.id != tables[i].id
    {
      var j :| 0 <= j < gone && tables[start..start + gone][j] == u;
      assert u == tables[start + j];
    }
  }

  /** A list of tables as recovery can reopen it. */
  ghost predicate Reopens(tables: seq<Table>, files: map<nat, seq<Record>>) {
    Ascend(tables) && forall t :: t in tables ==> t.id in files && files[t.id] == t.recs
  }

  /** If every file but the last of the run holds its table, and that one holds
      `out`, the cut list can be reopened. */
  lemma CutReopens(tables: seq<Table>, start: nat, n: nat, gone: nat, out: seq<Record>, files: map<nat, seq<Record>>)
    requires gone < n && start + n <= |tables| && Ascend(tables)
    requires forall t :: t in tables ==>
               t.id in files && files[t.id] == if t.id == tables[start + n - 1].id then out else t.recs
    ensures Reopens(CutRun(tables, start, n, gone, out), files)
  {
    var next, last := CutRun(tables, start, n, gone, out), start + n - 1;
    CutIndex(tables, start, n, gone, out);
    CutAscends(tables, start, n, gone, out);
    hide CutRun;
    forall t | t in next
      ensures t.id in files && files[t.id] == t.recs
    {
      var i :| 0 <= i < |next| && next[i] == t;
      var i' := Origin(start, gone, i);
      assert tables[i'] in tables && tables[last] in tables;
      assert i' != last ==> tables[i'].id != tables[last].id;
    }
  }

  lemma RecsCut(tables: seq<Table>, start: nat, n: nat, gone: nat, out: seq<Record>)
    requires gone < n && start + n <= |tables|
    ensures Recs(CutRun(tables, start, n, gone, out)) ==
            Recs(tables[..start]) + Recs(tables[start..start + n])[gone..n - 1] + [out] + Recs(tables[start + n..])
  {
    var run := tables[start..start + n];
    var part := run[gone..n - 1];
    var direct := tables[start + gone..start + n - 1];
    assert |direct| == |part|;
    forall j | 0 <= j < |part|
      ensures direct[j] == part[j]
    {
      assert part[j] == run[gone + j] == tables[start + (gone + j)];
    }
    assert direct == part;
    var sub := Recs(run)[gone..n - 1];
    assert |Recs(part)| == |sub|;
    forall j | 0 <= j < |sub|
      ensures Recs(part)[j] == sub[j]
    {
      assert sub[j] == Recs(run)[gone + j] == run[gone + j].recs;
      assert part[j] == run[gone + j];
    }
    assert Recs(part) == sub;
    RecsConcat(tables[..start] + part + [Table(tables[start + n - 1].id, out)], tables[start + n..]);
    RecsConcat(tables[..start] + part, [Table(tables[start + n - 1].id, out)]);
    RecsConcat(tables[..start], part);
  }

  lemma RecsConcat(a: seq<Table>, b: seq<Table>)
    ensures Recs(a + b) == Recs(a) + Recs(b)
  {
  }
}
