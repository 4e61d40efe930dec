/** Opening a directory, step by step. */
module Opening {
  import opened Records
  import opened Header
  import opened MemTables
  import opened Manifest
  import opened Engine
  import opened Recovery
  import opened DbFacts

  /** Remove every table file the manifest does not name. */
  method Reclaim(files: map<nat, seq<Record>>, live: set<nat>) returns (kept: map<nat, seq<Record>>)
    ensures kept == Named(files, live)
  {
    kept := files;
    var rest := files.Keys;
    while rest != {}
      invariant rest <= files.Keys
      invariant kept == map id | id in files && (id in live || id in rest) :: files[id]
      decreases |rest|
    {
      var id: nat :| id in rest;
      rest := rest - {id};
      if id !in live {
        kept := kept - {id};
      }
    }
  }

  /** Open the live tables, oldest first. */
  method OpenLive(ids: seq<nat>, files: map<nat, seq<Record>>) returns (r: Result<seq<Table>>)
    ensures r == OpenTables(ids, files)
  {
    var tables: seq<Table> := [];
    assert ids[0..] == ids;
    assert OpenTables(ids, files).Ok? ==> [] + OpenTables(ids, files).value == OpenTables(ids, files).value;
    for i := 0 to |ids|
      invariant OpenTables(ids[i..], files).Ok? ==> OpenTables(ids, files) == Ok(tables + OpenTables(ids[i..], files).value)
      invariant OpenTables(ids[i..], files).Err? ==> OpenTables(ids, files) == OpenTables(ids[i..], files)
    {
      assert ids[i..][1..] == ids[i + 1..];
      if ids[i] !in files {
        return Err(BadFormat);
      }
      ghost var rest := OpenTables(ids[i + 1..], files);
      ghost var table := Table(ids[i], files[ids[i]]);
      assert rest.Ok? ==> tables + ([table] + rest.value) == (tables + [table]) + rest.value;
      tables := tables + [Table(ids[i], files[ids[i]])];
    }
    assert tables + [] == tables;
    r := Ok(tables);
  }

  /** Replayed records into a fresh MemTable, with the counter kept above them. */
  method Rebuild(rs: seq<Record>, from: nat, threshold: nat) returns (t: MemTable, nextSeq: nat)
    ensures fresh(t) && t.Valid() && t.entries == InsertAll([], rs) && nextSeq == NextSeqAfter(from, rs)
  {
    hide Insert, StrictlySorted, SumLen, InsertAll, NextSeqAfter;
    t := new MemTable(threshold);
    nextSeq := from;
    NothingInserted();
    assert rs[..0] == [] && rs[0..] == rs;
    for i := 0 to |rs|
      invariant fresh(t) && t.Valid() && t.entries == InsertAll([], rs[..i])
      invariant NextSeqAfter(nextSeq, rs[i..]) == NextSeqAfter(from, rs)
    {
      NextSeqStep(nextSeq, rs, i);
      nextSeq := if rs[i].seqno + 1 > nextSeq then rs[i].seqno + 1 else nextSeq;
      InsertAllPush([], rs, i);
      t.Add(rs[i]);
    }
    assert rs[..|rs|] == rs && rs[|rs|..] == [];
    NextSeqDone(nextSeq);
  }

  lemma NextSeqStep(n: nat, rs: seq<Record>, i: nat)
    requires i < |rs|
    ensures NextSeqAfter(n, rs[i..]) == NextSeqAfter(if rs[i].seqno + 1 > n then rs[i].seqno + 1 else n, rs[i + 1..])
  {
    assert rs[i..][1..] == rs[i + 1..];
  }

  lemma NextSeqDone(n: nat)
    ensures NextSeqAfter(n, []) == n
  {
  }

  lemma NothingInserted()
    ensures InsertAll([], []) == []
  {
  }

  /** Manifest, reclamation, tables, log: on any bytes at all, the same value or
      the same error as the specification of recovery. */
  method Assemble(cs: Checksums, d: Disk, threshold: nat) returns (r: Result<Opened>)
    ensures r == Recover(cs, d)
  {
    hide Named, Manifest.Replay, Wal.Replay, OpenTables, Ascending, SnapshotEdits, NextSeqAfter, InsertAll;
    var ms := Manifest.ReplayFile(cs, d.manifest);
    if ms.Err? {
      return Err(ms.error);
    }
    var files := Reclaim(d.files, ms.value.live);
    var tables := OpenLive(Ascending(ms.value.live), files);
    if tables.Err? {
      return Err(tables.error);
    }
    var rs := Wal.ReplayFile(cs, d.wal);
    if rs.Err? {
      return Err(rs.error);
    }
    var t, nextSeq := Rebuild(rs.value, ms.value.nextSeq, threshold);
    r := Ok(Opened(t.entries, tables.value, ms.value.nextSstId, nextSeq, SnapshotEdits(ms.value), files));
  }
}
