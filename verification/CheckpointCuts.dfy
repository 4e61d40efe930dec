/** Checkpoints that a crash interrupts. The links come first, then the header of a
    manifest and `CURRENT`, then the edits. What each cut opens to is given. */
module CheckpointCuts {
  import opened Records
  import opened Header
  import opened Layers
  import opened Manifest
  import opened Engine
  import opened Splicing
  import opened Durability
  import opened Recovery
  import opened Checkpoint

  lemma {:induction false} AddsFront(ids: seq<nat>, n: nat)
    requires n <= |ids|
    ensures Adds(ids)[..n] == Adds(ids[..n])
    decreases n
  {
    if n > 0 {
      AddsFront(ids[1..], n - 1);
      assert ids[..n][1..] == ids[1..][..n - 1];
      assert Adds(ids)[..n] == [AddTable(ids[0])] + Adds(ids[1..])[..n - 1];
    }
  }

  function Elements(ids: seq<nat>): (s: set<nat>) {
    set x | x in ids
  }

  /** The first edits of a snapshot: the counters, then the oldest tables. */
  lemma SnapshotFront(ms: ManifestState, n: nat)
    requires n <= |Ascending(ms.live)|
    ensures |SnapshotEdits(ms)| == |Ascending(ms.live)| + 2
    ensures Fold(DEFAULT, SnapshotEdits(ms)[..1]) == ManifestState({}, ms.nextSeq, 0)
    ensures Fold(DEFAULT, SnapshotEdits(ms)[..n + 2]) ==
            ManifestState(Elements(Ascending(ms.live)[..n]), ms.nextSeq, ms.nextSstId)
  {
    hide Ascending, Fold, Adds;
    var ids, two := Ascending(ms.live), [SetNextSeq(ms.nextSeq), SetNextSstId(ms.nextSstId)];
    assert SnapshotEdits(ms)[..1] == [two[0]];
    FoldOne(DEFAULT, two[0]);
    assert SnapshotEdits(ms)[..n + 2] == two + Adds(ids)[..n];
    AddsFront(ids, n);
    FoldConcat(DEFAULT, two, Adds(ids[..n]));
    FoldTwo(DEFAULT, two[0], two[1]);
    FoldAdds(Fold(DEFAULT, two), ids[..n]);
  }

  /** The ids of the oldest tables are the least ones. */
  lemma OldestIds(tables: seq<Table>, n: nat)
    requires Ascend(tables) && n <= |tables|
    ensures |Ascending(TableIds(tables))| == |tables|
    ensures Elements(Ascending(TableIds(tables))[..n]) == TableIds(tables[..n])
  {
    var ids := Ids(tables);
    forall x
      ensures x in ids <==> x in TableIds(tables)
    {
      SameIds(tables, x);
    }
    AscendingUnique(ids, TableIds(tables));
    assert ids[..n] == Ids(tables[..n]);
    forall x
      ensures x in ids[..n] <==> x in TableIds(tables[..n])
    {
      SameIds(tables[..n], x);
    }
  }

  lemma SameIds(tables: seq<Table>, x: nat)
    ensures x in Ids(tables) <==> x in TableIds(tables)
  {
    if x in Ids(tables) {
      var i :| 0 <= i < |tables| && Ids(tables)[i] == x;
      assert tables[i] in tables;
    }
    if x in TableIds(tables) {
      var t :| t in tables && t.id == x;
      var i :| 0 <= i < |tables| && tables[i] == t;
      assert Ids(tables)[i] == x;
    }
  }

  /** What the opened directory holds once `n` edits of the manifest are whole. */
  function OpenedFrom(s: State, t: State, n: nat): (o: Opened)
    requires n <= |s.tables| + 2
  {
    if n < 2 then
      var ms := ManifestState({}, if n == 0 then 0 else Counter(t), 0);
      Opened([], [], 0, ms.nextSeq, SnapshotEdits(ms), map[])
    else
      var tables := s.tables[..n - 2];
      var ms := ManifestState(TableIds(tables), Counter(t), t.nextSstId);
      Opened([], tables, t.nextSstId, Counter(t), SnapshotEdits(ms), Named(s.files, TableIds(tables)))
  }

  lemma FrontReplays(s: State, t: State, n: nat)
    requires Ascend(s.tables) && 0 < n <= |s.tables| + 2
    ensures |SnapshotEdits(Copied(s, t))| == |s.tables| + 2
    ensures Fold(DEFAULT, SnapshotEdits(Copied(s, t))[..n]) ==
              if n == 1 then ManifestState({}, Counter(t), 0)
              else ManifestState(TableIds(s.tables[..n - 2]), Counter(t), t.nextSstId)
  {
    hide Ascending, Fold, TableIds, SnapshotEdits;
    OldestIds(s.tables, 0);
    SnapshotFront(Copied(s, t), if n > 1 then n - 2 else 0);
    if n > 1 {
      OldestIds(s.tables, n - 2);
    }
  }

  /** Opening with the manifest cut anywhere behind its header. With nothing behind
      it the directory opens as an empty database and the links are removed; inside
      the first edit it is refused; after that it opens to the oldest tables only.
      It is the checkpoint exactly when the manifest is whole. */
  lemma CheckpointInterrupted(cs: Checksums, s: State, t: State, cut: nat)
    requires Inv(s) && DiskOk(s) && LockFree(s) && CountsOn(s, t)
    requires HEADER_LEN <= cut <= |CheckpointDisk(cs, s, t).manifest|
    ensures var d := CheckpointDisk(cs, s, t);
            var n := (cut - HEADER_LEN) / EDIT_LEN;
            var r := Recover(cs, d.(manifest := d.manifest[..cut]));
            && n <= |s.tables| + 2
            && r == (if HEADER_LEN < cut && n == 0 then Err(Corrupt) else Ok(OpenedFrom(s, t, n)))
            && (s.tables != [] ==> (r == Recover(cs, d) <==> cut == |d.manifest|))
  {
    hide Inv, DiskOk, Recover, SnapshotEdits, Named;
    var d, edits := CheckpointDisk(cs, s, t), SnapshotEdits(Copied(s, t));
    var n := (cut - HEADER_LEN) / EDIT_LEN;
    LinksReopen(s);
    CopiedFits(s, t);
    FrontReplays(s, t, 1);
    ManifestLength(cs, edits);
    CutOpens(cs, s, t, cut);
    CheckpointOpens(cs, s, t);
    assert s.tables[..|s.tables|] == s.tables;
  }

  lemma ManifestLength(cs: Checksums, edits: seq<VersionEdit>)
    ensures |ManifestFile(cs, edits)| == HEADER_LEN + EDIT_LEN * |edits|
  {
  }

  lemma CutOpens(cs: Checksums, s: State, t: State, cut: nat)
    requires Reopens(s.tables, Named(s.files, TableIds(s.tables)))
    requires EditsFit(SnapshotEdits(Copied(s, t))) && |SnapshotEdits(Copied(s, t))| == |s.tables| + 2
    requires HEADER_LEN <= cut <= |CheckpointDisk(cs, s, t).manifest|
    ensures var d := CheckpointDisk(cs, s, t);
            var n := (cut - HEADER_LEN) / EDIT_LEN;
            && n <= |s.tables| + 2
            && Recover(cs, d.(manifest := d.manifest[..cut])) ==
               (if HEADER_LEN < cut && n == 0 then Err(Corrupt) else Ok(OpenedFrom(s, t, n)))
  {
    hide Manifest.Replay, Wal.Replay, ManifestFile, SnapshotEdits, OpenTables, EditsFit, Fold, Reopens;
    var d, edits := CheckpointDisk(cs, s, t), SnapshotEdits(Copied(s, t));
    var n := (cut - HEADER_LEN) / EDIT_LEN;
    ManifestLength(cs, edits);
    Manifest.ReplayTruncated(cs, edits, cut);
    NothingToOpen(cs);
    if n > 0 {
      AscendFrom(s);
      FrontReplays(s, t, n);
    }
    if n > 1 {
      FrontReopens(s, n - 2);
    } else {
      assert Named(d.files, {}) == map[];
    }
  }

  lemma AscendFrom(s: State)
    requires Reopens(s.tables, Named(s.files, TableIds(s.tables)))
    ensures Ascend(s.tables)
  {
  }

  /** The links of the oldest tables, the others reclaimed. */
  lemma FrontReopens(s: State, n: nat)
    requires Reopens(s.tables, Named(s.files, TableIds(s.tables))) && n <= |s.tables|
    ensures var front := s.tables[..n];
            var files := Named(Named(s.files, TableIds(s.tables)), TableIds(front));
            && OpenTables(Ascending(TableIds(front)), files) == Ok(front)
            && files == Named(s.files, TableIds(front))
  {
    var front := s.tables[..n];
    var files := Named(Named(s.files, TableIds(s.tables)), TableIds(front));
    assert forall x :: x in front ==> x in s.tables;
    assert files == Named(s.files, TableIds(front));
    OpenExact(front, files);
  }

  // -------------------------------------------------------- before the manifest

  /** Opening a directory that has no `CURRENT`: every table file there is taken
      in, the next id is one above the highest, and the counter starts at zero. */
  function Adopt(files: map<nat, seq<Record>>): (r: Result<Opened>) {
    var ids := Ascending(files.Keys);
    var next := if ids == [] then 0 else ids[|ids| - 1] + 1;
    var tables :- OpenTables(ids, files);
    Ok(Opened([], tables, next, 0, [SetNextSstId(next)] + Adds(ids), files))
  }

  /** A checkpoint interrupted while it links, or before `CURRENT` is there, opens to
      the tables linked so far with a counter of zero. Unless these are empty, no
      history makes that a healthy database. */
  lemma CheckpointUnnamed(s: State, n: nat, hist: seq<Record>)
    requires Inv(s) && DiskOk(s) && LockFree(s) && n <= |s.tables|
    ensures var r := Adopt(Named(s.files, TableIds(s.tables[..n])));
            && r.Ok? && r.value.tables == s.tables[..n] && r.value.nextSeq == 0
            && r.value.nextSstId == (if n == 0 then 0 else s.tables[n - 1].id + 1)
            && (Inv(Restored(r.value, hist)) ==> forall i :: 0 <= i < n ==> s.tables[i].recs == [])
  {
    hide Inv, DiskOk, OpenTables, Ascending, Adds, TableIds;
    var front := s.tables[..n];
    var files := Named(s.files, TableIds(front));
    LinksReopen(s);
    FrontReopens(s, n);
    FrontKeys(s, n);
    AscendFrom(s);
    LastId(front);
    var o := Adopt(files).value;
    if Inv(Restored(o, hist)) {
      NothingBelowZero(Restored(o, hist));
      assert forall i :: 0 <= i < n ==> s.tables[i] == front[i];
    }
  }

  /** The highest id is that of the newest table. */
  lemma LastId(tables: seq<Table>)
    requires Ascend(tables)
    ensures var ids := Ascending(TableIds(tables));
            |ids| == |tables| && (tables != [] ==> ids[|ids| - 1] == tables[|tables| - 1].id)
  {
    forall x
      ensures x in Ids(tables) <==> x in TableIds(tables)
    {
      SameIds(tables, x);
    }
    AscendingUnique(Ids(tables), TableIds(tables));
  }

  lemma FrontKeys(s: State, n: nat)
    requires Reopens(s.tables, Named(s.files, TableIds(s.tables))) && n <= |s.tables|
    ensures Named(s.files, TableIds(s.tables[..n])).Keys == TableIds(s.tables[..n])
  {
    assert forall x :: x in s.tables[..n] ==> x in s.tables;
  }

  lemma NothingBelowZero(s: State)
    requires Inv(s) && s.nextSeq == 0
    ensures forall i :: 0 <= i < |s.tables| ==> s.tables[i].recs == []
  {
    hide Inv;
    forall i | 0 <= i < |s.tables|
      ensures s.tables[i].recs == []
    {
      TableCounted(s, i);
    }
  }

  lemma TableCounted(s: State, i: nat)
    requires Inv(s) && i < |s.tables|
    ensures s.tables[i].recs != [] ==> s.nextSeq > 0
  {
    hide ViewOk, IdsOk, FlushOk, CompactOk, Layered, Sorted, StrictlySorted, Chronological;
    assert Stack(s)[i] == s.tables[i].recs;
    if s.tables[i].recs != [] {
      assert s.tables[i].recs[0] in s.hist;
    }
  }
}
