/** The inventory stores as objects that are updated in place, proved against their value models. */
module InventoryStores {
  import opened Wrappers
  import opened Ordering
  import opened Snapshots
  import opened Walk
  import opened Inventory

  const SQLITE_MAX_VARIABLES: nat := 999
  const DELETE_PATHS_PER_STATEMENT: nat := SQLITE_MAX_VARIABLES - 1

  lemma UpsertSnoc(m: Index, files: seq<FileRecord>, i: nat)
    requires i < |files|
    ensures UpsertAll(m, files[..i + 1]) == UpsertOne(UpsertAll(m, files[..i]), files[i])
  {
    assert files[..i + 1][..i] == files[..i];
  }

  lemma RemoveSnoc(m: Index, paths: seq<string>, i: nat)
    requires i < |paths|
    ensures RemoveAll(m, paths[..i + 1]) == RemoveAll(m, paths[..i]) - {paths[i]}
  {
    assert forall p :: p in paths[..i + 1] <==> p in paths[..i] || p == paths[i];
  }

  class InMemoryInventoryStore {
    var files: map<string, Index>
    var snapshots: map<string, seq<Snapshot>>
    var errors: map<string, seq<ScanError>>

    constructor ()
      ensures State() == NO_MEMORY
    {
      files, snapshots, errors := map[], map[], map[];
    }

    function State(): Memory
      reads this
    {
      Memory(files, snapshots, errors)
    }

    method UpsertFiles(root: string, fs: seq<FileRecord>)
      modifies this
      ensures State() == old(State()).Upsert(root, fs)
    {
      var repoFiles := State().FilesOf(root);
      ghost var before := repoFiles;
      var i := 0;
      while i < |fs|
        invariant 0 <= i <= |fs|
        invariant State() == old(State()) && repoFiles == UpsertAll(before, fs[..i])
      {
        UpsertSnoc(before, fs, i);
        if fs[i].ignored {
          repoFiles := repoFiles - {fs[i].path};
        } else {
          repoFiles := repoFiles[fs[i].path := fs[i]];
        }
        i := i + 1;
      }
      assert fs[..i] == fs;
      files := files[root := repoFiles];
    }

    method RemoveFiles(root: string, paths: seq<string>)
      modifies this
      ensures State() == old(State()).Remove(root, paths)
    {
      if root !in files {
        return;
      }
      var repoFiles := files[root];
      var i := 0;
      assert RemoveAll(files[root], []) == files[root];
      while i < |paths|
        invariant 0 <= i <= |paths| && State() == old(State())
        invariant repoFiles == RemoveAll(files[root], paths[..i])
      {
        RemoveSnoc(files[root], paths, i);
        repoFiles := repoFiles - {paths[i]};
        i := i + 1;
      }
      assert paths[..i] == paths;
      files := files[root := repoFiles];
    }

    method CreateSnapshot(s: Snapshot)
      modifies this
      ensures State() == old(State()).Create(s)
    {
      snapshots := snapshots[s.root := State().SnapshotsOf(s.root) + [s]];
    }

    method RecordErrors(id: string, es: seq<ScanError>)
      modifies this
      ensures State() == old(State()).Record(id, es)
    {
      var list := State().ErrorsOf(id);
      ghost var before := list;
      var i := 0;
      while i < |es|
        invariant 0 <= i <= |es|
        invariant State() == old(State()) && list == before + es[..i]
      {
        list := list + [es[i]];
        i := i + 1;
      }
      assert es[..i] == es;
      errors := errors[id := list];
    }

    method PersistScanResult(root: string, r: ScanResult)
      modifies this
      ensures State() == old(State()).Persist(root, r)
    {
      CreateSnapshot(SnapshotOf(root, r));
      RecordErrors(r.id, r.errors);
      UpsertFiles(root, r.files);
      RemoveFiles(root, r.deleted);
    }

    /** The newest snapshot of a root, the smallest id deciding between equally new ones; none if it has none. */
    method GetLatestSnapshot(root: string) returns (latest: Option<Snapshot>)
      ensures latest.None? <==> State().SnapshotsOf(root) == []
      ensures latest.Some? ==> latest.value in State().SnapshotsOf(root)
      ensures latest.Some? ==> forall s :: s in State().SnapshotsOf(root) ==>
                Leq(s.createdAt, latest.value.createdAt) && (s.createdAt == latest.value.createdAt ==> Leq(latest.value.id, s.id))
    {
      var all := State().SnapshotsOf(root);
      if all == [] {
        return None;
      }
      var listing := Arrange(all);
      forall s | s in all
        ensures Leq(s.createdAt, listing[0].createdAt) && (s.createdAt == listing[0].createdAt ==> Leq(listing[0].id, s.id))
      {
        LatestIsFirst(all, s);
      }
      LatestIsFirst(all, all[0]);
      return Some(listing[0]);
    }
  }

  // ---------------------------------------------------------------- tables

  lemma TableUpsertSnoc(t: Tables, root: string, fs: seq<FileRecord>, i: nat)
    requires i < |fs|
    ensures t.Upsert(root, fs[..i + 1]) == t.Upsert(root, fs[..i]).UpsertOne(root, fs[i])
  {
    assert fs[..i + 1][..i] == fs[..i];
  }

  lemma TableRecordSnoc(t: Tables, id: string, start: nat, es: seq<ScanError>, i: nat)
    requires i < |es|
    ensures var before := t.RecordFrom(id, start, es[..i]);
      t.RecordFrom(id, start, es[..i + 1]) == before.(errors := before.errors[(id, start + i) := es[i]])
  {
    assert es[..i + 1][..i] == es[..i];
  }

  /** Deleting a prefix of the paths, then the next chunk. */
  lemma RemoveChunk(t: Tables, root: string, paths: seq<string>, i: nat, j: nat)
    requires i <= j <= |paths|
    ensures t.Remove(root, paths[..i]).Remove(root, paths[i..j]) == t.Remove(root, paths[..j])
  {
    assert paths[..j] == paths[..i] + paths[i..j];
  }

  class SqliteInventoryStore {
    var db: Tables

    constructor ()
      ensures db == NO_TABLES
    {
      db := NO_TABLES;
    }

    /** One statement; the driver accepts at most 999 bound variables. */
    method RunDeleteIn(root: string, chunk: seq<string>)
      requires 1 + |chunk| <= 999
      modifies this
      ensures db == old(db).Remove(root, chunk)
    {
      db := db.Remove(root, chunk);
    }

    method RemoveFiles(root: string, paths: seq<string>)
      modifies this
      ensures db == old(db).Remove(root, paths)
    {
      var offset := 0;
      assert db.Remove(root, []) == db;
      while offset < |paths|
        invariant 0 <= offset <= |paths|
        invariant db == old(db).Remove(root, paths[..offset])
      {
        var end := if offset + DELETE_PATHS_PER_STATEMENT <= |paths| then offset + DELETE_PATHS_PER_STATEMENT else |paths|;
        RemoveChunk(old(db), root, paths, offset, end);
        RunDeleteIn(root, paths[offset..end]);
        offset := end;
      }
      assert paths[..offset] == paths;
    }

    method UpsertFiles(root: string, fs: seq<FileRecord>)
      modifies this
      ensures db == old(db).Upsert(root, fs)
    {
      var i := 0;
      while i < |fs|
        invariant 0 <= i <= |fs|
        invariant db == old(db).Upsert(root, fs[..i])
      {
        TableUpsertSnoc(old(db), root, fs, i);
        if fs[i].ignored {
          db := db.(files := db.files - {(root, fs[i].path)});
        } else {
          db := db.(files := db.files[(root, fs[i].path) := fs[i]]);
        }
        i := i + 1;
      }
      assert fs[..i] == fs;
    }

    /** A primary key that is taken makes the insert fail. */
    method CreateSnapshot(s: Snapshot) returns (ok: bool)
      modifies this
      ensures (db, ok) == InTables(old(db), Create(s))
      ensures ok <==> s.id !in old(db).snapshots
    {
      ok := s.id !in db.snapshots;
      if ok {
        db := db.(snapshots := db.snapshots[s.id := s]);
      }
    }

    method RecordErrors(id: string, es: seq<ScanError>)
      modifies this
      ensures db == old(db).Record(id, es)
    {
      if es == [] {
        return;
      }
      var start := Next(db.SeqsOf(id));
      var i := 0;
      while i < |es|
        invariant 0 <= i <= |es|
        invariant db == old(db).RecordFrom(id, start, es[..i])
      {
        TableRecordSnoc(old(db), id, start, es, i);
        db := db.(errors := db.errors[(id, start + i) := es[i]]);
        i := i + 1;
      }
      assert es[..i] == es;
    }

    /** All or nothing: a failed insert rolls the transaction back. */
    method PersistScanResult(root: string, r: ScanResult) returns (ok: bool)
      modifies this
      ensures (db, ok) == InTables(old(db), Persist(root, r))
    {
      var begun := db;
      ok := CreateSnapshot(SnapshotOf(root, r));
      if !ok {
        db := begun;
        return;
      }
      RecordErrors(r.id, r.errors);
      UpsertFiles(root, r.files);
      RemoveFiles(root, r.deleted);
    }
  }
}
