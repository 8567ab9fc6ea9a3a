/**
 The incremental scan: walk, hash what may have changed, report the difference to the
 stored index and persist it.
 */
module Incremental {
  import opened Ordering
  import opened Paths
  import opened Walk
  import opened WalkSafety
  import opened Inventory
  import opened InventoryStores

  /** What one scan finds: the tree, the ignore policy, the content hashes and the clock. */
  datatype Disk = Disk(root: Entry, cfg: Config, configErrors: seq<ScanError>,
                       hash: string -> Read<string>, indexedAt: string -> string, createdAt: string)

  function BuildRecord(w: WalkEntry, hash: string, at: string): FileRecord {
    FileRecord(w.path, hash, w.size, w.mtime, false, at)
  }

  /** A hash error names the absolute path that was read. */
  function HashError(disk: Disk, w: WalkEntry): ScanError {
    ScanError(PosixJoin("/" + Join(disk.cfg.root), w.path), HashStage)
  }

  /** The fast check trusts size and modification time. */
  predicate LooksUnchanged(prior: Index, w: WalkEntry) {
    w.path in prior && prior[w.path].size == w.size && prior[w.path].mtime == w.mtime
  }

  function FileFor(fast: bool, prior: Index, disk: Disk, w: WalkEntry): Read<FileRecord> {
    if fast && LooksUnchanged(prior, w) then Got(prior[w.path])
    else
      match disk.hash(w.path)
      case Failed => Failed
      case Got(h) => Got(BuildRecord(w, h, disk.indexedAt(w.path)))
  }

  predicate IsChanged(prior: Index, w: WalkEntry, f: FileRecord) {
    w.path !in prior || f.hash != prior[w.path].hash
  }

  function Files(fast: bool, prior: Index, disk: Disk, ws: seq<WalkEntry>): seq<FileRecord> {
    if ws == [] then []
    else
      var rest, f := Files(fast, prior, disk, ws[..|ws| - 1]), FileFor(fast, prior, disk, ws[|ws| - 1]);
      if f.Got? then rest + [f.value] else rest
  }

  function ChangedFiles(fast: bool, prior: Index, disk: Disk, ws: seq<WalkEntry>): seq<FileRecord> {
    if ws == [] then []
    else
      var w := ws[|ws| - 1];
      var rest, f := ChangedFiles(fast, prior, disk, ws[..|ws| - 1]), FileFor(fast, prior, disk, w);
      if f.Got? && IsChanged(prior, w, f.value) then rest + [f.value] else rest
  }

  function HashErrors(fast: bool, prior: Index, disk: Disk, ws: seq<WalkEntry>): seq<ScanError> {
    if ws == [] then []
    else
      var w := ws[|ws| - 1];
      var rest := HashErrors(fast, prior, disk, ws[..|ws| - 1]);
      if FileFor(fast, prior, disk, w).Failed? then rest + [HashError(disk, w)] else rest
  }

  /** Stored paths that are ignored now or were not found. */
  function Removed(prior: Index, walk: WalkResult): set<string> {
    set p | p in prior && (IsCurrentlyIgnored(p, walk.ignored) || p !in IncludedPaths(walk.included))
  }

  function RecordPath(f: FileRecord): string { f.path }

  function RefPath(r: IgnoredRef): string { r.path }

  /** The snapshot id is computed from paths and hashes only. */
  type Fingerprint = seq<(string, string)> -> string

  function Prints(files: seq<FileRecord>): seq<(string, string)> {
    seq(|files|, i requires 0 <= i < |files| => (files[i].path, files[i].hash))
  }

  /** A result lists everything in path order; `deleted` comes sorted. */
  function Assemble(disk: Disk, walk: WalkResult, fingerprint: Fingerprint, files: seq<FileRecord>,
                    changed: seq<FileRecord>, deleted: seq<string>, hashErrors: seq<ScanError>): ScanResult {
    var sorted := SortBy(files, RecordPath);
    ScanResult(fingerprint(Prints(sorted)), disk.createdAt, sorted, SortBy(changed, RecordPath),
               deleted, SortBy(walk.ignored, RefPath), walk.errors + hashErrors)
  }

  function Result(fast: bool, prior: Index, disk: Disk, walk: WalkResult, fingerprint: Fingerprint): ScanResult {
    Assemble(disk, walk, fingerprint, Files(fast, prior, disk, walk.included),
             ChangedFiles(fast, prior, disk, walk.included),
             SortedSet(Removed(prior, walk)), HashErrors(fast, prior, disk, walk.included))
  }

  /** The index after the scan's result was persisted. */
  function NextIndex(prior: Index, r: ScanResult): Index {
    RemoveAll(UpsertAll(prior, r.files), r.deleted)
  }

  // ---------------------------------------------------------------- the scan as it runs

  lemma DiffSnoc(fast: bool, prior: Index, disk: Disk, ws: seq<WalkEntry>, i: nat)
    requires i < |ws|
    ensures var f := FileFor(fast, prior, disk, ws[i]);
      && Files(fast, prior, disk, ws[..i + 1]) == Files(fast, prior, disk, ws[..i]) + (if f.Got? then [f.value] else [])
      && ChangedFiles(fast, prior, disk, ws[..i + 1]) == ChangedFiles(fast, prior, disk, ws[..i])
           + (if f.Got? && IsChanged(prior, ws[i], f.value) then [f.value] else [])
      && HashErrors(fast, prior, disk, ws[..i + 1]) == HashErrors(fast, prior, disk, ws[..i])
           + (if f.Failed? then [HashError(disk, ws[i])] else [])
  {
    assert ws[..i + 1][..i] == ws[..i];
  }

  method DiffCurrentFiles(fast: bool, prior: Index, disk: Disk, included: seq<WalkEntry>)
    returns (files: seq<FileRecord>, changed: seq<FileRecord>, errors: seq<ScanError>)
    ensures files == Files(fast, prior, disk, included)
    ensures changed == ChangedFiles(fast, prior, disk, included)
    ensures errors == HashErrors(fast, prior, disk, included)
  {
    files, changed, errors := [], [], [];
    var i := 0;
    while i < |included|
      invariant 0 <= i <= |included|
      invariant files == Files(fast, prior, disk, included[..i])
      invariant changed == ChangedFiles(fast, prior, disk, included[..i])
      invariant errors == HashErrors(fast, prior, disk, included[..i])
    {
      var w := included[i];
      DiffSnoc(fast, prior, disk, included, i);
      i := i + 1;
      var file: FileRecord;
      if fast && w.path in prior && prior[w.path].size == w.size && prior[w.path].mtime == w.mtime {
        file := prior[w.path];
      } else {
        var hash := disk.hash(w.path);
        if hash.Failed? {
          errors := errors + [HashError(disk, w)];
          continue;
        }
        file := BuildRecord(w, hash.value, disk.indexedAt(w.path));
      }
      files := files + [file];
      if w.path !in prior || file.hash != prior[w.path].hash {
        changed := changed + [file];
      }
    }
    assert included[..i] == included;
  }

  method RemovedInventoryPaths(prior: Index, walk: WalkResult) returns (removed: seq<string>)
    ensures removed == SortedSet(Removed(prior, walk))
  {
    var found := {};
    var keys := SortedSet(prior.Keys);
    var current := set w | w in walk.included :: w.path;
    assert forall p :: p in current <==> p in IncludedPaths(walk.included) by {
      forall p ensures p in current <==> p in IncludedPaths(walk.included) { PathAmong(walk.included, p); }
    }
    var i := 0;
    while i < |keys|
      invariant 0 <= i <= |keys|
      invariant found == set p | p in keys[..i] && p in Removed(prior, walk)
    {
      assert keys[i] in keys;
      if IsCurrentlyIgnored(keys[i], walk.ignored) || keys[i] !in current {
        found := found + {keys[i]};
      }
      i := i + 1;
    }
    assert keys[..i] == keys;
    assert found == Removed(prior, walk);
    removed := SortedSet(found);
  }

  /** A scan whose walk does not complete throws and leaves the store as it was. */
  method ScanChangedFiles(store: InMemoryInventoryStore, repoRoot: string, fast: bool, disk: Disk, fingerprint: Fingerprint)
    returns (r: Read<ScanResult>)
    modifies store
    ensures r.Got? <==> Completes(disk.cfg, disk.root)
    ensures r.Failed? ==> store.State() == old(store.State())
    ensures r.Got? ==>
      && r.value == Result(fast, old(store.State()).FilesOf(repoRoot), disk, WalkRepository(disk.cfg, disk.root, disk.configErrors).value, fingerprint)
      && store.State() == old(store.State()).Persist(repoRoot, r.value)
      && store.State().ErrorsOf(r.value.id) == old(store.State()).ErrorsOf(r.value.id) + r.value.errors
  {
    var prior := store.State().FilesOf(repoRoot);
    var walked := RunWalk(disk.cfg, disk.root, disk.configErrors);
    if walked.Failed? {
      return Failed;
    }
    var walk := walked.value;
    var files, changed, hashErrors := DiffCurrentFiles(fast, prior, disk, walk.included);
    var deleted := RemovedInventoryPaths(prior, walk);
    var result := Assemble(disk, walk, fingerprint, files, changed, deleted, hashErrors);
    store.PersistScanResult(repoRoot, result);
    return Got(result);
  }

  lemma {:induction false} AllChangedAtFirst(disk: Disk, ws: seq<WalkEntry>)
    ensures ChangedFiles(false, map[], disk, ws) == Files(false, map[], disk, ws)
  {
    if ws != [] {
      AllChangedAtFirst(disk, ws[..|ws| - 1]);
    }
  }

  method HashAll(disk: Disk, included: seq<WalkEntry>) returns (files: seq<FileRecord>, errors: seq<ScanError>)
    ensures files == Files(false, map[], disk, included)
    ensures errors == HashErrors(false, map[], disk, included)
  {
    files, errors := [], [];
    var i := 0;
    while i < |included|
      invariant 0 <= i <= |included|
      invariant files == Files(false, map[], disk, included[..i])
      invariant errors == HashErrors(false, map[], disk, included[..i])
    {
      var w := included[i];
      DiffSnoc(false, map[], disk, included, i);
      var hash := disk.hash(w.path);
      if hash.Failed? {
        errors := errors + [HashError(disk, w)];
      } else {
        files := files + [BuildRecord(w, hash.value, disk.indexedAt(w.path))];
      }
      i := i + 1;
    }
    assert included[..i] == included;
  }

  /** A full scan, which uses no store, reports what an incremental scan of an empty index would. */
  method ScanRepository(disk: Disk, fingerprint: Fingerprint) returns (r: Read<ScanResult>)
    ensures r.Got? <==> Completes(disk.cfg, disk.root)
    ensures r.Got? ==>
      r.value == Result(false, map[], disk, WalkRepository(disk.cfg, disk.root, disk.configErrors).value, fingerprint)
  {
    var walked := RunWalk(disk.cfg, disk.root, disk.configErrors);
    if walked.Failed? {
      return Failed;
    }
    var walk := walked.value;
    var files, hashErrors := HashAll(disk, walk.included);
    AllChangedAtFirst(disk, walk.included);
    assert Removed(map[], walk) == {};
    return Got(Assemble(disk, walk, fingerprint, files, files, [], hashErrors));
  }
}
