/**
 What a scan reports, spelled out: which records, changed files, deleted paths and
 errors its result lists, how often and in which order.
 */
module IncrementalReport {
  import opened Ordering
  import opened Paths
  import opened Walk
  import opened WalkSafety
  import opened Inventory
  import opened Incremental

  // ---------------------------------------------------------------- errors

  /** The fast check takes the entry over: a record of its path has its size and time. */
  ghost predicate TakenOver(fast: bool, prior: Index, w: WalkEntry) {
    fast && w.path in prior && prior[w.path].size == w.size && prior[w.path].mtime == w.mtime
  }

  /** The positions of the entries that had to be hashed, could not be, and leave this very error. */
  ghost function FailedAt(fast: bool, prior: Index, disk: Disk, ws: seq<WalkEntry>, x: ScanError): set<nat> {
    set i: nat | i < |ws| && !TakenOver(fast, prior, ws[i]) && disk.hash(ws[i].path).Failed?
                 && x == ScanError(PosixJoin("/" + Join(disk.cfg.root), ws[i].path), HashStage)
  }

  lemma FailedSnoc(fast: bool, prior: Index, disk: Disk, ws: seq<WalkEntry>, w: WalkEntry, x: ScanError)
    ensures FailedAt(fast, prior, disk, ws + [w], x) == FailedAt(fast, prior, disk, ws, x) +
              if FileFor(fast, prior, disk, w).Failed? && x == HashError(disk, w) then {|ws|} else {}
  {
    forall i: nat | i < |ws| ensures (ws + [w])[i] == ws[i] {}
    assert (ws + [w])[|ws|] == w;
  }

  lemma {:induction false} HashErrorsCounted(fast: bool, prior: Index, disk: Disk, ws: seq<WalkEntry>, x: ScanError)
    ensures multiset(HashErrors(fast, prior, disk, ws))[x] == |FailedAt(fast, prior, disk, ws, x)|
  {
    if ws != [] {
      var n := |ws| - 1;
      var init, w := ws[..n], ws[n];
      HashErrorsCounted(fast, prior, disk, init, x);
      FailedSnoc(fast, prior, disk, init, w, x);
      assert ws == init + [w];
      assert n !in FailedAt(fast, prior, disk, init, x);
    }
  }

  lemma {:induction false} EachHashedOrFailed(fast: bool, prior: Index, disk: Disk, ws: seq<WalkEntry>)
    ensures |Files(fast, prior, disk, ws)| + |HashErrors(fast, prior, disk, ws)| == |ws|
  {
    if ws != [] {
      EachHashedOrFailed(fast, prior, disk, ws[..|ws| - 1]);
    }
  }

  /**
   For every walk, prior index and mode: the errors of the result are those of the walk,
   then one for each included entry that the fast check did not take over and that could
   not be hashed, under its absolute path; and every other entry has a record.
   */
  lemma ErrorsCounted(fast: bool, prior: Index, disk: Disk, walk: WalkResult, fingerprint: Fingerprint, x: ScanError)
    ensures var r := Result(fast, prior, disk, walk, fingerprint);
      && walk.errors <= r.errors
      && multiset(r.errors)[x] == multiset(walk.errors)[x] + |FailedAt(fast, prior, disk, walk.included, x)|
      && |r.files| + |r.errors| == |walk.included| + |walk.errors|
  {
    HashErrorsCounted(fast, prior, disk, walk.included, x);
    EachHashedOrFailed(fast, prior, disk, walk.included);
    SortByOk(Files(fast, prior, disk, walk.included), RecordPath);
  }

  /** After a scan the store has these errors behind the ones it had under the same snapshot id. */
  lemma ErrorsStored(m: Memory, repoRoot: string, fast: bool, disk: Disk, walk: WalkResult, fingerprint: Fingerprint, x: ScanError)
    ensures var r := Result(fast, m.FilesOf(repoRoot), disk, walk, fingerprint);
      var m' := m.Persist(repoRoot, r);
      && m'.ErrorsOf(r.id) == m.ErrorsOf(r.id) + r.errors
      && multiset(m'.ErrorsOf(r.id))[x] == multiset(m.ErrorsOf(r.id))[x] + multiset(walk.errors)[x]
           + |FailedAt(fast, m.FilesOf(repoRoot), disk, walk.included, x)|
  {
    ErrorsCounted(fast, m.FilesOf(repoRoot), disk, walk, fingerprint, x);
  }

  /** The path in a hash error: the root, a slash and the path in the repository. */
  lemma AbsolutePath(root: seq<string>, p: string)
    requires root != [] && (forall s :: s in root ==> GoodSegment(s) && '/' !in s) && Canonical(p)
    ensures PosixJoin("/" + Join(root), p) == "/" + Join(root) + "/" + p
  {
    var base := Join(root);
    var rel := base + "/" + p;
    SplitJoin(root);
    SplitAppend(base, p);
    LastNotSlash(p);
    assert rel[|rel| - 1] == p[|p| - 1];
    forall s | s in Split(rel) ensures GoodSegment(s) { assert s in root || s in Split(p); }
    RootedNormal(rel);
    RootFirst(base, p);
  }

  lemma RootFirst(base: string, p: string)
    ensures "/" + (base + "/" + p) == "/" + base + "/" + p
  {}

  /** An absolute path with plain segments is in normal form. */
  lemma RootedNormal(rel: string)
    requires rel != "" && rel[|rel| - 1] != '/' && forall s :: s in Split(rel) ==> GoodSegment(s)
    ensures PosixNormalize("/" + rel) == "/" + rel
  {
    var segs, full := Split(rel), "/" + rel;
    assert full[0] == '/' && full[|full| - 1] != '/' && full[1..] == rel;
    assert Split(full) == [""] + segs;
    RootedResolved(segs);
    JoinSplit(rel);
    Undecorated(rel);
  }

  lemma Undecorated(rel: string)
    requires rel != ""
    ensures Decorate(true, false, rel) == "/" + rel
  {}

  lemma RootedResolved(segs: seq<string>)
    requires forall s :: s in segs ==> GoodSegment(s)
    ensures ResolveDots([""] + segs, [], false) == segs
  {
    ResolveGood(segs, [], false);
    assert ([""] + segs)[1..] == segs;
    assert [] + segs == segs;
  }

  lemma LastNotSlash(p: string)
    requires Canonical(p)
    ensures p != "" && p[|p| - 1] != '/'
  {
    CanonicalNormal(p);
    assert forall x :: x in Split(p)[1..] ==> x in Split(p);
    SplitSlashes(p);
  }

  // ---------------------------------------------------------------- records

  /** The record of an entry: the stored one if the fast check takes it over, else a new one with its hash. */
  ghost predicate Records(fast: bool, prior: Index, disk: Disk, w: WalkEntry, f: FileRecord) {
    if TakenOver(fast, prior, w) then f == prior[w.path]
    else disk.hash(w.path).Got?
         && f == FileRecord(w.path, disk.hash(w.path).value, w.size, w.mtime, false, disk.indexedAt(w.path))
  }

  lemma {:induction false} FilesAre(fast: bool, prior: Index, disk: Disk, ws: seq<WalkEntry>, f: FileRecord)
    ensures f in Files(fast, prior, disk, ws) <==> exists w :: w in ws && Records(fast, prior, disk, w, f)
    ensures f in ChangedFiles(fast, prior, disk, ws) <==>
            exists w :: w in ws && Records(fast, prior, disk, w, f) && (w.path !in prior || f.hash != prior[w.path].hash)
  {
    if ws != [] {
      var n := |ws| - 1;
      FilesAre(fast, prior, disk, ws[..n], f);
      assert forall w :: w in ws <==> w in ws[..n] || w == ws[n];
      assert Records(fast, prior, disk, ws[n], f) <==> FileFor(fast, prior, disk, ws[n]) == Got(f);
    }
  }

  /**
   For every walk, prior index and mode: what the result lists.  Records and changed files
   are those of the entries; deleted are the stored paths that were not included, or that an
   ignored entry is or hides as a directory; the id depends on paths and hashes in order.
   */
  lemma ReportIs(fast: bool, prior: Index, disk: Disk, walk: WalkResult, fingerprint: Fingerprint)
    ensures var r := Result(fast, prior, disk, walk, fingerprint);
      && r.createdAt == disk.createdAt
      && r.id == fingerprint(seq(|r.files|, i requires 0 <= i < |r.files| => (r.files[i].path, r.files[i].hash)))
      && (forall f :: f in r.files <==> exists w :: w in walk.included && Records(fast, prior, disk, w, f))
      && (forall f :: f in r.changed <==>
            exists w :: w in walk.included && Records(fast, prior, disk, w, f) && (w.path !in prior || f.hash != prior[w.path].hash))
      && (forall p :: p in r.deleted <==>
            && p in prior
            && ((forall w :: w in walk.included ==> w.path != p)
                || exists x :: x in walk.ignored && (p == x.path || (x.isDirectory && x.path + "/" <= p))))
      && multiset(r.ignored) == multiset(walk.ignored)
  {
    var r := Result(fast, prior, disk, walk, fingerprint);
    ListedAre(fast, prior, disk, walk.included);
    SortByOk(walk.ignored, RefPath);
    DeletedAre(prior, walk);
    assert Prints(r.files) == seq(|r.files|, i requires 0 <= i < |r.files| => (r.files[i].path, r.files[i].hash));
  }

  lemma ListedAre(fast: bool, prior: Index, disk: Disk, ws: seq<WalkEntry>)
    ensures forall f :: f in SortBy(Files(fast, prior, disk, ws), RecordPath) <==> exists w :: w in ws && Records(fast, prior, disk, w, f)
    ensures forall f :: f in SortBy(ChangedFiles(fast, prior, disk, ws), RecordPath) <==>
              exists w :: w in ws && Records(fast, prior, disk, w, f) && (w.path !in prior || f.hash != prior[w.path].hash)
  {
    SortByOk(Files(fast, prior, disk, ws), RecordPath);
    SortByOk(ChangedFiles(fast, prior, disk, ws), RecordPath);
    forall f
      ensures f in Files(fast, prior, disk, ws) <==> exists w :: w in ws && Records(fast, prior, disk, w, f)
      ensures f in ChangedFiles(fast, prior, disk, ws) <==>
              exists w :: w in ws && Records(fast, prior, disk, w, f) && (w.path !in prior || f.hash != prior[w.path].hash)
    {
      FilesAre(fast, prior, disk, ws, f);
    }
  }

  /** Every list of the result is in path order. */
  lemma ReportOrder(fast: bool, prior: Index, disk: Disk, walk: WalkResult, fingerprint: Fingerprint)
    ensures var r := Result(fast, prior, disk, walk, fingerprint);
      && (forall i, j :: 0 <= i < j < |r.files| ==> Leq(r.files[i].path, r.files[j].path))
      && (forall i, j :: 0 <= i < j < |r.changed| ==> Leq(r.changed[i].path, r.changed[j].path))
      && (forall i, j :: 0 <= i < j < |r.ignored| ==> Leq(r.ignored[i].path, r.ignored[j].path))
      && (forall i, j :: 0 <= i < j < |r.deleted| ==> Leq(r.deleted[i], r.deleted[j]) && r.deleted[i] != r.deleted[j])
  {
    SortByOk(Files(fast, prior, disk, walk.included), RecordPath);
    SortByOk(ChangedFiles(fast, prior, disk, walk.included), RecordPath);
    SortByOk(walk.ignored, RefPath);
    SortedSetOk(Removed(prior, walk));
    InPathOrder(Result(fast, prior, disk, walk, fingerprint));
  }

  lemma DeletedAre(prior: Index, walk: WalkResult)
    ensures forall p :: p in Removed(prior, walk) <==>
              && p in prior
              && ((forall w :: w in walk.included ==> w.path != p)
                  || exists x :: x in walk.ignored && (p == x.path || (x.isDirectory && x.path + "/" <= p)))
  {
    forall p ensures p in IncludedPaths(walk.included) <==> exists w :: w in walk.included && w.path == p {
      PathAmong(walk.included, p);
    }
    forall p
      ensures IsCurrentlyIgnored(p, walk.ignored) <==>
              exists x :: x in walk.ignored && (p == x.path || (x.isDirectory && x.path + "/" <= p))
    {
      if x :| x in walk.ignored && (p == x.path || (x.isDirectory && x.path + "/" <= p)) {
        assert Hides(x, p);
      }
    }
  }

  /** Sorted by a key is in the order of the paths. */
  lemma InPathOrder(r: ScanResult)
    requires Sorted(r.files, RecordPath) && Sorted(r.changed, RecordPath) && Sorted(r.ignored, RefPath)
    requires Sorted(r.deleted, Self) && DistinctKeys(r.deleted, Self)
    ensures forall i, j :: 0 <= i < j < |r.files| ==> Leq(r.files[i].path, r.files[j].path)
    ensures forall i, j :: 0 <= i < j < |r.changed| ==> Leq(r.changed[i].path, r.changed[j].path)
    ensures forall i, j :: 0 <= i < j < |r.ignored| ==> Leq(r.ignored[i].path, r.ignored[j].path)
    ensures forall i, j :: 0 <= i < j < |r.deleted| ==> Leq(r.deleted[i], r.deleted[j]) && r.deleted[i] != r.deleted[j]
  {
    forall i, j | 0 <= i < j < |r.files| ensures Leq(r.files[i].path, r.files[j].path) {
      assert Leq(RecordPath(r.files[i]), RecordPath(r.files[j]));
    }
    forall i, j | 0 <= i < j < |r.changed| ensures Leq(r.changed[i].path, r.changed[j].path) {
      assert Leq(RecordPath(r.changed[i]), RecordPath(r.changed[j]));
    }
    forall i, j | 0 <= i < j < |r.ignored| ensures Leq(r.ignored[i].path, r.ignored[j].path) {
      assert Leq(RefPath(r.ignored[i]), RefPath(r.ignored[j]));
    }
    forall i, j | 0 <= i < j < |r.deleted| ensures Leq(r.deleted[i], r.deleted[j]) && r.deleted[i] != r.deleted[j] {
      assert Leq(Self(r.deleted[i]), Self(r.deleted[j])) && Self(r.deleted[i]) != Self(r.deleted[j]);
    }
  }
}
