/**
 What incremental scans leave in the index, on every tree: record by record, against a full
 scan after any history, when a rescan is quiet, and when the fast check is as good as
 hashing.  Nothing is asked of the walk.
 */
module IncrementalAgreement {
  import opened Ordering
  import opened Walk
  import opened WalkSafety
  import opened Inventory
  import opened Incremental
  import opened InventoryAgreement

  /** Records are kept under their own path, and none is ignored. */
  ghost predicate IndexOk(m: Index) {
    forall p :: p in m ==> m[p].path == p && !m[p].ignored
  }

  predicate Included(walk: WalkResult, p: string) {
    p in IncludedPaths(walk.included)
  }

  predicate Ignored(walk: WalkResult, p: string) {
    IsCurrentlyIgnored(p, walk.ignored)
  }

  /** The deleted files are exactly the stored paths that were not included, if and only if no stored included path is ignored. */
  lemma DeletedExactlyIff(prior: Index, walk: WalkResult)
    ensures Removed(prior, walk) == (set p | p in prior && !Included(walk, p)) <==>
            forall p :: p in prior && Included(walk, p) ==> !Ignored(walk, p)
  {
    var absent := set p | p in prior && !Included(walk, p);
    if Removed(prior, walk) == absent {
      forall p | p in prior && Included(walk, p) ensures !Ignored(walk, p) {
        assert p !in absent;
      }
    }
    if forall p :: p in prior && Included(walk, p) ==> !Ignored(walk, p) {
      assert forall p :: p in Removed(prior, walk) <==> p in absent;
    }
  }

  // ---------------------------------------------------------------- members of the difference

  lemma {:induction false} FilesAre(fast: bool, prior: Index, disk: Disk, ws: seq<WalkEntry>, f: FileRecord)
    ensures f in Files(fast, prior, disk, ws) <==> exists w :: w in ws && FileFor(fast, prior, disk, w) == Got(f)
  {
    if ws != [] {
      var n := |ws| - 1;
      FilesAre(fast, prior, disk, ws[..n], f);
      assert forall w :: w in ws <==> w in ws[..n] || w == ws[n];
    }
  }

  /** The scan reports this entry as changed. */
  predicate ChangedAt(fast: bool, prior: Index, disk: Disk, w: WalkEntry) {
    var f := FileFor(fast, prior, disk, w);
    f.Got? && IsChanged(prior, w, f.value)
  }

  lemma {:induction false} ChangedAre(fast: bool, prior: Index, disk: Disk, ws: seq<WalkEntry>, f: FileRecord)
    ensures f in ChangedFiles(fast, prior, disk, ws) <==>
            exists w :: w in ws && ChangedAt(fast, prior, disk, w) && FileFor(fast, prior, disk, w) == Got(f)
  {
    if ws != [] {
      var n := |ws| - 1;
      ChangedAre(fast, prior, disk, ws[..n], f);
      assert forall w :: w in ws <==> w in ws[..n] || w == ws[n];
    }
  }

  lemma FilePath(fast: bool, prior: Index, disk: Disk, w: WalkEntry)
    requires IndexOk(prior) && FileFor(fast, prior, disk, w).Got?
    ensures FileFor(fast, prior, disk, w).value.path == w.path && !FileFor(fast, prior, disk, w).value.ignored
  {}

  // ---------------------------------------------------------------- the record of one path

  /** The last record of a path. */
  function LastRecord(fs: seq<FileRecord>, p: string): Read<FileRecord> {
    if fs == [] then Failed
    else if fs[|fs| - 1].path == p then Got(fs[|fs| - 1])
    else LastRecord(fs[..|fs| - 1], p)
  }

  lemma {:induction false} LastIsMember(fs: seq<FileRecord>, p: string)
    ensures LastRecord(fs, p).Got? ==> LastRecord(fs, p).value in fs && LastRecord(fs, p).value.path == p
  {
    if fs != [] {
      LastIsMember(fs[..|fs| - 1], p);
    }
  }

  /** Upserting leaves the last record of each path. */
  lemma {:induction false} UpsertAt(m: Index, fs: seq<FileRecord>, p: string)
    requires forall f :: f in fs ==> !f.ignored
    ensures p in UpsertAll(m, fs) <==> p in m || LastRecord(fs, p).Got?
    ensures p in UpsertAll(m, fs) ==> UpsertAll(m, fs)[p] == if LastRecord(fs, p).Got? then LastRecord(fs, p).value else m[p]
  {
    if fs != [] {
      UpsertAt(m, fs[..|fs| - 1], p);
    }
  }

  lemma {:induction false} LastCons(x: FileRecord, ys: seq<FileRecord>, p: string)
    ensures LastRecord([x] + ys, p) ==
            if LastRecord(ys, p).Got? then LastRecord(ys, p) else if x.path == p then Got(x) else Failed
  {
    if ys == [] {
      assert [x] + ys == [x];
      assert [x][..0] == [];
    } else {
      var n := |ys| - 1;
      assert ([x] + ys)[..n + 1] == [x] + ys[..n];
      LastCons(x, ys[..n], p);
    }
  }

  /** The sort puts a record after all records of its path. */
  lemma {:induction false} InsertLast(x: FileRecord, ys: seq<FileRecord>, p: string)
    requires Sorted(ys, RecordPath)
    ensures LastRecord(Insert(x, ys, RecordPath), p) == if x.path == p then Got(x) else LastRecord(ys, p)
  {
    LastCons(x, ys, p);
    if ys == [] {
      assert [x] + ys == [x];
    } else if !Leq(ys[0].path, x.path) {
      NoneBefore(x, ys);
      LastIsMember(ys, p);
    } else {
      InsertLast(x, ys[1..], p);
      LastCons(ys[0], Insert(x, ys[1..], RecordPath), p);
      LastCons(ys[0], ys[1..], p);
      assert ys == [ys[0]] + ys[1..];
    }
  }

  lemma NoneBefore(x: FileRecord, ys: seq<FileRecord>)
    requires ys != [] && Sorted(ys, RecordPath) && !Leq(ys[0].path, x.path)
    ensures forall y :: y in ys ==> y.path != x.path
  {
    forall y | y in ys ensures y.path != x.path {
      var j :| 0 <= j < |ys| && ys[j] == y;
      LeqTotal(x.path, x.path);
      assert j > 0 ==> Leq(RecordPath(ys[0]), RecordPath(ys[j]));
    }
  }

  /** The sort is stable: it keeps the last record of each path. */
  lemma {:induction false} SortLast(fs: seq<FileRecord>, p: string)
    ensures LastRecord(SortBy(fs, RecordPath), p) == LastRecord(fs, p)
  {
    if fs != [] {
      var n := |fs| - 1;
      SortLast(fs[..n], p);
      SortByOk(fs[..n], RecordPath);
      InsertLast(fs[n], SortBy(fs[..n], RecordPath), p);
    }
  }

  /** The record that the scan makes last for a path. */
  function LastFile(fast: bool, prior: Index, disk: Disk, ws: seq<WalkEntry>, p: string): Read<FileRecord> {
    if ws == [] then Failed
    else
      var w := ws[|ws| - 1];
      if w.path == p && FileFor(fast, prior, disk, w).Got? then FileFor(fast, prior, disk, w)
      else LastFile(fast, prior, disk, ws[..|ws| - 1], p)
  }

  lemma {:induction false} LastFileIs(fast: bool, prior: Index, disk: Disk, ws: seq<WalkEntry>, p: string)
    requires IndexOk(prior)
    ensures LastRecord(Files(fast, prior, disk, ws), p) == LastFile(fast, prior, disk, ws, p)
  {
    if ws != [] {
      var n := |ws| - 1;
      LastFileIs(fast, prior, disk, ws[..n], p);
      if FileFor(fast, prior, disk, ws[n]).Got? { FilePath(fast, prior, disk, ws[n]); }
    }
  }

  /** It is the record of an included entry of that path. */
  lemma {:induction false} LastFileOf(fast: bool, prior: Index, disk: Disk, ws: seq<WalkEntry>, p: string)
    ensures var last := LastFile(fast, prior, disk, ws, p);
      && (last.Got? <==> exists w :: w in ws && w.path == p && FileFor(fast, prior, disk, w).Got?)
      && (last.Got? ==> exists w :: w in ws && w.path == p && FileFor(fast, prior, disk, w) == last)
  {
    if ws != [] {
      var n := |ws| - 1;
      LastFileOf(fast, prior, disk, ws[..n], p);
      assert forall w :: w in ws <==> w in ws[..n] || w == ws[n];
    }
  }

  // ---------------------------------------------------------------- the index after a scan

  function Scan(fast: bool, prior: Index, disk: Disk, walk: WalkResult): Index {
    NextIndex(prior, Result(fast, prior, disk, walk, _ => ""))
  }

  lemma FilesNotIgnored(fast: bool, prior: Index, disk: Disk, ws: seq<WalkEntry>)
    requires IndexOk(prior)
    ensures forall f :: f in SortBy(Files(fast, prior, disk, ws), RecordPath) ==> !f.ignored
  {
    var files := Files(fast, prior, disk, ws);
    SortByOk(files, RecordPath);
    forall f | f in files ensures !f.ignored {
      FilesAre(fast, prior, disk, ws, f);
      var w :| w in ws && FileFor(fast, prior, disk, w) == Got(f);
      FilePath(fast, prior, disk, w);
    }
  }

  lemma FilesAt(fast: bool, prior: Index, disk: Disk, ws: seq<WalkEntry>, m: Index, p: string)
    requires IndexOk(prior)
    ensures var after, last := UpsertAll(m, SortBy(Files(fast, prior, disk, ws), RecordPath)), LastFile(fast, prior, disk, ws, p);
      && (p in after <==> p in m || last.Got?)
      && (p in after ==> after[p] == if last.Got? then last.value else m[p])
  {
    FilesNotIgnored(fast, prior, disk, ws);
    UpsertAt(m, SortBy(Files(fast, prior, disk, ws), RecordPath), p);
    SortLast(Files(fast, prior, disk, ws), p);
    LastFileIs(fast, prior, disk, ws, p);
  }

  /**
   The index after a scan, path by path.  A stored path stays if it is included and not
   ignored; a new one comes in if a record was made for it.  The record is the last one
   made, or else the old one.
   */
  lemma ScanAt(fast: bool, prior: Index, disk: Disk, walk: WalkResult, p: string)
    requires IndexOk(prior)
    ensures var after, last := Scan(fast, prior, disk, walk), LastFile(fast, prior, disk, walk.included, p);
      && (p in after <==> if p in prior then Included(walk, p) && !Ignored(walk, p) else last.Got?)
      && (p in after ==> after[p] == if last.Got? then last.value else prior[p])
  {
    FilesAt(fast, prior, disk, walk.included, prior, p);
  }

  /** Only included paths are in the index. */
  lemma ScanKeeps(fast: bool, prior: Index, disk: Disk, walk: WalkResult, p: string)
    requires IndexOk(prior) && p in Scan(fast, prior, disk, walk)
    ensures Included(walk, p)
  {
    ScanAt(fast, prior, disk, walk, p);
    LastFileOf(fast, prior, disk, walk.included, p);
    PathAmong(walk.included, p);
  }

  lemma ScanIndexOk(fast: bool, prior: Index, disk: Disk, walk: WalkResult)
    requires IndexOk(prior)
    ensures IndexOk(Scan(fast, prior, disk, walk))
  {
    var after := Scan(fast, prior, disk, walk);
    forall p | p in after ensures after[p].path == p && !after[p].ignored {
      ScanAt(fast, prior, disk, walk, p);
      LastFileOf(fast, prior, disk, walk.included, p);
      if LastFile(fast, prior, disk, walk.included, p).Got? {
        var w :| w in walk.included && w.path == p
                 && FileFor(fast, prior, disk, w) == LastFile(fast, prior, disk, walk.included, p);
        FilePath(fast, prior, disk, w);
      }
    }
  }

  /** A default scan makes a record for every included path that can be hashed, with that hash. */
  lemma DefaultLast(prior: Index, disk: Disk, walk: WalkResult, p: string)
    ensures var last := LastFile(false, prior, disk, walk.included, p);
      && (last.Got? <==> Included(walk, p) && disk.hash(p).Got?)
      && (last.Got? ==> exists w :: w in walk.included && w.path == p
                          && last.value == BuildRecord(w, disk.hash(p).value, disk.indexedAt(p)))
  {
    LastFileOf(false, prior, disk, walk.included, p);
    PathAmong(walk.included, p);
  }

  // ---------------------------------------------------------------- against a full scan

  /** What a full scan indexes: the files it reports, put into an empty index. */
  function FreshIndex(disk: Disk, walk: WalkResult): Index {
    UpsertAll(map[], SortBy(Files(false, map[], disk, walk.included), RecordPath))
  }

  /** A full scan indexes exactly the included paths that can be hashed, each with a record of one of its entries. */
  lemma FreshAt(disk: Disk, walk: WalkResult, p: string)
    ensures p in FreshIndex(disk, walk) <==> Included(walk, p) && disk.hash(p).Got?
    ensures p in FreshIndex(disk, walk) ==>
      && Got(FreshIndex(disk, walk)[p]) == LastFile(false, map[], disk, walk.included, p)
      && exists w :: w in walk.included && w.path == p
                     && FreshIndex(disk, walk)[p] == BuildRecord(w, disk.hash(p).value, disk.indexedAt(p))
  {
    FilesAt(false, map[], disk, walk.included, map[], p);
    DefaultLast(map[], disk, walk, p);
  }

  lemma {:induction false} DefaultIgnoresPrior(m: Index, n: Index, disk: Disk, ws: seq<WalkEntry>, p: string)
    ensures LastFile(false, m, disk, ws, p) == LastFile(false, n, disk, ws, p)
  {
    if ws != [] {
      DefaultIgnoresPrior(m, n, disk, ws[..|ws| - 1], p);
    }
  }

  /** What a stored path must be like for a default scan to agree with a full one on it. */
  predicate AgreesAt(disk: Disk, walk: WalkResult, p: string) {
    Included(walk, p) ==> (disk.hash(p).Got? <==> !Ignored(walk, p))
  }

  lemma FreshAtIff(prior: Index, disk: Disk, walk: WalkResult, p: string)
    requires IndexOk(prior)
    ensures var after, full := Scan(false, prior, disk, walk), FreshIndex(disk, walk);
      && (p in prior ==> ((p in after <==> p in full) <==> AgreesAt(disk, walk, p)))
      && (p !in prior ==> (p in after <==> p in full))
      && (p in after && p in full ==> after[p] == full[p])
  {
    ScanAt(false, prior, disk, walk, p);
    DefaultLast(prior, disk, walk, p);
    FreshAt(disk, walk, p);
    DefaultIgnoresPrior(prior, map[], disk, walk.included, p);
  }

  /**
   A default scan leaves exactly what a full scan indexes, if and only if every stored
   path that is included can be hashed exactly if it is not ignored.
   */
  lemma EqualsFreshIff(prior: Index, disk: Disk, walk: WalkResult)
    requires IndexOk(prior)
    ensures Scan(false, prior, disk, walk) == FreshIndex(disk, walk) <==> forall p :: p in prior ==> AgreesAt(disk, walk, p)
  {
    var after, full := Scan(false, prior, disk, walk), FreshIndex(disk, walk);
    forall p ensures (p in prior ==> ((p in after <==> p in full) <==> AgreesAt(disk, walk, p)))
                     && (p !in prior ==> (p in after <==> p in full)) && (p in after && p in full ==> after[p] == full[p])
    {
      FreshAtIff(prior, disk, walk, p);
    }
    if forall p :: p in prior ==> AgreesAt(disk, walk, p) {
      assert after.Keys == full.Keys;
    }
  }

  // ---------------------------------------------------------------- histories

  datatype ScanStep = ScanStep(fast: bool, disk: Disk)

  ghost predicate Succeeds(s: ScanStep) {
    Completes(s.disk.cfg, s.disk.root)
  }

  ghost function WalkOf(disk: Disk): WalkResult
    requires Completes(disk.cfg, disk.root)
  {
    WalkRepository(disk.cfg, disk.root, disk.configErrors).value
  }

  /** A scan that throws changes nothing. */
  ghost function After(m: Index, s: ScanStep): Index {
    if Succeeds(s) then Scan(s.fast, m, s.disk, WalkOf(s.disk)) else m
  }

  ghost function AfterAll(m: Index, steps: seq<ScanStep>): Index {
    if steps == [] then m else After(AfterAll(m, steps[..|steps| - 1]), steps[|steps| - 1])
  }

  lemma {:induction false} HistoryIndexOk(m: Index, steps: seq<ScanStep>)
    requires IndexOk(m)
    ensures IndexOk(AfterAll(m, steps))
  {
    if steps != [] {
      var n := |steps| - 1;
      HistoryIndexOk(m, steps[..n]);
      if Succeeds(steps[n]) {
        ScanIndexOk(steps[n].fast, AfterAll(m, steps[..n]), steps[n].disk, WalkOf(steps[n].disk));
      }
    }
  }

  lemma AfterLast(m: Index, steps: seq<ScanStep>, s: ScanStep)
    ensures AfterAll(m, steps + [s]) == After(AfterAll(m, steps), s)
  {
    assert (steps + [s])[..|steps|] == steps;
  }

  /**
   After any history of scans, a default scan leaves exactly what a full scan indexes, if
   and only if it agrees with a full scan on every path stored before it.
   */
  lemma AnyHistoryIff(m: Index, steps: seq<ScanStep>, disk: Disk)
    requires IndexOk(m) && Completes(disk.cfg, disk.root)
    ensures AfterAll(m, steps + [ScanStep(false, disk)]) == FreshIndex(disk, WalkOf(disk)) <==>
            forall p :: p in AfterAll(m, steps) ==> AgreesAt(disk, WalkOf(disk), p)
  {
    AfterLast(m, steps, ScanStep(false, disk));
    HistoryIndexOk(m, steps);
    EqualsFreshIff(AfterAll(m, steps), disk, WalkOf(disk));
  }

  /** So without hash failures and without included paths that are ignored, any history ends in a full index. */
  lemma AnyHistory(m: Index, steps: seq<ScanStep>, disk: Disk)
    requires IndexOk(m) && Completes(disk.cfg, disk.root)
    requires forall p :: Included(WalkOf(disk), p) ==> disk.hash(p).Got? && !Ignored(WalkOf(disk), p)
    ensures AfterAll(m, steps + [ScanStep(false, disk)]) == FreshIndex(disk, WalkOf(disk))
  {
    AnyHistoryIff(m, steps, disk);
  }

  /** The walk of a readable tree whose names are free of backslashes includes no ignored path. */
  lemma WalkIsGood(disk: Disk)
    requires RootReadable(disk.root) && GoodNames(disk.root) && PortableNames(disk.root) && RootOk(disk.cfg)
    ensures Completes(disk.cfg, disk.root) && GoodWalk(WalkOf(disk))
    ensures forall p :: Included(WalkOf(disk), p) ==> !Ignored(WalkOf(disk), p)
  {
    PortableWalk(disk.cfg, disk.root);
    PortableIsGood(disk.cfg, disk.root);
    var walk, walked := WalkOf(disk), Walked(disk.cfg, disk.root);
    assert walk.included == walked.included && walk.ignored == walked.ignored;
  }

  /** Persisting a scan's result takes the index of its root to the index described here, and touches no other root. */
  lemma PersistedIndex(m: Memory, root: string, fast: bool, disk: Disk, walk: WalkResult, fingerprint: Fingerprint, other: string)
    ensures m.Persist(root, Result(fast, m.FilesOf(root), disk, walk, fingerprint)).FilesOf(other) ==
            if other == root then Scan(fast, m.FilesOf(root), disk, walk) else m.FilesOf(other)
  {}

  // ---------------------------------------------------------------- scanning again

  /** The same content, at another time. */
  ghost predicate SameContent(a: Disk, b: Disk) {
    a.root == b.root && a.cfg == b.cfg && a.hash == b.hash
  }

  /** No included path that can be hashed is ignored. */
  ghost predicate HashableNotIgnored(disk: Disk, walk: WalkResult) {
    forall p :: Included(walk, p) && disk.hash(p).Got? ==> !Ignored(walk, p)
  }

  ghost predicate NothingChanged(fast: bool, m: Index, disk: Disk, walk: WalkResult) {
    forall w :: w in walk.included ==> !ChangedAt(fast, m, disk, w)
  }

  lemma {:induction false} NoMembers<T(!new)>(xs: seq<T>)
    ensures xs == [] || exists x :: x in xs
  {
    if xs != [] {
      assert xs[0] in xs;
    }
  }

  /** Nothing is reported changed and nothing deleted. */
  lemma QuietResultIff(fast: bool, m: Index, disk: Disk, walk: WalkResult, fingerprint: Fingerprint)
    ensures var r := Result(fast, m, disk, walk, fingerprint);
      r.changed == [] && r.deleted == [] <==> NothingChanged(fast, m, disk, walk) && Removed(m, walk) == {}
  {
    var r := Result(fast, m, disk, walk, fingerprint);
    SortByOk(ChangedFiles(fast, m, disk, walk.included), RecordPath);
    forall f ensures f in r.changed <==>
        exists w :: w in walk.included && ChangedAt(fast, m, disk, w) && FileFor(fast, m, disk, w) == Got(f)
    {
      ChangedAre(fast, m, disk, walk.included, f);
    }
    NoMembers(r.changed);
    NoMembers(r.deleted);
    if w :| w in walk.included && ChangedAt(fast, m, disk, w) {
      assert FileFor(fast, m, disk, w).value in r.changed;
    }
    assert forall p :: p in r.deleted <==> p in Removed(m, walk);
  }

  lemma RemovedAfter(fast: bool, prior: Index, disk: Disk, walk: WalkResult)
    requires IndexOk(prior)
    ensures var after := Scan(fast, prior, disk, walk);
      Removed(after, walk) == {} <==> forall p :: p in after ==> !Ignored(walk, p)
  {
    var after := Scan(fast, prior, disk, walk);
    forall p | p in after ensures Included(walk, p) { ScanKeeps(fast, prior, disk, walk, p); }
    if Removed(after, walk) == {} {
      forall p | p in after ensures !Ignored(walk, p) { assert p !in Removed(after, walk); }
    }
  }

  /** An included path that can be hashed and is ignored is deleted or changed again by the next scan. */
  lemma RestlessAt(fast: bool, fast': bool, prior: Index, disk: Disk, disk': Disk, walk: WalkResult, w: WalkEntry)
    requires IndexOk(prior) && SameContent(disk, disk') && w in walk.included && disk.hash(w.path).Got? && Ignored(walk, w.path)
    ensures var after := Scan(fast, prior, disk, walk);
      w.path in after || ChangedAt(fast', after, disk', w)
  {
    ScanAt(fast, prior, disk, walk, w.path);
  }

  lemma StoredNotIgnored(fast: bool, prior: Index, disk: Disk, walk: WalkResult, p: string)
    requires IndexOk(prior) && HashableNotIgnored(disk, walk) && p in Scan(fast, prior, disk, walk)
    ensures !Ignored(walk, p)
  {
    ScanAt(fast, prior, disk, walk, p);
    ScanKeeps(fast, prior, disk, walk, p);
    LastFileOf(fast, prior, disk, walk.included, p);
  }

  /** The last included entry of a path. */
  function LastEntry(ws: seq<WalkEntry>, p: string): Read<WalkEntry> {
    if ws == [] then Failed
    else if ws[|ws| - 1].path == p then Got(ws[|ws| - 1])
    else LastEntry(ws[..|ws| - 1], p)
  }

  lemma {:induction false} LastEntryIs(ws: seq<WalkEntry>, p: string)
    ensures LastEntry(ws, p).Got? <==> exists w :: w in ws && w.path == p
    ensures LastEntry(ws, p).Got? ==> LastEntry(ws, p).value in ws && LastEntry(ws, p).value.path == p
  {
    if ws != [] {
      var n := |ws| - 1;
      LastEntryIs(ws[..n], p);
      assert forall w :: w in ws <==> w in ws[..n] || w == ws[n];
    }
  }

  /** If a path can be hashed, its last entry has the last record. */
  lemma {:induction false} LastFileEntry(fast: bool, prior: Index, disk: Disk, ws: seq<WalkEntry>, p: string)
    requires disk.hash(p).Got?
    ensures LastFile(fast, prior, disk, ws, p) ==
            if LastEntry(ws, p).Got? then FileFor(fast, prior, disk, LastEntry(ws, p).value) else Failed
  {
    if ws != [] {
      LastFileEntry(fast, prior, disk, ws[..|ws| - 1], p);
    }
  }

  /** The file looks unchanged, and its content is another. */
  predicate Missed(m: Index, disk: Disk, w: WalkEntry) {
    LooksUnchanged(m, w) && disk.hash(w.path).Got? && disk.hash(w.path).value != m[w.path].hash
  }

  /** If a fast scan missed an edit of this path, the next scan is fast too and the entry looks like the one that was missed. */
  predicate StaysMissed(fast': bool, prior: Index, disk: Disk, walk: WalkResult, w: WalkEntry) {
    var last := LastEntry(walk.included, w.path);
    last.Got? && Missed(prior, disk, last.value) ==> fast' && w.size == last.value.size && w.mtime == last.value.mtime
  }

  lemma QuietAtIff(fast: bool, fast': bool, prior: Index, disk: Disk, disk': Disk, walk: WalkResult, w: WalkEntry)
    requires IndexOk(prior) && SameContent(disk, disk') && w in walk.included
    requires disk.hash(w.path).Got? && !Ignored(walk, w.path)
    ensures ChangedAt(fast', Scan(fast, prior, disk, walk), disk', w) <==> fast && !StaysMissed(fast', prior, disk, walk, w)
  {
    PathAmong(walk.included, w.path);
    ScanAt(fast, prior, disk, walk, w.path);
    LastFileEntry(fast, prior, disk, walk.included, w.path);
    LastEntryIs(walk.included, w.path);
  }

  /** An entry that cannot be hashed is never reported as changed. */
  lemma UnreadableIsQuiet(fast: bool, prior: Index, disk: Disk, w: WalkEntry)
    requires disk.hash(w.path).Failed?
    ensures !ChangedAt(fast, prior, disk, w) && (fast ==> !Missed(prior, disk, w))
  {}

  lemma UnreadableStays(fast': bool, prior: Index, disk: Disk, walk: WalkResult, w: WalkEntry)
    requires disk.hash(w.path).Failed?
    ensures StaysMissed(fast', prior, disk, walk, w)
  {
    LastEntryIs(walk.included, w.path);
  }

  lemma NothingChangedIff(fast: bool, fast': bool, prior: Index, disk: Disk, disk': Disk, walk: WalkResult)
    requires IndexOk(prior) && SameContent(disk, disk') && HashableNotIgnored(disk, walk)
    ensures NothingChanged(fast', Scan(fast, prior, disk, walk), disk', walk) <==>
            (fast ==> forall w :: w in walk.included ==> StaysMissed(fast', prior, disk, walk, w))
  {
    var after := Scan(fast, prior, disk, walk);
    forall w | w in walk.included
      ensures ChangedAt(fast', after, disk', w) <==> fast && !StaysMissed(fast', prior, disk, walk, w)
    {
      PathAmong(walk.included, w.path);
      if disk.hash(w.path).Got? {
        QuietAtIff(fast, fast', prior, disk, disk', walk, w);
      } else {
        UnreadableIsQuiet(fast', after, disk', w);
        UnreadableStays(fast', prior, disk, walk, w);
      }
    }
  }

  lemma QuietNeedsNotIgnored(fast: bool, fast': bool, prior: Index, disk: Disk, disk': Disk, walk: WalkResult)
    requires IndexOk(prior) && SameContent(disk, disk')
    requires NothingChanged(fast', Scan(fast, prior, disk, walk), disk', walk) && Removed(Scan(fast, prior, disk, walk), walk) == {}
    ensures HashableNotIgnored(disk, walk)
  {
    RemovedAfter(fast, prior, disk, walk);
    forall p | Included(walk, p) && disk.hash(p).Got? ensures !Ignored(walk, p) {
      PathAmong(walk.included, p);
      var w :| w in walk.included && w.path == p;
      if Ignored(walk, p) { RestlessAt(fast, fast', prior, disk, disk', walk, w); }
    }
  }

  /**
   Scanning again without edits, with either kind of scan, reports nothing changed and
   nothing deleted, if and only if no included path that can be hashed is ignored and,
   after a fast scan, no edit that it missed comes to light.
   */
  lemma RescanIsQuietIff(fast: bool, fast': bool, prior: Index, disk: Disk, disk': Disk, walk: WalkResult, fingerprint: Fingerprint)
    requires IndexOk(prior) && SameContent(disk, disk')
    ensures var r := Result(fast', Scan(fast, prior, disk, walk), disk', walk, fingerprint);
      r.changed == [] && r.deleted == [] <==>
        HashableNotIgnored(disk, walk) && (fast ==> forall w :: w in walk.included ==> StaysMissed(fast', prior, disk, walk, w))
  {
    var after := Scan(fast, prior, disk, walk);
    QuietResultIff(fast', after, disk', walk, fingerprint);
    if HashableNotIgnored(disk, walk) {
      NothingChangedIff(fast, fast', prior, disk, disk', walk);
      RemovedAfter(fast, prior, disk, walk);
      forall p | p in after ensures !Ignored(walk, p) { StoredNotIgnored(fast, prior, disk, walk, p); }
    } else if NothingChanged(fast', after, disk', walk) && Removed(after, walk) == {} {
      QuietNeedsNotIgnored(fast, fast', prior, disk, disk', walk);
    }
  }

  // ---------------------------------------------------------------- the fast check

  function Timeless(f: FileRecord): FileRecord { f.(lastIndexedAt := "") }

  ghost predicate SameUpToTime(m: Index, n: Index) {
    m.Keys == n.Keys && forall p :: p in m ==> Timeless(m[p]) == Timeless(n[p])
  }

  /** A file that looks unchanged has the recorded content, or cannot be read. */
  ghost predicate Trustworthy(prior: Index, disk: Disk, walk: WalkResult) {
    forall w :: w in walk.included && LooksUnchanged(prior, w) ==>
      disk.hash(w.path).Failed? || disk.hash(w.path).value == prior[w.path].hash
  }

  /** A scan of `m` and a default scan of `n` report the same changed and deleted files and leave the same records, up to times. */
  ghost predicate SameOutcome(fast: bool, m: Index, n: Index, disk: Disk, walk: WalkResult) {
    && ChangedFiles(fast, m, disk, walk.included) == ChangedFiles(false, n, disk, walk.included)
    && Removed(m, walk) == Removed(n, walk)
    && SameUpToTime(Scan(fast, m, disk, walk), Scan(false, n, disk, walk))
  }

  /** What is equal here is what the two results list. */
  lemma SameReports(fast: bool, m: Index, n: Index, disk: Disk, walk: WalkResult, fingerprint: Fingerprint)
    requires SameOutcome(fast, m, n, disk, walk)
    ensures var r, r' := Result(fast, m, disk, walk, fingerprint), Result(false, n, disk, walk, fingerprint);
      r.changed == r'.changed && r.deleted == r'.deleted
  {}

  /** A changed file was hashed, in whichever way it was scanned. */
  lemma {:induction false} SameChanged(fast: bool, m: Index, n: Index, disk: Disk, ws: seq<WalkEntry>)
    requires forall w :: w in ws ==> (ChangedAt(fast, m, disk, w) <==> ChangedAt(false, n, disk, w))
    ensures ChangedFiles(fast, m, disk, ws) == ChangedFiles(false, n, disk, ws)
  {
    if ws != [] {
      var k := |ws| - 1;
      assert ws[k] in ws;
      SameChanged(fast, m, n, disk, ws[..k]);
    }
  }

  lemma ChangedWhenTrustworthy(fast: bool, m: Index, n: Index, disk: Disk, walk: WalkResult, w: WalkEntry)
    requires SameUpToTime(m, n) && (fast ==> Trustworthy(m, disk, walk)) && w in walk.included
    ensures ChangedAt(fast, m, disk, w) <==> ChangedAt(false, n, disk, w)
  {
    assert w.path in m ==> Timeless(m[w.path]).hash == Timeless(n[w.path]).hash;
  }

  /** A record that the fast check keeps equals the one that hashing makes, if it makes one. */
  lemma {:induction false} SameLast(fast: bool, m: Index, n: Index, disk: Disk, ws: seq<WalkEntry>, p: string)
    requires IndexOk(m) && disk.hash(p).Got?
    requires fast ==> forall w :: w in ws && w.path == p && LooksUnchanged(m, w) ==> disk.hash(p).value == m[p].hash
    ensures var a, b := LastFile(fast, m, disk, ws, p), LastFile(false, n, disk, ws, p);
      (a.Got? <==> b.Got?) && (a.Got? ==> Timeless(a.value) == Timeless(b.value))
  {
    if ws != [] {
      var k := |ws| - 1;
      assert ws[k] in ws && forall w :: w in ws[..k] ==> w in ws;
      if ws[k].path != p {
        SameLast(fast, m, n, disk, ws[..k], p);
      }
    }
  }

  /** A path that cannot be hashed keeps its old record or has none. */
  lemma {:induction false} UnreadableLast(fast: bool, m: Index, disk: Disk, ws: seq<WalkEntry>, p: string)
    requires disk.hash(p).Failed?
    ensures LastFile(fast, m, disk, ws, p).Got? ==> p in m && LastFile(fast, m, disk, ws, p).value == m[p]
    ensures !fast ==> LastFile(fast, m, disk, ws, p).Failed?
  {
    if ws != [] {
      UnreadableLast(fast, m, disk, ws[..|ws| - 1], p);
    }
  }

  lemma OutcomeAt(fast: bool, m: Index, n: Index, disk: Disk, walk: WalkResult, p: string)
    requires IndexOk(m) && IndexOk(n) && SameUpToTime(m, n) && (fast ==> Trustworthy(m, disk, walk))
    ensures var a, b := Scan(fast, m, disk, walk), Scan(false, n, disk, walk);
      && (p in a <==> p in b)
      && (p in a && p in b ==> Timeless(a[p]) == Timeless(b[p]))
  {
    ScanAt(fast, m, disk, walk, p);
    ScanAt(false, n, disk, walk, p);
    assert p in m <==> p in n;
    if disk.hash(p).Got? {
      SameLast(fast, m, n, disk, walk.included, p);
    } else {
      UnreadableLast(fast, m, disk, walk.included, p);
      UnreadableLast(false, n, disk, walk.included, p);
    }
  }

  lemma OutcomeWhenTrustworthy(fast: bool, m: Index, n: Index, disk: Disk, walk: WalkResult)
    requires IndexOk(m) && IndexOk(n) && SameUpToTime(m, n) && (fast ==> Trustworthy(m, disk, walk))
    ensures SameOutcome(fast, m, n, disk, walk)
  {
    var a, b := Scan(fast, m, disk, walk), Scan(false, n, disk, walk);
    forall w | w in walk.included ensures ChangedAt(fast, m, disk, w) <==> ChangedAt(false, n, disk, w) {
      ChangedWhenTrustworthy(fast, m, n, disk, walk, w);
    }
    SameChanged(fast, m, n, disk, walk.included);
    forall p ensures (p in a <==> p in b) && (p in a && p in b ==> Timeless(a[p]) == Timeless(b[p])) {
      OutcomeAt(fast, m, n, disk, walk, p);
    }
    assert a.Keys == b.Keys;
  }

  /** Hashing finds every change that the fast check finds, and one more for every change it misses. */
  lemma {:induction false} FewerChanged(m: Index, n: Index, disk: Disk, ws: seq<WalkEntry>)
    requires SameUpToTime(m, n)
    ensures |ChangedFiles(true, m, disk, ws)| <= |ChangedFiles(false, n, disk, ws)|
    ensures (exists w :: w in ws && Missed(m, disk, w)) ==> |ChangedFiles(true, m, disk, ws)| < |ChangedFiles(false, n, disk, ws)|
  {
    if ws != [] {
      var k := |ws| - 1;
      FewerChanged(m, n, disk, ws[..k]);
      assert forall w :: w in ws <==> w in ws[..k] || w == ws[k];
      assert ws[k].path in m ==> Timeless(m[ws[k].path]).hash == Timeless(n[ws[k].path]).hash;
    }
  }

  /** The fast check is as good as hashing exactly when size and time never hide a readable change. */
  lemma FastIffTrustworthy(m: Index, n: Index, disk: Disk, walk: WalkResult)
    requires IndexOk(m) && IndexOk(n) && SameUpToTime(m, n)
    ensures SameOutcome(true, m, n, disk, walk) <==> Trustworthy(m, disk, walk)
  {
    if Trustworthy(m, disk, walk) {
      OutcomeWhenTrustworthy(true, m, n, disk, walk);
    } else {
      var w :| w in walk.included && LooksUnchanged(m, w)
               && !(disk.hash(w.path).Failed? || disk.hash(w.path).value == m[w.path].hash);
      assert Missed(m, disk, w);
      FewerChanged(m, n, disk, walk.included);
    }
  }

  ghost function Always(steps: seq<ScanStep>): seq<ScanStep> {
    seq(|steps|, i requires 0 <= i < |steps| => steps[i].(fast := false))
  }

  /** Every fast scan of the history could trust size and time when it ran. */
  ghost predicate TrustworthyHistory(m: Index, steps: seq<ScanStep>) {
    forall k :: 0 <= k < |steps| && steps[k].fast && Succeeds(steps[k]) ==>
      Trustworthy(AfterAll(m, steps[..k]), steps[k].disk, WalkOf(steps[k].disk))
  }

  /** Scan `k` of the history reports and leaves what it would if every scan hashed every file. */
  ghost predicate SameStep(m: Index, steps: seq<ScanStep>, k: nat)
    requires k < |steps|
  {
    Succeeds(steps[k]) ==>
      SameOutcome(steps[k].fast, AfterAll(m, steps[..k]), AfterAll(m, Always(steps[..k])), steps[k].disk, WalkOf(steps[k].disk))
  }

  lemma {:induction false} FastIndex(m: Index, steps: seq<ScanStep>)
    requires IndexOk(m) && TrustworthyHistory(m, steps)
    ensures SameUpToTime(AfterAll(m, steps), AfterAll(m, Always(steps)))
  {
    if steps != [] {
      var n := |steps| - 1;
      var s := steps[n];
      TrustworthyPrefix(m, steps, n);
      FastIndex(m, steps[..n]);
      assert Always(steps)[..n] == Always(steps[..n]);
      HistoryIndexOk(m, steps[..n]);
      HistoryIndexOk(m, Always(steps[..n]));
      if Succeeds(s) {
        OutcomeWhenTrustworthy(s.fast, AfterAll(m, steps[..n]), AfterAll(m, Always(steps[..n])), s.disk, WalkOf(s.disk));
      }
    }
  }

  lemma TrustworthyPrefix(m: Index, steps: seq<ScanStep>, n: nat)
    requires TrustworthyHistory(m, steps) && n <= |steps|
    ensures TrustworthyHistory(m, steps[..n])
  {
    forall k | 0 <= k < n ensures steps[..n][k] == steps[k] && steps[..n][..k] == steps[..k] {}
  }

  /**
   Over whole histories, fast scans report the changed and deleted files that hashing
   every file would report, scan by scan, and leave the same records, up to times.
   */
  lemma FastHistory(m: Index, steps: seq<ScanStep>)
    requires IndexOk(m) && TrustworthyHistory(m, steps)
    ensures forall k :: 0 <= k < |steps| ==> SameStep(m, steps, k)
    ensures SameUpToTime(AfterAll(m, steps), AfterAll(m, Always(steps)))
  {
    FastIndex(m, steps);
    forall k | 0 <= k < |steps| ensures SameStep(m, steps, k) {
      TrustworthyPrefix(m, steps, k);
      FastIndex(m, steps[..k]);
      HistoryIndexOk(m, steps[..k]);
      HistoryIndexOk(m, Always(steps[..k]));
      if Succeeds(steps[k]) {
        OutcomeWhenTrustworthy(steps[k].fast, AfterAll(m, steps[..k]), AfterAll(m, Always(steps[..k])),
                               steps[k].disk, WalkOf(steps[k].disk));
      }
    }
  }

  lemma {:induction false} SameStepsIndex(m: Index, steps: seq<ScanStep>, n: nat)
    requires n <= |steps| && forall k :: 0 <= k < n ==> SameStep(m, steps, k)
    ensures SameUpToTime(AfterAll(m, steps[..n]), AfterAll(m, Always(steps[..n])))
  {
    if n > 0 {
      SameStepsIndex(m, steps, n - 1);
      assert steps[..n][..n - 1] == steps[..n - 1] && Always(steps[..n])[..n - 1] == Always(steps[..n - 1]);
      assert SameStep(m, steps, n - 1);
    }
  }

  /** Every scan of a history agrees with hashing if and only if its fast scans could trust size and time. */
  lemma FastHistoryIff(m: Index, steps: seq<ScanStep>)
    requires IndexOk(m)
    ensures (forall k :: 0 <= k < |steps| ==> SameStep(m, steps, k)) <==> TrustworthyHistory(m, steps)
  {
    if TrustworthyHistory(m, steps) {
      FastHistory(m, steps);
    }
    if forall k :: 0 <= k < |steps| ==> SameStep(m, steps, k) {
      forall k | 0 <= k < |steps| && steps[k].fast && Succeeds(steps[k])
        ensures Trustworthy(AfterAll(m, steps[..k]), steps[k].disk, WalkOf(steps[k].disk))
      {
        SameStepsIndex(m, steps, k);
        HistoryIndexOk(m, steps[..k]);
        HistoryIndexOk(m, Always(steps[..k]));
        assert SameStep(m, steps, k);
        FastIffTrustworthy(AfterAll(m, steps[..k]), AfterAll(m, Always(steps[..k])), steps[k].disk, WalkOf(steps[k].disk));
      }
    }
  }

  // ---------------------------------------------------------------- the snapshot id of a rescan

  /** The same paths with the same hashes, position by position. */
  ghost predicate SamePrints(xs: seq<FileRecord>, ys: seq<FileRecord>) {
    |xs| == |ys| && forall i :: 0 <= i < |xs| ==> xs[i].path == ys[i].path && xs[i].hash == ys[i].hash
  }

  lemma {:induction false} InsertSamePrints(x: FileRecord, y: FileRecord, xs: seq<FileRecord>, ys: seq<FileRecord>)
    requires x.path == y.path && x.hash == y.hash && SamePrints(xs, ys)
    ensures SamePrints(Insert(x, xs, RecordPath), Insert(y, ys, RecordPath))
  {
    if xs != [] && Leq(xs[0].path, x.path) {
      InsertSamePrints(x, y, xs[1..], ys[1..]);
    }
  }

  lemma {:induction false} SortSamePrints(xs: seq<FileRecord>, ys: seq<FileRecord>)
    requires SamePrints(xs, ys)
    ensures SamePrints(SortBy(xs, RecordPath), SortBy(ys, RecordPath))
  {
    if xs != [] {
      var n := |xs| - 1;
      SortSamePrints(xs[..n], ys[..n]);
      InsertSamePrints(xs[n], ys[n], SortBy(xs[..n], RecordPath), SortBy(ys[..n], RecordPath));
    }
  }

  lemma {:induction false} FilesSamePrints(m: Index, n: Index, disk: Disk, disk': Disk, ws: seq<WalkEntry>)
    requires SameContent(disk, disk')
    ensures SamePrints(Files(false, m, disk, ws), Files(false, n, disk', ws))
  {
    if ws != [] {
      FilesSamePrints(m, n, disk, disk', ws[..|ws| - 1]);
    }
  }

  /** Default scans of the same content give the same snapshot id, whatever was stored before. */
  lemma SameContentSameId(m: Index, n: Index, disk: Disk, disk': Disk, walk: WalkResult, fingerprint: Fingerprint)
    requires SameContent(disk, disk')
    ensures Result(false, m, disk, walk, fingerprint).id == Result(false, n, disk', walk, fingerprint).id
  {
    FilesSamePrints(m, n, disk, disk', walk.included);
    SortSamePrints(Files(false, m, disk, walk.included), Files(false, n, disk', walk.included));
    assert Prints(SortBy(Files(false, m, disk, walk.included), RecordPath))
        == Prints(SortBy(Files(false, n, disk', walk.included), RecordPath));
  }

  /** So SQLite refuses to persist the second of two scans without an edit in between. */
  lemma UnchangedRescanRefused(t: Tables, repoRoot: string, m: Index, n: Index, disk: Disk, disk': Disk, walk: WalkResult, fingerprint: Fingerprint)
    requires SameContent(disk, disk')
    requires InTables(t, Persist(repoRoot, Result(false, m, disk, walk, fingerprint))).1
    ensures var t' := InTables(t, Persist(repoRoot, Result(false, m, disk, walk, fingerprint))).0;
      InTables(t', Persist(repoRoot, Result(false, n, disk', walk, fingerprint))) == (t', false)
  {
    var first, second := Result(false, m, disk, walk, fingerprint), Result(false, n, disk', walk, fingerprint);
    SameContentSameId(m, n, disk, disk', walk, fingerprint);
    InTablesIds(t, Persist(repoRoot, first));
    FailsIffReused(InTables(t, Persist(repoRoot, first)).0, Persist(repoRoot, second));
  }
}
