/** Histories of scans that do not end as a full scan or a scan that hashes everything would, or that never come to rest. */
module IncrementalCorners {
  import opened Walk
  import opened WalkSafety
  import opened WalkCorners
  import opened Inventory
  import opened Incremental
  import opened IncrementalAgreement

  /** A disk with one file, of which only the hash varies. */
  ghost function OneFile(name: string, hash: Read<string>): Disk {
    Disk(Single(name), Config(["repo"], q => false), [], p => hash, p => "now", "now")
  }

  lemma OneFileWalk(name: string, hash: Read<string>)
    requires IsName(name)
    ensures var disk := OneFile(name, hash);
      Completes(disk.cfg, disk.root) && WalkOf(disk).included == [Found(name, name, 0, 0)] && !Ignored(WalkOf(disk), name)
  {
    var disk := OneFile(name, hash);
    SingleWalked(disk.cfg, name);
    WalkIsGood(disk);
    PathAmong(WalkOf(disk).included, name);
  }

  lemma TwoScans(m: Index, a: ScanStep, b: ScanStep)
    ensures AfterAll(m, [a, b]) == After(After(m, a), b)
  {
    assert [a, b][..1] == [a] && [a][..0] == [];
    assert AfterAll(m, [a]) == After(m, a);
  }

  /** A default scan of an index without the file stores a record with the hash. */
  lemma FirstScan(name: string, hash: string)
    requires IsName(name)
    ensures var disk := OneFile(name, Got(hash));
      var m := After(map[], ScanStep(false, disk));
      IndexOk(m) && name in m && m[name] == BuildRecord(Found(name, name, 0, 0), hash, "now")
  {
    var disk := OneFile(name, Got(hash));
    OneFileWalk(name, Got(hash));
    ScanIndexOk(false, map[], disk, WalkOf(disk));
    PathAmong(WalkOf(disk).included, name);
    ScanAt(false, map[], disk, WalkOf(disk), name);
    DefaultLast(map[], disk, WalkOf(disk), name);
  }

  /** A scan that hashes a file, then one that cannot: the record stays, and a full scan would have none. */
  lemma UnreadableKeepsRecord(name: string, hash: string)
    requires IsName(name)
    ensures var a, b := OneFile(name, Got(hash)), OneFile(name, Failed);
      && Completes(b.cfg, b.root)
      && AfterAll(map[], [ScanStep(false, a), ScanStep(false, b)]) != FreshIndex(b, WalkOf(b))
  {
    var a, b := OneFile(name, Got(hash)), OneFile(name, Failed);
    FirstScan(name, hash);
    OneFileWalk(name, Failed);
    TwoScans(map[], ScanStep(false, a), ScanStep(false, b));
    PathAmong(WalkOf(b).included, name);
    EqualsFreshIff(After(map[], ScanStep(false, a)), b, WalkOf(b));
    assert !AgreesAt(b, WalkOf(b), name);
  }

  /** An edit that keeps size and time: the fast scan leaves the old hash, hashing would find the new one. */
  lemma UnseenEdit(name: string, before: string, after: string)
    requires IsName(name) && before != after
    ensures var steps := [ScanStep(false, OneFile(name, Got(before))), ScanStep(true, OneFile(name, Got(after)))];
      !TrustworthyHistory(map[], steps) && !SameStep(map[], steps, 1)
  {
    var a, b := ScanStep(false, OneFile(name, Got(before))), ScanStep(true, OneFile(name, Got(after)));
    var steps := [a, b];
    FirstScan(name, before);
    OneFileWalk(name, Got(after));
    var w, m := Found(name, name, 0, 0), After(map[], a);
    assert w in WalkOf(b.disk).included && LooksUnchanged(m, w);
    assert steps[..1] == [a] && [a][..0] == [];
    assert AfterAll(map[], [a]) == m;
    assert Always([a]) == [a];
    FastIffTrustworthy(m, m, b.disk, WalkOf(b.disk));
  }

  // ---------------------------------------------------------------- never at rest

  /** A file in a directory, beside a link whose name is rewritten to the file's path. */
  ghost function LinkedDisk(a: string, b: string, hash: string): Disk {
    Disk(Linked(a, b), Config(["repo"], (q: Query) => q.isSymlink), [], p => Got(hash), p => "now", "now")
  }

  lemma LinkedWalk(a: string, b: string, hash: string)
    requires IsName(a) && IsName(b)
    ensures var disk := LinkedDisk(a, b, hash);
      Completes(disk.cfg, disk.root) && Included(WalkOf(disk), a + "/" + b) && Ignored(WalkOf(disk), a + "/" + b)
  {
    var disk, p := LinkedDisk(a, b, hash), a + "/" + b;
    IncludedAndIgnored(disk.cfg, a, b);
    var walk := WalkOf(disk);
    assert walk.included == [Found(p, b, 0, 0)] && walk.ignored == [IgnoredRef(p, false)];
    PathAmong(walk.included, p);
    assert Hides(walk.ignored[0], p);
  }

  function Repeat(s: ScanStep, k: nat): seq<ScanStep> {
    seq(k, i => s)
  }

  /** Each scan takes the file in if it is not stored, and out if it is. */
  lemma LinkedStep(m: Index, a: string, b: string, hash: string)
    requires IsName(a) && IsName(b) && IndexOk(m)
    ensures a + "/" + b in After(m, ScanStep(false, LinkedDisk(a, b, hash))) <==> a + "/" + b !in m
  {
    var disk, p := LinkedDisk(a, b, hash), a + "/" + b;
    LinkedWalk(a, b, hash);
    ScanAt(false, m, disk, WalkOf(disk), p);
    DefaultLast(m, disk, WalkOf(disk), p);
  }

  lemma AfterRepeat(s: ScanStep, k: nat)
    requires k > 0
    ensures AfterAll(map[], Repeat(s, k)) == After(AfterAll(map[], Repeat(s, k - 1)), s)
  {
    assert Repeat(s, k) == Repeat(s, k - 1) + [s];
    AfterLast(map[], Repeat(s, k - 1), s);
  }

  /** The scan takes the path in if it is out and out if it is in. */
  ghost predicate Flipping(s: ScanStep, p: string) {
    forall m :: IndexOk(m) ==> (p in After(m, s) <==> p !in m)
  }

  predicate StoredAfter(k: nat) {
    k > 0 && !StoredAfter(k - 1)
  }

  lemma {:induction false} StoredIsOdd(k: nat)
    ensures StoredAfter(k) <==> k % 2 == 1
  {
    if k > 0 { StoredIsOdd(k - 1); }
  }

  lemma {:induction false} Alternates(s: ScanStep, p: string, k: nat)
    requires Flipping(s, p)
    ensures p in AfterAll(map[], Repeat(s, k)) <==> StoredAfter(k)
  {
    if k == 0 {
      assert Repeat(s, 0) == [];
    } else {
      Alternates(s, p, k - 1);
      Flips(s, p, k);
    }
  }

  lemma Flips(s: ScanStep, p: string, k: nat)
    requires k > 0 && Flipping(s, p)
    ensures p in AfterAll(map[], Repeat(s, k)) <==> p !in AfterAll(map[], Repeat(s, k - 1))
  {
    AfterRepeat(s, k);
    var before := AfterAll(map[], Repeat(s, k - 1));
    HistoryIndexOk(map[], Repeat(s, k - 1));
    assert IndexOk(before);
    assert p in After(before, s) <==> p !in before;
  }

  /** Scanned again and again without any edit, the file is stored by every other scan and deleted by the ones between. */
  lemma NeverAtRest(a: string, b: string, hash: string, k: nat)
    requires IsName(a) && IsName(b)
    ensures a + "/" + b in AfterAll(map[], Repeat(ScanStep(false, LinkedDisk(a, b, hash)), k)) <==> k % 2 == 1
  {
    var s := ScanStep(false, LinkedDisk(a, b, hash));
    forall m | IndexOk(m) ensures a + "/" + b in After(m, s) <==> a + "/" + b !in m {
      LinkedStep(m, a, b, hash);
    }
    assert Flipping(s, a + "/" + b);
    Alternates(s, a + "/" + b, k);
    StoredIsOdd(k);
  }

  /** So no scan after the first is quiet, and every other index differs from a full one, without any hash failure. */
  lemma RestlessRescan(a: string, b: string, hash: string, k: nat, fingerprint: Fingerprint)
    requires IsName(a) && IsName(b) && k > 0
    ensures var disk := LinkedDisk(a, b, hash);
      && Completes(disk.cfg, disk.root)
      && var m := AfterAll(map[], Repeat(ScanStep(false, disk), k));
      && var r := Result(false, m, disk, WalkOf(disk), fingerprint);
      && !(r.changed == [] && r.deleted == [])
      && (k % 2 == 0 ==> m != FreshIndex(disk, WalkOf(disk)))
  {
    var disk, p := LinkedDisk(a, b, hash), a + "/" + b;
    var s := ScanStep(false, disk);
    LinkedWalk(a, b, hash);
    NeverAtRest(a, b, hash, k);
    var before := AfterAll(map[], Repeat(s, k - 1));
    AfterRepeat(s, k);
    HistoryIndexOk(map[], Repeat(s, k - 1));
    RescanIsQuietIff(false, false, before, disk, disk, WalkOf(disk), fingerprint);
    FreshAt(disk, WalkOf(disk), p);
  }
}
