/**
 What a walk finds, exactly: every entry it comes to ends as its reads and the policy's two
 answers say, and nothing else is reported.
 */
module WalkExact {
  import opened Ordering
  import opened Walk
  import opened WalkSafety

  /** The walk below a root comes to entry `c` in directory `d`, which is empty for the root itself. */
  ghost predicate Comes(cfg: Config, root: Entry, d: string, c: Entry)
    requires root.listing.Listed?
  {
    exists i :: 0 <= i < |root.listing.entries| && ComesTo(cfg, "", root.listing.entries[i], d, c)
  }

  /** The entry is a directory whose entries the walk goes on to. */
  ghost predicate GoesOn(cfg: Config, d: string, c: Entry) {
    PassesByStatus(cfg, d, c) && c.stat.value.isDirectory && c.listing.Listed?
  }

  ghost predicate Part(r: WalkResult, whole: WalkResult) {
    && (forall w :: w in r.included ==> w in whole.included)
    && (forall x :: x in r.ignored ==> x in whole.ignored)
    && (forall x :: x in r.errors ==> x in whole.errors)
  }

  lemma {:induction false} VisitedPart(cfg: Config, dir: string, es: seq<Entry>, h: nat, e: Entry)
    requires Within(es, h) && e in es
    ensures Part(Visit(cfg, dir, e), VisitAll(cfg, dir, es, h))
    decreases |es|
  {
    var n := |es| - 1;
    if e != es[n] {
      assert e in es[..n];
      VisitedPart(cfg, dir, es[..n], h, e);
    }
  }

  /** What an entry contributes that the walk comes to is in the result. */
  lemma {:induction false} LeafIsPart(cfg: Config, dir: string, e: Entry, d: string, c: Entry)
    requires ComesTo(cfg, dir, e, d, c) && !GoesOn(cfg, d, c)
    ensures Part(Leaf(cfg, d, c), Visit(cfg, dir, e))
    decreases e
  {
    if d == dir && c == e {
      assert !(Descends(cfg, dir, e) && e.listing.Listed?);
    } else {
      var i :| 0 <= i < |e.listing.entries| && ComesTo(cfg, EntryPath(dir, e), e.listing.entries[i], d, c);
      var child := e.listing.entries[i];
      LeafIsPart(cfg, EntryPath(dir, e), child, d, c);
      ListedParts(cfg, dir, e);
      SortByOk(e.listing.entries, NameOf);
      assert child in e.listing.entries;
      VisitedPart(cfg, EntryPath(dir, e), SortBy(e.listing.entries, NameOf), Height(e) - 1, child);
    }
  }

  lemma LeafIsFound(cfg: Config, root: Entry, d: string, c: Entry)
    requires root.listing.Listed? && Comes(cfg, root, d, c) && !GoesOn(cfg, d, c)
    ensures Part(Leaf(cfg, d, c), Places(cfg, root))
  {
    var i :| 0 <= i < |root.listing.entries| && ComesTo(cfg, "", root.listing.entries[i], d, c);
    var e := root.listing.entries[i];
    LeafIsPart(cfg, "", e, d, c);
    ChildrenWithin(root);
    SortByOk(root.listing.entries, NameOf);
    assert e in root.listing.entries;
    VisitedPart(cfg, "", SortBy(root.listing.entries, NameOf), Height(root) - 1, e);
  }

  lemma ComesBelowRoot(cfg: Config, root: Entry, e: Entry, d: string, c: Entry)
    requires root.listing.Listed? && e in SortBy(root.listing.entries, NameOf) && ComesTo(cfg, "", e, d, c)
    ensures Comes(cfg, root, d, c)
  {
    SortByOk(root.listing.entries, NameOf);
    assert e in root.listing.entries;
  }

  /** The names from the root to the entry, with slashes between them. */
  function Place(d: string, c: Entry): string {
    if d == "" then c.name else d + "/" + c.name
  }

  /** The entry is a readable file that the policy passes twice and that is reported as `w`. */
  ghost predicate Includes(cfg: Config, d: string, c: Entry, w: WalkEntry) {
    && PassesByStatus(cfg, d, c) && !c.stat.value.isDirectory && PassesByHead(cfg, d, c)
    && w == Found(Place(d, c), c.name, c.stat.value.size, c.stat.value.mtime)
  }

  lemma IncludedLeaf(cfg: Config, d: string, c: Entry, w: WalkEntry)
    requires Includes(cfg, d, c, w)
    ensures !GoesOn(cfg, d, c) && Leaf(cfg, d, c).included == [w]
  {}

  /** Included are exactly the readable files that the walk comes to and that the policy passes twice. */
  lemma IncludedIff(cfg: Config, root: Entry, w: WalkEntry)
    requires root.listing.Listed?
    ensures w in Places(cfg, root).included <==> exists d, c :: Comes(cfg, root, d, c) && Includes(cfg, d, c, w)
  {
    ChildrenWithin(root);
    if w in Places(cfg, root).included {
      var e := IncludedFrom(cfg, "", SortBy(root.listing.entries, NameOf), Height(root) - 1, w);
      var d, c := IncludedReason(cfg, "", e, w);
      ComesBelowRoot(cfg, root, e, d, c);
      assert Includes(cfg, d, c, w);
    }
    if d, c :| Comes(cfg, root, d, c) && Includes(cfg, d, c, w) {
      IncludedLeaf(cfg, d, c, w);
      LeafIsFound(cfg, root, d, c);
      assert w in Leaf(cfg, d, c).included;
    }
  }

  /** The policy refuses the entry by its status, or the file by its head. */
  ghost predicate Refused(cfg: Config, d: string, c: Entry) {
    c.stat.Got? && (PassesByStatus(cfg, d, c) ==> !c.stat.value.isDirectory && c.head.Got? && !PassesByHead(cfg, d, c))
  }

  /** A read of the entry fails: its status or its listing at the walk stage, its head at the read stage. */
  ghost predicate Fails(cfg: Config, d: string, c: Entry, stage: Stage) {
    match stage
    case WalkStage => c.stat.Failed? || (PassesByStatus(cfg, d, c) && c.stat.value.isDirectory && c.listing.Unlisted?)
    case ReadStage => PassesByStatus(cfg, d, c) && !c.stat.value.isDirectory && c.head.Failed?
    case HashStage => false
  }

  lemma RefusedLeaf(cfg: Config, d: string, c: Entry)
    requires Refused(cfg, d, c)
    ensures !GoesOn(cfg, d, c) && Leaf(cfg, d, c).ignored == [IgnoredRef(Place(d, c), c.stat.value.isDirectory)]
  {}

  lemma FailedLeaf(cfg: Config, d: string, c: Entry, stage: Stage)
    requires Fails(cfg, d, c, stage)
    ensures !GoesOn(cfg, d, c) && Leaf(cfg, d, c).errors == [ScanError(Place(d, c), stage)]
  {}

  /** Ignored are exactly the entries that the policy refuses. */
  lemma IgnoredIff(cfg: Config, root: Entry, x: IgnoredRef)
    requires root.listing.Listed?
    ensures x in Places(cfg, root).ignored <==>
      exists d, c :: Comes(cfg, root, d, c) && Refused(cfg, d, c) && x == IgnoredRef(Place(d, c), c.stat.value.isDirectory)
  {
    ChildrenWithin(root);
    if x in Places(cfg, root).ignored {
      var e := IgnoredFrom(cfg, "", SortBy(root.listing.entries, NameOf), Height(root) - 1, x);
      var d, c := IgnoredReason(cfg, "", e, x);
      ComesBelowRoot(cfg, root, e, d, c);
      assert Refused(cfg, d, c);
    }
    if d, c :| Comes(cfg, root, d, c) && Refused(cfg, d, c) && x == IgnoredRef(Place(d, c), c.stat.value.isDirectory) {
      RefusedLeaf(cfg, d, c);
      LeafIsFound(cfg, root, d, c);
      assert x in Leaf(cfg, d, c).ignored;
    }
  }

  /** Errors stand exactly for a status, a listing or a head that could not be read, and say at which stage. */
  lemma ErrorIff(cfg: Config, root: Entry, x: ScanError)
    requires root.listing.Listed?
    ensures x in Places(cfg, root).errors <==>
      exists d, c :: Comes(cfg, root, d, c) && Fails(cfg, d, c, x.stage) && x.path == Place(d, c)
  {
    ChildrenWithin(root);
    if x in Places(cfg, root).errors {
      var e := ErrorFrom(cfg, "", SortBy(root.listing.entries, NameOf), Height(root) - 1, x);
      var d, c := ErrorReason(cfg, "", e, x);
      ComesBelowRoot(cfg, root, e, d, c);
      assert Fails(cfg, d, c, x.stage);
    }
    if d, c :| Comes(cfg, root, d, c) && Fails(cfg, d, c, x.stage) && x.path == Place(d, c) {
      FailedLeaf(cfg, d, c, x.stage);
      LeafIsFound(cfg, root, d, c);
      assert x in Leaf(cfg, d, c).errors;
    }
  }

  // ---------------------------------------------------------------- the whole walk

  lemma {:induction false} ReachedFromChild(cfg: Config, dir: string, es: seq<Entry>, h: nat, p: string) returns (e: Entry)
    requires Within(es, h) && p in ReachedAll(cfg, dir, es, h)
    ensures e in es && p in Reached(cfg, dir, e)
    decreases |es|
  {
    var n := |es| - 1;
    if p in Reached(cfg, dir, es[n]) {
      e := es[n];
    } else {
      e := ReachedFromChild(cfg, dir, es[..n], h, p);
    }
  }

  lemma {:induction false} ChildReached(cfg: Config, dir: string, es: seq<Entry>, h: nat, e: Entry)
    requires Within(es, h) && e in es
    ensures forall p :: p in Reached(cfg, dir, e) ==> p in ReachedAll(cfg, dir, es, h)
    decreases |es|
  {
    var n := |es| - 1;
    if e != es[n] {
      assert e in es[..n];
      ChildReached(cfg, dir, es[..n], h, e);
    }
  }

  lemma {:induction false} ReachedComes(cfg: Config, dir: string, e: Entry, p: string) returns (d: string, c: Entry)
    requires p in Reached(cfg, dir, e)
    ensures ComesTo(cfg, dir, e, d, c) && p == Place(d, c)
    decreases Height(e)
  {
    if p == EntryPath(dir, e) {
      d, c := dir, e;
    } else {
      ListedParts(cfg, dir, e);
      var place, es, h := EntryPath(dir, e), SortBy(e.listing.entries, NameOf), Height(e) - 1;
      var child := ReachedFromChild(cfg, place, es, h, p);
      d, c := ReachedComes(cfg, place, child, p);
      ComesToChild(cfg, dir, e, child, d, c);
    }
  }

  lemma {:induction false} ComesReached(cfg: Config, dir: string, e: Entry, d: string, c: Entry)
    requires ComesTo(cfg, dir, e, d, c)
    ensures Place(d, c) in Reached(cfg, dir, e)
    decreases e
  {
    if !(d == dir && c == e) {
      var place := EntryPath(dir, e);
      var i :| 0 <= i < |e.listing.entries| && ComesTo(cfg, place, e.listing.entries[i], d, c);
      var child := e.listing.entries[i];
      ComesReached(cfg, place, child, d, c);
      ListedParts(cfg, dir, e);
      SortByOk(e.listing.entries, NameOf);
      assert child in e.listing.entries;
      ChildReached(cfg, place, SortBy(e.listing.entries, NameOf), Height(e) - 1, child);
    }
  }

  /** The places of the walk are those of the entries it comes to. */
  lemma ReachedIff(cfg: Config, root: Entry, p: string)
    requires root.listing.Listed?
    ensures p in ReachedFrom(cfg, root) <==> exists d, c :: Comes(cfg, root, d, c) && p == Place(d, c)
  {
    ChildrenWithin(root);
    var es, h := SortBy(root.listing.entries, NameOf), Height(root) - 1;
    SortByOk(root.listing.entries, NameOf);
    if p in ReachedFrom(cfg, root) {
      var e := ReachedFromChild(cfg, "", es, h, p);
      var d, c := ReachedComes(cfg, "", e, p);
      ComesBelowRoot(cfg, root, e, d, c);
    }
    if d, c :| Comes(cfg, root, d, c) && p == Place(d, c) {
      var i :| 0 <= i < |root.listing.entries| && ComesTo(cfg, "", root.listing.entries[i], d, c);
      var e := root.listing.entries[i];
      assert e in root.listing.entries;
      ComesReached(cfg, "", e, d, c);
      ChildReached(cfg, "", es, h, e);
    }
  }

  /**
   The walk throws exactly if the root has no status, is no directory or cannot be listed, or an
   entry that it comes to lies outside the root.
   */
  lemma ThrowsIff(cfg: Config, root: Entry, before: seq<ScanError>)
    ensures WalkRepository(cfg, root, before).Failed? <==>
      || root.stat.Failed? || !root.stat.value.isDirectory || root.listing.Unlisted?
      || exists d, c :: Comes(cfg, root, d, c) && Locate(cfg.root, Place(d, c)).Failed?
  {
    if root.listing.Listed? {
      forall p ensures p in ReachedFrom(cfg, root) <==> exists d, c :: Comes(cfg, root, d, c) && p == Place(d, c) {
        ReachedIff(cfg, root, p);
      }
    }
  }

  /** `r` lists what `w` lists, in order and under repository paths. */
  ghost predicate ReportedAs(cfg: Config, w: WalkResult, r: WalkResult) {
    && |r.included| == |w.included| && |r.ignored| == |w.ignored| && |r.errors| == |w.errors|
    && (forall i :: 0 <= i < |w.included| ==>
          && Locate(cfg.root, w.included[i].path) == Got(r.included[i].path) && r.included[i].basename == w.included[i].basename
          && r.included[i].size == w.included[i].size && r.included[i].mtime == w.included[i].mtime)
    && (forall i :: 0 <= i < |w.ignored| ==>
          Locate(cfg.root, w.ignored[i].path) == Got(r.ignored[i].path) && r.ignored[i].isDirectory == w.ignored[i].isDirectory)
    && (forall i :: 0 <= i < |w.errors| ==>
          Locate(cfg.root, w.errors[i].path) == Got(r.errors[i].path) && r.errors[i].stage == w.errors[i].stage)
  }

  lemma ShowReports(cfg: Config, w: WalkResult)
    requires forall x :: x in w.included ==> Locate(cfg.root, x.path).Got?
    requires forall x :: x in w.ignored ==> Locate(cfg.root, x.path).Got?
    requires forall x :: x in w.errors ==> Locate(cfg.root, x.path).Got?
    ensures ReportedAs(cfg, w, Show(cfg, w))
  {}

  lemma PlacesReached(cfg: Config, root: Entry)
    requires root.listing.Listed?
    ensures forall x :: x in Places(cfg, root).included ==> x.path in ReachedFrom(cfg, root)
    ensures forall x :: x in Places(cfg, root).ignored ==> x.path in ReachedFrom(cfg, root)
    ensures forall x :: x in Places(cfg, root).errors ==> x.path in ReachedFrom(cfg, root)
  {
    forall x | x in Places(cfg, root).included ensures x.path in ReachedFrom(cfg, root) {
      IncludedIff(cfg, root, x);
      ReachedIff(cfg, root, x.path);
    }
    forall x | x in Places(cfg, root).ignored ensures x.path in ReachedFrom(cfg, root) {
      IgnoredIff(cfg, root, x);
      ReachedIff(cfg, root, x.path);
    }
    forall x | x in Places(cfg, root).errors ensures x.path in ReachedFrom(cfg, root) {
      ErrorIff(cfg, root, x);
      ReachedIff(cfg, root, x.path);
    }
  }

  /** Else it reports the entries of `Places` in order, under their repository paths, behind the errors there were before. */
  lemma ResultIs(cfg: Config, root: Entry, before: seq<ScanError>)
    requires root.listing.Listed? && WalkRepository(cfg, root, before).Got?
    ensures var r, n := WalkRepository(cfg, root, before).value, |before|;
      n <= |r.errors| && r.errors[..n] == before && ReportedAs(cfg, Places(cfg, root), r.(errors := r.errors[n..]))
  {
    PlacesReached(cfg, root);
    ShowReports(cfg, Places(cfg, root));
    ErrorsBehind(before, Walked(cfg, root));
  }

  lemma ErrorsBehind(before: seq<ScanError>, w: WalkResult)
    ensures var r, n := EMPTY.(errors := before).Append(w), |before|;
      n <= |r.errors| && r.errors[..n] == before && r.(errors := r.errors[n..]) == w
  {}
}
