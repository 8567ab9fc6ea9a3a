/** Consequences of the walk's accounting on trees with proper file names. */
module WalkSafety {
  import opened Ordering
  import opened Paths
  import opened Walk

  /** What a file system allows as a name. */
  predicate FileName(s: string) {
    s != "" && s != "." && s != ".." && '/' !in s
  }

  /** Names within one directory are distinct. */
  ghost predicate NamesOk(es: seq<Entry>) {
    DistinctKeys(es, NameOf) && forall e :: e in es ==> FileName(e.name)
  }

  ghost predicate GoodNames(e: Entry) {
    e.listing.Listed? ==>
      NamesOk(e.listing.entries) && forall i :: 0 <= i < |e.listing.entries| ==> GoodNames(e.listing.entries[i])
  }

  ghost predicate GoodSiblings(es: seq<Entry>) {
    NamesOk(es) && forall e :: e in es ==> GoodNames(e)
  }

  lemma ChildrenGood(e: Entry)
    requires e.listing.Listed? && GoodNames(e)
    ensures GoodSiblings(SortBy(e.listing.entries, NameOf))
  {
    var es := e.listing.entries;
    SortByOk(es, NameOf);
    DistinctPermuted(es, SortBy(es, NameOf), NameOf);
    forall c | c in SortBy(es, NameOf) ensures GoodNames(c) && FileName(c.name) {
      var i :| 0 <= i < |es| && es[i] == c;
    }
  }

  lemma InitGood(es: seq<Entry>)
    requires es != [] && GoodSiblings(es)
    ensures GoodSiblings(es[..|es| - 1]) && GoodNames(es[|es| - 1])
    ensures forall e :: e in es[..|es| - 1] ==> e in es && e.name != es[|es| - 1].name
  {
    var n := |es| - 1;
    assert es[n] in es;
    forall e | e in es[..n] ensures e in es && e.name != es[n].name {
      var i :| 0 <= i < n && es[i] == e;
      assert NameOf(es[i]) != NameOf(es[n]);
    }
  }

  // ---------------------------------------------------------------- separate subtrees

  /** `p` is `root` or lies below it. */
  predicate Under(root: string, p: string) {
    p == root || root + "/" <= p
  }

  lemma UnderTrans(a: string, b: string, c: string)
    requires Under(a, b) && Under(b, c)
    ensures Under(a, c)
  {}

  /** Everything before the first slash. */
  function FirstName(s: string): string {
    if s == "" || s[0] == '/' then "" else [s[0]] + FirstName(s[1..])
  }

  lemma {:induction false} FirstNameIs(m: string, s: string)
    requires '/' !in m && Under(m, s)
    ensures FirstName(s) == m
  {
    if m == "" {
      assert s == "" || s[0] == '/';
    } else {
      assert s[0] == m[0] && m[0] in m;
      forall c | c in m[1..] ensures c in m {}
      assert s != m ==> m[1..] + "/" <= s[1..];
      FirstNameIs(m[1..], s[1..]);
    }
  }

  lemma UnderPrefix(prefix: string, m: string, p: string)
    requires '/' !in m && Under(prefix + m, p)
    ensures FirstName(p[|prefix|..]) == m
  {
    var s := p[|prefix|..];
    assert Under(m, s) by {
      if p != prefix + m {
        assert (prefix + m + "/")[|prefix|..] == m + "/";
      }
    }
    FirstNameIs(m, s);
  }

  lemma SiblingsApart(dir: string, a: Entry, b: Entry, p: string)
    requires '/' !in a.name && '/' !in b.name
    requires Under(EntryPath(dir, a), p) && Under(EntryPath(dir, b), p)
    ensures a.name == b.name
  {
    var prefix := if dir == "" then "" else dir + "/";
    assert EntryPath(dir, a) == prefix + a.name && EntryPath(dir, b) == prefix + b.name;
    UnderPrefix(prefix, a.name, p);
    UnderPrefix(prefix, b.name, p);
  }

  lemma ChildUnder(dir: string, e: Entry)
    requires dir != ""
    ensures Under(dir, EntryPath(dir, e)) && EntryPath(dir, e) != dir
  {}

  lemma {:induction false} ReachedUnder(cfg: Config, dir: string, e: Entry, p: string)
    requires e.name != "" && GoodNames(e) && p in Reached(cfg, dir, e)
    ensures Under(EntryPath(dir, e), p)
    ensures p == EntryPath(dir, e) || exists c :: Under(EntryPath(EntryPath(dir, e), c), p)
    decreases Height(e), 0
  {
    var root := EntryPath(dir, e);
    if p != root {
      ChildrenWithin(e);
      ChildrenGood(e);
      var es := SortBy(e.listing.entries, NameOf);
      assert p in ReachedAll(cfg, root, es, Height(e) - 1);
      var c := ReachedAllUnder(cfg, root, es, Height(e) - 1, p);
      ChildUnder(root, c);
      UnderTrans(root, EntryPath(root, c), p);
    }
  }

  lemma {:induction false} ReachedAllUnder(cfg: Config, dir: string, es: seq<Entry>, h: nat, p: string) returns (c: Entry)
    requires Within(es, h) && GoodSiblings(es) && p in ReachedAll(cfg, dir, es, h)
    ensures c in es && p in Reached(cfg, dir, c) && Under(EntryPath(dir, c), p)
    decreases h, |es| + 1
  {
    var n := |es| - 1;
    InitGood(es);
    if p in ReachedAll(cfg, dir, es[..n], h) {
      c := ReachedAllUnder(cfg, dir, es[..n], h, p);
    } else {
      c := es[n];
      assert c in es;
      ReachedUnder(cfg, dir, c, p);
    }
  }

  // ---------------------------------------------------------------- reached once

  lemma ConsOnce(x: string, below: seq<string>, p: string)
    requires x !in below && multiset(below)[p] <= 1
    ensures multiset([x] + below)[p] <= 1
  {
    assert multiset(below)[x] == 0;
  }

  lemma {:induction false} ReachedOnce(cfg: Config, dir: string, e: Entry, p: string)
    requires e.name != "" && GoodNames(e)
    ensures multiset(Reached(cfg, dir, e))[p] <= 1
    decreases Height(e), 0
  {
    if Descends(cfg, dir, e) && e.listing.Listed? {
      var root, es, h := EntryPath(dir, e), SortBy(e.listing.entries, NameOf), Height(e) - 1;
      ListedParts(cfg, dir, e);
      ChildrenGood(e);
      ReachedAllOnce(cfg, root, es, h, p);
      RootNotBelow(cfg, root, es, h);
      ConsOnce(root, ReachedAll(cfg, root, es, h), p);
    }
  }

  /** A directory is not reached again below itself. */
  lemma RootNotBelow(cfg: Config, root: string, es: seq<Entry>, h: nat)
    requires root != "" && Within(es, h) && GoodSiblings(es)
    ensures root !in ReachedAll(cfg, root, es, h)
  {
    if root in ReachedAll(cfg, root, es, h) {
      var c := ReachedAllUnder(cfg, root, es, h, root);
    }
  }

  lemma {:induction false} ReachedAllOnce(cfg: Config, dir: string, es: seq<Entry>, h: nat, p: string)
    requires Within(es, h) && GoodSiblings(es)
    ensures multiset(ReachedAll(cfg, dir, es, h))[p] <= 1
    decreases h, |es| + 1
  {
    if es != [] {
      var n := |es| - 1;
      InitGood(es);
      ReachedAllOnce(cfg, dir, es[..n], h, p);
      ReachedOnce(cfg, dir, es[n], p);
      if p in ReachedAll(cfg, dir, es[..n], h) && p in Reached(cfg, dir, es[n]) {
        var c := ReachedAllUnder(cfg, dir, es[..n], h, p);
        ReachedUnder(cfg, dir, es[n], p);
        SiblingsApart(dir, c, es[n], p);
      }
    }
  }

  lemma RootAccounted(cfg: Config, root: Entry)
    requires root.listing.Listed?
    ensures multiset(ReachedFrom(cfg, root)) == Mentioned(Places(cfg, root)) + multiset(ListedFrom(cfg, root))
  {
    ChildrenWithin(root);
    AccountedAll(cfg, "", SortBy(root.listing.entries, NameOf), Height(root) - 1);
  }

  /** On every tree, no place is reached twice. */
  lemma RootOnce(cfg: Config, root: Entry, p: string)
    requires root.listing.Listed? && GoodNames(root)
    ensures multiset(ReachedFrom(cfg, root))[p] <= 1
  {
    ChildrenWithin(root);
    ChildrenGood(root);
    ReachedAllOnce(cfg, "", SortBy(root.listing.entries, NameOf), Height(root) - 1, p);
  }

  // ---------------------------------------------------------------- reported once

  function ShownAll(cfg: Config, places: seq<string>): seq<string> {
    MapAll(places, p => Shown(cfg, p))
  }

  /** How often a path is reported as included, ignored, errored or successfully listed. */
  ghost function Ends(cfg: Config, root: Entry, p: string): nat
    requires root.listing.Listed?
  {
    var r := Walked(cfg, root);
    multiset(IncludedPaths(r.included))[p] + multiset(IgnoredPaths(r.ignored))[p] + multiset(ErrorPaths(r.errors))[p]
    + multiset(ShownAll(cfg, ListedFrom(cfg, root)))[p]
  }

  /** Included, ignored and errored places in a row. */
  function PlacesOf(r: WalkResult): seq<string> {
    IncludedPaths(r.included) + IgnoredPaths(r.ignored) + ErrorPaths(r.errors)
  }

  lemma PlacesShown(cfg: Config, r: WalkResult)
    ensures ShownAll(cfg, PlacesOf(r)) == PlacesOf(Show(cfg, r))
  {
    var f := p => Shown(cfg, p);
    MapAppend(IncludedPaths(r.included) + IgnoredPaths(r.ignored), ErrorPaths(r.errors), f);
    MapAppend(IncludedPaths(r.included), IgnoredPaths(r.ignored), f);
    assert MapAll(IncludedPaths(r.included), f) == IncludedPaths(Show(cfg, r).included);
    assert MapAll(IgnoredPaths(r.ignored), f) == IgnoredPaths(Show(cfg, r).ignored);
    assert MapAll(ErrorPaths(r.errors), f) == ErrorPaths(Show(cfg, r).errors);
  }

  /** A path is reported as often as reached places are rewritten to it. */
  lemma ReportedAsReached(cfg: Config, root: Entry, p: string)
    requires root.listing.Listed?
    ensures Ends(cfg, root, p) == multiset(ShownAll(cfg, ReachedFrom(cfg, root)))[p]
  {
    var places, listed := PlacesOf(Places(cfg, root)), ListedFrom(cfg, root);
    RootAccounted(cfg, root);
    assert multiset(places + listed) == multiset(ReachedFrom(cfg, root));
    MapPermuted(places + listed, ReachedFrom(cfg, root), q => Shown(cfg, q));
    MapAppend(places, listed, q => Shown(cfg, q));
    PlacesShown(cfg, Places(cfg, root));
  }

  /** No two reached places are rewritten to the same path. */
  ghost predicate Unambiguous(cfg: Config, root: Entry)
    requires root.listing.Listed?
  {
    forall x, y :: x in ReachedFrom(cfg, root) && y in ReachedFrom(cfg, root) && Shown(cfg, x) == Shown(cfg, y) ==> x == y
  }

  /**
   Every reached entry ends in exactly one of the four ways, and no other path is
   mentioned, if and only if no two reached places are rewritten to the same path.
   */
  lemma ExactlyOneEndIff(cfg: Config, root: Entry)
    requires root.listing.Listed? && GoodNames(root)
    ensures (forall p :: Ends(cfg, root, p) == if p in ShownAll(cfg, ReachedFrom(cfg, root)) then 1 else 0) <==>
            Unambiguous(cfg, root)
  {
    var reached := ReachedFrom(cfg, root);
    forall p ensures multiset(reached)[p] <= 1 { RootOnce(cfg, root, p); }
    MapOnceIff(reached, p => Shown(cfg, p));
    forall p ensures Ends(cfg, root, p) == multiset(ShownAll(cfg, reached))[p] {
      ReportedAsReached(cfg, root, p);
    }
    assert forall p :: p in ShownAll(cfg, reached) <==> multiset(ShownAll(cfg, reached))[p] > 0;
  }

  // ---------------------------------------------------------------- nothing included is ignored

  /** An ignored path hides itself and, if it is a directory, everything below it. */
  predicate Hides(r: IgnoredRef, p: string) {
    p == r.path || (r.isDirectory && r.path + "/" <= p)
  }

  predicate IsCurrentlyIgnored(p: string, ignored: seq<IgnoredRef>) {
    exists r :: r in ignored && Hides(r, p)
  }

  lemma MentionedIsReached(cfg: Config, dir: string, e: Entry)
    ensures forall w :: w in Visit(cfg, dir, e).included ==> w.path in Reached(cfg, dir, e)
    ensures forall r :: r in Visit(cfg, dir, e).ignored ==> r.path in Reached(cfg, dir, e)
  {
    Accounted(cfg, dir, e);
    MentionedMembers(Visit(cfg, dir, e), Reached(cfg, dir, e), multiset(ListedDirs(cfg, dir, e)));
  }

  lemma MentionedAllReached(cfg: Config, dir: string, es: seq<Entry>, h: nat)
    requires Within(es, h)
    ensures forall w :: w in VisitAll(cfg, dir, es, h).included ==> w.path in ReachedAll(cfg, dir, es, h)
    ensures forall r :: r in VisitAll(cfg, dir, es, h).ignored ==> r.path in ReachedAll(cfg, dir, es, h)
  {
    AccountedAll(cfg, dir, es, h);
    MentionedMembers(VisitAll(cfg, dir, es, h), ReachedAll(cfg, dir, es, h), multiset(ListedAll(cfg, dir, es, h)));
  }

  lemma MentionedMembers(r: WalkResult, reached: seq<string>, listed: multiset<string>)
    requires multiset(reached) == Mentioned(r) + listed
    ensures forall w :: w in r.included ==> w.path in reached
    ensures forall x :: x in r.ignored ==> x.path in reached
  {
    forall w | w in r.included ensures w.path in reached {
      var i :| 0 <= i < |r.included| && r.included[i] == w;
      assert IncludedPaths(r.included)[i] == w.path;
      assert w.path in multiset(IncludedPaths(r.included));
      assert w.path in multiset(reached);
    }
    forall x | x in r.ignored ensures x.path in reached {
      var i :| 0 <= i < |r.ignored| && r.ignored[i] == x;
      assert IgnoredPaths(r.ignored)[i] == x.path;
      assert x.path in multiset(IgnoredPaths(r.ignored));
      assert x.path in multiset(reached);
    }
  }

  lemma {:induction false} NotHidden(cfg: Config, dir: string, e: Entry, w: WalkEntry, r: IgnoredRef)
    requires e.name != "" && GoodNames(e) && w in Visit(cfg, dir, e).included && r in Visit(cfg, dir, e).ignored
    ensures !Hides(r, w.path)
    decreases Height(e), 0
  {
    if Descends(cfg, dir, e) && e.listing.Listed? {
      ListedParts(cfg, dir, e);
      ChildrenGood(e);
      var place, es, h := EntryPath(dir, e), SortBy(e.listing.entries, NameOf), Height(e) - 1;
      NotHiddenAll(cfg, place, es, h, w, r);
    } else {
      NotBoth(cfg, dir, e, w);
    }
  }

  lemma NotBoth(cfg: Config, dir: string, e: Entry, w: WalkEntry)
    requires !(Descends(cfg, dir, e) && e.listing.Listed?) && w in Visit(cfg, dir, e).included
    ensures Visit(cfg, dir, e).ignored == []
  {}

  lemma {:induction false} NotHiddenAll(cfg: Config, dir: string, es: seq<Entry>, h: nat, w: WalkEntry, r: IgnoredRef)
    requires Within(es, h) && GoodSiblings(es)
    requires w in VisitAll(cfg, dir, es, h).included && r in VisitAll(cfg, dir, es, h).ignored
    ensures !Hides(r, w.path)
    decreases h, |es| + 1
  {
    var n := |es| - 1;
    InitGood(es);
    var init, last := VisitAll(cfg, dir, es[..n], h), Visit(cfg, dir, es[n]);
    if w in init.included && r in init.ignored {
      NotHiddenAll(cfg, dir, es[..n], h, w, r);
    } else if w in last.included && r in last.ignored {
      NotHidden(cfg, dir, es[n], w, r);
    } else if w in init.included {
      Apart(cfg, dir, es, h, w.path, r.path);
    } else {
      Apart(cfg, dir, es, h, r.path, w.path);
    }
  }

  /** What an earlier sibling reaches neither is nor lies above or below what the last one reaches. */
  lemma Apart(cfg: Config, dir: string, es: seq<Entry>, h: nat, p: string, q: string)
    requires es != [] && Within(es, h) && GoodSiblings(es)
    ensures var n := |es| - 1;
      && (forall w :: w in VisitAll(cfg, dir, es[..n], h).included ==> w.path in ReachedAll(cfg, dir, es[..n], h))
      && (forall r :: r in VisitAll(cfg, dir, es[..n], h).ignored ==> r.path in ReachedAll(cfg, dir, es[..n], h))
      && (forall w :: w in Visit(cfg, dir, es[n]).included ==> w.path in Reached(cfg, dir, es[n]))
      && (forall r :: r in Visit(cfg, dir, es[n]).ignored ==> r.path in Reached(cfg, dir, es[n]))
    ensures var n := |es| - 1;
      p in ReachedAll(cfg, dir, es[..n], h) && q in Reached(cfg, dir, es[n]) ==> !Under(p, q) && !Under(q, p)
  {
    var n := |es| - 1;
    InitGood(es);
    MentionedAllReached(cfg, dir, es[..n], h);
    MentionedIsReached(cfg, dir, es[n]);
    if p in ReachedAll(cfg, dir, es[..n], h) && q in Reached(cfg, dir, es[n]) {
      var c := ReachedAllUnder(cfg, dir, es[..n], h, p);
      ReachedUnder(cfg, dir, es[n], q);
      SiblingsDisjoint(dir, c, es[n], p, q);
    }
  }

  lemma SiblingsDisjoint(dir: string, a: Entry, b: Entry, p: string, q: string)
    requires '/' !in a.name && '/' !in b.name && a.name != b.name
    requires Under(EntryPath(dir, a), p) && Under(EntryPath(dir, b), q)
    ensures !Under(p, q) && !Under(q, p)
  {
    if Under(p, q) {
      UnderTrans(EntryPath(dir, a), p, q);
      SiblingsApart(dir, a, b, q);
    }
    if Under(q, p) {
      UnderTrans(EntryPath(dir, b), q, p);
      SiblingsApart(dir, a, b, p);
    }
  }

  /** No included place is an ignored one or lies below an ignored directory. */
  lemma PlaceNotHidden(cfg: Config, root: Entry, w: WalkEntry, r: IgnoredRef)
    requires root.listing.Listed? && GoodNames(root) && w in Places(cfg, root).included && r in Places(cfg, root).ignored
    ensures !Hides(r, w.path)
  {
    ChildrenWithin(root);
    ChildrenGood(root);
    NotHiddenAll(cfg, "", SortBy(root.listing.entries, NameOf), Height(root) - 1, w, r);
  }

  // ---------------------------------------------------------------- why an entry ended as it did

  /** The policy passes the entry by its path, name, status and size. */
  ghost predicate PassesByStatus(cfg: Config, d: string, c: Entry) {
    c.stat.Got? && !cfg.ignore(Query(Shown(cfg, EntryPath(d, c)), c.name, c.stat.value.isDirectory,
                                     c.direntSymlink || c.stat.value.isSymlink, c.stat.value.size, Failed))
  }

  /** It passes the file again, asked as a plain file with its head. */
  ghost predicate PassesByHead(cfg: Config, d: string, c: Entry) {
    c.stat.Got? && c.head.Got?
    && !cfg.ignore(Query(Shown(cfg, EntryPath(d, c)), c.name, false, false, c.stat.value.size, Got(c.head.value)))
  }

  /** The walk of `e` in `dir` comes to entry `c` in directory `d`. */
  ghost predicate ComesTo(cfg: Config, dir: string, e: Entry, d: string, c: Entry)
    decreases e
  {
    || (d == dir && c == e)
    || (PassesByStatus(cfg, dir, e) && e.stat.value.isDirectory && e.listing.Listed?
        && exists i :: 0 <= i < |e.listing.entries| && ComesTo(cfg, EntryPath(dir, e), e.listing.entries[i], d, c))
  }

  lemma ComesToChild(cfg: Config, dir: string, e: Entry, child: Entry, d: string, c: Entry)
    requires Descends(cfg, dir, e) && e.listing.Listed? && child in SortBy(e.listing.entries, NameOf)
    requires ComesTo(cfg, EntryPath(dir, e), child, d, c)
    ensures ComesTo(cfg, dir, e, d, c)
  {
    SortByOk(e.listing.entries, NameOf);
    var i :| 0 <= i < |e.listing.entries| && e.listing.entries[i] == child;
  }

  // What a walk of several entries finds comes from one of them.

  lemma {:induction false} IncludedFrom(cfg: Config, dir: string, es: seq<Entry>, h: nat, w: WalkEntry) returns (e: Entry)
    requires Within(es, h) && w in VisitAll(cfg, dir, es, h).included
    ensures e in es && w in Visit(cfg, dir, e).included
    decreases |es|
  {
    var n := |es| - 1;
    if w in Visit(cfg, dir, es[n]).included {
      e := es[n];
    } else {
      e := IncludedFrom(cfg, dir, es[..n], h, w);
    }
  }

  lemma {:induction false} IgnoredFrom(cfg: Config, dir: string, es: seq<Entry>, h: nat, x: IgnoredRef) returns (e: Entry)
    requires Within(es, h) && x in VisitAll(cfg, dir, es, h).ignored
    ensures e in es && x in Visit(cfg, dir, e).ignored
    decreases |es|
  {
    var n := |es| - 1;
    if x in Visit(cfg, dir, es[n]).ignored {
      e := es[n];
    } else {
      e := IgnoredFrom(cfg, dir, es[..n], h, x);
    }
  }

  lemma {:induction false} ErrorFrom(cfg: Config, dir: string, es: seq<Entry>, h: nat, x: ScanError) returns (e: Entry)
    requires Within(es, h) && x in VisitAll(cfg, dir, es, h).errors
    ensures e in es && x in Visit(cfg, dir, e).errors
    decreases |es|
  {
    var n := |es| - 1;
    if x in Visit(cfg, dir, es[n]).errors {
      e := es[n];
    } else {
      e := ErrorFrom(cfg, dir, es[..n], h, x);
    }
  }

  /** A readable file that the policy passed before and after its head was read. */
  ghost predicate MayInclude(cfg: Config, d: string, c: Entry) {
    PassesByStatus(cfg, d, c) && PassesByHead(cfg, d, c) && !c.stat.value.isDirectory
  }

  /** The policy refused the entry, before or after its head was read. */
  ghost predicate RefusedAs(cfg: Config, d: string, c: Entry, x: IgnoredRef) {
    && x.path == EntryPath(d, c) && c.stat.Got? && x.isDirectory == c.stat.value.isDirectory
    && (!PassesByStatus(cfg, d, c) || (c.head.Got? && !c.stat.value.isDirectory && !PassesByHead(cfg, d, c)))
  }

  /** A read of the entry failed, and the stage says which. */
  ghost predicate FailedAs(cfg: Config, d: string, c: Entry, x: ScanError) {
    && x.path == EntryPath(d, c)
    && x.stage == (if c.stat.Failed? || c.stat.value.isDirectory then WalkStage else ReadStage)
    && (c.stat.Failed? ||
        (PassesByStatus(cfg, d, c) && if c.stat.value.isDirectory then c.listing.Unlisted? else c.head.Failed?))
  }

  /** What an entry that the walk does not go into is reported as. */
  lemma LeafReasons(cfg: Config, d: string, c: Entry)
    requires !(Descends(cfg, d, c) && c.listing.Listed?)
    ensures var r := Visit(cfg, d, c);
      && (forall w :: w in r.included ==>
            MayInclude(cfg, d, c) && w == Found(EntryPath(d, c), c.name, c.stat.value.size, c.stat.value.mtime))
      && (forall x :: x in r.ignored ==> RefusedAs(cfg, d, c, x))
      && (forall x :: x in r.errors ==> FailedAs(cfg, d, c, x))
  {}

  /** Every included file is a readable file that the policy passed twice, with its own size and time. */
  lemma {:induction false} IncludedReason(cfg: Config, dir: string, e: Entry, w: WalkEntry) returns (d: string, c: Entry)
    requires w in Visit(cfg, dir, e).included
    ensures ComesTo(cfg, dir, e, d, c) && MayInclude(cfg, d, c)
    ensures w == Found(EntryPath(d, c), c.name, c.stat.value.size, c.stat.value.mtime)
    decreases Height(e)
  {
    if Descends(cfg, dir, e) && e.listing.Listed? {
      ListedParts(cfg, dir, e);
      var es := SortBy(e.listing.entries, NameOf);
      var child := IncludedFrom(cfg, EntryPath(dir, e), es, Height(e) - 1, w);
      d, c := IncludedReason(cfg, EntryPath(dir, e), child, w);
      ComesToChild(cfg, dir, e, child, d, c);
    } else {
      LeafReasons(cfg, dir, e);
      d, c := dir, e;
    }
  }

  /** Every ignored entry was refused by the policy, before or after its head was read. */
  lemma {:induction false} IgnoredReason(cfg: Config, dir: string, e: Entry, x: IgnoredRef) returns (d: string, c: Entry)
    requires x in Visit(cfg, dir, e).ignored
    ensures ComesTo(cfg, dir, e, d, c) && RefusedAs(cfg, d, c, x)
    decreases Height(e)
  {
    if Descends(cfg, dir, e) && e.listing.Listed? {
      ListedParts(cfg, dir, e);
      var es := SortBy(e.listing.entries, NameOf);
      var child := IgnoredFrom(cfg, EntryPath(dir, e), es, Height(e) - 1, x);
      d, c := IgnoredReason(cfg, EntryPath(dir, e), child, x);
      ComesToChild(cfg, dir, e, child, d, c);
    } else {
      LeafReasons(cfg, dir, e);
      d, c := dir, e;
    }
  }

  /** Every error stands for a read that failed, and the stage says which. */
  lemma {:induction false} ErrorReason(cfg: Config, dir: string, e: Entry, x: ScanError) returns (d: string, c: Entry)
    requires x in Visit(cfg, dir, e).errors
    ensures ComesTo(cfg, dir, e, d, c) && FailedAs(cfg, d, c, x)
    decreases Height(e)
  {
    if Descends(cfg, dir, e) && e.listing.Listed? {
      ListedParts(cfg, dir, e);
      var es := SortBy(e.listing.entries, NameOf);
      var child := ErrorFrom(cfg, EntryPath(dir, e), es, Height(e) - 1, x);
      d, c := ErrorReason(cfg, EntryPath(dir, e), child, x);
      ComesToChild(cfg, dir, e, child, d, c);
    } else {
      LeafReasons(cfg, dir, e);
      d, c := dir, e;
    }
  }

  // ---------------------------------------------------------------- the segments of places

  /** No segment is empty or made of dots only. */
  predicate Segmented(p: string) {
    forall s :: s in Split(p) ==> s != "" && s != "." && s != ".."
  }

  lemma EntryPathSegmented(dir: string, e: Entry)
    requires (dir == "" || Segmented(dir)) && FileName(e.name)
    ensures Segmented(EntryPath(dir, e))
  {
    SplitSegment(e.name);
    if dir != "" {
      SplitAppend(dir, e.name);
    }
  }

  lemma {:induction false} ReachedSegmented(cfg: Config, dir: string, e: Entry, p: string)
    requires (dir == "" || Segmented(dir)) && FileName(e.name) && GoodNames(e) && p in Reached(cfg, dir, e)
    ensures Segmented(p)
    decreases Height(e), 0
  {
    EntryPathSegmented(dir, e);
    if Descends(cfg, dir, e) && e.listing.Listed? && p != EntryPath(dir, e) {
      ListedParts(cfg, dir, e);
      ChildrenGood(e);
      ReachedAllSegmented(cfg, EntryPath(dir, e), SortBy(e.listing.entries, NameOf), Height(e) - 1, p);
    }
  }

  lemma {:induction false} ReachedAllSegmented(cfg: Config, dir: string, es: seq<Entry>, h: nat, p: string)
    requires (dir == "" || Segmented(dir)) && Within(es, h) && GoodSiblings(es) && p in ReachedAll(cfg, dir, es, h)
    ensures Segmented(p)
    decreases h, |es| + 1
  {
    var n := |es| - 1;
    InitGood(es);
    assert es[n] in es;
    if p in ReachedAll(cfg, dir, es[..n], h) {
      ReachedAllSegmented(cfg, dir, es[..n], h, p);
    } else {
      ReachedSegmented(cfg, dir, es[n], p);
    }
  }

  lemma RootSegmented(cfg: Config, root: Entry, p: string)
    requires root.listing.Listed? && GoodNames(root) && p in ReachedFrom(cfg, root)
    ensures Segmented(p)
  {
    ChildrenWithin(root);
    ChildrenGood(root);
    ReachedAllSegmented(cfg, "", SortBy(root.listing.entries, NameOf), Height(root) - 1, p);
  }

  /** Without a backslash such a place is canonical. */
  lemma PlainCanonical(p: string)
    requires Segmented(p) && '\\' !in p
    ensures Canonical(p)
  {
    SplitKeepsOut(p, '\\');
  }

  // ---------------------------------------------------------------- names without backslashes

  ghost predicate PortableNames(e: Entry) {
    e.listing.Listed? ==>
      forall i :: 0 <= i < |e.listing.entries| ==> '\\' !in e.listing.entries[i].name && PortableNames(e.listing.entries[i])
  }

  ghost predicate PortableSiblings(es: seq<Entry>) {
    forall e :: e in es ==> '\\' !in e.name && PortableNames(e)
  }

  lemma ChildrenPortable(e: Entry)
    requires e.listing.Listed? && PortableNames(e)
    ensures PortableSiblings(SortBy(e.listing.entries, NameOf))
  {
    var es := e.listing.entries;
    SortByOk(es, NameOf);
    forall c | c in SortBy(es, NameOf) ensures '\\' !in c.name && PortableNames(c) {
      var i :| 0 <= i < |es| && es[i] == c;
    }
  }

  lemma {:induction false} ReachedPlain(cfg: Config, dir: string, e: Entry, p: string)
    requires '\\' !in dir && '\\' !in e.name && PortableNames(e) && p in Reached(cfg, dir, e)
    ensures '\\' !in p
    decreases Height(e), 0
  {
    if p != EntryPath(dir, e) {
      ListedParts(cfg, dir, e);
      ChildrenPortable(e);
      ReachedAllPlain(cfg, EntryPath(dir, e), SortBy(e.listing.entries, NameOf), Height(e) - 1, p);
    }
  }

  lemma {:induction false} ReachedAllPlain(cfg: Config, dir: string, es: seq<Entry>, h: nat, p: string)
    requires '\\' !in dir && Within(es, h) && PortableSiblings(es) && p in ReachedAll(cfg, dir, es, h)
    ensures '\\' !in p
    decreases h, |es| + 1
  {
    var n := |es| - 1;
    assert es[n] in es && forall e :: e in es[..n] ==> e in es;
    if p in ReachedAll(cfg, dir, es[..n], h) {
      ReachedAllPlain(cfg, dir, es[..n], h, p);
    } else {
      ReachedPlain(cfg, dir, es[n], p);
    }
  }

  /** An ordinary root: not the root of the file system itself. */
  predicate RootOk(cfg: Config) {
    cfg.root != [] && forall s :: s in cfg.root ==> GoodSegment(s)
  }

  /** A canonical place is reported as it is. */
  lemma CanonicalShown(cfg: Config, p: string)
    requires RootOk(cfg) && Canonical(p)
    ensures Locate(cfg.root, p) == Got(p) && Shown(cfg, p) == p
  {
    var segs := Split(p);
    SplitNoBackslash(p);
    forall i | 0 <= i < |p| ensures p[i] != '\\' { assert p[i] in p; }
    assert Replace(p, '\\', '/') == p;
    ResolveGood(cfg.root + segs, [], false);
    var none: seq<string> := [];
    assert none + (cfg.root + segs) == cfg.root + segs;
    assert (cfg.root + segs)[|cfg.root|..] == segs;
    JoinSplit(p);
  }

  /** A reached place without a backslash is reported as it is. */
  lemma PlainShown(cfg: Config, root: Entry, p: string)
    requires root.listing.Listed? && GoodNames(root) && RootOk(cfg) && p in ReachedFrom(cfg, root) && '\\' !in p
    ensures Canonical(p) && Locate(cfg.root, p) == Got(p) && Shown(cfg, p) == p
  {
    RootSegmented(cfg, root, p);
    PlainCanonical(p);
    CanonicalShown(cfg, p);
  }

  lemma PortableReached(cfg: Config, root: Entry, p: string)
    requires root.listing.Listed? && GoodNames(root) && PortableNames(root) && RootOk(cfg) && p in ReachedFrom(cfg, root)
    ensures '\\' !in p && Canonical(p) && Locate(cfg.root, p) == Got(p) && Shown(cfg, p) == p
  {
    ChildrenWithin(root);
    ChildrenPortable(root);
    ReachedAllPlain(cfg, "", SortBy(root.listing.entries, NameOf), Height(root) - 1, p);
    PlainShown(cfg, root, p);
  }

  lemma ShowNothing(cfg: Config, r: WalkResult)
    requires forall p :: p in PlacesOf(r) ==> Shown(cfg, p) == p
    ensures Show(cfg, r) == r
  {
    var inc, ign, err := IncludedPaths(r.included), IgnoredPaths(r.ignored), ErrorPaths(r.errors);
    forall i | 0 <= i < |r.included| ensures Shown(cfg, r.included[i].path) == r.included[i].path { assert inc[i] in PlacesOf(r); }
    forall i | 0 <= i < |r.ignored| ensures Shown(cfg, r.ignored[i].path) == r.ignored[i].path { assert ign[i] in PlacesOf(r); }
    forall i | 0 <= i < |r.errors| ensures Shown(cfg, r.errors[i].path) == r.errors[i].path { assert err[i] in PlacesOf(r); }
  }

  /** With portable names the walk never throws once the root is readable, and reports every place as it is. */
  lemma PortableWalk(cfg: Config, root: Entry)
    requires root.listing.Listed? && GoodNames(root) && PortableNames(root) && RootOk(cfg)
    ensures Walked(cfg, root) == Places(cfg, root) && Unambiguous(cfg, root) && AllInside(cfg, ReachedFrom(cfg, root))
  {
    var places := PlacesOf(Places(cfg, root));
    forall p | p in ReachedFrom(cfg, root) ensures Shown(cfg, p) == p && Locate(cfg.root, p).Got? {
      PortableReached(cfg, root, p);
    }
    RootAccounted(cfg, root);
    assert multiset(places) <= multiset(ReachedFrom(cfg, root));
    forall p | p in places ensures Shown(cfg, p) == p {
      assert p in multiset(places);
      assert p in multiset(ReachedFrom(cfg, root));
    }
    ShowNothing(cfg, Places(cfg, root));
  }

  /** No included path is ignored or lies under an ignored directory. */
  lemma IncludedNotIgnored(cfg: Config, root: Entry, p: string)
    requires root.listing.Listed? && GoodNames(root) && PortableNames(root) && RootOk(cfg)
    ensures var r := Walked(cfg, root); p in IncludedPaths(r.included) ==> !IsCurrentlyIgnored(p, r.ignored)
  {
    var result := Walked(cfg, root);
    PortableWalk(cfg, root);
    if p in IncludedPaths(result.included) {
      var i :| 0 <= i < |result.included| && result.included[i].path == p;
      forall r | r in result.ignored ensures !Hides(r, p) {
        PlaceNotHidden(cfg, root, result.included[i], r);
      }
    }
  }

  /** Inventory paths are canonical and distinct, as the graph builder needs them. */
  lemma IncludedCanonicalOnce(cfg: Config, root: Entry, p: string)
    requires root.listing.Listed? && GoodNames(root) && PortableNames(root) && RootOk(cfg)
    ensures p in IncludedPaths(Walked(cfg, root).included) ==>
            Canonical(p) && multiset(IncludedPaths(Walked(cfg, root).included))[p] == 1
  {
    PortableWalk(cfg, root);
    RootAccounted(cfg, root);
    RootOnce(cfg, root, p);
    var inc := IncludedPaths(Walked(cfg, root).included);
    if p in inc {
      assert p in multiset(inc);
      assert p in multiset(ReachedFrom(cfg, root));
      PortableReached(cfg, root, p);
    }
  }

  // ---------------------------------------------------------------- good walks

  /** No path is included twice, and no included path is ignored or lies under an ignored directory. */
  ghost predicate GoodWalk(walk: WalkResult) {
    && (forall p :: multiset(IncludedPaths(walk.included))[p] <= 1)
    && (forall p :: p in IncludedPaths(walk.included) ==> !IsCurrentlyIgnored(p, walk.ignored))
  }

  /** Two different included places, one of them with a backslash, that are rewritten to one path. */
  ghost predicate FilesCollide(cfg: Config, places: WalkResult) {
    exists x, y :: x in IncludedPaths(places.included) && y in IncludedPaths(places.included) && x != y
                   && ('\\' in x || '\\' in y) && Shown(cfg, x) == Shown(cfg, y)
  }

  /** An included and an ignored place, one of them with a backslash, of which rewriting puts the first where the second hides it. */
  ghost predicate HidingCollides(cfg: Config, places: WalkResult) {
    exists w, r :: w in places.included && r in places.ignored && ('\\' in w.path || '\\' in r.path)
                   && Hides(IgnoredRef(Shown(cfg, r.path), r.isDirectory), Shown(cfg, w.path))
  }

  /** Included and ignored places are reached, and no place is included twice. */
  lemma PlacesReached(cfg: Config, root: Entry)
    requires root.listing.Listed? && GoodNames(root)
    ensures var r := Places(cfg, root);
      && (forall p :: multiset(IncludedPaths(r.included))[p] <= 1)
      && (forall p :: p in IncludedPaths(r.included) ==> p in ReachedFrom(cfg, root))
      && (forall x :: x in r.ignored ==> x.path in ReachedFrom(cfg, root))
  {
    var r, reached := Places(cfg, root), ReachedFrom(cfg, root);
    RootAccounted(cfg, root);
    forall p ensures multiset(IncludedPaths(r.included))[p] <= 1 { RootOnce(cfg, root, p); }
    forall p | p in IncludedPaths(r.included) ensures p in reached {
      assert p in multiset(IncludedPaths(r.included));
      assert p in multiset(reached);
    }
    MentionedMembers(r, reached, multiset(ListedFrom(cfg, root)));
  }

  lemma ShownIncluded(cfg: Config, r: WalkResult)
    ensures IncludedPaths(Show(cfg, r).included) == MapAll(IncludedPaths(r.included), p => Shown(cfg, p))
  {}

  /** A path is included once if and only if no included places collide. */
  lemma IncludedOnceIff(cfg: Config, root: Entry)
    requires root.listing.Listed? && GoodNames(root) && RootOk(cfg)
    ensures (forall p :: multiset(IncludedPaths(Walked(cfg, root).included))[p] <= 1) <==> !FilesCollide(cfg, Places(cfg, root))
  {
    var xs := IncludedPaths(Places(cfg, root).included);
    PlacesReached(cfg, root);
    ShownIncluded(cfg, Places(cfg, root));
    MapOnceIff(xs, p => Shown(cfg, p));
    forall x, y | x in xs && y in xs && '\\' !in x && '\\' !in y && Shown(cfg, x) == Shown(cfg, y) ensures x == y {
      PlainShown(cfg, root, x);
      PlainShown(cfg, root, y);
    }
  }

  lemma PathAmong(ws: seq<WalkEntry>, p: string)
    ensures p in IncludedPaths(ws) <==> exists w :: w in ws && w.path == p
  {
    if w :| w in ws && w.path == p {
      var i :| 0 <= i < |ws| && ws[i] == w;
      assert IncludedPaths(ws)[i] == p;
    }
    if p in IncludedPaths(ws) {
      var i :| 0 <= i < |ws| && IncludedPaths(ws)[i] == p;
      assert ws[i] in ws;
    }
  }

  lemma ShowIncluded(cfg: Config, r: WalkResult, w: WalkEntry)
    ensures w in Show(cfg, r).included <==> exists v :: v in r.included && w == v.(path := Shown(cfg, v.path))
  {
    if v :| v in r.included && w == v.(path := Shown(cfg, v.path)) {
      var i :| 0 <= i < |r.included| && r.included[i] == v;
      assert Show(cfg, r).included[i] == w;
    }
  }

  lemma ShowIgnored(cfg: Config, r: WalkResult, x: IgnoredRef)
    ensures x in Show(cfg, r).ignored <==> exists y :: y in r.ignored && x == y.(path := Shown(cfg, y.path))
  {
    if y :| y in r.ignored && x == y.(path := Shown(cfg, y.path)) {
      var i :| 0 <= i < |r.ignored| && r.ignored[i] == y;
      assert Show(cfg, r).ignored[i] == x;
    }
  }

  /** Without a backslash in either place, an included place is never hidden. */
  lemma PlainNotHidden(cfg: Config, root: Entry, w: WalkEntry, r: IgnoredRef)
    requires root.listing.Listed? && GoodNames(root) && RootOk(cfg)
    requires w in Places(cfg, root).included && r in Places(cfg, root).ignored && '\\' !in w.path && '\\' !in r.path
    ensures !Hides(IgnoredRef(Shown(cfg, r.path), r.isDirectory), Shown(cfg, w.path))
  {
    PlacesReached(cfg, root);
    PathAmong(Places(cfg, root).included, w.path);
    PlainShown(cfg, root, w.path);
    PlainShown(cfg, root, r.path);
    PlaceNotHidden(cfg, root, w, r);
  }

  /** No included path is ignored if and only if no included place collides with an ignored one. */
  lemma NoneIgnoredIff(cfg: Config, root: Entry)
    requires root.listing.Listed? && GoodNames(root) && RootOk(cfg)
    ensures var r := Walked(cfg, root);
      (forall p :: p in IncludedPaths(r.included) ==> !IsCurrentlyIgnored(p, r.ignored)) <==> !HidingCollides(cfg, Places(cfg, root))
  {
    var places, walk := Places(cfg, root), Walked(cfg, root);
    if !HidingCollides(cfg, places) {
      forall p | p in IncludedPaths(walk.included) ensures !IsCurrentlyIgnored(p, walk.ignored) {
        PathAmong(walk.included, p);
        var w' :| w' in walk.included && w'.path == p;
        ShowIncluded(cfg, places, w');
        var w :| w in places.included && w' == w.(path := Shown(cfg, w.path));
        forall r' | r' in walk.ignored ensures !Hides(r', p) {
          ShowIgnored(cfg, places, r');
          var r :| r in places.ignored && r' == r.(path := Shown(cfg, r.path));
          if '\\' !in w.path && '\\' !in r.path { PlainNotHidden(cfg, root, w, r); }
        }
      }
    }
    if w, r :| w in places.included && r in places.ignored && Hides(IgnoredRef(Shown(cfg, r.path), r.isDirectory), Shown(cfg, w.path)) {
      ShowIncluded(cfg, places, w.(path := Shown(cfg, w.path)));
      ShowIgnored(cfg, places, r.(path := Shown(cfg, r.path)));
      PathAmong(walk.included, Shown(cfg, w.path));
    }
  }

  /** A walk is good if and only if no place with a backslash collides with another place. */
  lemma GoodWalkIff(cfg: Config, root: Entry)
    requires root.listing.Listed? && GoodNames(root) && RootOk(cfg)
    ensures GoodWalk(Walked(cfg, root)) <==> !FilesCollide(cfg, Places(cfg, root)) && !HidingCollides(cfg, Places(cfg, root))
  {
    IncludedOnceIff(cfg, root);
    NoneIgnoredIff(cfg, root);
  }

  /** Names without backslashes give good walks. */
  lemma PortableIsGood(cfg: Config, root: Entry)
    requires root.listing.Listed? && GoodNames(root) && PortableNames(root) && RootOk(cfg)
    ensures GoodWalk(Walked(cfg, root))
  {
    var places := Places(cfg, root);
    PlacesReached(cfg, root);
    forall p | p in ReachedFrom(cfg, root) ensures '\\' !in p { PortableReached(cfg, root, p); }
    forall w | w in places.included ensures '\\' !in w.path { PathAmong(places.included, w.path); }
    GoodWalkIff(cfg, root);
  }
}
