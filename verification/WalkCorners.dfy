/** Trees on which the walk does not do what it does on ordinary names. */
module WalkCorners {
  import opened Ordering
  import opened Paths
  import opened Walk
  import opened WalkSafety

  predicate IsName(s: string) {
    GoodSegment(s) && '/' !in s
  }

  function File(name: string): Entry {
    Entry(name, false, Got(Stat(false, false, 0, 0)), Unlisted, Got(""))
  }

  function Directory(name: string, es: seq<Entry>): Entry {
    Entry(name, false, Got(Stat(true, false, 0, 0)), Listed(es), Failed)
  }

  /** A directory `a` that holds `b`, and beside it a file whose name is `a`, a backslash and `b`. */
  function Colliding(a: string, b: string): Entry {
    Directory("", [Directory(a, [File(b)]), File(a + "\\" + b)])
  }

  ghost predicate IgnoresNothing(cfg: Config) {
    forall q :: !cfg.ignore(q)
  }

  lemma SortTwo(x: Entry, y: Entry)
    ensures SortBy([x, y], NameOf) == [x, y] || SortBy([x, y], NameOf) == [y, x]
  {
    assert [x, y][..1] == [x] && [x][..0] == [];
    assert SortBy([x], NameOf) == [x];
    assert Insert(y, [x], NameOf) == [x, y] || Insert(y, [x], NameOf) == [y, x];
  }

  lemma SortOne(x: Entry)
    ensures SortBy([x], NameOf) == [x]
  {
    assert [x][..0] == [];
  }

  lemma ListedOne(cfg: Config, dir: string, e: Entry, h: nat)
    requires Within([e], h)
    ensures VisitAll(cfg, dir, [e], h) == Visit(cfg, dir, e) && ReachedAll(cfg, dir, [e], h) == Reached(cfg, dir, e)
  {
    assert [e][..0] == [];
  }

  lemma ListedTwo(cfg: Config, dir: string, x: Entry, y: Entry, h: nat)
    requires Within([x, y], h)
    ensures VisitAll(cfg, dir, [x, y], h) == Visit(cfg, dir, x).Append(Visit(cfg, dir, y))
    ensures ReachedAll(cfg, dir, [x, y], h) == Reached(cfg, dir, x) + Reached(cfg, dir, y)
  {
    assert [x, y][..1] == [x];
    assert x in [x, y];
    ListedOne(cfg, dir, x, h);
  }

  /** The policy lets this path pass, unless it is a link. */
  ghost predicate Passes(cfg: Config, p: string) {
    forall q: Query :: q.path == p && !q.isSymlink ==> !cfg.ignore(q)
  }

  lemma FileIncluded(cfg: Config, dir: string, name: string)
    requires Passes(cfg, Shown(cfg, EntryPath(dir, File(name))))
    ensures Visit(cfg, dir, File(name)) == EMPTY.(included := [Found(EntryPath(dir, File(name)), name, 0, 0)])
    ensures Reached(cfg, dir, File(name)) == [EntryPath(dir, File(name))]
  {}

  lemma DirectoryWalked(cfg: Config, a: string, b: string)
    requires a != "" && Passes(cfg, Shown(cfg, a)) && Passes(cfg, Shown(cfg, a + "/" + b))
    ensures Visit(cfg, "", Directory(a, [File(b)])) == EMPTY.(included := [Found(a + "/" + b, b, 0, 0)])
    ensures Reached(cfg, "", Directory(a, [File(b)])) == [a, a + "/" + b]
  {
    var d := Directory(a, [File(b)]);
    assert !cfg.ignore(FirstQuery(cfg, "", d, d.stat.value));
    assert Descends(cfg, "", d);
    ChildrenWithin(d);
    SortOne(File(b));
    ListedOne(cfg, a, File(b), Height(d) - 1);
    FileIncluded(cfg, a, b);
  }

  lemma CanonicalPair(a: string, b: string)
    requires IsName(a) && IsName(b)
    ensures Canonical(a) && Canonical(a + "/" + b)
  {
    SplitSegment(a);
    SplitSegment(b);
    SplitAppend(a, b);
  }

  /** A backslash is as good as a slash. */
  lemma BackslashLocated(root: seq<string>, a: string, b: string)
    requires '\\' !in a && '\\' !in b
    ensures Locate(root, a + "\\" + b) == Locate(root, a + "/" + b)
  {
    var p, q := a + "\\" + b, a + "/" + b;
    forall i | 0 <= i < |p| ensures Replace(p, '\\', '/')[i] == Replace(q, '\\', '/')[i] {
      if i < |a| { assert p[i] == a[i] && a[i] in a; }
      if i > |a| { assert p[i] == b[i - |a| - 1] && b[i - |a| - 1] in b; }
    }
    assert Replace(p, '\\', '/') == Replace(q, '\\', '/');
  }

  lemma CollidingNames(a: string, b: string)
    requires IsName(a) && IsName(b)
    ensures GoodNames(Colliding(a, b))
  {
    var d, f := Directory(a, [File(b)]), File(a + "\\" + b);
    assert |f.name| > |a|;
    forall c | c in f.name ensures c != '/' { assert c in a || c == '\\' || c in b; }
    assert NamesOk([File(b)]);
    assert GoodNames(d) && GoodNames(f);
    assert NamesOk([d, f]);
  }

  /** A root with two entries, in one order or the other. */
  lemma TwoEntries(cfg: Config, x: Entry, y: Entry)
    ensures var r := Places(cfg, Directory("", [x, y]));
      r == Visit(cfg, "", x).Append(Visit(cfg, "", y)) || r == Visit(cfg, "", y).Append(Visit(cfg, "", x))
    ensures var ps := ReachedFrom(cfg, Directory("", [x, y]));
      ps == Reached(cfg, "", x) + Reached(cfg, "", y) || ps == Reached(cfg, "", y) + Reached(cfg, "", x)
  {
    var tree := Directory("", [x, y]);
    ChildrenWithin(tree);
    SortTwo(x, y);
    if SortBy([x, y], NameOf) == [x, y] {
      ListedTwo(cfg, "", x, y, Height(tree) - 1);
    } else {
      ListedTwo(cfg, "", y, x, Height(tree) - 1);
    }
  }

  lemma IncludedTwo(v: WalkEntry, w: WalkEntry)
    ensures EMPTY.(included := [v]).Append(EMPTY.(included := [w])) == EMPTY.(included := [v, w])
  {}

  lemma CollidingPlaces(cfg: Config, a: string, b: string)
    requires IgnoresNothing(cfg) && a != ""
    ensures var r := Places(cfg, Colliding(a, b));
      var x, y := Found(a + "/" + b, b, 0, 0), Found(a + "\\" + b, a + "\\" + b, 0, 0);
      r == EMPTY.(included := [x, y]) || r == EMPTY.(included := [y, x])
  {
    DirectoryWalked(cfg, a, b);
    FileIncluded(cfg, "", a + "\\" + b);
    TwoEntries(cfg, Directory(a, [File(b)]), File(a + "\\" + b));
    var x, y := Found(a + "/" + b, b, 0, 0), Found(a + "\\" + b, a + "\\" + b, 0, 0);
    IncludedTwo(x, y);
    IncludedTwo(y, x);
  }

  lemma CollidingReached(cfg: Config, a: string, b: string)
    requires IgnoresNothing(cfg) && a != ""
    ensures forall p :: p in ReachedFrom(cfg, Colliding(a, b)) <==> p == a || p == a + "/" + b || p == a + "\\" + b
  {
    DirectoryWalked(cfg, a, b);
    FileIncluded(cfg, "", a + "\\" + b);
    TwoEntries(cfg, Directory(a, [File(b)]), File(a + "\\" + b));
  }

  lemma CollidingShown(cfg: Config, a: string, b: string)
    requires RootOk(cfg) && IsName(a) && IsName(b)
    ensures Locate(cfg.root, a) == Got(a) && Locate(cfg.root, a + "/" + b) == Got(a + "/" + b)
    ensures Locate(cfg.root, a + "\\" + b) == Got(a + "/" + b) && a + "\\" + b != a + "/" + b
  {
    CanonicalPair(a, b);
    CanonicalShown(cfg, a);
    CanonicalShown(cfg, a + "/" + b);
    BackslashLocated(cfg.root, a, b);
    assert (a + "/" + b)[|a|] != (a + "\\" + b)[|a|];
  }

  /** Both files are reported under one path: the walk includes it twice. */
  lemma SamePathTwice(cfg: Config, a: string, b: string)
    requires RootOk(cfg) && IgnoresNothing(cfg) && IsName(a) && IsName(b)
    ensures var tree := Colliding(a, b);
      && GoodNames(tree) && Completes(cfg, tree) && !Unambiguous(cfg, tree)
      && IncludedPaths(Walked(cfg, tree).included) == [a + "/" + b, a + "/" + b]
  {
    CollidingNames(a, b);
    CollidingShown(cfg, a, b);
    CollidingReached(cfg, a, b);
    var slash, back := a + "/" + b, a + "\\" + b;
    assert slash in ReachedFrom(cfg, Colliding(a, b)) && back in ReachedFrom(cfg, Colliding(a, b));
    assert Shown(cfg, slash) == Shown(cfg, back);
    CollidingPlaces(cfg, a, b);
    ShowTwo(cfg, Found(slash, b, 0, 0), Found(back, back, 0, 0), slash);
    ShowTwo(cfg, Found(back, back, 0, 0), Found(slash, b, 0, 0), slash);
  }

  lemma ShowTwo(cfg: Config, v: WalkEntry, w: WalkEntry, p: string)
    requires Shown(cfg, v.path) == p && Shown(cfg, w.path) == p
    ensures IncludedPaths(Show(cfg, EMPTY.(included := [v, w])).included) == [p, p]
  {}

  /** A policy that ignores the directory `a` and nothing else. */
  ghost predicate IgnoresDirectory(cfg: Config, a: string) {
    forall q :: cfg.ignore(q) <==> q.path == a && q.isDirectory
  }

  lemma DirectoryIgnored(cfg: Config, a: string, b: string)
    requires RootOk(cfg) && IgnoresDirectory(cfg, a) && IsName(a) && IsName(b)
    ensures Visit(cfg, "", Directory(a, [File(b)])) == EMPTY.(ignored := [IgnoredRef(a, true)])
    ensures var f := File(a + "\\" + b); Visit(cfg, "", f) == EMPTY.(included := [Found(f.name, f.name, 0, 0)])
  {
    CollidingShown(cfg, a, b);
    var d := Directory(a, [File(b)]);
    assert cfg.ignore(FirstQuery(cfg, "", d, d.stat.value));
  }

  lemma OneOfEach(x: IgnoredRef, w: WalkEntry)
    ensures EMPTY.(ignored := [x]).Append(EMPTY.(included := [w])) == WalkResult([w], [x], [])
    ensures EMPTY.(included := [w]).Append(EMPTY.(ignored := [x])) == WalkResult([w], [x], [])
  {}

  lemma HiddenPlaces(cfg: Config, a: string, b: string)
    requires RootOk(cfg) && IgnoresDirectory(cfg, a) && IsName(a) && IsName(b)
    ensures var name := a + "\\" + b;
      Places(cfg, Colliding(a, b)) == WalkResult([Found(name, name, 0, 0)], [IgnoredRef(a, true)], [])
  {
    var d, f := Directory(a, [File(b)]), File(a + "\\" + b);
    DirectoryIgnored(cfg, a, b);
    OneOfEach(IgnoredRef(a, true), Found(f.name, f.name, 0, 0));
    TwoEntries(cfg, d, f);
  }

  /** The file beside an ignored directory is included under a path inside that directory. */
  lemma IncludedUnderIgnored(cfg: Config, a: string, b: string)
    requires RootOk(cfg) && IgnoresDirectory(cfg, a) && IsName(a) && IsName(b)
    ensures var r := Walked(cfg, Colliding(a, b));
      IncludedPaths(r.included) == [a + "/" + b] && IsCurrentlyIgnored(a + "/" + b, r.ignored)
  {
    HiddenPlaces(cfg, a, b);
    CollidingShown(cfg, a, b);
    var r := Walked(cfg, Colliding(a, b));
    assert r.ignored == [IgnoredRef(a, true)];
    assert Hides(r.ignored[0], a + "/" + b);
  }

  // ---------------------------------------------------------------- a link beside a directory

  /** A link whose name is `a`, a backslash and `b`, beside the directory `a` that holds `b`. */
  function Linked(a: string, b: string): Entry {
    Directory("", [Directory(a, [File(b)]), Link(a + "\\" + b)])
  }

  function Link(name: string): Entry {
    Entry(name, true, Got(Stat(false, true, 0, 0)), Unlisted, Failed)
  }

  /** Links are ignored, whatever they are called. */
  ghost predicate IgnoresLinks(cfg: Config) {
    forall q: Query :: q.isSymlink ==> cfg.ignore(q)
  }

  lemma LinkIgnored(cfg: Config, name: string)
    requires IgnoresLinks(cfg)
    ensures Visit(cfg, "", Link(name)) == EMPTY.(ignored := [IgnoredRef(name, false)])
    ensures Reached(cfg, "", Link(name)) == [name]
  {
    var l := Link(name);
    assert cfg.ignore(FirstQuery(cfg, "", l, l.stat.value));
  }

  lemma LinkedPlaces(cfg: Config, a: string, b: string)
    requires IgnoresLinks(cfg) && a != "" && Passes(cfg, Shown(cfg, a)) && Passes(cfg, Shown(cfg, a + "/" + b))
    ensures Places(cfg, Linked(a, b)) == WalkResult([Found(a + "/" + b, b, 0, 0)], [IgnoredRef(a + "\\" + b, false)], [])
    ensures forall p :: p in ReachedFrom(cfg, Linked(a, b)) <==> p == a || p == a + "/" + b || p == a + "\\" + b
  {
    DirectoryWalked(cfg, a, b);
    LinkIgnored(cfg, a + "\\" + b);
    OneOfEach(IgnoredRef(a + "\\" + b, false), Found(a + "/" + b, b, 0, 0));
    TwoEntries(cfg, Directory(a, [File(b)]), Link(a + "\\" + b));
  }

  /** One path is both included and ignored. */
  lemma IncludedAndIgnored(cfg: Config, a: string, b: string)
    requires RootOk(cfg) && IsName(a) && IsName(b)
    requires IgnoresLinks(cfg) && Passes(cfg, a) && Passes(cfg, a + "/" + b)
    ensures var p := a + "/" + b;
      Completes(cfg, Linked(a, b)) && Walked(cfg, Linked(a, b)) == WalkResult([Found(p, b, 0, 0)], [IgnoredRef(p, false)], [])
  {
    CollidingShown(cfg, a, b);
    LinkedPlaces(cfg, a, b);
  }

  // ---------------------------------------------------------------- one file

  /** A root with one file in it. */
  function Single(name: string): Entry {
    Directory("", [File(name)])
  }

  /** A file is come to, whatever the policy says. */
  lemma SingleReached(cfg: Config, name: string)
    ensures ReachedFrom(cfg, Single(name)) == [name]
  {
    var tree := Single(name);
    ChildrenWithin(tree);
    SortOne(File(name));
    ListedOne(cfg, "", File(name), Height(tree) - 1);
    assert Reached(cfg, "", File(name)) == [name];
  }

  lemma SingleWalked(cfg: Config, name: string)
    requires RootOk(cfg) && IgnoresNothing(cfg) && IsName(name)
    ensures RootReadable(Single(name)) && GoodNames(Single(name)) && PortableNames(Single(name))
    ensures Walked(cfg, Single(name)) == EMPTY.(included := [Found(name, name, 0, 0)])
  {
    var tree := Single(name);
    assert NamesOk([File(name)]);
    PortableWalk(cfg, tree);
    ChildrenWithin(tree);
    SortOne(File(name));
    ListedOne(cfg, "", File(name), Height(tree) - 1);
    FileIncluded(cfg, "", name);
  }

  // ---------------------------------------------------------------- places outside the root

  lemma UpSegments(name: string)
    requires IsName(name)
    ensures Split(Replace("..\\" + name, '\\', '/')) == ["..", name]
  {
    forall i | 0 <= i < |name| ensures name[i] != '\\' { assert name[i] in name; }
    assert Replace("..\\" + name, '\\', '/') == ".." + "/" + name;
    SplitAppend("..", name);
    SplitSegment("..");
    SplitSegment(name);
  }

  lemma UpResolved(root: seq<string>, name: string)
    requires root != [] && (forall s :: s in root ==> GoodSegment(s)) && GoodSegment(name)
    ensures ResolveDots(root + ["..", name], [], false) == root[..|root| - 1] + [name]
  {
    var n := |root| - 1;
    ResolveAppend(root, ["..", name], [], false);
    ResolveGood(root, [], false);
    var none: seq<string> := [];
    assert none + root == root;
    assert root[n] in root && root[n] != "..";
    assert ["..", name][1..] == [name];
    ResolveGood([name], root[..n], false);
  }

  /** A root file named `..`, a backslash and a name is outside, unless the root itself has that name: then it is the empty path. */
  lemma UpAndOver(cfg: Config, name: string)
    requires RootOk(cfg) && IsName(name)
    ensures Locate(cfg.root, "..\\" + name) == if cfg.root[|cfg.root| - 1] == name then Got("") else Failed
  {
    UpSegments(name);
    UpResolved(cfg.root, name);
    var n := |cfg.root| - 1;
    var full := cfg.root[..n] + [name];
    assert full[n] == name && |full| == |cfg.root|;
    assert cfg.root == cfg.root[..n] + [cfg.root[n]];
  }

  /** A root with one file called `..`, a backslash and a name cannot be walked, unless the root itself has that name. */
  lemma UpAndOverThrows(cfg: Config, name: string, before: seq<ScanError>)
    requires RootOk(cfg) && IsName(name)
    ensures var file := "..\\" + name;
      WalkRepository(cfg, Single(file), before).Failed? <==> cfg.root[|cfg.root| - 1] != name
  {
    var file := "..\\" + name;
    SingleReached(cfg, file);
    assert file in [file];
    UpAndOver(cfg, name);
  }

  /** In the root of the file system itself every ordinary entry counts as outside. */
  lemma NothingInsideSlash(p: string)
    requires Canonical(p)
    ensures Locate([], p).Failed?
  {
    SplitNoBackslash(p);
    forall i | 0 <= i < |p| ensures p[i] != '\\' { assert p[i] in p; }
    assert Replace(p, '\\', '/') == p;
    var none: seq<string> := [];
    assert none + Split(p) == Split(p);
    ResolveGood(Split(p), [], false);
  }
}
