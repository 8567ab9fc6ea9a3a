/**
 The repository walk over a finite tree in which every read may fail.  The walk goes
 from place to place, a place being the names from the root to an entry, and reports
 each place under the repository path that it is rewritten to.
 */
module Walk {
  import opened Ordering
  import opened Paths

  datatype Read<+T> = Failed | Got(value: T)

  datatype Stat = Stat(isDirectory: bool, isSymlink: bool, size: nat, mtime: int)

  /** What the file reader answers for one directory entry. */
  datatype Entry = Entry(name: string, direntSymlink: bool, stat: Read<Stat>, listing: Listing, head: Read<string>)

  datatype Listing = Unlisted | Listed(entries: seq<Entry>)

  /** A question to the ignore policy; the head is known only the second time a file is asked about. */
  datatype Query = Query(path: string, basename: string, isDirectory: bool, isSymlink: bool, size: nat, head: Read<string>)

  /** The segments of the root's own path, and the ignore policy. */
  datatype Config = Config(root: seq<string>, ignore: Query -> bool)

  datatype WalkEntry = Found(path: string, basename: string, size: nat, mtime: int)

  datatype IgnoredRef = IgnoredRef(path: string, isDirectory: bool)

  datatype Stage = WalkStage | ReadStage | HashStage

  datatype ScanError = ScanError(path: string, stage: Stage)

  datatype WalkResult = WalkResult(included: seq<WalkEntry>, ignored: seq<IgnoredRef>, errors: seq<ScanError>) {
    function Append(that: WalkResult): WalkResult {
      WalkResult(included + that.included, ignored + that.ignored, errors + that.errors)
    }
  }

  const EMPTY := WalkResult([], [], [])

  /** The place of an entry: its names from the root on, as they are. */
  function EntryPath(dir: string, e: Entry): string {
    if dir == "" then e.name else dir + "/" + e.name
  }

  /**
   The repository path of a place.  A backslash in it counts as a separator, so that its
   dots are resolved too; a place that then lies outside the root has none.  Nothing
   but the root itself counts as inside the file system's own root.
   */
  function Locate(root: seq<string>, place: string): Read<string> {
    var full := ResolveDots(root + Split(Replace(place, '\\', '/')), [], false);
    if full == root then Got("")
    else if root != [] && root <= full then Got(Join(full[|root|..]))
    else Failed
  }

  /** The path under which a place is reported. */
  function Shown(cfg: Config, place: string): string {
    var path := Locate(cfg.root, place);
    if path.Got? then path.value else place
  }

  /** A result over places, reported. */
  function Show(cfg: Config, r: WalkResult): WalkResult {
    WalkResult(
      seq(|r.included|, i requires 0 <= i < |r.included| => r.included[i].(path := Shown(cfg, r.included[i].path))),
      seq(|r.ignored|, i requires 0 <= i < |r.ignored| => r.ignored[i].(path := Shown(cfg, r.ignored[i].path))),
      seq(|r.errors|, i requires 0 <= i < |r.errors| => r.errors[i].(path := Shown(cfg, r.errors[i].path))))
  }

  lemma ShowAppend(cfg: Config, a: WalkResult, b: WalkResult)
    ensures Show(cfg, a.Append(b)) == Show(cfg, a).Append(Show(cfg, b))
  {}

  function NameOf(e: Entry): string { e.name }

  // ---------------------------------------------------------------- height of the tree

  function Height(e: Entry): nat
    decreases e, 0
  {
    if e.listing.Unlisted? then 0 else 1 + MaxHeight(e, |e.listing.entries|)
  }

  /** The greatest height among the first `n` children. */
  function MaxHeight(e: Entry, n: nat): nat
    requires e.listing.Listed? && n <= |e.listing.entries|
    decreases e, 0, n
  {
    if n == 0 then 0
    else
      var rest, last := MaxHeight(e, n - 1), Height(e.listing.entries[n - 1]);
      if last > rest then last else rest
  }

  lemma {:induction false} MaxHeightIsMax(e: Entry, n: nat, i: nat)
    requires e.listing.Listed? && i < n <= |e.listing.entries|
    ensures Height(e.listing.entries[i]) <= MaxHeight(e, n)
  {
    if i < n - 1 {
      MaxHeightIsMax(e, n - 1, i);
    }
  }

  ghost predicate Within(es: seq<Entry>, h: nat) {
    forall e :: e in es ==> Height(e) <= h
  }

  lemma ChildrenWithin(e: Entry)
    requires e.listing.Listed?
    ensures Height(e) > 0 && Within(SortBy(e.listing.entries, NameOf), Height(e) - 1)
  {
    SortByOk(e.listing.entries, NameOf);
    forall c | c in e.listing.entries ensures Height(c) < Height(e) {
      var i :| 0 <= i < |e.listing.entries| && e.listing.entries[i] == c;
      MaxHeightIsMax(e, |e.listing.entries|, i);
    }
  }

  // ---------------------------------------------------------------- the walk as a function

  function FirstQuery(cfg: Config, dir: string, e: Entry, st: Stat): Query {
    Query(Shown(cfg, EntryPath(dir, e)), e.name, st.isDirectory, e.direntSymlink || st.isSymlink, st.size, Failed)
  }

  function HeadQuery(cfg: Config, dir: string, e: Entry, st: Stat, head: string): Query {
    Query(Shown(cfg, EntryPath(dir, e)), e.name, false, false, st.size, Got(head))
  }

  /** The walk goes on to list this entry. */
  predicate Descends(cfg: Config, dir: string, e: Entry) {
    e.stat.Got? && !cfg.ignore(FirstQuery(cfg, dir, e, e.stat.value)) && e.stat.value.isDirectory
  }

  /** What one entry contributes when it is not a directory that gets listed. */
  function Leaf(cfg: Config, dir: string, e: Entry): WalkResult {
    var p := EntryPath(dir, e);
    if e.stat.Failed? then EMPTY.(errors := [ScanError(p, WalkStage)])
    else if cfg.ignore(FirstQuery(cfg, dir, e, e.stat.value)) then EMPTY.(ignored := [IgnoredRef(p, e.stat.value.isDirectory)])
    else if e.stat.value.isDirectory then EMPTY.(errors := [ScanError(p, WalkStage)])
    else if e.head.Failed? then EMPTY.(errors := [ScanError(p, ReadStage)])
    else if cfg.ignore(HeadQuery(cfg, dir, e, e.stat.value, e.head.value)) then EMPTY.(ignored := [IgnoredRef(p, false)])
    else EMPTY.(included := [Found(p, e.name, e.stat.value.size, e.stat.value.mtime)])
  }

  ghost function Visit(cfg: Config, dir: string, e: Entry): WalkResult
    decreases Height(e), 0
  {
    if Descends(cfg, dir, e) && e.listing.Listed? then
      ChildrenWithin(e);
      VisitAll(cfg, EntryPath(dir, e), SortBy(e.listing.entries, NameOf), Height(e) - 1)
    else Leaf(cfg, dir, e)
  }

  ghost function VisitAll(cfg: Config, dir: string, es: seq<Entry>, h: nat): WalkResult
    requires Within(es, h)
    decreases h, |es| + 1
  {
    if es == [] then EMPTY
    else VisitAll(cfg, dir, es[..|es| - 1], h).Append(Visit(cfg, dir, es[|es| - 1]))
  }

  /** The walk below a root that could be listed, over places; root entries have no directory before them. */
  ghost function Places(cfg: Config, root: Entry): WalkResult
    requires root.listing.Listed?
  {
    ChildrenWithin(root);
    VisitAll(cfg, "", SortBy(root.listing.entries, NameOf), Height(root) - 1)
  }

  ghost function Walked(cfg: Config, root: Entry): WalkResult
    requires root.listing.Listed?
  {
    Show(cfg, Places(cfg, root))
  }

  predicate RootReadable(root: Entry) {
    root.stat.Got? && root.stat.value.isDirectory && root.listing.Listed?
  }

  /** Every place has a repository path. */
  ghost predicate AllInside(cfg: Config, places: seq<string>) {
    forall p :: p in places ==> Locate(cfg.root, p).Got?
  }

  /** The walk does not throw: the root can be listed and no reached place lies outside it. */
  ghost predicate Completes(cfg: Config, root: Entry) {
    RootReadable(root) && AllInside(cfg, ReachedFrom(cfg, root))
  }

  ghost function WalkRepository(cfg: Config, root: Entry, before: seq<ScanError>): Read<WalkResult> {
    if Completes(cfg, root) then Got(EMPTY.(errors := before).Append(Walked(cfg, root))) else Failed
  }

  lemma AppendAssoc(a: WalkResult, b: WalkResult, c: WalkResult)
    ensures a.Append(b).Append(c) == a.Append(b.Append(c))
    ensures a.Append(EMPTY) == a
  {}

  lemma WalkSnoc(cfg: Config, dir: string, es: seq<Entry>, h: nat, i: nat)
    requires Within(es, h) && i < |es|
    ensures Show(cfg, VisitAll(cfg, dir, es[..i + 1], h)) ==
            Show(cfg, VisitAll(cfg, dir, es[..i], h)).Append(Show(cfg, Visit(cfg, dir, es[i])))
    ensures AllInside(cfg, ReachedAll(cfg, dir, es[..i + 1], h)) <==>
            AllInside(cfg, ReachedAll(cfg, dir, es[..i], h)) && AllInside(cfg, Reached(cfg, dir, es[i]))
  {
    assert es[..i + 1][..i] == es[..i];
    ShowAppend(cfg, VisitAll(cfg, dir, es[..i], h), Visit(cfg, dir, es[i]));
    InsideAppend(cfg, ReachedAll(cfg, dir, es[..i], h), Reached(cfg, dir, es[i]));
  }

  lemma InsideAppend(cfg: Config, ps: seq<string>, qs: seq<string>)
    ensures AllInside(cfg, ps + qs) <==> AllInside(cfg, ps) && AllInside(cfg, qs)
  {
    assert forall p :: p in ps ==> p in ps + qs;
    assert forall p :: p in qs ==> p in ps + qs;
  }

  /** A place outside the root is not made good by what comes after it. */
  lemma {:induction false} OutsideStays(cfg: Config, dir: string, es: seq<Entry>, h: nat, i: nat)
    requires Within(es, h) && i <= |es| && !AllInside(cfg, ReachedAll(cfg, dir, es[..i], h))
    ensures !AllInside(cfg, ReachedAll(cfg, dir, es, h))
    decreases |es| - i
  {
    if i < |es| {
      WalkSnoc(cfg, dir, es, h, i);
      OutsideStays(cfg, dir, es, h, i + 1);
    } else {
      assert es[..i] == es;
    }
  }

  /** A listed directory is as its entries are. */
  lemma ListedParts(cfg: Config, dir: string, e: Entry)
    requires Descends(cfg, dir, e) && e.listing.Listed?
    ensures Height(e) > 0 && Within(SortBy(e.listing.entries, NameOf), Height(e) - 1)
    ensures var p, es, h := EntryPath(dir, e), SortBy(e.listing.entries, NameOf), Height(e) - 1;
      && Visit(cfg, dir, e) == VisitAll(cfg, p, es, h)
      && Reached(cfg, dir, e) == [p] + ReachedAll(cfg, p, es, h)
      && ListedDirs(cfg, dir, e) == [p] + ListedAll(cfg, p, es, h)
  {
    ChildrenWithin(e);
  }

  lemma ListedShown(cfg: Config, dir: string, e: Entry)
    requires Descends(cfg, dir, e) && e.listing.Listed? && Locate(cfg.root, EntryPath(dir, e)).Got?
    ensures Height(e) > 0 && Within(SortBy(e.listing.entries, NameOf), Height(e) - 1)
    ensures var p, es, h := EntryPath(dir, e), SortBy(e.listing.entries, NameOf), Height(e) - 1;
      && Show(cfg, Visit(cfg, dir, e)) == Show(cfg, VisitAll(cfg, p, es, h))
      && (AllInside(cfg, Reached(cfg, dir, e)) <==> AllInside(cfg, ReachedAll(cfg, p, es, h)))
  {
    ListedParts(cfg, dir, e);
    InsideAppend(cfg, [EntryPath(dir, e)], ReachedAll(cfg, EntryPath(dir, e), SortBy(e.listing.entries, NameOf), Height(e) - 1));
  }

  lemma UnlistedShown(cfg: Config, dir: string, e: Entry)
    requires Descends(cfg, dir, e) && e.listing.Unlisted? && Locate(cfg.root, EntryPath(dir, e)).Got?
    ensures Show(cfg, Visit(cfg, dir, e)) == EMPTY.(errors := [ScanError(Shown(cfg, EntryPath(dir, e)), WalkStage)])
    ensures AllInside(cfg, Reached(cfg, dir, e))
  {}

  // ---------------------------------------------------------------- the walk as it runs

  class Walker {
    const cfg: Config
    var included: seq<WalkEntry>
    var ignored: seq<IgnoredRef>
    var errors: seq<ScanError>

    constructor (cfg: Config, errors: seq<ScanError>)
      ensures this.cfg == cfg && Result() == EMPTY.(errors := errors)
    {
      this.cfg := cfg;
      this.included, this.ignored, this.errors := [], [], errors;
    }

    function Result(): WalkResult
      reads this
    {
      WalkResult(included, ignored, errors)
    }

    method ApplyIgnoreDecision(q: Query) returns (ignoredNow: bool)
      modifies this
      ensures ignoredNow == cfg.ignore(q)
      ensures Result() == old(Result()).Append(if ignoredNow then EMPTY.(ignored := [IgnoredRef(q.path, q.isDirectory)]) else EMPTY)
    {
      ignoredNow := cfg.ignore(q);
      if ignoredNow {
        ignored := ignored + [IgnoredRef(q.path, q.isDirectory)];
      }
    }

    method ReportError(p: string, stage: Stage)
      modifies this
      ensures Result() == old(Result()).Append(EMPTY.(errors := [ScanError(p, stage)]))
    {
      errors := errors + [ScanError(p, stage)];
    }

    /** `ok` is false when the walk throws: some place at or below the entry lies outside the root. */
    method WalkEntry(dir: string, e: Entry) returns (ok: bool)
      modifies this
      ensures ok <==> AllInside(cfg, Reached(cfg, dir, e))
      ensures ok ==> Result() == old(Result()).Append(Show(cfg, Visit(cfg, dir, e)))
      decreases Height(e), 0, 1
    {
      assert EntryPath(dir, e) in Reached(cfg, dir, e);
      if Locate(cfg.root, EntryPath(dir, e)).Failed? {
        return false;
      }
      if e.stat.Failed? {
        ReportError(Shown(cfg, EntryPath(dir, e)), WalkStage);
        return true;
      }
      var pathIgnored := ApplyIgnoreDecision(FirstQuery(cfg, dir, e, e.stat.value));
      if pathIgnored {
        return true;
      }
      AppendAssoc(old(Result()), EMPTY, EMPTY);
      if e.stat.value.isDirectory {
        ok := WalkDirectory(dir, e);
      } else {
        WalkFile(dir, e);
        ok := true;
      }
    }

    method WalkDirectory(dir: string, e: Entry) returns (ok: bool)
      requires Descends(cfg, dir, e) && Locate(cfg.root, EntryPath(dir, e)).Got?
      modifies this
      ensures ok <==> AllInside(cfg, Reached(cfg, dir, e))
      ensures ok ==> Result() == old(Result()).Append(Show(cfg, Visit(cfg, dir, e)))
      decreases Height(e), 0, 0
    {
      var p := EntryPath(dir, e);
      if e.listing.Unlisted? {
        UnlistedShown(cfg, dir, e);
        ReportError(Shown(cfg, p), WalkStage);
        return true;
      }
      ListedShown(cfg, dir, e);
      var es := SortBy(e.listing.entries, NameOf);
      ghost var h := Height(e) - 1;
      ok := WalkEntries(p, es, h);
    }

    method WalkFile(dir: string, e: Entry)
      requires e.stat.Got? && !cfg.ignore(FirstQuery(cfg, dir, e, e.stat.value)) && !e.stat.value.isDirectory
      modifies this
      ensures Result() == old(Result()).Append(Show(cfg, Leaf(cfg, dir, e)))
    {
      var p := Shown(cfg, EntryPath(dir, e));
      if e.head.Failed? {
        ReportError(p, ReadStage);
        return;
      }
      var headIgnored := ApplyIgnoreDecision(HeadQuery(cfg, dir, e, e.stat.value, e.head.value));
      if !headIgnored {
        included := included + [Found(p, e.name, e.stat.value.size, e.stat.value.mtime)];
      }
    }

    method WalkEntries(dir: string, es: seq<Entry>, ghost h: nat) returns (ok: bool)
      requires Within(es, h)
      modifies this
      ensures ok <==> AllInside(cfg, ReachedAll(cfg, dir, es, h))
      ensures ok ==> Result() == old(Result()).Append(Show(cfg, VisitAll(cfg, dir, es, h)))
      decreases h, |es| + 1
    {
      var i := 0;
      while i < |es|
        invariant 0 <= i <= |es|
        invariant AllInside(cfg, ReachedAll(cfg, dir, es[..i], h))
        invariant Result() == old(Result()).Append(Show(cfg, VisitAll(cfg, dir, es[..i], h)))
      {
        WalkSnoc(cfg, dir, es, h, i);
        ghost var before := Show(cfg, VisitAll(cfg, dir, es[..i], h));
        var inside := WalkEntry(dir, es[i]);
        if !inside {
          OutsideStays(cfg, dir, es, h, i + 1);
          return false;
        }
        AppendAssoc(old(Result()), before, Show(cfg, Visit(cfg, dir, es[i])));
        i := i + 1;
      }
      assert es[..i] == es;
      return true;
    }
  }

  /** The whole walk; it throws exactly if it does not complete. */
  method RunWalk(cfg: Config, root: Entry, before: seq<ScanError>) returns (result: Read<WalkResult>)
    ensures result == WalkRepository(cfg, root, before)
  {
    if !RootReadable(root) {
      return Failed;
    }
    var walker := new Walker(cfg, before);
    ChildrenWithin(root);
    var ok := walker.WalkEntries("", SortBy(root.listing.entries, NameOf), Height(root) - 1);
    return if ok then Got(walker.Result()) else Failed;
  }

  // ---------------------------------------------------------------- what the walk reaches

  /** The places the walk comes to: an entry, and the entries of a directory it lists. */
  ghost function Reached(cfg: Config, dir: string, e: Entry): seq<string>
    decreases Height(e), 0
  {
    [EntryPath(dir, e)]
    + if Descends(cfg, dir, e) && e.listing.Listed? then
        ChildrenWithin(e);
        ReachedAll(cfg, EntryPath(dir, e), SortBy(e.listing.entries, NameOf), Height(e) - 1)
      else []
  }

  ghost function ReachedAll(cfg: Config, dir: string, es: seq<Entry>, h: nat): seq<string>
    requires Within(es, h)
    decreases h, |es| + 1
  {
    if es == [] then []
    else ReachedAll(cfg, dir, es[..|es| - 1], h) + Reached(cfg, dir, es[|es| - 1])
  }

  /** The directories whose entries the walk got. */
  ghost function ListedDirs(cfg: Config, dir: string, e: Entry): seq<string>
    decreases Height(e), 0
  {
    if Descends(cfg, dir, e) && e.listing.Listed? then
      ChildrenWithin(e);
      [EntryPath(dir, e)] + ListedAll(cfg, EntryPath(dir, e), SortBy(e.listing.entries, NameOf), Height(e) - 1)
    else []
  }

  ghost function ListedAll(cfg: Config, dir: string, es: seq<Entry>, h: nat): seq<string>
    requires Within(es, h)
    decreases h, |es| + 1
  {
    if es == [] then []
    else ListedAll(cfg, dir, es[..|es| - 1], h) + ListedDirs(cfg, dir, es[|es| - 1])
  }

  ghost function ReachedFrom(cfg: Config, root: Entry): seq<string>
    requires root.listing.Listed?
  {
    ChildrenWithin(root);
    ReachedAll(cfg, "", SortBy(root.listing.entries, NameOf), Height(root) - 1)
  }

  ghost function ListedFrom(cfg: Config, root: Entry): seq<string>
    requires root.listing.Listed?
  {
    ChildrenWithin(root);
    ListedAll(cfg, "", SortBy(root.listing.entries, NameOf), Height(root) - 1)
  }

  function IncludedPaths(ws: seq<WalkEntry>): seq<string> {
    seq(|ws|, i requires 0 <= i < |ws| => ws[i].path)
  }

  function IgnoredPaths(rs: seq<IgnoredRef>): seq<string> {
    seq(|rs|, i requires 0 <= i < |rs| => rs[i].path)
  }

  function ErrorPaths(xs: seq<ScanError>): seq<string> {
    seq(|xs|, i requires 0 <= i < |xs| => xs[i].path)
  }

  /** Every path the result mentions, as often as it does. */
  function Mentioned(r: WalkResult): multiset<string> {
    multiset(IncludedPaths(r.included)) + multiset(IgnoredPaths(r.ignored)) + multiset(ErrorPaths(r.errors))
  }

  lemma MentionedAppend(a: WalkResult, b: WalkResult)
    ensures Mentioned(a.Append(b)) == Mentioned(a) + Mentioned(b)
  {
    assert IncludedPaths(a.included + b.included) == IncludedPaths(a.included) + IncludedPaths(b.included);
    assert IgnoredPaths(a.ignored + b.ignored) == IgnoredPaths(a.ignored) + IgnoredPaths(b.ignored);
    assert ErrorPaths(a.errors + b.errors) == ErrorPaths(a.errors) + ErrorPaths(b.errors);
  }

  lemma LeafMentions(cfg: Config, dir: string, e: Entry)
    ensures Mentioned(Leaf(cfg, dir, e)) == multiset{EntryPath(dir, e)}
  {
    var p, r := EntryPath(dir, e), Leaf(cfg, dir, e);
    assert IncludedPaths(r.included) + IgnoredPaths(r.ignored) + ErrorPaths(r.errors) == [p];
    assert multiset([p]) == multiset{p};
    assert Mentioned(r) == multiset(IncludedPaths(r.included) + IgnoredPaths(r.ignored) + ErrorPaths(r.errors));
  }

  lemma AccountedBelow(p: string, reached: seq<string>, mentioned: multiset<string>, listed: seq<string>)
    requires multiset(reached) == mentioned + multiset(listed)
    ensures multiset([p] + reached) == mentioned + multiset([p] + listed)
  {}

  /** Every reached entry is included, ignored, errored or listed, and nothing else is mentioned. */
  lemma {:induction false} Accounted(cfg: Config, dir: string, e: Entry)
    ensures multiset(Reached(cfg, dir, e)) == Mentioned(Visit(cfg, dir, e)) + multiset(ListedDirs(cfg, dir, e))
    decreases Height(e), 0
  {
    if Descends(cfg, dir, e) && e.listing.Listed? {
      var p, es, h := EntryPath(dir, e), SortBy(e.listing.entries, NameOf), Height(e) - 1;
      ListedParts(cfg, dir, e);
      AccountedAll(cfg, p, es, h);
      AccountedBelow(p, ReachedAll(cfg, p, es, h), Mentioned(VisitAll(cfg, p, es, h)), ListedAll(cfg, p, es, h));
    } else {
      LeafMentions(cfg, dir, e);
      assert Reached(cfg, dir, e) == [EntryPath(dir, e)];
    }
  }

  lemma {:induction false} AccountedAll(cfg: Config, dir: string, es: seq<Entry>, h: nat)
    requires Within(es, h)
    ensures multiset(ReachedAll(cfg, dir, es, h)) ==
            Mentioned(VisitAll(cfg, dir, es, h)) + multiset(ListedAll(cfg, dir, es, h))
    decreases h, |es| + 1
  {
    if es != [] {
      var n := |es| - 1;
      AccountedAll(cfg, dir, es[..n], h);
      Accounted(cfg, dir, es[n]);
      MentionedAppend(VisitAll(cfg, dir, es[..n], h), Visit(cfg, dir, es[n]));
    }
  }
}
