/**
 Specifiers that lead outside the repository: which ones they are, and that they resolve
 to nothing, with one exception.
 */
module ImportOutside {
  import opened Wrappers
  import opened Paths
  import opened ImportResolver

  // ---------------------------------------------------------------- leaving the root

  /** Walking the segments from a directory at the given depth goes above the root at some point. */
  predicate LeavesRoot(depth: nat, segs: seq<string>)
    decreases |segs|
  {
    segs != [] &&
    var h, t := segs[0], segs[1..];
    if h == "" || h == "." then LeavesRoot(depth, t)
    else if h != ".." then LeavesRoot(depth + 1, t)
    else depth == 0 || LeavesRoot(depth - 1, t)
  }

  /** The path goes above the root at some point. */
  predicate Outside(p: string) {
    LeavesRoot(0, Split(p))
  }

  lemma {:induction false} ResolveLeaves(segs: seq<string>, acc: seq<string>)
    requires forall s :: s in acc ==> s != ".."
    ensures var r := ResolveDots(segs, acc, true); LeavesRoot(|acc|, segs) <==> r != [] && r[0] == ".."
    decreases |segs|
  {
    if segs == [] {
      assert acc != [] ==> acc[0] in acc;
    } else {
      var h, t := segs[0], segs[1..];
      if h == "" || h == "." {
        ResolveLeaves(t, acc);
      } else if h != ".." {
        ResolveLeaves(t, acc + [h]);
      } else if acc != [] {
        assert acc[|acc| - 1] in acc;
        var init := acc[..|acc| - 1];
        assert forall s :: s in init ==> s in acc;
        ResolveLeaves(t, init);
      } else {
        assert acc + [".."] == [".."];
        ResolveKeepsClimb(t, [".."]);
      }
    }
  }

  /** Ordinary segments only lead deeper. */
  lemma {:induction false} LeavesFrom(segs: seq<string>, more: seq<string>, depth: nat)
    requires forall s :: s in segs ==> GoodSegment(s)
    ensures LeavesRoot(depth, segs + more) <==> LeavesRoot(depth + |segs|, more)
    decreases |segs|
  {
    if segs == [] {
      assert segs + more == more;
    } else {
      assert segs[0] in segs;
      assert forall s :: s in segs[1..] ==> s in segs;
      assert (segs + more)[1..] == segs[1..] + more;
      LeavesFrom(segs[1..], more, depth + 1);
    }
  }

  /** A path that left the root stays outside, whatever follows. */
  lemma {:induction false} LeavesAppend(depth: nat, a: seq<string>, b: seq<string>)
    requires LeavesRoot(depth, a)
    ensures LeavesRoot(depth, a + b)
    decreases |a|
  {
    var h := a[0];
    assert (a + b)[1..] == a[1..] + b;
    if h == "" || h == "." {
      LeavesAppend(depth, a[1..], b);
    } else if h != ".." {
      LeavesAppend(depth + 1, a[1..], b);
    } else if depth > 0 {
      LeavesAppend(depth - 1, a[1..], b);
    }
  }

  lemma OneSegment(depth: nat, s: string)
    ensures LeavesRoot(depth, [s]) <==> s == ".." && depth == 0
  {
    assert [s][1..] == [];
  }

  /** Only a `..` leaves the root. */
  lemma {:induction false} LeavesBefore(depth: nat, a: seq<string>, last: string)
    requires last != ".."
    ensures LeavesRoot(depth, a + [last]) ==> LeavesRoot(depth, a)
    decreases |a|
  {
    if a == [] {
      OneSegment(depth, last);
      assert a + [last] == [last];
    } else {
      var h := a[0];
      assert (a + [last])[1..] == a[1..] + [last];
      if h == "" || h == "." {
        LeavesBefore(depth, a[1..], last);
      } else if h != ".." {
        LeavesBefore(depth + 1, a[1..], last);
      } else if depth > 0 {
        LeavesBefore(depth - 1, a[1..], last);
      }
    }
  }

  lemma CanonicalIsInside(p: string)
    requires Canonical(p)
    ensures !Outside(p)
  {
    LeavesFrom(Split(p), [], 0);
    assert Split(p) + [] == Split(p);
  }

  // ---------------------------------------------------------------- candidates of a path outside

  /** The segments when some text is put at the end of the last one. */
  function Extended(segs: seq<string>, e: string): seq<string>
    requires segs != []
  {
    segs[..|segs| - 1] + [segs[|segs| - 1] + e]
  }

  lemma ExtendedCons(c: char, r: seq<string>, e: string)
    requires r != []
    ensures [""] + Extended(r, e) == Extended([""] + r, e)
    ensures [[c] + Extended(r, e)[0]] + Extended(r, e)[1..] == Extended([[c] + r[0]] + r[1..], e)
  {
    if |r| == 1 {
      assert [c] + (r[0] + e) == [c] + r[0] + e;
    }
  }

  /** Text without a slash goes to the last segment. */
  lemma {:induction false} SplitSuffix(p: string, e: string)
    requires '/' !in e
    ensures Split(p + e) == Extended(Split(p), e)
  {
    if p == "" {
      SplitSegment(e);
      assert p + e == e;
    } else {
      var t := p[1..];
      SplitSuffix(t, e);
      SuffixCons(p[0], t, e);
      assert p == [p[0]] + t && p + e == [p[0]] + (t + e);
    }
  }

  lemma SuffixCons(c: char, t: string, e: string)
    requires Split(t + e) == Extended(Split(t), e)
    ensures Split([c] + (t + e)) == Extended(Split([c] + t), e)
  {
    SplitCons(c, t);
    SplitCons(c, t + e);
    ExtendedCons(c, Split(t), e);
  }

  lemma LeavesAtEnd(front: seq<string>, last: string)
    requires LeavesRoot(0, front + [last]) && forall s :: s in front ==> GoodSegment(s)
    ensures front == [] && last == ".."
  {
    LeavesFrom(front, [last], 0);
    OneSegment(|front|, last);
  }

  /** Of the extensions of a path outside, only those of the parent of the root are canonical. */
  lemma ExtendedOutside(base: string, e: string)
    requires Outside(base) && '/' !in e && Canonical(base + e)
    ensures base == ".."
  {
    SplitSuffix(base, e);
    var n := |Split(base)| - 1;
    var front, last := Split(base)[..n], Split(base)[n];
    assert Split(base) == front + [last];
    forall s | s in front ensures GoodSegment(s) { assert s in Split(base + e); }
    LeavesAtEnd(front, last);
    JoinSplit(base);
  }

  /** What is joined to a path outside is outside, or absolute. */
  lemma IndexEntryOutside(base: string, name: string)
    requires base != "" && Outside(base) && GoodSegment(name) && '/' !in name
    ensures !Canonical(PosixJoin(base, name))
  {
    var p := base + "/" + name;
    SplitAppend(base, name);
    SplitSegment(name);
    if base[0] == '/' {
      AbsoluteNormal(p);
      AbsoluteIsNotCanonical(PosixNormalize(p));
    } else {
      ClimbingSegments(Split(base), name);
      JoinStart(ResolveDots(Split(p), [], true));
      assert p[0] == base[0] && name[|name| - 1] in name && p[|p| - 1] == name[|name| - 1];
      ClimbsIsOutside(PosixNormalize(p));
      if Canonical(PosixNormalize(p)) { CanonicalIsInside(PosixNormalize(p)); }
    }
  }

  lemma AbsoluteNormal(p: string)
    requires p != "" && p[0] == '/'
    ensures PosixNormalize(p) != "" && PosixNormalize(p)[0] == '/'
  {}

  lemma AbsoluteIsNotCanonical(p: string)
    requires p != "" && p[0] == '/'
    ensures !Canonical(p)
  {
    SplitSlashFirst(p);
    assert Split(p)[0] in Split(p);
  }

  lemma ClimbingSegments(segs: seq<string>, name: string)
    requires LeavesRoot(0, segs) && GoodSegment(name)
    ensures var out := ResolveDots(segs + [name], [], true); |out| >= 2 && out[0] == ".."
  {
    ResolveLeaves(segs, []);
    ResolveAppend(segs, [name], [], true);
    ResolveGood([name], ResolveDots(segs, [], true), true);
  }

  lemma JoinStart(segs: seq<string>)
    requires |segs| >= 2 && segs[0] == ".."
    ensures StartsWith(Join(segs), "../")
  {
    assert Join(segs) == "../" + Join(segs[1..]);
  }

  predicate Climbs(base: string) {
    base == ".." || StartsWith(base, "../")
  }

  lemma ClimbsSplit(p: string)
    requires Climbs(p)
    ensures Split(p)[0] == ".."
  {
    SplitSegment("..");
    if p != ".." {
      assert p == ".." + "/" + p[3..];
      SplitAppend("..", p[3..]);
    }
  }

  lemma ClimbsIsOutside(p: string)
    requires Climbs(p)
    ensures Outside(p)
  {
    ClimbsSplit(p);
  }

  /** Source extensions make ordinary names. */
  lemma SourceNames(i: nat)
    requires i < |SUPPORTED_EXTS|
    ensures var name := "index" + SUPPORTED_EXTS[i]; GoodSegment(name) && '/' !in name
    ensures '/' !in SUPPORTED_EXTS[i]
  {
    var name := "index" + SUPPORTED_EXTS[i];
    var e := SUPPORTED_EXTS[i];
    assert e == ".ts" || e == ".tsx" || e == ".js" || e == ".jsx" || e == ".mts" || e == ".cts";
    assert |name| > 2;
    forall c | c in name ensures c != '/' && c != '\\' {
      assert c in "index" || c in e;
    }
    assert forall c :: c in e ==> c in name;
  }

  /** The one candidate that a canonical index can hold: `..` with a source extension. */
  predicate BesideRoot(base: string, c: string) {
    base == ".." && exists i :: 0 <= i < |SUPPORTED_EXTS| && c == ".." + SUPPORTED_EXTS[i]
  }

  lemma BaseCandidateOutside(base: string, c: string)
    requires base != "" && Outside(base) && c in BaseCandidates(base) && Canonical(c)
    ensures BesideRoot(base, c)
  {
    var we, ie := WithExtensions(base, SUPPORTED_EXTS), IndexEntries(base, SUPPORTED_EXTS);
    CanonicalIsInside(c);
    assert c in we || c in ie;
    if c in we {
      var i :| 0 <= i < |we| && we[i] == c;
      SourceNames(i);
      ExtendedOutside(base, SUPPORTED_EXTS[i]);
    } else {
      var i :| 0 <= i < |ie| && ie[i] == c;
      SourceNames(i);
      IndexEntryOutside(base, "index" + SUPPORTED_EXTS[i]);
    }
  }

  /** Taking a script extension off does not bring a path back inside. */
  lemma StemOutside(stem: string, e: string)
    requires Outside(stem + e) && '/' !in e && |e| > 2
    ensures Outside(stem) && stem != ".."
  {
    SplitSuffix(stem, e);
    var n := |Split(stem)| - 1;
    var front, last := Split(stem)[..n], Split(stem)[n];
    assert Split(stem) == front + [last];
    LeavesBefore(0, front, last + e);
    LeavesAppend(0, front, [last]);
    SplitSegment("..");
    assert front != [];
  }

  lemma ScriptExtensions(e: string)
    requires e in JS_SPECIFIER_EXTS
    ensures |e| > 2
  {}

  lemma CandidateOutside(base: string, c: string)
    requires base != "" && Outside(base) && c in Candidates(base) && Canonical(c)
    ensures BesideRoot(base, c)
  {
    if c in BaseCandidates(base) {
      BaseCandidateOutside(base, c);
    } else {
      var e := ExtName(base);
      var stem := base[..|base| - |e|];
      ScriptExtensions(e);
      assert stem + e == base;
      StemOutside(stem, e);
      BaseCandidateOutside(stem, c);
    }
  }

  /**
   A specifier whose path leaves the root at some point is not resolved, with one exception: the
   parent of the root itself, `..`, resolves when a root file has the name `..`
   followed by a source extension.
   */
  lemma OutsideResolvesIff(specifier: string, importer: string, indexed: set<string>)
    requires IsRelative(specifier) && Outside(BaseOf(specifier, importer))
    requires forall p :: p in indexed ==> Canonical(p)
    ensures ResolveTarget(specifier, importer, indexed).FileTarget? <==>
            BaseOf(specifier, importer) == ".." && exists i :: 0 <= i < |SUPPORTED_EXTS| && ".." + SUPPORTED_EXTS[i] in indexed
  {
    var base := BaseOf(specifier, importer);
    ResolveIsFirst(specifier, importer, indexed);
    var r := FirstOf(indexed, Candidates(base));
    if r.Some? {
      CandidateOutside(base, r.value);
    }
    if base == ".." {
      forall i | 0 <= i < |SUPPORTED_EXTS| ensures ".." + SUPPORTED_EXTS[i] in Candidates(base) {
        ExtensionIsCandidate(base, i);
      }
    }
  }

  lemma ExtensionIsCandidate(base: string, i: nat)
    requires i < |SUPPORTED_EXTS|
    ensures base + SUPPORTED_EXTS[i] in Candidates(base)
  {
    assert WithExtensions(base, SUPPORTED_EXTS)[i] in BaseCandidates(base);
  }

  // ---------------------------------------------------------------- more `../` than directories

  /** `../` repeated, then a path. */
  function Climbing(k: nat, rest: string): string {
    if k == 0 then rest else "../" + Climbing(k - 1, rest)
  }

  lemma {:induction false} SplitClimbing(k: nat, rest: string)
    ensures Split(Climbing(k, rest)) == Ups(k) + Split(rest)
  {
    if k > 0 {
      SplitClimbing(k - 1, rest);
      SplitSegment("..");
      SplitAppend("..", Climbing(k - 1, rest));
      assert Climbing(k, rest) == ".." + "/" + Climbing(k - 1, rest);
      assert Ups(k) == [".."] + Ups(k - 1);
    }
  }

  lemma {:induction false} ClimbingEnd(k: nat, rest: string)
    ensures var s := Climbing(k, rest);
      |s| >= |rest| && s[|s| - |rest|..] == rest && (rest == "" && k > 0 ==> s[|s| - 1] == '/') && (k > 0 ==> s != "" && s[0] == '.')
  {
    if k > 0 {
      ClimbingEnd(k - 1, rest);
    }
  }

  /** The segments of the directory that an importer's specifiers are relative to. */
  ghost predicate DirectoryIs(dir: string, segs: seq<string>) {
    (dir == "" && segs == []) || (dir != "" && dir[0] != '/' && Split(dir) == segs)
  }

  /** The directory of a canonical path has all its segments but the last. */
  lemma DirectorySegments(p: string)
    requires Canonical(p)
    ensures var dir := DirectoryOf(p);
      DirectoryIs(if dir == "." then "" else dir, Split(p)[..|Split(p)| - 1])
  {
    var slash := LastIndexOf(p, '/');
    if slash >= 0 {
      var dir, name := p[..slash], p[slash + 1..];
      assert p == dir + "/" + name;
      SplitAppend(dir, name);
      SplitSegment(name);
      SplitSegment(".");
      SplitSegment("");
      SplitSlashFirst(dir);
      assert Split(dir) == Split(p)[..|Split(p)| - 1];
      assert Split(dir)[0] in Split(p);
    } else {
      SplitSegment(p);
    }
  }

  lemma NormalizedForm(p: string, out: string)
    requires p != "" && p[0] != '/' && out != "" && Join(ResolveDots(Split(p), [], true)) == out
    ensures PosixNormalize(p) == if p[|p| - 1] == '/' then out + "/" else out
  {
    DecorateRelative(p[|p| - 1] == '/', out);
  }

  lemma DecorateRelative(trailing: bool, out: string)
    requires out != ""
    ensures Decorate(false, trailing, out) == if trailing then out + "/" else out
  {}

  /** A normalised relative path, given the segments that resolving its dots leaves. */
  lemma NormalizedJoin(p: string, out: seq<string>)
    requires p != "" && p[0] != '/' && ResolveDots(Split(p), [], true) == out
    requires Plain(out) && forall s :: s in out ==> '/' !in s
    ensures NormalizePath(PosixNormalize(p)) == Join(out)
  {
    var j := Join(out);
    SplitJoin(out);
    PlainNormal(j);
    NormalizedForm(p, j);
  }

  /** The segments named by climbing `k` directories from the directory with segments `dir`. */
  lemma ClimbedSegments(dir: seq<string>, k: nat, rest: seq<string>)
    requires (forall s :: s in dir ==> GoodSegment(s)) && k > |dir|
    requires rest == [""] || forall s :: s in rest ==> GoodSegment(s)
    ensures ResolveDots(dir + Ups(k) + rest, [], true) == Ups(k - |dir|) + (if rest == [""] then [] else rest)
  {
    ResolveAppend(dir + Ups(k), rest, [], true);
    ResolveAppend(dir, Ups(k), [], true);
    ResolveGood(dir, [], true);
    var none: seq<string> := [];
    assert none + dir == dir;
    ResolveUps(k, dir);
    var up := Ups(k - |dir|);
    if rest == [""] {
      assert rest[1..] == [];
      assert up + [] == up;
    } else {
      ResolveGood(rest, up, true);
    }
  }

  /**
   A canonical importer `d` directories deep that climbs more than `d` directories
   names a path above the root.  So it resolves only if it climbs exactly to the
   parent of the root and names nothing below it.
   */
  lemma TooManyUpsClimb(importer: string, k: nat, rest: string)
    requires Canonical(importer) && k >= |Split(importer)| && (rest == "" || Canonical(rest))
    ensures IsRelative(Climbing(k, rest))
    ensures var base := BaseOf(Climbing(k, rest), importer);
      Climbs(base) && (base == ".." <==> k == |Split(importer)| && rest == "")
  {
    var n := k - |Split(importer)| + 1;
    var dir := DirectoryOf(importer);
    var segs := Split(importer)[..|Split(importer)| - 1];
    CanonicalNormal(importer);
    DirectorySegments(importer);
    forall s | s in segs ensures GoodSegment(s) { assert s in Split(importer); }
    ClimbedPath(if dir == "." then "" else dir, segs, k, rest);
    ClimbedBase(n, if rest == "" then [] else Split(rest));
    assert Climbing(k, rest) == "../" + Climbing(k - 1, rest);
  }

  lemma ClimbedPath(dir: string, segs: seq<string>, k: nat, rest: string)
    requires DirectoryIs(dir, segs) && (forall s :: s in segs ==> GoodSegment(s))
    requires k > |segs| && (rest == "" || Canonical(rest))
    ensures NormalizePath(PosixJoin(dir, Climbing(k, rest))) ==
            Join(Ups(k - |segs|) + (if rest == "" then [] else Split(rest)))
  {
    var spec := Climbing(k, rest);
    ClimbingEnd(k, rest);
    var p := if dir == "" then spec else dir + "/" + spec;
    if dir != "" {
      SplitAppend(dir, spec);
      assert p[0] == dir[0];
    } else {
      assert segs + Split(spec) == Split(spec);
    }
    ClimbedSplit(p, segs, k, rest);
    ClimbedPlain(k - |segs|, rest);
    NormalizedJoin(p, Ups(k - |segs|) + (if rest == "" then [] else Split(rest)));
  }

  lemma ClimbedPlain(n: nat, rest: string)
    requires n > 0 && (rest == "" || Canonical(rest))
    ensures var out := Ups(n) + (if rest == "" then [] else Split(rest));
      Plain(out) && forall s :: s in out ==> '/' !in s
  {
    SplitNoSlash(rest);
  }

  lemma ClimbedSplit(p: string, segs: seq<string>, k: nat, rest: string)
    requires Split(p) == segs + Split(Climbing(k, rest)) && (forall s :: s in segs ==> GoodSegment(s))
    requires k > |segs| && (rest == "" || Canonical(rest))
    ensures ResolveDots(Split(p), [], true) == Ups(k - |segs|) + (if rest == "" then [] else Split(rest))
  {
    SplitClimbing(k, rest);
    assert Split(p) == segs + Ups(k) + Split(rest);
    if rest == "" { SplitSegment(""); } else { assert Split(rest)[0] in Split(rest); }
    ClimbedSegments(segs, k, Split(rest));
  }

  lemma ClimbedBase(n: nat, rest: seq<string>)
    requires n > 0
    ensures var base := Join(Ups(n) + rest); Climbs(base) && (base == ".." <==> n == 1 && rest == [])
  {
    var out := Ups(n) + rest;
    if |out| >= 2 {
      JoinStart(out);
    }
  }

  lemma NameCanonical(s: string)
    requires GoodSegment(s) && '/' !in s
    ensures Canonical(s) && |Split(s)| == 1
  {
    SplitSegment(s);
  }

  /** The exception is real: for every root importer and every extension some index makes `../` resolve. */
  lemma ParentOfRootResolves(importer: string, i: nat)
    requires Canonical(importer) && |Split(importer)| == 1 && i < |SUPPORTED_EXTS|
    ensures ResolveTarget(Climbing(1, ""), importer, {".." + SUPPORTED_EXTS[i]}).FileTarget?
  {
    var name := ".." + SUPPORTED_EXTS[i];
    SourceNames(i);
    forall c | c in name ensures c != '/' && c != '\\' {
      if c != '.' { assert c in "index" + SUPPORTED_EXTS[i]; }
    }
    assert |name| > 2;
    NameCanonical(name);
    TooManyUpsClimb(importer, 1, "");
    ClimbsIsOutside("..");
    OutsideResolvesIff(Climbing(1, ""), importer, {name});
  }

  // ---------------------------------------------------------------- what a specifier is joined to

  lemma ClimbsJoined(out: seq<string>)
    requires out != [] && forall s :: s in out ==> '/' !in s
    ensures Climbs(Join(out)) <==> out[0] == ".."
  {
    SplitJoin(out);
    if Climbs(Join(out)) { ClimbsSplit(Join(out)); }
    if out[0] == ".." && |out| >= 2 { JoinStart(out); }
  }

  lemma RelativeStart(specifier: string)
    requires IsRelative(specifier)
    ensures specifier != "" && specifier[0] != '/'
  {}

  /** What a file in the root joins its specifiers to: nothing. */
  lemma BaseAtRoot(importer: string, specifier: string)
    requires Canonical(importer) && '/' !in importer
    ensures BaseOf(specifier, importer) == NormalizePath(PosixNormalize(specifier)) && |Split(importer)| == 1
  {
    CanonicalNormal(importer);
    SplitSegment(importer);
    assert DirectoryOf(importer) == ".";
  }

  /** What any other file joins its specifiers to: its directory. */
  lemma BaseBelow(importer: string, specifier: string) returns (dir: string)
    requires Canonical(importer) && '/' in importer && specifier != ""
    ensures BaseOf(specifier, importer) == NormalizePath(PosixNormalize(dir + "/" + specifier))
    ensures dir != "" && dir[0] != '/' && Split(dir) == Split(importer)[..|Split(importer)| - 1] && forall s :: s in Split(dir) ==> GoodSegment(s)
  {
    CanonicalNormal(importer);
    DirectorySegments(importer);
    dir := DirectoryOf(importer);
    DirectoryNotDot(importer);
    forall s | s in Split(dir) ensures GoodSegment(s) { assert s in Split(importer); }
  }

  lemma DirectoryNotDot(importer: string)
    requires Canonical(importer) && '/' in importer
    ensures DirectoryOf(importer) != "." && DirectoryOf(importer) != ""
  {
    var slash := LastIndexOf(importer, '/');
    var dir, name := importer[..slash], importer[slash + 1..];
    assert importer == dir + "/" + name;
    SplitAppend(dir, name);
    SplitSegment(".");
    assert Split(dir)[0] in Split(importer);
  }

  // ---------------------------------------------------------------- specifiers with backslashes

  function NonEmpty(segs: seq<string>): seq<string> {
    if segs == [] then [] else (if segs[0] == "" then [] else [segs[0]]) + NonEmpty(segs[1..])
  }

  lemma LeavesCons(depth: nat, h: string, t: seq<string>)
    ensures LeavesRoot(depth, [h] + t) <==>
            if h == "" || h == "." then LeavesRoot(depth, t)
            else if h != ".." then LeavesRoot(depth + 1, t)
            else depth == 0 || LeavesRoot(depth - 1, t)
  {
    assert ([h] + t)[1..] == t;
  }

  lemma {:induction false} LeavesNonEmpty(depth: nat, segs: seq<string>)
    ensures LeavesRoot(depth, segs) <==> LeavesRoot(depth, NonEmpty(segs))
    decreases |segs|
  {
    if segs != [] {
      var h, t := segs[0], segs[1..];
      assert segs == [h] + t;
      LeavesCons(depth, h, t);
      LeavesCons(depth, h, NonEmpty(t));
      if h == "" || h == "." {
        LeavesNonEmpty(depth, t);
      } else if h != ".." {
        LeavesNonEmpty(depth + 1, t);
      } else if depth > 0 {
        LeavesNonEmpty(depth - 1, t);
      }
      assert NonEmpty(segs) == if h == "" then NonEmpty(t) else [h] + NonEmpty(t);
    }
  }

  /** Collapsing slashes drops empty segments, the first one excepted. */
  lemma {:induction false} CollapseSegments(s: string)
    ensures Split(CollapseSlashes(s))[0] == Split(s)[0]
    ensures NonEmpty(Split(CollapseSlashes(s))[1..]) == NonEmpty(Split(s)[1..])
  {
    if |s| >= 2 {
      var t := s[1..];
      CollapseSegments(t);
      NonEmptyWhole(Split(t));
      NonEmptyWhole(Split(CollapseSlashes(t)));
      SplitCons(s[0], t);
      SplitCons(s[0], CollapseSlashes(t));
      assert s == [s[0]] + t;
    }
  }

  lemma NonEmptyWhole(segs: seq<string>)
    requires segs != []
    ensures NonEmpty(segs) == (if segs[0] == "" then [] else [segs[0]]) + NonEmpty(segs[1..])
  {}

  lemma CollapseOutside(s: string)
    ensures Outside(CollapseSlashes(s)) <==> Outside(s)
  {
    CollapseSegments(s);
    NonEmptyWhole(Split(s));
    NonEmptyWhole(Split(CollapseSlashes(s)));
    LeavesNonEmpty(0, Split(s));
    LeavesNonEmpty(0, Split(CollapseSlashes(s)));
  }

  lemma DotSlashOutside(s: string)
    ensures Outside("./" + s) <==> Outside(s)
  {
    SplitSegment(".");
    SplitAppend(".", s);
    assert "./" + s == "." + "/" + s;
    assert (["."] + Split(s))[1..] == Split(s);
  }

  lemma SlashOutside(s: string)
    ensures Outside(s + "/") <==> Outside(s)
  {
    SplitSegment("");
    SplitAppend(s, "");
    assert s + "/" + "" == s + "/";
    LeavesBefore(0, Split(s), "");
    if Outside(s) { LeavesAppend(0, Split(s), [""]); }
  }

  lemma SingleOutside(s: string)
    requires '/' !in s
    ensures Outside(s) <==> s == ".."
  {
    SplitSegment(s);
    OneSegment(0, s);
  }

  /** Stripping dots and slashes at the ends makes no difference. */
  lemma StripOutside(s: string)
    ensures var a := if StartsWith(s, "./") then s[2..] else s;
      var b := if |a| > 1 && a[|a| - 1] == '/' then a[..|a| - 1] else a;
      Outside(if b == "" || b == "/" then "." else b) <==> Outside(s)
  {
    var a := if StartsWith(s, "./") then s[2..] else s;
    var b := if |a| > 1 && a[|a| - 1] == '/' then a[..|a| - 1] else a;
    if StartsWith(s, "./") {
      assert s == "./" + a;
      DotSlashOutside(a);
    }
    if |a| > 1 && a[|a| - 1] == '/' {
      assert a == b + "/";
      SlashOutside(b);
    }
    SingleOutside(".");
    SingleOutside("");
    SlashOutside("");
    assert "" + "/" == "/";
  }

  /** Normalising a path makes its backslashes separators, and else leads to the same place. */
  lemma NormalizedOutside(p: string)
    requires p != ""
    ensures Outside(NormalizePath(p)) <==> Outside(Replace(p, '\\', '/'))
  {
    var s := Replace(p, '\\', '/');
    CollapseOutside(s);
    StripOutside(CollapseSlashes(s));
  }

  lemma ReplaceSlash(s: string)
    ensures Replace(s + "/", '\\', '/') == Replace(s, '\\', '/') + "/"
  {}

  lemma ResolvedOutside(p: string)
    requires p != "" && p[0] != '/'
    ensures Outside(NormalizePath(PosixNormalize(p))) <==>
            Outside(Replace(Join(ResolveDots(Split(p), [], true)), '\\', '/'))
  {
    var out := Join(ResolveDots(Split(p), [], true));
    if out == "" {
      NothingNormalized(p);
      SingleOutside(".");
      SingleOutside("");
      assert Replace("", '\\', '/') == "";
    } else {
      NormalizedForm(p, out);
      NormalizedOutside(PosixNormalize(p));
      ReplaceSlash(out);
      SlashOutside(Replace(out, '\\', '/'));
    }
  }

  lemma NothingNormalized(p: string)
    requires p != "" && p[0] != '/' && Join(ResolveDots(Split(p), [], true)) == ""
    ensures NormalizePath(PosixNormalize(p)) == "."
  {
    assert Replace(".", '\\', '/') == "." && Replace("./", '\\', '/') == "./";
  }

  /** The segments that a specifier leads to from its importer; a backslash is an ordinary character here. */
  function Named(importer: string, specifier: string): seq<string> {
    ResolveDots(Split(importer)[..|Split(importer)| - 1] + Split(specifier), [], true)
  }

  lemma BaseNamed(importer: string, specifier: string) returns (p: string)
    requires Canonical(importer) && IsRelative(specifier)
    ensures p != "" && p[0] != '/' && ResolveDots(Split(p), [], true) == Named(importer, specifier)
    ensures BaseOf(specifier, importer) == NormalizePath(PosixNormalize(p))
  {
    RelativeStart(specifier);
    if '/' in importer {
      var dir := BaseBelow(importer, specifier);
      SplitAppend(dir, specifier);
      p := dir + "/" + specifier;
    } else {
      BaseAtRoot(importer, specifier);
      assert Split(importer)[..0] + Split(specifier) == Split(specifier);
      p := specifier;
    }
  }

  /**
   Whether a relative specifier leads outside: its dots are resolved first, and backslashes
   become separators, with dots between them, only in what is left.
   */
  lemma OutsideIff(importer: string, specifier: string)
    requires Canonical(importer) && IsRelative(specifier)
    ensures Outside(BaseOf(specifier, importer)) <==> Outside(Replace(Join(Named(importer, specifier)), '\\', '/'))
  {
    var p := BaseNamed(importer, specifier);
    ResolvedOutside(p);
  }

  lemma ReplaceNone(s: string)
    requires '\\' !in s
    ensures Replace(s, '\\', '/') == s
  {}

  /** In what is left after resolving, a `..` stands only behind others. */
  ghost predicate UpsFirst(segs: seq<string>) {
    forall i, j :: 0 <= i < j < |segs| && segs[j] == ".." ==> segs[i] == ".."
  }

  lemma {:induction false} ResolvedUpsFirst(segs: seq<string>, acc: seq<string>)
    requires UpsFirst(acc)
    ensures UpsFirst(ResolveDots(segs, acc, true))
    decreases |segs|
  {
    if segs != [] {
      var h := segs[0];
      var acc' := if h == "" || h == "." then acc
                  else if h != ".." then acc + [h]
                  else if acc != [] && acc[|acc| - 1] != ".." then acc[..|acc| - 1]
                  else acc + [".."];
      ResolvedUpsFirst(segs[1..], acc');
    }
  }

  lemma {:induction false} NeverUp(depth: nat, segs: seq<string>)
    requires forall s :: s in segs ==> s != ".."
    ensures !LeavesRoot(depth, segs)
    decreases |segs|
  {
    if segs != [] {
      assert segs[0] in segs;
      assert forall s :: s in segs[1..] ==> s in segs;
      NeverUp(depth, segs[1..]);
      NeverUp(depth + 1, segs[1..]);
    }
  }

  /** Once the dots are resolved, a path leaves the root exactly if it starts by going up. */
  lemma UpsFirstLeaves(segs: seq<string>)
    requires UpsFirst(segs)
    ensures LeavesRoot(0, segs) <==> segs != [] && segs[0] == ".."
  {
    if segs != [] && segs[0] != ".." {
      forall s | s in segs ensures s != ".." {
        var j :| 0 <= j < |segs| && segs[j] == s;
      }
      NeverUp(0, segs);
    }
  }

  lemma JoinedOutside(segs: seq<string>)
    requires UpsFirst(segs) && forall s :: s in segs ==> '/' !in s && '\\' !in s
    ensures Outside(Replace(Join(segs), '\\', '/')) <==> segs != [] && segs[0] == ".."
  {
    if segs == [] {
      SingleOutside("");
      assert Replace("", '\\', '/') == "";
    } else {
      SplitJoin(segs);
      SplitNoBackslash(Join(segs));
      ReplaceNone(Join(segs));
      UpsFirstLeaves(segs);
    }
  }

  lemma NamedPlain(importer: string, specifier: string)
    requires Canonical(importer) && '\\' !in specifier
    ensures forall s :: s in Named(importer, specifier) ==> s != "" && s != "." && '/' !in s && '\\' !in s
  {
    var front := Split(importer)[..|Split(importer)| - 1];
    ResolveMembers(front + Split(specifier), [], true);
    SplitKeepsOut(specifier, '\\');
    SplitNoSlash(specifier);
    SplitNoSlash(importer);
    forall s | s in front ensures GoodSegment(s) && '/' !in s { assert s in Split(importer); }
    forall s | s in Named(importer, specifier) ensures s != "" && s != "." && '/' !in s && '\\' !in s {
      assert s == ".." || s in front || s in Split(specifier);
    }
  }

  /** Whether what is left starts by going up can be read off the specifier. */
  lemma NamedStart(importer: string, specifier: string)
    requires Canonical(importer)
    ensures LeavesRoot(|Split(importer)| - 1, Split(specifier)) <==>
            Named(importer, specifier) != [] && Named(importer, specifier)[0] == ".."
  {
    var front := Split(importer)[..|Split(importer)| - 1];
    forall s | s in front ensures GoodSegment(s) { assert s in Split(importer); }
    LeavesFrom(front, Split(specifier), 0);
    ResolveLeaves(front + Split(specifier), []);
  }

  lemma NamedOutside(importer: string, specifier: string)
    requires Canonical(importer) && '\\' !in specifier
    ensures Outside(Replace(Join(Named(importer, specifier)), '\\', '/')) <==>
            Named(importer, specifier) != [] && Named(importer, specifier)[0] == ".."
  {
    ResolvedUpsFirst(Split(importer)[..|Split(importer)| - 1] + Split(specifier), []);
    NamedPlain(importer, specifier);
    JoinedOutside(Named(importer, specifier));
  }

  lemma NamedClimbs(importer: string, specifier: string)
    requires Canonical(importer) && IsRelative(specifier) && '\\' !in specifier
    requires Named(importer, specifier) != [] && Named(importer, specifier)[0] == ".."
    ensures Climbs(BaseOf(specifier, importer))
  {
    var p := BaseNamed(importer, specifier);
    NamedPlain(importer, specifier);
    JoinedBase(p, Named(importer, specifier));
    ClimbsJoined(Named(importer, specifier));
  }

  lemma JoinedBase(p: string, out: seq<string>)
    requires p != "" && p[0] != '/' && ResolveDots(Split(p), [], true) == out && out != []
    requires forall s :: s in out ==> s != "" && s != "." && '/' !in s && '\\' !in s
    ensures NormalizePath(PosixNormalize(p)) == Join(out)
  {
    assert out[0] in out;
    NormalizedJoin(p, out);
  }

  lemma LeavingClimbs(importer: string, specifier: string)
    requires Canonical(importer) && IsRelative(specifier) && '\\' !in specifier
    ensures LeavesRoot(|Split(importer)| - 1, Split(specifier)) ==> Climbs(BaseOf(specifier, importer))
  {
    NamedStart(importer, specifier);
    if Named(importer, specifier) != [] && Named(importer, specifier)[0] == ".." {
      NamedClimbs(importer, specifier);
    }
  }

  lemma ClimbingIsOutside(p: string)
    ensures Climbs(p) ==> Outside(p)
  {
    if Climbs(p) { ClimbsIsOutside(p); }
  }

  lemma PlainOutsideIff(importer: string, specifier: string)
    requires Canonical(importer) && IsRelative(specifier) && '\\' !in specifier
    ensures Outside(BaseOf(specifier, importer)) <==> LeavesRoot(|Split(importer)| - 1, Split(specifier))
  {
    OutsideIff(importer, specifier);
    NamedStart(importer, specifier);
    NamedOutside(importer, specifier);
  }

  /**
   A relative specifier without backslashes, with its dots anywhere, names a path outside exactly if
   following its segments from the importer's directory leaves the root at some point;
   and such a path starts with `..`.
   */
  lemma ClimbsIff(importer: string, specifier: string)
    requires Canonical(importer) && IsRelative(specifier) && '\\' !in specifier
    ensures Outside(BaseOf(specifier, importer)) <==> LeavesRoot(|Split(importer)| - 1, Split(specifier))
    ensures Climbs(BaseOf(specifier, importer)) <==> LeavesRoot(|Split(importer)| - 1, Split(specifier))
  {
    PlainOutsideIff(importer, specifier);
    LeavingClimbs(importer, specifier);
    ClimbingIsOutside(BaseOf(specifier, importer));
  }

  // ---------------------------------------------------------------- the two orders of rewriting

  /** A step down and back up names the file itself, however the step down is called. */
  lemma DownAndUp(step: string, name: string)
    requires step != "" && step != "." && step != ".." && GoodSegment(name)
    ensures ResolveDots([".", step, "..", name], [], true) == [name]
    ensures ResolveDots([".", step, "..", "..", name], [], true) == ["..", name]
  {
    ResolveGood([name], [], true);
    ResolveGood([name], [".."], true);
    var none: seq<string> := [];
    assert none + [step] == [step] && [step][..0] == none && none + [".."] == [".."];
    assert [".", step, "..", name][1..] == [step, "..", name] && [step, "..", name][1..] == ["..", name] && ["..", name][1..] == [name];
    assert [".", step, "..", "..", name][1..] == [step, "..", "..", name] && [step, "..", "..", name][1..] == ["..", "..", name]
           && ["..", "..", name][1..] == ["..", name];
    assert ResolveDots(["..", name], [step], true) == [name];
    assert ResolveDots(["..", "..", name], [step], true) == ResolveDots(["..", name], [], true);
    assert ResolveDots(["..", name], [], true) == ResolveDots([name], [".."], true);
  }

  function OneUp(step: string, name: string): string {
    "." + "/" + (step + "/" + (".." + "/" + name))
  }

  function TwoUp(step: string, name: string): string {
    "." + "/" + (step + "/" + (".." + "/" + (".." + "/" + name)))
  }

  lemma SplitOneUp(step: string, name: string)
    requires '/' !in step && '/' !in name
    ensures Split(OneUp(step, name)) == ["."] + ([step] + ([".."] + [name]))
  {
    SplitSegment(".");
    SplitSegment("..");
    SplitSegment(step);
    SplitSegment(name);
    SplitAppend("..", name);
    SplitAppend(step, ".." + "/" + name);
    SplitAppend(".", step + "/" + (".." + "/" + name));
  }

  lemma SplitTwoUp(step: string, name: string)
    requires '/' !in step && '/' !in name
    ensures Split(TwoUp(step, name)) == ["."] + ([step] + ([".."] + ([".."] + [name])))
  {
    SplitSegment(".");
    SplitSegment("..");
    SplitSegment(step);
    SplitSegment(name);
    SplitAppend("..", name);
    SplitAppend("..", ".." + "/" + name);
    SplitAppend(step, ".." + "/" + (".." + "/" + name));
    SplitAppend(".", step + "/" + (".." + "/" + (".." + "/" + name)));
  }

  lemma SplitUps(step: string, name: string)
    requires '/' !in step && '/' !in name
    ensures Split(OneUp(step, name)) == [".", step, "..", name]
    ensures Split(TwoUp(step, name)) == [".", step, "..", "..", name]
  {
    SplitOneUp(step, name);
    SplitTwoUp(step, name);
  }

  lemma ReplaceAppend(a: string, b: string)
    ensures Replace(a + b, '\\', '/') == Replace(a, '\\', '/') + Replace(b, '\\', '/')
  {}

  lemma RewrittenText(a: string, b: string, rest: string)
    requires '\\' !in a && '\\' !in b && '\\' !in rest
    ensures Replace(a + "\\" + b + "/" + rest, '\\', '/') == a + "/" + b + "/" + rest
  {
    ReplaceNone(a);
    ReplaceNone(b);
    ReplaceNone(rest);
    ReplaceAppend(a, "\\");
    ReplaceAppend(a + "\\", b);
    ReplaceAppend(a + "\\" + b, "/");
    ReplaceAppend(a + "\\" + b + "/", rest);
    assert Replace("\\", '\\', '/') == "/";
    ReplaceNone("/");
  }

  lemma SplitTwoSteps(a: string, b: string, rest: string)
    requires '/' !in a && '/' !in b
    ensures Split("." + "/" + (a + "/" + (b + "/" + rest))) == ["."] + ([a] + ([b] + Split(rest)))
  {
    SplitSegment(".");
    SplitSegment(a);
    SplitSegment(b);
    SplitAppend(".", a + "/" + (b + "/" + rest));
    SplitAppend(a, b + "/" + rest);
    SplitAppend(b, rest);
  }

  lemma RegroupSteps(a: string, b: string, rest: string)
    ensures "./" + (a + "/" + b + "/" + rest) == "." + "/" + (a + "/" + (b + "/" + rest))
  {
    assert "." + "/" == "./";
    ConcatRegroup(a, "/" + b, "/", rest);
    assert a + "/" + b == a + ("/" + b);
    assert "/" + b + ("/" + rest) == "/" + (b + "/" + rest);
  }

  /** Reading the backslash of a step as a separator makes two steps of it. */
  lemma RewrittenStep(a: string, b: string, rest: string)
    requires '\\' !in a && '\\' !in b && '\\' !in rest && '/' !in a && '/' !in b
    ensures Split(Replace("./" + (a + "\\" + b + "/" + rest), '\\', '/')) == [".", a, b] + Split(rest)
  {
    RewrittenText(a, b, rest);
    ReplaceAppend("./", a + "\\" + b + "/" + rest);
    ReplaceNone("./");
    RegroupSteps(a, b, rest);
    SplitTwoSteps(a, b, rest);
    assert ["."] + ([a] + ([b] + Split(rest))) == [".", a, b] + Split(rest);
  }

  lemma UpsRest(name: string)
    requires GoodSegment(name) && '/' !in name
    ensures var r := ".." + "/" + (".." + "/" + name); '\\' !in r && Split(r) == ["..", "..", name]
    ensures var r := ".." + "/" + name; '\\' !in r && Split(r) == ["..", name]
  {
    SplitSegment("..");
    SplitSegment(name);
    SplitAppend("..", name);
    SplitAppend("..", ".." + "/" + name);
  }

  lemma StepsLeave(name: string)
    requires GoodSegment(name)
    ensures LeavesRoot(0, [".", "..", "a"] + ["..", name])
    ensures !LeavesRoot(0, [".", "a", "b"] + ["..", "..", name])
  {
    assert [".", "..", "a"] + ["..", name] == ["."] + ([".."] + ["a", "..", name]);
    LeavesCons(0, ".", [".."] + ["a", "..", name]);
    LeavesCons(0, "..", ["a", "..", name]);
    assert [".", "a", "b"] + ["..", "..", name] == ["."] + (["a"] + (["b"] + ([".."] + ([".."] + [name]))));
    LeavesCons(0, ".", ["a"] + (["b"] + ([".."] + ([".."] + [name]))));
    LeavesCons(0, "a", ["b"] + ([".."] + ([".."] + [name])));
    LeavesCons(1, "b", [".."] + ([".."] + [name]));
    LeavesCons(2, "..", [".."] + [name]);
    LeavesCons(1, "..", [name]);
    OneSegment(0, name);
  }

  /** The two steps with a backslash, once it is read as a separator. */
  lemma RewrittenFirst(name: string)
    requires GoodSegment(name) && '/' !in name
    ensures Outside(Replace(OneUp("..\\a", name), '\\', '/')) && !Outside(Replace(TwoUp("a\\b", name), '\\', '/'))
  {
    UpsRest(name);
    assert "." + "/" == "./" && ".." + "\\" + "a" == "..\\a" && "a" + "\\" + "b" == "a\\b";
    RewrittenStep("..", "a", ".." + "/" + name);
    RewrittenStep("a", "b", ".." + "/" + (".." + "/" + name));
    StepsLeave(name);
  }

  /** The same two specifiers from a file in the root: where they lead. */
  lemma NamedUps(importer: string, step: string, name: string)
    requires Canonical(importer) && |Split(importer)| == 1
    requires step != "" && step != "." && step != ".." && '/' !in step && GoodSegment(name) && '/' !in name
    ensures Named(importer, OneUp(step, name)) == [name]
    ensures Named(importer, TwoUp(step, name)) == ["..", name]
  {
    SplitUps(step, name);
    DownAndUp(step, name);
    var none: seq<string> := [];
    assert Split(importer)[..0] == none;
    assert none + Split(OneUp(step, name)) == Split(OneUp(step, name));
    assert none + Split(TwoUp(step, name)) == Split(TwoUp(step, name));
  }

  /** A specifier with a single resolved segment has that segment for its base. */
  lemma BaseIsName(importer: string, specifier: string, name: string)
    requires Canonical(importer) && IsRelative(specifier) && Named(importer, specifier) == [name]
    requires GoodSegment(name) && '/' !in name
    ensures BaseOf(specifier, importer) == name
  {
    var p := BaseNamed(importer, specifier);
    NormalizedJoin(p, [name]);
  }

  lemma OnlyCandidate(importer: string, specifier: string, name: string)
    requires IsRelative(specifier) && BaseOf(specifier, importer) == name
    ensures ResolveTarget(specifier, importer, {name}) == FileTarget(name)
  {
    ResolveIsFirst(specifier, importer, {name});
    assert name in Candidates(name);
  }

  /**
   Making the backslashes separators first and resolving the dots afterwards answers differently,
   in both directions: `./..\a/../name` would leave the root and yet resolves to the file
   `name`, and `./a\b/../../name` would stay inside and yet leads outside.
   */
  lemma DotsBeforeBackslashes(importer: string, name: string)
    requires Canonical(importer) && |Split(importer)| == 1 && GoodSegment(name) && '/' !in name
    ensures var s := OneUp("..\\a", name);
      Outside(Replace(s, '\\', '/')) && ResolveTarget(s, importer, {name}) == FileTarget(name)
    ensures var s := TwoUp("a\\b", name);
      !Outside(Replace(s, '\\', '/')) && IsRelative(s) && Outside(BaseOf(s, importer))
  {
    RewrittenFirst(name);
    NamedUps(importer, "..\\a", name);
    NamedUps(importer, "a\\b", name);
    var one, two := OneUp("..\\a", name), TwoUp("a\\b", name);
    BaseIsName(importer, one, name);
    OnlyCandidate(importer, one, name);
    OutsideIff(importer, two);
    UpAndName(name);
  }

  lemma UpAndName(name: string)
    requires GoodSegment(name)
    ensures Outside(Replace(Join(["..", name]), '\\', '/'))
  {
    var p := Join(["..", name]);
    JoinTwo("..", [name]);
    assert p == "../" + name;
    ReplaceNone(p);
    ClimbsIsOutside(p);
  }
}
