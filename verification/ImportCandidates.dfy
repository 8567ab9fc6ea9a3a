/**
 Which files a relative specifier can resolve to, as a literal list: for a script extension
 the source names of the path without it come first.
 */
module ImportCandidates {
  import opened Wrappers
  import opened Paths
  import opened ImportResolver
  import opened ImportOutside

  // ---------------------------------------------------------------- what is named

  /** `./` or `k` times `../`, then a path. */
  function Specifier(k: nat, rest: string): string {
    if k == 0 then "./" + rest else Climbing(k, rest)
  }

  /** The path with the importer's directory for a start, `k` directories up. */
  function Below(importer: string, k: nat, rest: string): string
    requires k < |Split(importer)|
  {
    Join(Split(importer)[..|Split(importer)| - 1 - k] + Split(rest))
  }

  /** The segments of such a specifier. */
  function Steps(k: nat, rest: seq<string>): seq<string> {
    (if k == 0 then ["."] else Ups(k)) + rest
  }

  lemma SpecifierSegments(k: nat, rest: string)
    ensures IsRelative(Specifier(k, rest))
    ensures Split(Specifier(k, rest)) == Steps(k, Split(rest))
  {
    if k == 0 {
      SplitAppend(".", rest);
      SplitSegment(".");
      assert "./" + rest == "." + "/" + rest;
    } else {
      SplitClimbing(k, rest);
      assert StartsWith(Climbing(k, rest), "../");
    }
  }

  /** Canonical segments stay as they are behind a path that is resolved already. */
  lemma ResolvedBelow(front: seq<string>, k: nat, rest: seq<string>)
    requires k <= |front| && (forall s :: s in front ==> GoodSegment(s)) && forall s :: s in rest ==> GoodSegment(s)
    ensures ResolveDots(front + Steps(k, rest), [], true) == front[..|front| - k] + rest
  {
    var more := Steps(k, rest);
    ResolveAppend(front, more, [], true);
    ResolveGood(front, [], true);
    assert [] + front == front;
    if k == 0 {
      assert more[1..] == rest;
      ResolveGood(rest, front, true);
      assert front[..|front|] == front;
    } else {
      ResolveAppend(Ups(k), rest, front, true);
      forall s | s in front ensures s != ".." {}
      ResolveUps(k, front);
      ResolveGood(rest, front[..|front| - k], true);
    }
  }

  lemma BelowSegments(importer: string, k: nat, rest: string)
    requires Canonical(importer) && Canonical(rest) && k < |Split(importer)|
    ensures var out := Split(importer)[..|Split(importer)| - 1 - k] + Split(rest);
      out != [] && (forall s :: s in out ==> GoodSegment(s) && '/' !in s) && Split(Join(out)) == out
  {
    var segs := Split(importer);
    var front := segs[..|segs| - 1 - k];
    SplitNoSlash(importer);
    SplitNoSlash(rest);
    forall s | s in front ensures GoodSegment(s) && '/' !in s { assert s in segs; }
    SplitJoin(front + Split(rest));
  }

  lemma NamedBelow(importer: string, k: nat, rest: string)
    requires Canonical(importer) && Canonical(rest) && k < |Split(importer)|
    ensures Named(importer, Specifier(k, rest)) == Split(importer)[..|Split(importer)| - 1 - k] + Split(rest)
  {
    SpecifierSegments(k, rest);
    NamedFrom(importer, Specifier(k, rest), k, Split(rest));
  }

  lemma NamedFrom(importer: string, specifier: string, k: nat, rest: seq<string>)
    requires Canonical(importer) && k < |Split(importer)| && forall s :: s in rest ==> GoodSegment(s)
    requires Split(specifier) == Steps(k, rest)
    ensures Named(importer, specifier) == Split(importer)[..|Split(importer)| - 1 - k] + rest
  {
    NamedBySegments(importer, specifier, Steps(k, rest));
    BelowFront(Split(importer), k, rest);
  }

  lemma NamedBySegments(importer: string, specifier: string, segs: seq<string>)
    requires Split(specifier) == segs
    ensures Named(importer, specifier) == ResolveDots(Split(importer)[..|Split(importer)| - 1] + segs, [], true)
  {}

  lemma BelowFront(segs: seq<string>, k: nat, rest: seq<string>)
    requires k < |segs| && (forall s :: s in segs ==> GoodSegment(s)) && forall s :: s in rest ==> GoodSegment(s)
    ensures ResolveDots(segs[..|segs| - 1] + Steps(k, rest), [], true) == segs[..|segs| - 1 - k] + rest
  {
    var front := segs[..|segs| - 1];
    forall s | s in front ensures GoodSegment(s) { assert s in segs; }
    ResolvedBelow(front, k, rest);
    assert front[..|front| - k] == segs[..|segs| - 1 - k];
  }

  /** A specifier that stays within the repository names the path one expects. */
  lemma BaseWithin(importer: string, k: nat, rest: string)
    requires Canonical(importer) && Canonical(rest) && k < |Split(importer)|
    ensures IsRelative(Specifier(k, rest)) && BaseOf(Specifier(k, rest), importer) == Below(importer, k, rest)
    ensures Canonical(Below(importer, k, rest))
  {
    SpecifierSegments(k, rest);
    NamedBelow(importer, k, rest);
    BelowSegments(importer, k, rest);
    var out := Split(importer)[..|Split(importer)| - 1 - k] + Split(rest);
    var p := BaseNamed(importer, Specifier(k, rest));
    JoinedBase(p, out);
  }

  // ---------------------------------------------------------------- source names

  function FileNames(q: string): seq<string> {
    [q + ".ts", q + ".tsx", q + ".js", q + ".jsx", q + ".mts", q + ".cts"]
  }

  function IndexFiles(q: string): seq<string> {
    [q + "/index.ts", q + "/index.tsx", q + "/index.js", q + "/index.jsx", q + "/index.mts", q + "/index.cts"]
  }

  /** A path, the path with each source extension, then the index files of a directory of that name. */
  function SourceNames(q: string): seq<string> {
    [q] + FileNames(q) + IndexFiles(q)
  }

  lemma NormalizedSelf(p: string)
    requires Canonical(p)
    ensures PosixNormalize(p) == p
  {
    CanonicalEnd(p);
    if p[0] == '/' { AbsoluteIsNotCanonical(p); }
    ResolveGood(Split(p), [], true);
    assert [] + Split(p) == Split(p);
    JoinSplit(p);
    NormalizedForm(p, p);
  }

  lemma CanonicalEnd(q: string)
    requires Canonical(q)
    ensures q != "" && q[|q| - 1] != '/'
  {
    CanonicalNormal(q);
    forall x | x in Split(q)[1..] ensures x != "" { assert x in Split(q); }
    SplitSlashes(q);
  }

  lemma JoinedCanonical(q: string, name: string)
    requires Canonical(q) && GoodSegment(name) && '/' !in name
    ensures PosixJoin(q, name) == q + ("/" + name)
  {
    SplitAppend(q, name);
    SplitSegment(name);
    CanonicalEnd(q);
    assert q + ("/" + name) == q + "/" + name;
    NormalizedSelf(q + "/" + name);
  }

  lemma IndexIs(q: string, j: nat)
    requires Canonical(q) && j < 6
    ensures |SUPPORTED_EXTS| == 6 && PosixJoin(q, "index" + SUPPORTED_EXTS[j]) == IndexFiles(q)[j]
  {
    IndexNames();
    IndexName(j);
    JoinedCanonical(q, ["index.ts", "index.tsx", "index.js", "index.jsx", "index.mts", "index.cts"][j]);
  }

  lemma FilesAre(q: string)
    ensures WithExtensions(q, SUPPORTED_EXTS) == FileNames(q)
  {}

  lemma IndexesAre(q: string)
    requires Canonical(q)
    ensures IndexEntries(q, SUPPORTED_EXTS) == IndexFiles(q)
  {
    forall j: nat | j < 6 ensures |SUPPORTED_EXTS| == 6 && IndexEntries(q, SUPPORTED_EXTS)[j] == IndexFiles(q)[j] {
      IndexIs(q, j);
    }
  }

  lemma SourceNamesAre(q: string)
    requires Canonical(q)
    ensures BaseCandidates(q) == SourceNames(q)
  {
    FilesAre(q);
    IndexesAre(q);
  }

  lemma IndexNames()
    ensures forall n :: n in ["index.ts", "index.tsx", "index.js", "index.jsx", "index.mts", "index.cts"] ==> GoodSegment(n) && '/' !in n
  {}

  lemma IndexName(j: nat)
    requires j < 6
    ensures |SUPPORTED_EXTS| == 6
    ensures var n := ["index.ts", "index.tsx", "index.js", "index.jsx", "index.mts", "index.cts"][j];
      && "index" + SUPPORTED_EXTS[j] == n
      && "/" + n == ["/index.ts", "/index.tsx", "/index.js", "/index.jsx", "/index.mts", "/index.cts"][j]
  {}

  // ---------------------------------------------------------------- script extensions

  /** A script extension behind a path whose last segment is not empty is its extension. */
  lemma ExtOf(q: string, e: string)
    requires q != "" && q[|q| - 1] != '/' && |e| > 1 && e[0] == '.' && (forall i :: 1 <= i < |e| ==> e[i] != '.' && e[i] != '/')
    ensures ExtName(q + e) == e && (q + e)[..|q + e| - |e|] == q
  {
    var p := q + e;
    assert p[|q|] == '.' && forall i :: |q| < i < |p| ==> p[i] == e[i - |q|];
    assert LastIndexOf(p, '.') == |q|;
    assert p[|q| - 1] == q[|q| - 1];
    assert LastIndexOf(p, '/') < |q| - 1;
    assert p[|q|..] == e;
  }

  predicate IsScriptExt(e: string) {
    e == ".js" || e == ".jsx" || e == ".mjs" || e == ".cjs"
  }

  lemma ScriptExts(e: string)
    requires IsScriptExt(e)
    ensures e in JS_SPECIFIER_EXTS && |e| > 1 && e[0] == '.' && '/' !in e && (forall i :: 1 <= i < |e| ==> e[i] != '.' && e[i] != '/')
  {}

  /** `e` is the extension of the path, with something of the last segment before it. */
  predicate HasExt(p: string, e: string) {
    |e| < |p| && p[|p| - |e|..] == e && p[|p| - |e| - 1] != '/'
  }

  lemma {:induction false} JoinSuffix(segs: seq<string>, e: string)
    requires segs != []
    ensures Join(Extended(segs, e)) == Join(segs) + e
    decreases |segs|
  {
    if |segs| > 1 {
      JoinSuffix(segs[1..], e);
      assert Extended(segs, e)[1..] == Extended(segs[1..], e);
      assert segs[0] + "/" + (Join(segs[1..]) + e) == segs[0] + "/" + Join(segs[1..]) + e;
    }
  }

  lemma BelowSuffix(importer: string, k: nat, rest: string, e: string)
    requires k < |Split(importer)| && '/' !in e
    ensures Below(importer, k, rest + e) == Below(importer, k, rest) + e
  {
    var front := Split(importer)[..|Split(importer)| - 1 - k];
    SplitSuffix(rest, e);
    assert front + Extended(Split(rest), e) == Extended(front + Split(rest), e);
    JoinSuffix(front + Split(rest), e);
  }

  lemma SuffixCanonical(rest: string, e: string)
    requires Canonical(rest) && '/' !in e && '\\' !in e && |e| > 2
    ensures Canonical(rest + e)
  {
    SplitSuffix(rest, e);
    var segs := Split(rest);
    forall s | s in Extended(segs, e) ensures GoodSegment(s) {
      if s in segs[..|segs| - 1] {
        assert s in segs;
      } else {
        assert s == segs[|segs| - 1] + e && segs[|segs| - 1] in segs;
        forall c | c in s ensures c != '\\' {}
      }
    }
  }

  // ---------------------------------------------------------------- what is resolved

  /** The target is the first of the names that is indexed, if any is. */
  ghost predicate FirstIndexed(indexed: set<string>, names: seq<string>, t: Target) {
    && (forall i :: 0 <= i < |names| && names[i] in indexed && (forall j :: 0 <= j < i ==> names[j] !in indexed) ==>
          t == FileTarget(names[i]))
    && ((forall i :: 0 <= i < |names| ==> names[i] !in indexed) ==> t == NotFound)
  }

  lemma {:induction false} FirstOfIs(indexed: set<string>, names: seq<string>)
    ensures forall i :: 0 <= i < |names| && names[i] in indexed && (forall j :: 0 <= j < i ==> names[j] !in indexed) ==>
              FirstOf(indexed, names) == Some(names[i])
  {
    if names != [] {
      var rest := names[1..];
      FirstOfIs(indexed, rest);
      forall i | 0 <= i < |names| && names[i] in indexed && (forall j :: 0 <= j < i ==> names[j] !in indexed)
        ensures FirstOf(indexed, names) == Some(names[i])
      {
        if i > 0 {
          assert names[0] !in indexed && rest[i - 1] == names[i];
          forall j | 0 <= j < i - 1 ensures rest[j] !in indexed { assert rest[j] == names[j + 1]; }
        }
      }
    }
  }

  lemma ResolvedFirst(specifier: string, importer: string, indexed: set<string>, names: seq<string>)
    requires IsRelative(specifier) && Candidates(BaseOf(specifier, importer)) == names
    ensures FirstIndexed(indexed, names, ResolveTarget(specifier, importer, indexed))
  {
    ResolveIsFirst(specifier, importer, indexed);
    FirstOfIs(indexed, names);
    forall c | c in names && FirstOf(indexed, names).None? ensures c !in indexed {}
    if FirstOf(indexed, names).Some? {
      var c := FirstOf(indexed, names).value;
      var i :| 0 <= i < |names| && names[i] == c;
    }
  }

  lemma ScriptNames(q: string, e: string)
    requires Canonical(q) && IsScriptExt(e) && Canonical(q + e)
    ensures Candidates(q + e) == SourceNames(q) + SourceNames(q + e)
  {
    ScriptExts(e);
    CanonicalEnd(q);
    ExtOf(q, e);
    SourceNamesAre(q);
    SourceNamesAre(q + e);
  }

  /**
   A specifier with a script extension, from any canonical importer to any canonical path within
   the repository: with `q` the path without the extension, the first indexed one is taken of `q`,
   `q` with `.ts`, `.tsx`, `.js`, `.jsx`, `.mts`, `.cts`, the six index files of `q`, and then
   the same from the path with the extension on.
   */
  lemma ScriptSpecifier(importer: string, k: nat, rest: string, e: string, indexed: set<string>)
    requires Canonical(importer) && Canonical(rest) && k < |Split(importer)| && IsScriptExt(e)
    ensures var q := Below(importer, k, rest);
      FirstIndexed(indexed, SourceNames(q) + SourceNames(q + e), ResolveTarget(Specifier(k, rest + e), importer, indexed))
  {
    ScriptExts(e);
    SuffixCanonical(rest, e);
    BelowSuffix(importer, k, rest, e);
    BaseWithin(importer, k, rest);
    BaseWithin(importer, k, rest + e);
    var q := Below(importer, k, rest);
    ScriptNames(q, e);
    ResolvedFirst(Specifier(k, rest + e), importer, indexed, SourceNames(q) + SourceNames(q + e));
  }

  /** The path ends with whole segments that make up `rest`. */
  predicate EndsSegments(q: string, rest: string) {
    |rest| <= |q| && q[|q| - |rest|..] == rest && (|rest| < |q| ==> q[|q| - |rest| - 1] == '/')
  }

  lemma EndsBelow(a: string, r: string, p: string)
    requires EndsSegments(r, p)
    ensures EndsSegments(a + "/" + r, p)
  {
    var q := a + "/" + r;
    assert q[|q| - |p|..] == r[|r| - |p|..];
    assert |p| < |r| ==> q[|q| - |p| - 1] == r[|r| - |p| - 1];
    assert |p| == |r| ==> q[|q| - |p| - 1] == '/';
  }

  lemma EndsSelf(q: string)
    ensures EndsSegments(q, q)
  {
    assert q[|q| - |q|..] == q;
  }

  lemma {:induction false} JoinEnd(front: seq<string>, segs: seq<string>)
    requires segs != []
    ensures EndsSegments(Join(front + segs), Join(segs))
    decreases |front|
  {
    if front == [] {
      assert front + segs == segs;
      EndsSelf(Join(segs));
    } else {
      var rest := front[1..] + segs;
      JoinEnd(front[1..], segs);
      assert front + segs == [front[0]] + rest;
      JoinTwo(front[0], rest);
      EndsBelow(front[0], Join(rest), Join(segs));
    }
  }

  lemma PlainNames(q: string)
    requires Canonical(q) && !IsScriptExt(ExtName(q))
    ensures Candidates(q) == SourceNames(q)
  {
    ScriptExtIs(ExtName(q));
    SourceNamesAre(q);
    assert JsCandidates(q) == [];
  }

  lemma BelowPlain(importer: string, k: nat, rest: string)
    requires k < |Split(importer)| && NoScriptExt(rest)
    ensures !IsScriptExt(ExtName(Below(importer, k, rest)))
  {
    JoinSplit(rest);
    JoinEnd(Split(importer)[..|Split(importer)| - 1 - k], Split(rest));
    NotScript(Below(importer, k, rest), rest);
  }

  /** Any other specifier: the first indexed one of the path itself and its source names. */
  lemma PlainSpecifier(importer: string, k: nat, rest: string, indexed: set<string>)
    requires Canonical(importer) && Canonical(rest) && k < |Split(importer)| && NoScriptExt(rest)
    ensures FirstIndexed(indexed, SourceNames(Below(importer, k, rest)), ResolveTarget(Specifier(k, rest), importer, indexed))
  {
    BaseWithin(importer, k, rest);
    BelowPlain(importer, k, rest);
    PlainNames(Below(importer, k, rest));
    ResolvedFirst(Specifier(k, rest), importer, indexed, SourceNames(Below(importer, k, rest)));
  }

  /** The end of a path that starts a segment has the extension of the path. */
  lemma EndHasExt(q: string, rest: string, e: string)
    requires EndsSegments(q, rest)
    requires HasExt(q, e) && '/' !in e
    ensures HasExt(rest, e)
  {
    forall i | |q| - |e| <= i < |q| ensures q[i] != '/' {
      assert q[i] == q[|q| - |e|..][i - (|q| - |e|)];
    }
    assert |rest| < |q| ==> |q| - |rest| - 1 < |q| - |e| - 1;
    assert rest[|rest| - |e|..] == q[|q| - |e|..];
    assert rest[|rest| - |e| - 1] == q[|q| - |e| - 1];
  }

  lemma ScriptExtIs(e: string)
    ensures e in JS_SPECIFIER_EXTS <==> IsScriptExt(e)
  {}

  /** The path has no script extension. */
  ghost predicate NoScriptExt(p: string) {
    forall e :: IsScriptExt(e) ==> !HasExt(p, e)
  }

  lemma ExtIsHad(q: string)
    requires ExtName(q) != ""
    ensures HasExt(q, ExtName(q)) && '/' !in ExtName(q)
  {}

  lemma NotScript(q: string, rest: string)
    requires EndsSegments(q, rest)
    requires NoScriptExt(rest)
    ensures !IsScriptExt(ExtName(q))
  {
    if ExtName(q) != "" {
      ExtIsHad(q);
      EndHasExt(q, rest, ExtName(q));
    }
  }

  /** What a specifier from a file of directory `d` names, and what one from a file in the root names. */
  lemma BelowDirectory(d: string, name: string, rest: string)
    requires Canonical(d) && GoodSegment(name) && '/' !in name && Canonical(rest)
    ensures Canonical(d + "/" + name) && |Split(d + "/" + name)| > 0 && Below(d + "/" + name, 0, rest) == d + "/" + rest
    ensures Canonical(name) && |Split(name)| > 0 && Below(name, 0, rest) == rest
  {
    SplitAppend(d, name);
    SplitSegment(name);
    SplitAppend(d, rest);
    assert (Split(d) + [name])[..|Split(d)|] == Split(d);
    JoinSplit(d + "/" + rest);
    JoinSplit(rest);
    assert [name][..0] + Split(rest) == Split(rest);
  }

  lemma SecondTaken(indexed: set<string>, names: seq<string>, t: Target)
    requires FirstIndexed(indexed, names, t) && |names| > 1 && names[0] !in indexed && names[1] in indexed
    ensures t == FileTarget(names[1])
  {
    forall j | 0 <= j < 1 ensures names[j] !in indexed {}
  }

  lemma SecondOfNames(indexed: set<string>, q: string, more: seq<string>, t: Target)
    requires FirstIndexed(indexed, SourceNames(q) + more, t) && q !in indexed && q + ".ts" in indexed
    ensures t == FileTarget(q + ".ts")
  {
    FirstNames(q, more);
    SecondTaken(indexed, SourceNames(q) + more, t);
  }

  lemma FirstNames(q: string, more: seq<string>)
    ensures var names := SourceNames(q) + more; |names| > 1 && names[0] == q && names[1] == q + ".ts"
  {
    var files := FileNames(q);
    assert ([q] + files)[1] == files[0];
  }

  /**
   The convention for modules: a specifier with `.js`, `.jsx`, `.mjs` or `.cjs` is the `.ts` file of
   that name whenever that one is indexed and no file has the name alone, whatever else is indexed.
   */
  lemma ScriptMeansSource(importer: string, k: nat, rest: string, e: string, indexed: set<string>)
    requires Canonical(importer) && Canonical(rest) && k < |Split(importer)| && IsScriptExt(e)
    requires Below(importer, k, rest) + ".ts" in indexed && Below(importer, k, rest) !in indexed
    ensures ResolveTarget(Specifier(k, rest + e), importer, indexed) == FileTarget(Below(importer, k, rest) + ".ts")
  {
    ScriptSpecifier(importer, k, rest, e, indexed);
    var q := Below(importer, k, rest);
    SecondOfNames(indexed, q, SourceNames(q + e), ResolveTarget(Specifier(k, rest + e), importer, indexed));
  }

  /** In a file of directory `d`, `./x.js` is `d/x.ts`. */
  lemma SiblingSource(d: string, name: string, x: string, indexed: set<string>)
    requires Canonical(d) && GoodSegment(name) && '/' !in name && Canonical(x)
    requires d + "/" + x + ".ts" in indexed && d + "/" + x !in indexed
    ensures ResolveTarget("./" + (x + ".js"), d + "/" + name, indexed) == FileTarget(d + "/" + x + ".ts")
  {
    BelowDirectory(d, name, x);
    ScriptMeansSource(d + "/" + name, 0, x, ".js", indexed);
  }

  /**
   An importer that is canonical once it is normalised may be given in any form: with
   backslashes, doubled slashes or `./` in front.
   */
  lemma ImporterForms(specifier: string, importer: string, indexed: set<string>)
    requires Canonical(NormalizePath(importer))
    ensures ResolveTarget(specifier, importer, indexed) == ResolveTarget(specifier, NormalizePath(importer), indexed)
  {
    CanonicalNormal(NormalizePath(importer));
  }

  /** Specifiers that are not relative are never looked up. */
  lemma OtherSpecifiers(specifier: string, importer: string, indexed: set<string>)
    ensures var t := ResolveTarget(specifier, importer, indexed);
      && (t.FileTarget? || t.NotFound? <==> "./" <= specifier || "../" <= specifier)
      && (t.NotConfigured? <==> "@/" <= specifier || "~/" <= specifier || specifier == "~")
      && (t.PackageTarget? ==> t.specifier == specifier)
  {
    assert "./" <= specifier ==> specifier[0] == '.';
    assert "../" <= specifier ==> specifier[0] == '.';
  }
}
