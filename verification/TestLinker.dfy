/**
 Linking test files to a source file: tests that import it, or, when no test does, the
 only test that is named after it.
 */
module TestLinker {
  import opened Paths
  import opened ImportResolver
  import opened Ordering

  /** An import, re-export, dynamic import or require found in a file. */
  datatype ImportSite = ImportSite(specifier: string, exportFrom: bool)

  const TEST_EXTS: set<string> := {".ts", ".tsx", ".js", ".jsx", ".mts", ".cts"}

  function Filter<T>(xs: seq<T>, p: T -> bool): (r: seq<T>)
    ensures forall x :: x in r ==> x in xs && p(x)
    ensures forall x :: x in xs && p(x) ==> x in r
  {
    if xs == [] then []
    else
      var rest := Filter(xs[..|xs| - 1], p);
      if p(xs[|xs| - 1]) then rest + [xs[|xs| - 1]] else rest
  }

  predicate Contains(s: string, t: string) {
    t <= s || (s != "" && Contains(s[1..], t))
  }

  function BaseName(p: string): string {
    p[LastIndexOf(p, '/') + 1..]
  }

  predicate IsTestName(basename: string) {
    Contains(basename, ".test.") || Contains(basename, ".spec.")
  }

  /** The base name without its last extension. */
  function Stem(p: string): string {
    var b := BaseName(p);
    var dot := LastIndexOf(b, '.');
    if dot > 0 then b[..dot] else b
  }

  function LowerChar(c: char): char {
    if 'A' <= c <= 'Z' then c - 'A' + 'a' else c
  }

  function Lower(s: string): string {
    seq(|s|, i requires 0 <= i < |s| => LowerChar(s[i]))
  }

  /** The name is the stem, then `.test` or `.spec`, then a supported extension, in any case. */
  predicate NamedAfter(stem: string, basename: string) {
    var dot := LastIndexOf(basename, '.');
    && dot >= 0
    && var dot' := LastIndexOf(basename[..dot], '.');
    && dot' >= 0
    && Lower(basename[dot' + 1..dot]) in {"test", "spec"}
    && Lower(basename[dot..]) in TEST_EXTS
    && basename[..dot'] == stem
    && '\n' !in stem && '\r' !in stem && '\U{2028}' !in stem && '\U{2029}' !in stem
  }

  predicate IsCandidate(p: string) {
    IsTestName(BaseName(p))
  }

  /** One of the import sites of file `p` resolves to the target. */
  predicate Imports(sources: map<string, seq<ImportSite>>, indexed: set<string>, p: string, target: string) {
    p in sources && exists site :: site in sources[p] && ResolveTarget(site.specifier, p, indexed) == FileTarget(target)
  }

  predicate IsImportingTest(sources: map<string, seq<ImportSite>>, indexed: set<string>, p: string, target: string) {
    IsCandidate(p) && Imports(sources, indexed, p, target)
  }

  predicate IsSourceWithStem(p: string, stem: string) {
    !IsCandidate(p) && Stem(p) == stem
  }

  predicate IsTestNamedAfter(p: string, stem: string) {
    IsCandidate(p) && NamedAfter(stem, BaseName(p))
  }

  // ---------------------------------------------------------------- what is linked

  function ImportLinked(files: seq<string>, sources: map<string, seq<ImportSite>>, target: string): seq<string> {
    var indexed := set p | p in files;
    Filter(files, p => IsImportingTest(sources, indexed, p, target))
  }

  function SourcesWithStem(files: seq<string>, stem: string): seq<string> {
    Filter(files, p => IsSourceWithStem(p, stem))
  }

  function TestsNamedAfter(files: seq<string>, stem: string): seq<string> {
    Filter(files, p => IsTestNamedAfter(p, stem))
  }

  function FindTests(files: seq<string>, sources: map<string, seq<ImportSite>>, target: string): seq<string> {
    var stem := Stem(target);
    Choose(ImportLinked(files, sources, target), |SourcesWithStem(files, stem)|, TestsNamedAfter(files, stem))
  }

  /** Imports win; the naming convention counts only when it is unambiguous on both sides. */
  function Choose(importing: seq<string>, sameStem: nat, named: seq<string>): seq<string> {
    if importing != [] then SortBy(importing, p => p)
    else if sameStem == 1 && |named| == 1 then named
    else []
  }

  lemma ChosenTests(importing: seq<string>, sameStem: nat, named: seq<string>, t: string)
    ensures t in Choose(importing, sameStem, named) <==>
            t in importing || (importing == [] && sameStem == 1 && named == [t])
  {
    SortByOk(importing, p => p);
    if importing == [] && |named| == 1 {
      assert named == [named[0]];
    }
  }

  ghost predicate ImportsAsTest(files: seq<string>, sources: map<string, seq<ImportSite>>, target: string, t: string) {
    t in files && IsCandidate(t) && Imports(sources, (set p | p in files), t, target)
  }

  lemma ImportLinkedIff(files: seq<string>, sources: map<string, seq<ImportSite>>, target: string, t: string)
    ensures t in ImportLinked(files, sources, target) <==> ImportsAsTest(files, sources, target, t)
  {}

  lemma NamedAfterIff(files: seq<string>, stem: string, t: string)
    ensures t in TestsNamedAfter(files, stem) <==> t in files && IsCandidate(t) && NamedAfter(stem, BaseName(t))
  {}

  /**
   A linked test is an indexed test file; either it imports the target, or no test
   file imports the target, it is the only test named after the target, and only one
   source file has that name.
   */
  lemma LinkedTests(files: seq<string>, sources: map<string, seq<ImportSite>>, target: string, t: string)
    ensures t in FindTests(files, sources, target) <==>
        || ImportsAsTest(files, sources, target, t)
        || (ImportLinked(files, sources, target) == []
            && |SourcesWithStem(files, Stem(target))| == 1
            && TestsNamedAfter(files, Stem(target)) == [t])
    ensures t in FindTests(files, sources, target) ==> t in files && IsCandidate(t)
  {
    ChosenTests(ImportLinked(files, sources, target), |SourcesWithStem(files, Stem(target))|,
                TestsNamedAfter(files, Stem(target)), t);
    ImportLinkedIff(files, sources, target, t);
    NamedAfterIff(files, Stem(target), t);
  }

  // ---------------------------------------------------------------- the loops

  lemma FilterSnoc<T>(xs: seq<T>, i: nat, p: T -> bool)
    requires i < |xs|
    ensures Filter(xs[..i + 1], p) == Filter(xs[..i], p) + if p(xs[i]) then [xs[i]] else []
  {
    assert xs[..i + 1][..i] == xs[..i];
  }

  /** A loop that pushes what satisfies a predicate. */
  method Collect<T>(xs: seq<T>, p: T -> bool) returns (r: seq<T>)
    ensures r == Filter(xs, p)
  {
    r := [];
    var i := 0;
    while i < |xs|
      invariant 0 <= i <= |xs|
      invariant r == Filter(xs[..i], p)
    {
      FilterSnoc(xs, i, p);
      if p(xs[i]) {
        r := r + [xs[i]];
      }
      i := i + 1;
    }
    assert xs[..i] == xs;
  }

  /** A loop that counts what satisfies a predicate. */
  method Count<T>(xs: seq<T>, p: T -> bool) returns (n: nat)
    ensures n == |Filter(xs, p)|
  {
    n := 0;
    var i := 0;
    while i < |xs|
      invariant 0 <= i <= |xs|
      invariant n == |Filter(xs[..i], p)|
    {
      FilterSnoc(xs, i, p);
      if p(xs[i]) {
        n := n + 1;
      }
      i := i + 1;
    }
    assert xs[..i] == xs;
  }

  /** Linked tests, computed as the code does: collect candidates, then links, then the fallback. */
  method FindTestsByLoops(files: seq<string>, sources: map<string, seq<ImportSite>>, target: string)
    returns (linked: seq<string>)
    ensures linked == FindTests(files, sources, target)
  {
    var indexed := set p | p in files;
    var importing := Collect(files, p => IsImportingTest(sources, indexed, p, target));
    if importing != [] {
      return SortBy(importing, p => p);
    }
    linked := BasenameFallback(files, Stem(target));
  }

  method CountSourcesWithStem(files: seq<string>, stem: string) returns (count: nat)
    ensures count == |SourcesWithStem(files, stem)|
  {
    count := Count(files, p => IsSourceWithStem(p, stem));
  }

  method CollectNamedAfter(files: seq<string>, stem: string) returns (named: seq<string>)
    ensures named == TestsNamedAfter(files, stem)
  {
    named := Collect(files, p => IsTestNamedAfter(p, stem));
  }

  method BasenameFallback(files: seq<string>, stem: string) returns (linked: seq<string>)
    ensures linked == if |SourcesWithStem(files, stem)| == 1 && |TestsNamedAfter(files, stem)| == 1
                      then TestsNamedAfter(files, stem) else []
  {
    var count := CountSourcesWithStem(files, stem);
    if count != 1 {
      return [];
    }
    var named := CollectNamedAfter(files, stem);
    if |named| == 1 {
      return named;
    }
    return [];
  }
}
