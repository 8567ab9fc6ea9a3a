/** The naming conventions of tests, spelled out character by character, and the rule for linking in these terms. */
module TestNames {
  import opened Ordering
  import opened Paths
  import opened ImportResolver
  import opened TestLinker

  // ---------------------------------------------------------------- base names

  /** What follows the last slash. */
  lemma BaseNameIs(d: string, b: string)
    requires '/' !in b
    ensures BaseName(b) == b && BaseName(d + "/" + b) == b
  {
    var p := d + "/" + b;
    assert p[|d|] == '/' && forall j :: |d| < j < |p| ==> p[j] == b[j - |d| - 1];
    assert LastIndexOf(p, '/') == |d|;
    assert p[|d| + 1..] == b;
    assert LastIndexOf(b, '/') == -1;
    assert b[0..] == b;
  }

  lemma {:induction false} ContainsIff(s: string, t: string)
    ensures Contains(s, t) <==> exists a, b :: s == a + t + b
  {
    if t <= s {
      assert s == "" + t + s[|t|..];
    } else if s != "" {
      ContainsIff(s[1..], t);
      if a, b :| s[1..] == a + t + b {
        assert s == [s[0]] + s[1..] == ([s[0]] + a) + t + b;
      }
      if a, b :| s == a + t + b {
        assert a == "" ==> s == t + b && t <= s;
        assert s[1..] == a[1..] + t + b;
      }
    } else {
      forall a, b ensures s != a + t + b {
        assert |a + t + b| == |a| + |t| + |b| && |t| > 0;
      }
    }
  }

  /** A test file has `.test.` or `.spec.` in its base name. */
  lemma CandidateIff(d: string, b: string)
    requires '/' !in b
    ensures IsCandidate(b) <==> IsCandidate(d + "/" + b)
    ensures IsCandidate(b) <==> exists x, y :: b == x + ".test." + y || b == x + ".spec." + y
  {
    BaseNameIs(d, b);
    ContainsIff(b, ".test.");
    ContainsIff(b, ".spec.");
    if x, y :| b == x + ".test." + y || b == x + ".spec." + y {
      assert Contains(b, ".test.") || Contains(b, ".spec.");
    }
  }

  lemma DotParts(a: string, e: string)
    ensures var b := a + "." + e; b[|a|] == '.' && b[..|a|] == a && b[|a| + 1..] == e
  {}

  lemma LastDot(a: string, e: string)
    requires '.' !in e
    ensures LastIndexOf(a + "." + e, '.') == |a| && (a + "." + e)[..|a|] == a && (a + "." + e)[|a| + 1..] == e
  {
    DotParts(a, e);
    var b := a + "." + e;
    forall j | |a| < j < |b| ensures b[j] != '.' {
      assert b[j] == b[|a| + 1..][j - |a| - 1];
      assert b[j] in e;
    }
  }

  /** The stem is the base name up to its last dot, unless that dot comes first or there is none. */
  lemma StemIs(d: string, b: string)
    requires '/' !in b
    ensures Stem(d + "/" + b) == Stem(b)
    ensures forall a, e :: b == a + "." + e && '.' !in e ==> Stem(b) == if a != "" then a else b
    ensures '.' !in b ==> Stem(b) == b
  {
    BaseNameIs(d, b);
    forall a, e | b == a + "." + e && '.' !in e ensures Stem(b) == if a != "" then a else b {
      LastDot(a, e);
    }
  }

  // ---------------------------------------------------------------- the naming convention

  /** The same letters, in capitals or not; `lower` is in small letters. */
  predicate SameLetters(s: string, lower: string) {
    |s| == |lower| && forall i :: 0 <= i < |s| ==> s[i] == lower[i] || s[i] as int + 32 == lower[i] as int
  }

  predicate SmallLetters(s: string) {
    forall i :: 0 <= i < |s| ==> 'a' <= s[i] <= 'z'
  }

  lemma LowerIs(s: string, lower: string)
    requires SmallLetters(lower)
    ensures Lower(s) == lower <==> SameLetters(s, lower)
  {
    if SameLetters(s, lower) {
      forall i | 0 <= i < |s| ensures LowerChar(s[i]) == lower[i] {
        LowerCharIs(s[i], lower[i]);
      }
    } else if Lower(s) == lower {
      forall i | 0 <= i < |s| ensures s[i] == lower[i] || s[i] as int + 32 == lower[i] as int {
        assert Lower(s)[i] == lower[i];
        LowerCharIs(s[i], lower[i]);
      }
    }
  }

  lemma LowerCharIs(c: char, l: char)
    requires 'a' <= l <= 'z'
    ensures LowerChar(c) == l <==> c == l || c as int + 32 == l as int
  {}

  /** The word of a test: `test` or `spec`. */
  predicate IsTestWord(s: string) {
    SameLetters(s, "test") || SameLetters(s, "spec")
  }

  /** An extension of the convention, without its dot. */
  predicate IsTestExt(s: string) {
    || SameLetters(s, "ts") || SameLetters(s, "tsx") || SameLetters(s, "js")
    || SameLetters(s, "jsx") || SameLetters(s, "mts") || SameLetters(s, "cts")
  }

  lemma TestWordIs(s: string)
    ensures Lower(s) in {"test", "spec"} <==> IsTestWord(s)
    ensures IsTestWord(s) ==> '.' !in s
  {
    LowerIs(s, "test");
    LowerIs(s, "spec");
  }

  lemma LowerDot(s: string)
    ensures Lower("." + s) == "." + Lower(s)
  {}

  lemma TestExtIs(s: string)
    ensures Lower("." + s) in TEST_EXTS <==> IsTestExt(s)
    ensures IsTestExt(s) ==> '.' !in s
  {
    LowerDot(s);
    DottedIs(Lower(s));
    LowerIs(s, "ts");
    LowerIs(s, "tsx");
    LowerIs(s, "js");
    LowerIs(s, "jsx");
    LowerIs(s, "mts");
    LowerIs(s, "cts");
  }

  lemma DottedIs(l: string)
    ensures "." + l in TEST_EXTS <==> l == "ts" || l == "tsx" || l == "js" || l == "jsx" || l == "mts" || l == "cts"
  {
    DotEq(l, "ts");
    DotEq(l, "tsx");
    DotEq(l, "js");
    DotEq(l, "jsx");
    DotEq(l, "mts");
    DotEq(l, "cts");
    assert "." + "ts" == ".ts" && "." + "tsx" == ".tsx" && "." + "js" == ".js";
    assert "." + "jsx" == ".jsx" && "." + "mts" == ".mts" && "." + "cts" == ".cts";
  }

  lemma DotEq(l: string, m: string)
    ensures "." + l == "." + m <==> l == m
  {
    assert ("." + l)[1..] == l && ("." + m)[1..] == m;
  }

  /** The base name is the stem, a dot, the word, a dot and the extension, and the stem is one line. */
  ghost predicate Convention(stem: string, b: string) {
    && (exists word, ext :: b == stem + "." + word + "." + ext && IsTestWord(word) && IsTestExt(ext))
    && forall c :: c in stem ==> c != '\n' && c != '\r' && c != '\U{2028}' && c != '\U{2029}'
  }

  lemma ConventionHolds(stem: string, word: string, ext: string)
    requires IsTestWord(word) && IsTestExt(ext) && forall c :: c in stem ==> c != '\n' && c != '\r' && c != '\U{2028}' && c != '\U{2029}'
    ensures NamedAfter(stem, stem + "." + word + "." + ext)
  {
    var b := stem + "." + word + "." + ext;
    TestWordIs(word);
    TestExtIs(ext);
    LastDot(stem + "." + word, ext);
    LastDot(stem, word);
    var dot := LastIndexOf(b, '.');
    assert b[..dot] == stem + "." + word;
    assert b[|stem| + 1..dot] == b[..dot][|stem| + 1..] == word;
    assert b[dot..] == "." + ext;
    assert b[..|stem|] == stem;
  }

  lemma ConventionFound(stem: string, b: string)
    requires NamedAfter(stem, b)
    ensures Convention(stem, b)
  {
    var dot := LastIndexOf(b, '.');
    var dot' := LastIndexOf(b[..dot], '.');
    var word, ext := b[dot' + 1..dot], b[dot + 1..];
    TestWordIs(word);
    assert b[dot..] == "." + ext;
    TestExtIs(ext);
    assert b == stem + "." + word + "." + ext;
  }

  lemma NamedAfterIff(stem: string, b: string)
    ensures NamedAfter(stem, b) <==> Convention(stem, b)
  {
    if NamedAfter(stem, b) {
      ConventionFound(stem, b);
    }
    if Convention(stem, b) {
      var word, ext :| b == stem + "." + word + "." + ext && IsTestWord(word) && IsTestExt(ext);
      ConventionHolds(stem, word, ext);
    }
  }

  // ---------------------------------------------------------------- linking

  /** Where the list has files that are no tests and have the stem. */
  ghost function SourcesAt(files: seq<string>, stem: string): set<nat> {
    set i: nat | i < |files| && !IsCandidate(files[i]) && Stem(files[i]) == stem
  }

  /** Where it has tests that follow the convention for the stem. */
  ghost function TestsAt(files: seq<string>, stem: string): set<nat> {
    set i: nat | i < |files| && IsCandidate(files[i]) && Convention(stem, BaseName(files[i]))
  }

  ghost function PositionsOf<T>(xs: seq<T>, p: T -> bool): set<nat> {
    set i: nat | i < |xs| && p(xs[i])
  }

  /** Filtering keeps as many entries as there are positions with the property. */
  lemma {:induction false} FilterCount<T>(xs: seq<T>, p: T -> bool)
    ensures |Filter(xs, p)| == |PositionsOf(xs, p)|
  {
    if xs != [] {
      var n := |xs| - 1;
      FilterCount(xs[..n], p);
      var before := PositionsOf(xs[..n], p);
      assert n !in before;
      assert PositionsOf(xs, p) == before + if p(xs[n]) then {n} else {};
    }
  }

  lemma SourcesCounted(files: seq<string>, stem: string)
    ensures |SourcesWithStem(files, stem)| == |SourcesAt(files, stem)|
  {
    var p := (f: string) => IsSourceWithStem(f, stem);
    FilterCount(files, p);
    assert PositionsOf(files, p) == SourcesAt(files, stem);
    assert SourcesWithStem(files, stem) == Filter(files, p);
  }

  lemma TestsCounted(files: seq<string>, stem: string)
    ensures |TestsNamedAfter(files, stem)| == |TestsAt(files, stem)|
  {
    var p := (f: string) => IsTestNamedAfter(f, stem);
    FilterCount(files, p);
    forall i: nat | i < |files| ensures p(files[i]) <==> IsCandidate(files[i]) && Convention(stem, BaseName(files[i])) {
      NamedAfterIff(stem, BaseName(files[i]));
    }
    assert PositionsOf(files, p) == TestsAt(files, stem);
    assert TestsNamedAfter(files, stem) == Filter(files, p);
  }

  /** An indexed test file has an import that resolves to the target. */
  ghost predicate ImportsTarget(files: seq<string>, sources: map<string, seq<ImportSite>>, target: string, t: string) {
    && t in files && IsCandidate(t) && t in sources
    && exists site :: site in sources[t] && ResolveTarget(site.specifier, t, (set p | p in files)) == FileTarget(target)
  }

  lemma ImportsTargetIs(files: seq<string>, sources: map<string, seq<ImportSite>>, target: string, t: string)
    ensures ImportsAsTest(files, sources, target, t) <==> ImportsTarget(files, sources, target, t)
  {}

  /**
   A test file is linked to a target exactly if it imports the target, or no test file does,
   it is the only indexed test file that follows the convention for the target's stem, and
   exactly one indexed file that is no test has that stem.
   */
  lemma LinkedExactly(files: seq<string>, sources: map<string, seq<ImportSite>>, target: string, t: string)
    ensures t in FindTests(files, sources, target) <==>
      || ImportsTarget(files, sources, target, t)
      || (&& (forall u :: !ImportsTarget(files, sources, target, u))
          && |SourcesAt(files, Stem(target))| == 1 && |TestsAt(files, Stem(target))| == 1
          && t in files && IsCandidate(t) && Convention(Stem(target), BaseName(t)))
  {
    LinkedTests(files, sources, target, t);
    NamedAfterIff(Stem(target), BaseName(t));
    SourcesCounted(files, Stem(target));
    TestsCounted(files, Stem(target));
    NoImporters(files, sources, target);
    forall u ensures ImportsAsTest(files, sources, target, u) <==> ImportsTarget(files, sources, target, u) {
      ImportsTargetIs(files, sources, target, u);
    }
    OnlyNamed(files, Stem(target), t);
  }

  lemma NoImporters(files: seq<string>, sources: map<string, seq<ImportSite>>, target: string)
    ensures ImportLinked(files, sources, target) == [] <==> forall u :: !ImportsAsTest(files, sources, target, u)
  {
    var linked := ImportLinked(files, sources, target);
    forall u ensures u in linked <==> ImportsAsTest(files, sources, target, u) {
      ImportLinkedIff(files, sources, target, u);
    }
    assert linked != [] ==> linked[0] in linked;
  }

  lemma OnlyNamed(files: seq<string>, stem: string, t: string)
    ensures TestsNamedAfter(files, stem) == [t] <==>
            |TestsNamedAfter(files, stem)| == 1 && t in files && IsCandidate(t) && NamedAfter(stem, BaseName(t))
  {
    var named := TestsNamedAfter(files, stem);
    TestLinker.NamedAfterIff(files, stem, t);
    if |named| == 1 {
      assert named == [named[0]];
    }
  }

  /** Tests that import the target are listed in path order. */
  lemma LinkedInOrder(files: seq<string>, sources: map<string, seq<ImportSite>>, target: string)
    ensures var l := FindTests(files, sources, target); forall i, j :: 0 <= i < j < |l| ==> Leq(l[i], l[j])
  {
    var importing := ImportLinked(files, sources, target);
    SortByOk(importing, p => p);
    var l := FindTests(files, sources, target);
    if importing != [] {
      var key := (p: string) => p;
      forall i, j | 0 <= i < j < |l| ensures Leq(l[i], l[j]) {
        assert Leq(key(l[i]), key(l[j]));
      }
    }
  }
}
