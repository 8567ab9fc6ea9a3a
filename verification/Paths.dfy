/** Path strings: the repository's own normalisation and the POSIX `join` and `extname` it relies on. */
module Paths {

  function Split(s: string): (r: seq<string>)
    ensures r != []
  {
    if s == "" then [""]
    else
      var rest := Split(s[1..]);
      if s[0] == '/' then [""] + rest else [[s[0]] + rest[0]] + rest[1..]
  }

  function Join(segs: seq<string>): string {
    if segs == [] then "" else if |segs| == 1 then segs[0] else segs[0] + "/" + Join(segs[1..])
  }

  /** The last position of a character, or -1. */
  function LastIndexOf(s: string, c: char): (i: int)
    ensures -1 <= i < |s|
    ensures i >= 0 ==> s[i] == c
    ensures forall j :: i < j < |s| ==> s[j] != c
  {
    if s == "" then -1
    else if s[|s| - 1] == c then |s| - 1
    else LastIndexOf(s[..|s| - 1], c)
  }

  predicate StartsWith(s: string, prefix: string) {
    prefix <= s
  }

  function Replace(s: string, a: char, b: char): (r: string)
    ensures |r| == |s| && forall i :: 0 <= i < |s| ==> r[i] == if s[i] == a then b else s[i]
  {
    seq(|s|, i requires 0 <= i < |s| => if s[i] == a then b else s[i])
  }

  function CollapseSlashes(s: string): string {
    if |s| < 2 then s
    else if s[0] == '/' && s[1] == '/' then CollapseSlashes(s[1..])
    else [s[0]] + CollapseSlashes(s[1..])
  }

  function NormalizePath(p: string): (r: string)
    ensures r != ""
  {
    if p == "" then "."
    else
      var s := CollapseSlashes(Replace(p, '\\', '/'));
      var s := if StartsWith(s, "./") then s[2..] else s;
      var s := if |s| > 1 && s[|s| - 1] == '/' then s[..|s| - 1] else s;
      if s == "" || s == "/" then "." else s
  }

  /** Resolve `.` and `..`; `..` above the start is kept only when `above` is set. */
  function ResolveDots(segs: seq<string>, acc: seq<string>, above: bool): seq<string>
    decreases |segs|
  {
    if segs == [] then acc
    else
      var h, t := segs[0], segs[1..];
      if h == "" || h == "." then ResolveDots(t, acc, above)
      else if h != ".." then ResolveDots(t, acc + [h], above)
      else if acc != [] && acc[|acc| - 1] != ".." then ResolveDots(t, acc[..|acc| - 1], above)
      else if above then ResolveDots(t, acc + [".."], above)
      else ResolveDots(t, acc, above)
  }

  function PosixNormalize(p: string): string {
    if p == "" then "."
    else
      var absolute := p[0] == '/';
      var trailing := p[|p| - 1] == '/';
      Decorate(absolute, trailing, Join(ResolveDots(Split(p), [], !absolute)))
  }

  /** Put back the slashes around the resolved segments. */
  function Decorate(absolute: bool, trailing: bool, out: string): string {
    if out == "" then (if absolute then "/" else if trailing then "./" else ".")
    else (if absolute then "/" else "") + out + (if trailing then "/" else "")
  }

  function PosixJoin(a: string, b: string): string {
    if a == "" then PosixNormalize(b)
    else if b == "" then PosixNormalize(a)
    else PosixNormalize(a + "/" + b)
  }

  /** The extension with its dot; a dot that starts the base name does not count. */
  function ExtName(p: string): (e: string)
    ensures |e| <= |p| && p[|p| - |e|..] == e
    ensures e != "" ==> |e| < |p| && p[|p| - |e| - 1] != '/' && '/' !in e
  {
    var b := LastIndexOf(p, '/') + 1;
    var d := LastIndexOf(p, '.');
    if d > b then p[d..] else ""
  }

  // ---------------------------------------------------------------- canonical paths

  predicate GoodSegment(s: string) {
    s != "" && s != "." && s != ".." && '\\' !in s
  }

  /** What the repository walk produces: no empty, `.` or `..` segment and no backslash. */
  predicate Canonical(p: string) {
    forall s :: s in Split(p) ==> GoodSegment(s)
  }

  lemma {:induction false} CollapseSingle(s: string)
    requires forall i :: 0 <= i < |s| - 1 ==> !(s[i] == '/' && s[i + 1] == '/')
    ensures CollapseSlashes(s) == s
  {
    if |s| >= 2 {
      CollapseSingle(s[1..]);
    }
  }

  /** In a canonical path every slash has a segment on both sides. */
  lemma {:induction false} SplitSlashes(s: string)
    requires forall x :: x in Split(s)[1..] ==> x != ""
    ensures forall i :: 0 <= i < |s| && s[i] == '/' ==> i + 1 < |s| && s[i + 1] != '/'
    ensures s != "" && s[0] == '/' ==> Split(s)[0] == ""
  {
    if s != "" {
      var rest := Split(s[1..]);
      if s[0] == '/' {
        assert Split(s)[1..] == rest;
        assert rest[0] in Split(s)[1..];
      } else {
        assert Split(s)[1..] == rest[1..];
      }
      forall x | x in rest[1..] ensures x != "" { assert x in Split(s)[1..]; }
      SplitSlashes(s[1..]);
    }
  }

  lemma {:induction false} SplitNoBackslash(s: string)
    requires forall x :: x in Split(s) ==> '\\' !in x
    ensures '\\' !in s
  {
    if s != "" {
      var rest := Split(s[1..]);
      forall x | x in rest ensures '\\' !in x {
        if s[0] == '/' {
          assert Split(s) == [""] + rest;
          assert x in Split(s);
        } else if x in rest[1..] {
          assert x in Split(s);
        } else {
          assert x == rest[0] && Split(s)[0] == [s[0]] + x;
          assert Split(s)[0] in Split(s);
          assert forall c :: c in x ==> c in [s[0]] + x;
        }
      }
      SplitNoBackslash(s[1..]);
      assert Split(s)[0] in Split(s) && (s[0] != '/' ==> s[0] in Split(s)[0]);
      assert forall c :: c in s <==> c == s[0] || c in s[1..];
    }
  }

  lemma SplitSlashFirst(p: string)
    ensures p != "" && p[0] == '/' ==> Split(p)[0] == ""
  {}

  lemma SplitDotSlash(p: string)
    ensures StartsWith(p, "./") ==> Split(p)[0] == "."
  {
    if StartsWith(p, "./") {
      assert p[0] == '.' && p[1] == '/' && p[1..][0] == '/';
      assert Split(p[1..])[0] == "";
    }
  }

  /** Segments that survive normalisation: none empty, no backslash, the first one not `.`. */
  predicate Plain(segs: seq<string>) {
    segs != [] && segs[0] != "." && forall s :: s in segs ==> s != "" && '\\' !in s
  }

  /** Nothing for normalisation to rewrite, collapse or strip in front. */
  predicate Tidy(p: string) {
    && p != "" && p != "." && !StartsWith(p, "./") && p[|p| - 1] != '/'
    && (forall i :: 0 <= i < |p| ==> p[i] != '\\')
    && (forall i :: 0 <= i < |p| - 1 ==> !(p[i] == '/' && p[i + 1] == '/'))
  }

  lemma TidyNormal(p: string)
    requires Tidy(p)
    ensures NormalizePath(p) == p
  {
    assert Replace(p, '\\', '/') == p;
    CollapseSingle(p);
  }

  /** Normalisation when nothing but the last slash is to go. */
  lemma StripLast(p: string)
    requires p != "" && p != "/" && CollapseSlashes(Replace(p + "/", '\\', '/')) == p + "/" && !StartsWith(p + "/", "./")
    ensures NormalizePath(p + "/") == p
  {
    assert (p + "/")[..|p|] == p;
  }

  lemma TidyCollapsed(p: string)
    requires Tidy(p)
    ensures CollapseSlashes(Replace(p + "/", '\\', '/')) == p + "/"
  {
    var s := p + "/";
    forall i | 0 <= i < |s| ensures s[i] != '\\' { assert i < |p| ==> s[i] == p[i]; }
    assert Replace(s, '\\', '/') == s;
    forall i | 0 <= i < |s| - 1 ensures !(s[i] == '/' && s[i + 1] == '/') {
      assert s[i] == p[i] && (i < |p| - 1 ==> s[i + 1] == p[i + 1]);
    }
    CollapseSingle(s);
  }

  lemma TidySlashNormal(p: string)
    requires Tidy(p)
    ensures NormalizePath(p + "/") == p
  {
    TidyCollapsed(p);
    TidySlashStart(p);
    StripLast(p);
  }

  lemma TidySlashStart(p: string)
    requires Tidy(p)
    ensures !StartsWith(p + "/", "./")
  {
    if |p| == 1 {
      assert p == [p[0]] && p[0] != '.';
      assert (p + "/")[0] == p[0];
    } else {
      assert (p + "/")[..2] == p[..2];
    }
  }

  /** Normalisation only drops a trailing slash from a path with plain segments. */
  lemma PlainNormal(p: string)
    requires Plain(Split(p))
    ensures NormalizePath(p) == p && NormalizePath(p + "/") == p && p != ""
  {
    var segs := Split(p);
    assert segs[0] in segs;
    forall x | x in segs[1..] ensures x != "" { assert x in segs; }
    SplitSlashes(p);
    SplitNoBackslash(p);
    SplitDotSlash(p);
    SplitSegment(".");
    forall i | 0 <= i < |p| ensures p[i] != '\\' { assert p[i] in p; }
    TidyNormal(p);
    TidySlashNormal(p);
  }

  /** Normalisation leaves canonical paths alone. */
  lemma CanonicalNormal(p: string)
    requires Canonical(p)
    ensures NormalizePath(p) == p && p != ""
  {
    assert Split(p)[0] in Split(p);
    PlainNormal(p);
  }

  // ---------------------------------------------------------------- splitting and joining

  lemma {:induction false} SplitSegment(s: string)
    requires '/' !in s
    ensures Split(s) == [s]
  {
    if s != "" {
      assert s[0] in s;
      forall c | c in s[1..] ensures c in s {}
      SplitSegment(s[1..]);
      assert [s[0]] + s[1..] == s;
    }
  }

  lemma SplitCons(c: char, s: string)
    ensures Split([c] + s) == if c == '/' then [""] + Split(s) else [[c] + Split(s)[0]] + Split(s)[1..]
  {
    assert ([c] + s)[1..] == s;
  }

  lemma ConsAppend(c: char, r: seq<string>, rest: seq<string>)
    requires r != []
    ensures [""] + (r + rest) == [""] + r + rest
    ensures [[c] + (r + rest)[0]] + (r + rest)[1..] == [[c] + r[0]] + r[1..] + rest
  {}

  /** Putting one more character in front keeps a split apart. */
  lemma SplitConsAppend(c: char, t: string, b: string)
    requires Split(t + "/" + b) == Split(t) + Split(b)
    ensures Split([c] + (t + "/" + b)) == Split([c] + t) + Split(b)
  {
    SplitCons(c, t);
    SplitCons(c, t + "/" + b);
    ConsAppend(c, Split(t), Split(b));
  }

  lemma {:induction false} SplitAppend(a: string, b: string)
    ensures Split(a + "/" + b) == Split(a) + Split(b)
  {
    if a == "" {
      SplitCons('/', b);
      assert a + "/" + b == ['/'] + b;
    } else {
      var t := a[1..];
      SplitAppend(t, b);
      SplitConsAppend(a[0], t, b);
      assert a == [a[0]] + t && a + "/" + b == [a[0]] + (t + "/" + b);
    }
  }

  lemma {:induction false} SplitJoin(segs: seq<string>)
    requires segs != [] && forall s :: s in segs ==> '/' !in s
    ensures Split(Join(segs)) == segs
  {
    SplitSegment(segs[0]);
    if |segs| > 1 {
      forall s | s in segs[1..] ensures '/' !in s { assert s in segs; }
      SplitJoin(segs[1..]);
      SplitAppend(segs[0], Join(segs[1..]));
    }
  }

  lemma {:induction false} JoinSplit(s: string)
    ensures Join(Split(s)) == s
  {
    if s != "" {
      var t := s[1..];
      JoinSplit(t);
      SplitCons(s[0], t);
      assert s == [s[0]] + t;
      JoinCons(s[0], Split(t));
    }
  }

  lemma JoinCons(c: char, segs: seq<string>)
    requires segs != []
    ensures Join([""] + segs) == "/" + Join(segs)
    ensures Join([[c] + segs[0]] + segs[1..]) == [c] + Join(segs)
  {
    JoinTwo("", segs);
    var empty: string := "";
    assert empty + "/" + Join(segs) == "/" + Join(segs);
    if |segs| > 1 {
      JoinTwo([c] + segs[0], segs[1..]);
      JoinTwo(segs[0], segs[1..]);
      assert segs == [segs[0]] + segs[1..];
      ConcatRegroup([c], segs[0], "/", Join(segs[1..]));
    }
  }

  lemma JoinTwo(first: string, rest: seq<string>)
    requires rest != []
    ensures Join([first] + rest) == first + "/" + Join(rest)
  {
    assert ([first] + rest)[1..] == rest;
  }

  lemma ConcatRegroup(a: string, b: string, c: string, d: string)
    ensures a + b + c + d == a + (b + c + d)
  {}

  lemma {:induction false} SplitNoSlash(s: string)
    ensures forall x :: x in Split(s) ==> '/' !in x
  {
    if s != "" {
      SplitNoSlash(s[1..]);
      var rest := Split(s[1..]);
      assert rest[0] in rest;
      forall x | x in Split(s) ensures '/' !in x {
        if s[0] == '/' {
          assert x == "" || x in rest;
        } else {
          assert x == [s[0]] + rest[0] || x in rest[1..];
          if x in rest[1..] { assert x in rest; }
        }
      }
    }
  }

  // ---------------------------------------------------------------- resolving dots

  /** Segments that are resolved one after the other. */
  lemma {:induction false} ResolveAppend(a: seq<string>, b: seq<string>, acc: seq<string>, above: bool)
    ensures ResolveDots(a + b, acc, above) == ResolveDots(b, ResolveDots(a, acc, above), above)
    decreases |a|
  {
    if a == [] {
      assert a + b == b;
    } else {
      assert (a + b)[1..] == a[1..] + b;
      var h := a[0];
      var acc' := if h == "" || h == "." then acc
                  else if h != ".." then acc + [h]
                  else if acc != [] && acc[|acc| - 1] != ".." then acc[..|acc| - 1]
                  else if above then acc + [".."] else acc;
      ResolveAppend(a[1..], b, acc', above);
    }
  }

  /** Ordinary segments are kept. */
  lemma {:induction false} ResolveGood(segs: seq<string>, acc: seq<string>, above: bool)
    requires forall s :: s in segs ==> GoodSegment(s)
    ensures ResolveDots(segs, acc, above) == acc + segs
    decreases |segs|
  {
    if segs != [] {
      assert segs[0] in segs;
      forall s | s in segs[1..] ensures GoodSegment(s) { assert s in segs; }
      ResolveGood(segs[1..], acc + [segs[0]], above);
    }
  }

  function Ups(k: nat): (r: seq<string>)
    ensures |r| == k && forall i :: 0 <= i < k ==> r[i] == ".."
  {
    seq(k, i => "..")
  }

  /** A run of `..` removes directories and, once none is left, climbs above the start. */
  lemma {:induction false} ResolveUps(k: nat, acc: seq<string>)
    requires forall s :: s in acc ==> s != ".."
    ensures ResolveDots(Ups(k), acc, true) == if k <= |acc| then acc[..|acc| - k] else Ups(k - |acc|)
    decreases k
  {
    if k > 0 {
      assert Ups(k)[1..] == Ups(k - 1);
      if acc != [] {
        var acc' := acc[..|acc| - 1];
        assert acc[|acc| - 1] in acc;
        forall s | s in acc' ensures s != ".." { assert s in acc; }
        ResolveUps(k - 1, acc');
      } else {
        ResolveClimbed(k - 1, 1);
        assert acc + [".."] == Ups(1);
      }
    }
  }

  lemma {:induction false} ResolveClimbed(k: nat, n: nat)
    ensures ResolveDots(Ups(k), Ups(n), true) == Ups(n + k)
    decreases k
  {
    if k > 0 {
      assert Ups(k)[1..] == Ups(k - 1);
      assert Ups(n) + [".."] == Ups(n + 1);
      ResolveClimbed(k - 1, n + 1);
    }
  }

  /** Nothing removes a leading `..`. */
  lemma {:induction false} ResolveKeepsClimb(segs: seq<string>, acc: seq<string>)
    requires acc != [] && acc[0] == ".."
    ensures var r := ResolveDots(segs, acc, true); r != [] && r[0] == ".."
    decreases |segs|
  {
    if segs != [] {
      var h := segs[0];
      var acc' := if h == "" || h == "." then acc
                  else if h != ".." then acc + [h]
                  else if acc[|acc| - 1] != ".." then acc[..|acc| - 1]
                  else acc + [".."];
      ResolveKeepsClimb(segs[1..], acc');
    }
  }

  /** Resolving keeps segments as they are, except for those that name nothing. */
  lemma {:induction false} ResolveMembers(segs: seq<string>, acc: seq<string>, above: bool)
    ensures forall s :: s in ResolveDots(segs, acc, above) ==> s in acc || s == ".." || (s in segs && s != "" && s != ".")
    decreases |segs|
  {
    if segs != [] {
      var h := segs[0];
      var acc' := if h == "" || h == "." then acc
                  else if h != ".." then acc + [h]
                  else if acc != [] && acc[|acc| - 1] != ".." then acc[..|acc| - 1]
                  else if above then acc + [".."] else acc;
      ResolveMembers(segs[1..], acc', above);
      assert forall s :: s in acc' ==> s in acc || s == ".." || (s == h && s != "" && s != ".");
      assert forall s :: s in segs[1..] ==> s in segs;
      assert h in segs;
    }
  }

  lemma {:induction false} SplitKeepsOut(s: string, c: char)
    requires c !in s
    ensures forall x :: x in Split(s) ==> c !in x
  {
    if s != "" {
      assert s[0] in s && forall d :: d in s[1..] ==> d in s;
      SplitKeepsOut(s[1..], c);
      var rest := Split(s[1..]);
      assert rest[0] in rest;
      forall x | x in Split(s) ensures c !in x {
        if s[0] == '/' {
          assert x == "" || x in rest;
        } else {
          assert x == [s[0]] + rest[0] || x in rest[1..];
          if x in rest[1..] { assert x in rest; }
        }
      }
    }
  }
}
