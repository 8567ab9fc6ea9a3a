/** What the validator accepts and what the generated name is, spelled out. */
module ChromaNames {
  import opened Chroma

  // ---------------------------------------------------------------- the validator

  predicate Digits(s: string) {
    forall i :: 0 <= i < |s| ==> '0' <= s[i] <= '9'
  }

  /** Runs of digits with dots between them. */
  function Dotted(groups: seq<string>): string {
    if groups == [] then "" else if |groups| == 1 then groups[0] else groups[0] + "." + Dotted(groups[1..])
  }

  /** Groups of digits, none empty but possibly the first one. */
  ghost predicate Groups(groups: seq<string>, mayStartEmpty: bool) {
    && (forall i :: 0 <= i < |groups| ==> Digits(groups[i]))
    && (forall i :: 0 <= i < |groups| && (i > 0 || !mayStartEmpty) ==> groups[i] != "")
  }

  lemma DigitsTail(s: string)
    requires s != "" && Digits(s)
    ensures '0' <= s[0] <= '9' && Digits(s[1..])
  {}

  /** One more digit in front of the first group. */
  lemma DottedCons(c: char, groups: seq<string>)
    requires groups != []
    ensures Dotted([[c] + groups[0]] + groups[1..]) == [c] + Dotted(groups)
  {
    var more := [[c] + groups[0]] + groups[1..];
    assert more[1..] == groups[1..];
    if |groups| > 1 {
      assert [c] + groups[0] + "." + Dotted(groups[1..]) == [c] + (groups[0] + "." + Dotted(groups[1..]));
    }
  }

  /** One more group, empty so far, in front. */
  lemma DottedEmpty(groups: seq<string>)
    requires groups != []
    ensures Dotted([""] + groups) == "." + Dotted(groups)
  {
    assert ([""] + groups)[1..] == groups;
    var empty: string := "";
    assert empty + "." + Dotted(groups) == "." + Dotted(groups);
  }

  lemma {:induction false} FindGroups(s: string, n: nat, count: nat) returns (groups: seq<string>)
    requires DigitGroups(s, n, count)
    ensures |groups| == count && s == Dotted(groups) && Groups(groups, n > 0)
    decreases |s|
  {
    if s == "" {
      groups := [""];
    } else if IsDigit(s[0]) {
      var rest := FindGroups(s[1..], n + 1, count);
      groups := [[s[0]] + rest[0]] + rest[1..];
      DottedCons(s[0], rest);
      assert s == [s[0]] + s[1..];
      assert Digits(rest[0]);
    } else {
      var rest := FindGroups(s[1..], 0, count - 1);
      groups := [""] + rest;
      DottedEmpty(rest);
      assert s == "." + s[1..];
    }
  }

  lemma {:induction false} GroupsAreFound(groups: seq<string>, n: nat)
    requires groups != [] && Groups(groups, n > 0)
    ensures DigitGroups(Dotted(groups), n, |groups|)
    decreases |groups|, |groups[0]|
  {
    if groups[0] != "" {
      var c, first := groups[0][0], groups[0][1..];
      var rest := [first] + groups[1..];
      DigitsTail(groups[0]);
      assert [[c] + rest[0]] + rest[1..] == groups by {
        assert groups[0] == [c] + first && rest[1..] == groups[1..];
      }
      DottedCons(c, rest);
      GroupsAreFound(rest, n + 1);
      assert Dotted(groups)[1..] == Dotted(rest);
    } else if |groups| > 1 {
      var rest := groups[1..];
      assert groups == [""] + rest;
      DottedEmpty(rest);
      assert Groups(rest, false) by {
        forall i | 0 <= i < |rest| ensures Digits(rest[i]) && rest[i] != "" { assert rest[i] == groups[i + 1]; }
      }
      GroupsAreFound(rest, 0);
      assert Dotted(groups)[1..] == Dotted(rest);
    }
  }

  /** Four runs of digits with dots between them. */
  ghost predicate LooksLikeAddress(s: string) {
    exists a, b, c, d ::
      && a != "" && b != "" && c != "" && d != "" && Digits(a) && Digits(b) && Digits(c) && Digits(d)
      && s == a + "." + b + "." + c + "." + d
  }

  lemma FourDotted(a: string, b: string, c: string, d: string)
    ensures Dotted([a, b, c, d]) == a + "." + b + "." + c + "." + d
  {
    assert [a, b, c, d][1..] == [b, c, d] && [b, c, d][1..] == [c, d] && [c, d][1..] == [d];
    assert Dotted([c, d]) == c + "." + d;
    assert Dotted([b, c, d]) == b + "." + (c + "." + d);
    assert a + "." + (b + "." + (c + "." + d)) == a + "." + b + "." + c + "." + d;
  }

  lemma AddressIsFour(a: string, b: string, c: string, d: string)
    requires a != "" && b != "" && c != "" && d != "" && Digits(a) && Digits(b) && Digits(c) && Digits(d)
    ensures DigitGroups(a + "." + b + "." + c + "." + d, 0, 4)
  {
    FourDotted(a, b, c, d);
    GroupsAreFound([a, b, c, d], 0);
  }

  lemma FourIsAddress(s: string)
    requires DigitGroups(s, 0, 4)
    ensures LooksLikeAddress(s)
  {
    var g := FindGroups(s, 0, 4);
    assert g == [g[0], g[1], g[2], g[3]];
    FourDotted(g[0], g[1], g[2], g[3]);
  }

  lemma AddressIff(s: string)
    ensures DigitGroups(s, 0, 4) <==> LooksLikeAddress(s)
  {
    if DigitGroups(s, 0, 4) { FourIsAddress(s); }
    if LooksLikeAddress(s) {
      var a, b, c, d :|
        && a != "" && b != "" && c != "" && d != "" && Digits(a) && Digits(b) && Digits(c) && Digits(d)
        && s == a + "." + b + "." + c + "." + d;
      AddressIsFour(a, b, c, d);
    }
  }

  predicate Alphanumeric(c: char) {
    '0' <= c <= '9' || 'A' <= c <= 'Z' || 'a' <= c <= 'z'
  }

  /** The validator: length, ends, characters, no two dots in a row and no look of an address. */
  lemma AcceptedIff(name: string)
    ensures Accepted(name) <==>
      && 3 <= |name| <= 63 && Alphanumeric(name[0]) && Alphanumeric(name[|name| - 1])
      && (forall i :: 0 <= i < |name| ==> Alphanumeric(name[i]) || name[i] == '.' || name[i] == '_' || name[i] == '-')
      && (forall i :: 0 <= i < |name| - 1 ==> !(name[i] == '.' && name[i + 1] == '.'))
      && !LooksLikeAddress(name)
  {
    AddressIff(name);
  }

  // ---------------------------------------------------------------- the generator

  /** Every unit that is not an allowed ASCII character becomes an underscore, the others stay. */
  lemma SanitizeIs(id: seq<CodeUnit>)
    ensures |Sanitize(id)| == |id|
    ensures forall i :: 0 <= i < |id| ==>
      var u := id[i] as int;
      if 48 <= u <= 57 || 65 <= u <= 90 || 97 <= u <= 122 || u == 45 || u == 46 || u == 95
      then Sanitize(id)[i] as int == u else Sanitize(id)[i] == '_'
  {}

  function Dots(n: nat): (r: string)
    ensures |r| == n && forall i :: 0 <= i < n ==> r[i] == '.'
  {
    seq(n, i => '.')
  }

  lemma {:induction false} LeadingDotsOf(n: nat, b: string)
    requires b == "" || b[0] != '.'
    ensures LeadingDots(Dots(n) + b) == n
  {
    var s := Dots(n) + b;
    assert forall i :: 0 <= i < n ==> s[i] == '.';
    if b == "" {
      assert |s| == n;
    } else {
      assert s[n] == b[0];
      SameLeadingDots(s, n);
    }
  }

  /** A run of dots on its own is kept if it is one dot and becomes one underscore if it is longer. */
  lemma CollapseRun(n: nat, b: string)
    requires n > 0 && (b == "" || b[0] != '.')
    ensures CollapseDots(Dots(n) + b) == (if n == 1 then "." else "_") + CollapseDots(b)
  {
    LeadingDotsOf(n, b);
    var s := Dots(n) + b;
    assert s[n..] == b;
    assert s[0] == '.';
  }

  lemma SameLeadingDots(s: string, n: nat)
    requires n < |s| && s[n] != '.' && forall i :: 0 <= i < n ==> s[i] == '.'
    ensures LeadingDots(s) == n
  {
    var m := LeadingDots(s);
    assert m >= n;
    assert m <= n;
  }

  /** What comes before a character that is no dot, that character included, is treated on its own. */
  lemma {:induction false} CollapseAfter(a: string, b: string)
    requires a != "" ==> a[|a| - 1] != '.'
    ensures CollapseDots(a + b) == CollapseDots(a) + CollapseDots(b)
    decreases |a|
  {
    if a == "" {
      assert a + b == b;
    } else {
      var ab, n := a + b, LeadingDots(a);
      var k := if n >= 2 then n else 1;
      SameLeadingDots(ab, n) by { assert ab[n] == a[n] && forall i :: 0 <= i < n ==> ab[i] == a[i]; }
      assert ab[k..] == a[k..] + b;
      CollapseAfter(a[k..], b);
      CollapseStep(a, n, k);
      CollapseStep(ab, n, k);
      Associates(if n >= 2 then "_" else [a[0]], CollapseDots(a[k..]), CollapseDots(b));
    }
  }

  lemma Associates(a: string, b: string, c: string)
    ensures a + b + c == a + (b + c)
  {}

  lemma {:induction false} CollapseStep(s: string, n: nat, k: nat)
    requires s != "" && n == LeadingDots(s) && k == if n >= 2 then n else 1
    ensures CollapseDots(s) == (if n >= 2 then "_" else [s[0]]) + CollapseDots(s[k..])
  {}

  /** Text without dots is left alone. */
  lemma {:induction false} CollapseNoDots(s: string)
    requires '.' !in s
    ensures CollapseDots(s) == s
    decreases |s|
  {
    if s != "" {
      assert s[0] in s && LeadingDots(s) == 0;
      CollapseNoDots(s[1..]);
      assert s == [s[0]] + s[1..];
    }
  }

  /** The name is the text with everything behind its last alphanumeric character, if anything is, made one zero. */
  ghost predicate EndsAt(cut: string, n: nat, name: string) {
    && 0 < n <= |cut| && Alphanumeric(cut[n - 1]) && (forall i :: n <= i < |cut| ==> !Alphanumeric(cut[i]))
    && name == if n == |cut| then cut else cut[..n] + "0"
  }

  ghost predicate EndsAsKept(cut: string, name: string) {
    exists n: nat :: EndsAt(cut, n, name)
  }

  /** The generated name is the prefix and the sanitised id with its runs of dots collapsed, cut after 63 characters. */
  lemma NameIs(id: seq<CodeUnit>)
    ensures var full := "rector-mem-" + CollapseDots(Sanitize(id));
      EndsAsKept(if |full| <= 63 then full else full[..63], FixEnd(Truncate(PREFIX + CollapseDots(Sanitize(id)))))
  {
    var full := PREFIX + CollapseDots(Sanitize(id));
    var cut := Truncate(full);
    assert cut[9] == full[9] == 'm';
    var n := KeptLength(cut);
    assert n > 0;
    assert EndsAt(cut, n, FixEnd(cut));
  }

  /** A short clean id is kept as it is behind the prefix. */
  lemma PlainIdKept(id: seq<CodeUnit>, s: string)
    requires |id| == |s| && (forall i :: 0 <= i < |s| ==> id[i] as int == s[i] as int) && CleanId(s)
    ensures FixEnd(Truncate(PREFIX + CollapseDots(Sanitize(id)))) == "rector-mem-" + s
  {
    SanitizeIs(id);
    assert Sanitize(id) == s;
    CleanIdKept(s);
  }
}
