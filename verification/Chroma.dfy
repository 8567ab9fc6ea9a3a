/** Collection names for Chroma, against the validator that guards them. */
module Chroma {
  /** A UTF-16 code unit of a record id. */
  newtype CodeUnit = x: int | 0 <= x < 0x1_0000

  predicate IsAlnum(c: char) {
    'a' <= c <= 'z' || 'A' <= c <= 'Z' || '0' <= c <= '9'
  }

  predicate IsAllowed(c: char) {
    IsAlnum(c) || c == '.' || c == '_' || c == '-'
  }

  predicate IsDigit(c: char) { '0' <= c <= '9' }

  // ---------------------------------------------------------------- the validator

  /** Digits and dots in four groups, starting inside a group that already has `n` digits. */
  predicate DigitGroups(s: string, n: nat, groups: nat) {
    if s == "" then n > 0 && groups == 1
    else if IsDigit(s[0]) then DigitGroups(s[1..], n + 1, groups)
    else s[0] == '.' && n > 0 && groups > 1 && DigitGroups(s[1..], 0, groups - 1)
  }

  predicate Accepted(name: string) {
    && 3 <= |name| <= 63
    && IsAlnum(name[0]) && IsAlnum(name[|name| - 1])
    && (forall i :: 0 <= i < |name| ==> IsAllowed(name[i]))
    && (forall i :: 0 <= i < |name| - 1 ==> !(name[i] == '.' && name[i + 1] == '.'))
    && !DigitGroups(name, 0, 4)
  }

  // ---------------------------------------------------------------- the generator

  function Sanitize(id: seq<CodeUnit>): (r: string)
    ensures |r| == |id| && forall i :: 0 <= i < |r| ==> IsAllowed(r[i])
  {
    seq(|id|, i requires 0 <= i < |id| =>
      if id[i] as int < 128 && IsAllowed(id[i] as char) then id[i] as char else '_')
  }

  /** The number of dots a string starts with. */
  function LeadingDots(s: string): (n: nat)
    ensures n <= |s| && (forall i :: 0 <= i < n ==> s[i] == '.') && (n < |s| ==> s[n] != '.')
  {
    if s == "" || s[0] != '.' then 0 else 1 + LeadingDots(s[1..])
  }

  /** Every run of two or more dots becomes an underscore. */
  function CollapseDots(s: string): string
    decreases |s|
  {
    if s == "" then ""
    else
      var n := LeadingDots(s);
      if n >= 2 then "_" + CollapseDots(s[n..]) else [s[0]] + CollapseDots(s[1..])
  }

  function LeadingJunk(s: string): (n: nat)
    ensures n <= |s| && (n < |s| ==> IsAlnum(s[n]))
    ensures s != "" && IsAlnum(s[0]) ==> n == 0
  {
    if s == "" || IsAlnum(s[0]) then 0 else 1 + LeadingJunk(s[1..])
  }

  /** The length without the trailing characters that are not alphanumeric. */
  function KeptLength(s: string): (n: nat)
    ensures n <= |s| && (n > 0 ==> IsAlnum(s[n - 1])) && forall i :: n <= i < |s| ==> !IsAlnum(s[i])
  {
    if s == "" || IsAlnum(s[|s| - 1]) then |s| else KeptLength(s[..|s| - 1])
  }

  function FixStart(s: string): string {
    if LeadingJunk(s) > 0 then "r" + s[LeadingJunk(s)..] else s
  }

  function FixEnd(s: string): string {
    if KeptLength(s) < |s| then s[..KeptLength(s)] + "0" else s
  }

  const PREFIX: string := "rector-mem-"

  function Truncate(s: string): string { if |s| <= 63 then s else s[..63] }

  ghost predicate NoDoubleDot(s: string) {
    forall i :: 0 <= i < |s| - 1 ==> !(s[i] == '.' && s[i + 1] == '.')
  }

  ghost predicate AllAllowed(s: string) {
    forall i :: 0 <= i < |s| ==> IsAllowed(s[i])
  }

  lemma {:induction false} CollapsedFirst(s: string)
    ensures CollapseDots(s) != "" && CollapseDots(s)[0] == '.' ==> s != "" && s[0] == '.' && LeadingDots(s) == 1
  {}

  /** No two dots in a row are left, and nothing that was not allowed comes in. */
  lemma {:induction false} CollapseDotsOk(s: string)
    requires AllAllowed(s)
    ensures NoDoubleDot(CollapseDots(s)) && AllAllowed(CollapseDots(s))
    decreases |s|
  {
    if s != "" {
      var n := LeadingDots(s);
      if n >= 2 {
        CollapseDotsOk(s[n..]);
      } else {
        CollapseDotsOk(s[1..]);
        CollapsedFirst(s[1..]);
        assert s[0] == '.' ==> n == 1 && LeadingDots(s[1..]) == 0;
      }
    }
  }

  lemma FixEndOk(s: string)
    requires PREFIX <= s && |s| <= 63 && AllAllowed(s) && NoDoubleDot(s)
    ensures var r := FixEnd(s);
      && "rector-mem" <= r && 11 <= |r| <= 63 && AllAllowed(r) && NoDoubleDot(r) && IsAlnum(r[|r| - 1])
  {
    var n := KeptLength(s);
    assert s[9] == 'm' && IsAlnum(s[9]);
    assert n >= 10;
    assert s[..10] == "rector-mem";
    if n < |s| {
      assert (s[..n] + "0")[..10] == s[..10];
    }
  }

  lemma PrefixFirst(s: string)
    requires "rector-mem" <= s
    ensures s[0] == 'r' && LeadingJunk(s) == 0 && !DigitGroups(s, 0, 4)
  {
    assert s[0] == 'r';
  }

  lemma PrefixedOk(id: string)
    requires AllAllowed(id) && NoDoubleDot(id)
    ensures AllAllowed(PREFIX + id) && NoDoubleDot(PREFIX + id)
  {
    assert AllAllowed(PREFIX) && forall i :: 0 <= i < |PREFIX| ==> PREFIX[i] != '.';
  }

  lemma TruncateOk(s: string)
    requires PREFIX <= s && AllAllowed(s) && NoDoubleDot(s)
    ensures var r := Truncate(s); PREFIX <= r && |r| <= 63 && AllAllowed(r) && NoDoubleDot(r)
  {
    if |s| > 63 {
      assert s[..63][..|PREFIX|] == s[..|PREFIX|];
    }
  }

  /** For every record id, of any length and content, the generated name is accepted. */
  method CollectionNameForRecord(id: seq<CodeUnit>) returns (name: string)
    ensures Accepted(name)
    ensures "rector-mem" <= name
    ensures name == FixEnd(Truncate(PREFIX + CollapseDots(Sanitize(id))))
  {
    var normalized := CollapseDots(Sanitize(id));
    CollapseDotsOk(Sanitize(id));
    PrefixedOk(normalized);
    name := Truncate(PREFIX + normalized);
    TruncateOk(PREFIX + normalized);
    assert name[..10] == "rector-mem";
    PrefixFirst(name);
    name := FixStart(name);
    FixEndOk(name);
    name := FixEnd(name);
    PrefixFirst(name);
    name := PadToThree(name);
  }

  method PadToThree(s: string) returns (name: string)
    ensures s <= name && |name| == if |s| < 3 then 3 else |s|
  {
    name := s;
    while |name| < 3
      invariant s <= name && |name| <= if |s| < 3 then 3 else |s|
    {
      name := name + "0";
    }
  }

  predicate CleanId(id: string) {
    && id != "" && |id| <= 52 && IsAlnum(id[|id| - 1])
    && (forall i :: 0 <= i < |id| ==> IsAllowed(id[i]))
    && (forall i :: 0 <= i < |id| - 1 ==> !(id[i] == '.' && id[i + 1] == '.'))
  }

  lemma {:induction false} CollapseNothing(s: string)
    requires NoDoubleDot(s)
    ensures CollapseDots(s) == s
    decreases |s|
  {
    if s != "" {
      assert LeadingDots(s) < 2;
      CollapseNothing(s[1..]);
      assert s == [s[0]] + s[1..];
    }
  }

  /** A short clean id is kept as it is, so distinct clean ids get distinct names. */
  lemma CleanIdKept(id: string)
    requires CleanId(id)
    ensures FixEnd(Truncate(PREFIX + CollapseDots(id))) == PREFIX + id
  {
    CollapseNothing(id);
    var s := PREFIX + id;
    assert s[|s| - 1] == id[|id| - 1];
  }
}
