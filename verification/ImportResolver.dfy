/**
 Resolution of import specifiers against the set of indexed files.  The nested probes
 amount to one fixed list of candidates, of which the first indexed one is taken.
 */
module ImportResolver {
  import opened Wrappers
  import opened Paths

  datatype Target = FileTarget(path: string) | PackageTarget(specifier: string) | NotFound | NotConfigured

  const SUPPORTED_EXTS: seq<string> := [".ts", ".tsx", ".js", ".jsx", ".mts", ".cts"]
  const JS_SPECIFIER_EXTS: set<string> := {".js", ".jsx", ".mjs", ".cjs"}

  // ---------------------------------------------------------------- the probes

  function FirstWithExtension(indexed: set<string>, base: string, exts: seq<string>): Option<string> {
    if exts == [] then None
    else if base + exts[0] in indexed then Some(base + exts[0])
    else FirstWithExtension(indexed, base, exts[1..])
  }

  function FirstIndexEntry(indexed: set<string>, base: string, exts: seq<string>): Option<string> {
    if exts == [] then None
    else
      var idx := PosixJoin(base, "index" + exts[0]);
      if idx in indexed then Some(idx) else FirstIndexEntry(indexed, base, exts[1..])
  }

  function ProbeBase(indexed: set<string>, base: string): Option<string> {
    if base in indexed then Some(base)
    else
      var withExtension := FirstWithExtension(indexed, base, SUPPORTED_EXTS);
      if withExtension.Some? then withExtension
      else FirstIndexEntry(indexed, base, SUPPORTED_EXTS)
  }

  function ProbeJsToSource(indexed: set<string>, base: string): Option<string> {
    var ext := ExtName(base);
    if ext !in JS_SPECIFIER_EXTS then None
    else ProbeBase(indexed, base[..|base| - |ext|])
  }

  predicate IsRelative(specifier: string) {
    StartsWith(specifier, "./") || StartsWith(specifier, "../")
  }

  /** The path that a relative specifier names, before any probing. */
  function BaseOf(specifier: string, importer: string): string {
    var dir := DirectoryOf(NormalizePath(importer));
    NormalizePath(PosixJoin(if dir == "." then "" else dir, specifier))
  }

  /** Everything before the last slash; nothing for a path at the root. */
  function DirectoryOf(p: string): string {
    var slash := LastIndexOf(p, '/');
    if slash >= 0 then p[..slash] else "."
  }

  function ResolveRelative(specifier: string, importer: string, indexed: set<string>): Option<string> {
    if !IsRelative(specifier) then None
    else
      var base := BaseOf(specifier, importer);
      var js := ProbeJsToSource(indexed, base);
      if js.Some? then js else ProbeBase(indexed, base)
  }

  predicate IsAliasLike(specifier: string) {
    StartsWith(specifier, "@/") || StartsWith(specifier, "~/") || specifier == "~"
  }

  function ResolveTarget(specifier: string, importer: string, indexed: set<string>): Target {
    if IsRelative(specifier) then
      var r := ResolveRelative(specifier, importer, indexed);
      if r.Some? then FileTarget(r.value) else NotFound
    else if IsAliasLike(specifier) then NotConfigured
    else PackageTarget(specifier)
  }

  // ---------------------------------------------------------------- one list of candidates

  function FirstOf(indexed: set<string>, candidates: seq<string>): (r: Option<string>)
    ensures r.Some? ==> r.value in indexed && r.value in candidates
    ensures r.None? <==> forall c :: c in candidates ==> c !in indexed
  {
    if candidates == [] then None
    else if candidates[0] in indexed then Some(candidates[0])
    else FirstOf(indexed, candidates[1..])
  }

  function WithExtensions(base: string, exts: seq<string>): (r: seq<string>)
    ensures |r| == |exts| && forall i :: 0 <= i < |r| ==> r[i] == base + exts[i]
  {
    seq(|exts|, i requires 0 <= i < |exts| => base + exts[i])
  }

  function IndexEntries(base: string, exts: seq<string>): (r: seq<string>)
    ensures |r| == |exts| && forall i :: 0 <= i < |r| ==> r[i] == PosixJoin(base, "index" + exts[i])
  {
    seq(|exts|, i requires 0 <= i < |exts| => PosixJoin(base, "index" + exts[i]))
  }

  function BaseCandidates(base: string): seq<string> {
    [base] + WithExtensions(base, SUPPORTED_EXTS) + IndexEntries(base, SUPPORTED_EXTS)
  }

  /** Source files behind a script specifier come first, then the path itself. */
  function Candidates(base: string): seq<string> {
    JsCandidates(base) + BaseCandidates(base)
  }

  function JsCandidates(base: string): seq<string> {
    var ext := ExtName(base);
    if ext in JS_SPECIFIER_EXTS then BaseCandidates(base[..|base| - |ext|]) else []
  }

  lemma {:induction false} FirstOfAppend(indexed: set<string>, a: seq<string>, b: seq<string>)
    ensures FirstOf(indexed, a + b) == if FirstOf(indexed, a).Some? then FirstOf(indexed, a) else FirstOf(indexed, b)
  {
    if a == [] {
      assert a + b == b;
    } else {
      assert (a + b)[1..] == a[1..] + b;
      FirstOfAppend(indexed, a[1..], b);
    }
  }

  lemma {:induction false} ExtensionsAreCandidates(indexed: set<string>, base: string, exts: seq<string>)
    ensures FirstWithExtension(indexed, base, exts) == FirstOf(indexed, WithExtensions(base, exts))
  {
    if exts != [] {
      assert WithExtensions(base, exts)[1..] == WithExtensions(base, exts[1..]);
      ExtensionsAreCandidates(indexed, base, exts[1..]);
    }
  }

  lemma {:induction false} IndexEntriesAreCandidates(indexed: set<string>, base: string, exts: seq<string>)
    ensures FirstIndexEntry(indexed, base, exts) == FirstOf(indexed, IndexEntries(base, exts))
  {
    if exts != [] {
      assert IndexEntries(base, exts)[1..] == IndexEntries(base, exts[1..]);
      IndexEntriesAreCandidates(indexed, base, exts[1..]);
    }
  }

  lemma ProbeBaseIsFirst(indexed: set<string>, base: string)
    ensures ProbeBase(indexed, base) == FirstOf(indexed, BaseCandidates(base))
  {
    ExtensionsAreCandidates(indexed, base, SUPPORTED_EXTS);
    IndexEntriesAreCandidates(indexed, base, SUPPORTED_EXTS);
    FirstOfAppend(indexed, [base] + WithExtensions(base, SUPPORTED_EXTS), IndexEntries(base, SUPPORTED_EXTS));
    FirstOfAppend(indexed, [base], WithExtensions(base, SUPPORTED_EXTS));
  }

  lemma ProbesAreFirst(indexed: set<string>, base: string)
    ensures (var js := ProbeJsToSource(indexed, base); if js.Some? then js else ProbeBase(indexed, base))
            == FirstOf(indexed, Candidates(base))
  {
    JsIsFirst(indexed, base);
    ProbeBaseIsFirst(indexed, base);
    FirstOfAppend(indexed, JsCandidates(base), BaseCandidates(base));
  }

  lemma JsIsFirst(indexed: set<string>, base: string)
    ensures ProbeJsToSource(indexed, base) == FirstOf(indexed, JsCandidates(base))
  {
    ProbeBaseIsFirst(indexed, base[..|base| - |ExtName(base)|]);
  }

  /** Resolving a relative specifier is picking the first indexed candidate. */
  lemma ResolveIsFirst(specifier: string, importer: string, indexed: set<string>)
    requires IsRelative(specifier)
    ensures ResolveRelative(specifier, importer, indexed) == FirstOf(indexed, Candidates(BaseOf(specifier, importer)))
  {
    ProbesAreFirst(indexed, BaseOf(specifier, importer));
  }

  /** A file target is always an indexed file. */
  lemma FileTargetIndexed(specifier: string, importer: string, indexed: set<string>)
    ensures var t := ResolveTarget(specifier, importer, indexed); t.FileTarget? ==> t.path in indexed
  {
    if IsRelative(specifier) {
      ResolveIsFirst(specifier, importer, indexed);
    }
  }

  lemma {:induction false} FirstOfStable(indexed: set<string>, fewer: set<string>, candidates: seq<string>)
    requires fewer <= indexed && FirstOf(indexed, candidates).Some? && FirstOf(indexed, candidates).value in fewer
    ensures FirstOf(fewer, candidates) == FirstOf(indexed, candidates)
  {
    if candidates[0] !in indexed {
      FirstOfStable(indexed, fewer, candidates[1..]);
    }
  }

  /** Dropping files other than the target from the index never changes the resolution. */
  lemma ResolveStable(specifier: string, importer: string, indexed: set<string>, fewer: set<string>)
    requires fewer <= indexed
    requires var t := ResolveTarget(specifier, importer, indexed); t.FileTarget? ==> t.path in fewer
    ensures ResolveTarget(specifier, importer, fewer) == ResolveTarget(specifier, importer, indexed)
  {
    if IsRelative(specifier) {
      ResolveIsFirst(specifier, importer, indexed);
      ResolveIsFirst(specifier, importer, fewer);
      var cs := Candidates(BaseOf(specifier, importer));
      if FirstOf(indexed, cs).Some? {
        FirstOfStable(indexed, fewer, cs);
      }
    }
  }
}
