/** The scoring rules of the gate, spelled out over which paths the tables hold and with which hashes. */
module ScorecardRules {
  import opened TestLinker
  import opened Scorecard

  /** The names that every plain object inherits. */
  predicate IsInheritedName(p: string) {
    || p == "constructor" || p == "hasOwnProperty" || p == "isPrototypeOf" || p == "propertyIsEnumerable"
    || p == "toLocaleString" || p == "toString" || p == "valueOf" || p == "__proto__"
    || p == "__defineGetter__" || p == "__defineSetter__" || p == "__lookupGetter__" || p == "__lookupSetter__"
  }

  lemma InheritedIs(p: string)
    ensures p in INHERITED <==> IsInheritedName(p)
  {}

  /** Two tables have the same at a path: the same hash, or nothing. */
  predicate Same(a: Hashes, b: Hashes, p: string) {
    (p in a <==> p in b) && (p in a && p in b ==> a[p] == b[p])
  }

  /** A path is looked up with success in a table that has it, and under an inherited name in every table. */
  predicate Answers(a: Hashes, p: string) {
    p in a || IsInheritedName(p)
  }

  lemma VerifiedIs(before: Hashes, after: Hashes, expectChange: bool, p: string)
    ensures PathVerified(before, after, expectChange, p) <==>
            Answers(before, p) && Answers(after, p) && (if expectChange then !Same(before, after, p) else Same(before, after, p))
  {
    InheritedIs(p);
  }

  /** Some table or artifact speaks of the path. */
  predicate Backed(p: string, e: Evidence) {
    || p in e.artifactPaths || Answers(e.before, p) || Answers(e.after, p)
    || (e.workspaceBefore.Table? && Answers(e.workspaceBefore.at, p))
    || (e.workspaceAfter.Table? && Answers(e.workspaceAfter.at, p))
  }

  lemma BackedIs(p: string, e: Evidence)
    ensures HasPathEvidence(p, e) <==> Backed(p, e)
  {
    InheritedIs(p);
  }

  /** An oracle path changed under the eyes of the hash tables. */
  predicate Changed(e: Evidence, p: string) {
    Answers(e.before, p) && Answers(e.after, p) && !Same(e.before, e.after, p)
  }

  /**
   The hash tables are as expected: declared changes changed and declared constants did not;
   without an expectation, no oracle path changed, or the first one that did is the empty path.
   */
  ghost predicate AsExpected(paths: seq<string>, e: Evidence, x: Expectation) {
    match x
    case NoExpectation =>
      || (forall i :: 0 <= i < |paths| ==> !Changed(e, paths[i]))
      || (exists i :: 0 <= i < |paths| && paths[i] == "" && Changed(e, "") && forall j :: 0 <= j < i ==> !Changed(e, paths[j]))
    case Expectation(changedPaths, unchangedPaths) =>
      && (forall p :: p in changedPaths ==> Answers(e.before, p) && Answers(e.after, p) && !Same(e.before, e.after, p))
      && (forall p :: p in unchangedPaths ==> Answers(e.before, p) && Answers(e.after, p) && Same(e.before, e.after, p))
  }

  lemma MismatchIs(e: Evidence, p: string)
    ensures Mismatch(e, p) <==> Changed(e, p)
  {
    InheritedIs(p);
  }

  lemma {:induction false} FirstMismatchIs(paths: seq<string>, e: Evidence)
    ensures FirstMismatch(paths, e) == Nothing <==> forall i :: 0 <= i < |paths| ==> !Changed(e, paths[i])
    ensures FirstMismatch(paths, e) == Path("") <==>
            exists i :: 0 <= i < |paths| && paths[i] == "" && Changed(e, "") && forall j :: 0 <= j < i ==> !Changed(e, paths[j])
  {
    if paths != [] {
      var rest := paths[1..];
      MismatchIs(e, paths[0]);
      FirstMismatchIs(rest, e);
      if Changed(e, paths[0]) {
        if i :| 0 <= i < |paths| && paths[i] == "" && Changed(e, "") && forall j :: 0 <= j < i ==> !Changed(e, paths[j]) {
          assert i == 0;
        }
      } else {
        LaterMismatch(paths, e);
      }
    }
  }

  lemma LaterMismatch(paths: seq<string>, e: Evidence)
    requires paths != [] && !Changed(e, paths[0])
    ensures var rest := paths[1..];
      && ((forall i :: 0 <= i < |paths| ==> !Changed(e, paths[i])) <==> forall i :: 0 <= i < |rest| ==> !Changed(e, rest[i]))
      && ((exists i :: 0 <= i < |paths| && paths[i] == "" && Changed(e, "") && forall j :: 0 <= j < i ==> !Changed(e, paths[j])) <==>
          exists i :: 0 <= i < |rest| && rest[i] == "" && Changed(e, "") && forall j :: 0 <= j < i ==> !Changed(e, rest[j]))
  {
    var rest := paths[1..];
    forall i | 0 <= i < |rest| ensures rest[i] == paths[i + 1] {}
    if i :| 0 <= i < |paths| && paths[i] == "" && Changed(e, "") && forall j :: 0 <= j < i ==> !Changed(e, paths[j]) {
      assert rest[i - 1] == "";
      forall j | 0 <= j < i - 1 ensures !Changed(e, rest[j]) { assert rest[j] == paths[j + 1]; }
    }
    if i :| 0 <= i < |rest| && rest[i] == "" && Changed(e, "") && forall j :: 0 <= j < i ==> !Changed(e, rest[j]) {
      assert paths[i + 1] == "";
      forall j | 0 <= j < i + 1 ensures !Changed(e, paths[j]) { assert j > 0 ==> paths[j] == rest[j - 1]; }
    }
    if forall i :: 0 <= i < |rest| ==> !Changed(e, rest[i]) {
      forall i | 0 <= i < |paths| ensures !Changed(e, paths[i]) { assert i > 0 ==> paths[i] == rest[i - 1]; }
    }
  }

  lemma FitIs(paths: seq<string>, e: Evidence, x: Expectation)
    ensures HashesFit(paths, e, x) <==> AsExpected(paths, e, x)
  {
    FirstMismatchIs(paths, e);
    forall p, expectChange
      ensures PathVerified(e.before, e.after, expectChange, p) <==>
              Answers(e.before, p) && Answers(e.after, p)
              && (if expectChange then !Same(e.before, e.after, p) else Same(e.before, e.after, p))
    {
      VerifiedIs(e.before, e.after, expectChange, p);
    }
  }

  ghost function BackedAt(paths: seq<string>, e: Evidence): set<nat> {
    set i: nat | i < |paths| && Backed(paths[i], e)
  }

  lemma {:induction false} BackedCount(paths: seq<string>, e: Evidence)
    ensures |Resolvable(paths, e)| == |BackedAt(paths, e)|
  {
    if paths != [] {
      var n := |paths| - 1;
      BackedCount(paths[..n], e);
      BackedIs(paths[n], e);
      var before := BackedAt(paths[..n], e);
      assert n !in before;
      assert BackedAt(paths, e) == before + if Backed(paths[n], e) then {n} else {};
    }
  }

  /**
   The accuracy score on all inputs: one without oracle paths; zero if the hash tables are not as
   expected; else the share of oracle paths that some table or artifact speaks of.
   */
  lemma AccuracyIs(paths: seq<string>, e: Evidence, x: Expectation)
    ensures Accuracy(paths, e, x) ==
            if paths == [] then 1.0
            else if !AsExpected(paths, e, x) then 0.0
            else |BackedAt(paths, e)| as real / |paths| as real
  {
    FitIs(paths, e, x);
    BackedCount(paths, e);
  }

  /** Safety is all or nothing. */
  lemma SafetyIs(secretFree: bool, before: Manifest, after: Manifest, allowed: set<string>)
    ensures Safety(secretFree, before, after, allowed) in {0.0, 1.0}
    ensures forall p :: Differs(before.at, after.at, p) <==> !Same(before.at, after.at, p)
  {
    forall p ensures Differs(before.at, after.at, p) <==> !Same(before.at, after.at, p) {
      InheritedIs(p);
    }
  }

  /** The oracle paths are those of the four lists of a scenario, each once. */
  lemma OraclePathsAre(s: Scenario)
    ensures forall p :: p in OraclePaths(s) <==>
              p in s.mustChange || p in s.mustNotChange || p in s.changedPaths || p in s.unchangedPaths
    ensures forall i, j :: 0 <= i < j < |OraclePaths(s)| ==> OraclePaths(s)[i] != OraclePaths(s)[j]
  {
    DedupOnce(s.mustChange + s.mustNotChange + (s.changedPaths + s.unchangedPaths));
  }

  lemma {:induction false} DedupOnce(xs: seq<string>)
    ensures forall i, j :: 0 <= i < j < |Dedup(xs)| ==> Dedup(xs)[i] != Dedup(xs)[j]
  {
    if xs != [] {
      DedupOnce(xs[..|xs| - 1]);
    }
  }

  /** The gate: six dimensions have to have the full score, and the failed ones are listed. */
  lemma GateIs(scores: Scores)
    ensures Passed(scores) <==>
      forall d: Dimension :: d in {Reliability, AccuracyOf, SafetyOf, MemoryCorrectness, DelegationQuality, EvidenceQuality} ==> scores(d) == 1.0
    ensures forall d: Dimension :: d in FailedGatedDimensions(scores) <==>
      d in {Reliability, AccuracyOf, SafetyOf, MemoryCorrectness, DelegationQuality, EvidenceQuality} && scores(d) != 1.0
  {
    var g := GATED;
    assert g[0] == Reliability && g[1] == AccuracyOf && g[2] == SafetyOf;
    assert g[3] == MemoryCorrectness && g[4] == DelegationQuality && g[5] == EvidenceQuality;
    forall d: Dimension ensures d in g <==> d in {Reliability, AccuracyOf, SafetyOf, MemoryCorrectness, DelegationQuality, EvidenceQuality} {}
  }

  /**
   What a pass pins down, outside the empty path: nothing but declared paths differs between the
   manifests, and every declared path that a manifest has does; a file is created or deleted only
   under an inherited name.
   */
  lemma PassMeans(scores: Scores, s: Scenario, r: Run, p: string)
    requires Passed(scores) && Scored(scores, s, r) && HashesAgree(s, r)
    requires r.workspaceBefore.Valid() && r.workspaceAfter.Valid() && "" !in r.workspaceBefore.at && "" !in r.workspaceAfter.at
    requires p in r.workspaceBefore.at || p in r.workspaceAfter.at
    ensures !Same(r.workspaceBefore.at, r.workspaceAfter.at, p) <==> p in s.changedPaths
    ensures p !in r.workspaceBefore.at || p !in r.workspaceAfter.at ==> p in s.changedPaths && IsInheritedName(p)
  {
    NoEmptyPathHidesNothing(r.workspaceBefore, r.workspaceAfter, (set q | q in s.changedPaths));
    PassPinsPath(scores, s, r, p);
    InheritedIs(p);
  }

  /** A passing run can declare and create, or delete, a file exactly if the file has one of the twelve inherited names. */
  lemma UnseenIff(p: string)
    ensures (exists scores, s, r :: Creates(scores, s, r, p)) <==> IsInheritedName(p)
    ensures (exists scores, s, r :: Deletes(scores, s, r, p)) <==> IsInheritedName(p)
  {
    CreatedUnseenIff(p);
    DeletedUnseenIff(p);
    InheritedIs(p);
  }
}
