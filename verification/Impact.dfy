/**
 The impact query: a work list over reverse dependency edges.  It terminates on every
 finite graph and computes exactly the paths that reach a changed path, which makes
 it a closure operator that distributes over union.
 */
module Impact {
  import opened Wrappers
  import opened Graph

  /** The last node with an id wins, as in a map filled from a list. */
  function NodeById(nodes: seq<Node>): (m: map<NodeId, Node>)
    ensures forall id :: id in m ==> m[id] in nodes && m[id].id == id
    ensures forall n :: n in nodes ==> n.id in m
  {
    if nodes == [] then map[]
    else
      var n := nodes[|nodes| - 1];
      NodeById(nodes[..|nodes| - 1])[n.id := n]
  }

  // ---------------------------------------------------------------- specification

  predicate IsFile(n: Node, p: string) {
    n.path == Some(p) && IsFileLike(n.kind)
  }

  /** Edge `e` makes the node it starts from depend on node `id`. */
  predicate IsDependency(byId: map<NodeId, Node>, e: Edge, id: NodeId) {
    e.to == id && IsReverseDependency(e.kind) && e.from in byId && HasPath(byId[e.from])
  }

  /** Edge `e` makes the node it starts from a test of node `id`. */
  predicate IsTest(byId: map<NodeId, Node>, e: Edge, id: NodeId) {
    e.to == id && e.kind.TESTS? && e.from in byId && HasPath(byId[e.from])
  }

  function PathOf(byId: map<NodeId, Node>, e: Edge): string {
    if e.from in byId && byId[e.from].path.Some? then byId[e.from].path.value else ""
  }

  /** Some dependency edge leads from a node with path `q` to a file with path `p`. */
  ghost predicate DependsOn(nodes: seq<Node>, edges: seq<Edge>, q: string, p: string) {
    exists n, e :: n in nodes && IsFile(n, p) && e in edges
                   && IsDependency(NodeById(nodes), e, n.id) && q == PathOf(NodeById(nodes), e)
  }

  ghost predicate Chain(nodes: seq<Node>, edges: seq<Edge>, c: seq<string>) {
    c != [] && forall i :: 0 <= i < |c| - 1 ==> DependsOn(nodes, edges, c[i + 1], c[i])
  }

  /** A chain of dependencies leads from `q` to a changed path. */
  ghost predicate Reaches(nodes: seq<Node>, edges: seq<Edge>, changed: set<string>, q: string) {
    exists c :: Chain(nodes, edges, c) && c[0] in changed && c[|c| - 1] == q
  }

  /** Test `t` covers node `id`. */
  ghost predicate Covers(nodes: seq<Node>, edges: seq<Edge>, t: string, id: NodeId) {
    exists e :: e in edges && IsTest(NodeById(nodes), e, id) && t == PathOf(NodeById(nodes), e)
  }

  /** Test `t` covers node `id` or a node that depends on it. */
  ghost predicate CoversAround(nodes: seq<Node>, edges: seq<Edge>, t: string, id: NodeId) {
    || Covers(nodes, edges, t, id)
    || exists e :: e in edges && IsDependency(NodeById(nodes), e, id) && Covers(nodes, edges, t, e.from)
  }

  /** Test `t` covers an impacted file, or a node that depends on an impacted file. */
  ghost predicate ProbableTest(nodes: seq<Node>, edges: seq<Edge>, impacted: set<string>, t: string) {
    exists n, p :: n in nodes && p in impacted && IsFile(n, p) && CoversAround(nodes, edges, t, n.id)
  }

  // ---------------------------------------------------------------- the specification, spelled out

  /** Position `k` holds the last node with the id. */
  ghost predicate LastWithId(nodes: seq<Node>, k: nat, id: NodeId) {
    k < |nodes| && nodes[k].id == id && forall j :: k < j < |nodes| ==> nodes[j].id != id
  }

  lemma LastWithIdInit(nodes: seq<Node>, id: NodeId)
    requires nodes != []
    ensures var n := |nodes| - 1;
      forall k: nat :: LastWithId(nodes, k, id) <==> if nodes[n].id == id then k == n else LastWithId(nodes[..n], k, id)
  {}

  lemma {:induction false} NodeByIdIs(nodes: seq<Node>, id: NodeId)
    ensures forall k: nat :: LastWithId(nodes, k, id) ==> id in NodeById(nodes) && NodeById(nodes)[id] == nodes[k]
    ensures id in NodeById(nodes) ==> exists k: nat :: LastWithId(nodes, k, id)
  {
    if nodes != [] {
      var n := |nodes| - 1;
      var init := nodes[..n];
      NodeByIdIs(init, id);
      LastWithIdInit(nodes, id);
      if nodes[n].id == id {
        assert LastWithId(nodes, n, id);
      } else if id in NodeById(nodes) {
        var k: nat :| LastWithId(init, k, id);
        assert LastWithId(nodes, k, id);
      }
    }
  }

  /** The last node with the id has the path `q`, which is not empty. */
  ghost predicate LastPath(nodes: seq<Node>, id: NodeId, q: string) {
    q != "" && exists k: nat :: LastWithId(nodes, k, id) && nodes[k].path == Some(q)
  }

  lemma LastPathIs(nodes: seq<Node>, e: Edge)
    ensures forall q :: LastPath(nodes, e.from, q) <==>
              e.from in NodeById(nodes) && HasPath(NodeById(nodes)[e.from]) && q == PathOf(NodeById(nodes), e)
  {
    NodeByIdIs(nodes, e.from);
  }

  /**
   `q` depends on `p`: an IMPORTS or DEPENDS_ON edge leads to a file, test, doc or config node
   with path `p` from an id whose last node has the path `q`.
   */
  lemma DependsOnIs(nodes: seq<Node>, edges: seq<Edge>, q: string, p: string)
    ensures DependsOn(nodes, edges, q, p) <==>
      exists n, e ::
        && n in nodes && n.path == Some(p) && (n.kind.File? || n.kind.Test? || n.kind.Doc? || n.kind.Config?)
        && e in edges && e.to == n.id && (e.kind.IMPORTS? || e.kind.DEPENDS_ON?) && LastPath(nodes, e.from, q)
  {
    forall e: Edge
      ensures forall q :: LastPath(nodes, e.from, q) <==>
                e.from in NodeById(nodes) && HasPath(NodeById(nodes)[e.from]) && q == PathOf(NodeById(nodes), e)
    {
      LastPathIs(nodes, e);
    }
    if n, e :|
      && n in nodes && n.path == Some(p) && (n.kind.File? || n.kind.Test? || n.kind.Doc? || n.kind.Config?)
      && e in edges && e.to == n.id && (e.kind.IMPORTS? || e.kind.DEPENDS_ON?) && LastPath(nodes, e.from, q)
    {
      assert IsFile(n, p) && IsDependency(NodeById(nodes), e, n.id) && q == PathOf(NodeById(nodes), e);
    }
  }

  /** `t` covers a node: a TESTS edge leads to it from an id whose last node has the path `t`. */
  lemma CoversIs(nodes: seq<Node>, edges: seq<Edge>, t: string, id: NodeId)
    ensures Covers(nodes, edges, t, id) <==>
      exists e :: e in edges && e.to == id && e.kind.TESTS? && LastPath(nodes, e.from, t)
  {
    if e :| e in edges && IsTest(NodeById(nodes), e, id) && t == PathOf(NodeById(nodes), e) {
      LastPathIs(nodes, e);
    }
    if e :| e in edges && e.to == id && e.kind.TESTS? && LastPath(nodes, e.from, t) {
      LastPathIs(nodes, e);
      assert IsTest(NodeById(nodes), e, id) && t == PathOf(NodeById(nodes), e);
    }
  }

  lemma AroundIs(nodes: seq<Node>, edges: seq<Edge>, t: string, id: NodeId)
    ensures CoversAround(nodes, edges, t, id) <==>
      || Covers(nodes, edges, t, id)
      || exists e, q :: e in edges && e.to == id && (e.kind.IMPORTS? || e.kind.DEPENDS_ON?)
                        && LastPath(nodes, e.from, q) && Covers(nodes, edges, t, e.from)
  {
    if e :| e in edges && IsDependency(NodeById(nodes), e, id) && Covers(nodes, edges, t, e.from) {
      LastPathIs(nodes, e);
      assert LastPath(nodes, e.from, PathOf(NodeById(nodes), e));
    }
    if e, q :| e in edges && e.to == id && (e.kind.IMPORTS? || e.kind.DEPENDS_ON?)
               && LastPath(nodes, e.from, q) && Covers(nodes, edges, t, e.from) {
      LastPathIs(nodes, e);
      assert IsDependency(NodeById(nodes), e, id);
    }
  }

  /**
   A probable test covers a file, test, doc or config node with an impacted path, or the start of
   an IMPORTS or DEPENDS_ON edge to such a node whose last node has a path.
   */
  lemma ProbableTestIs(nodes: seq<Node>, edges: seq<Edge>, impacted: set<string>, t: string)
    ensures ProbableTest(nodes, edges, impacted, t) <==>
      exists n, p ::
        && n in nodes && n.path == Some(p) && p in impacted && (n.kind.File? || n.kind.Test? || n.kind.Doc? || n.kind.Config?)
        && (|| Covers(nodes, edges, t, n.id)
            || exists e, q :: e in edges && e.to == n.id && (e.kind.IMPORTS? || e.kind.DEPENDS_ON?)
                              && LastPath(nodes, e.from, q) && Covers(nodes, edges, t, e.from))
  {
    if n, p :| n in nodes && p in impacted && IsFile(n, p) && CoversAround(nodes, edges, t, n.id) {
      AroundIs(nodes, edges, t, n.id);
    }
    if n, p :|
        && n in nodes && n.path == Some(p) && p in impacted && (n.kind.File? || n.kind.Test? || n.kind.Doc? || n.kind.Config?)
        && (|| Covers(nodes, edges, t, n.id)
            || exists e, q :: e in edges && e.to == n.id && (e.kind.IMPORTS? || e.kind.DEPENDS_ON?)
                              && LastPath(nodes, e.from, q) && Covers(nodes, edges, t, e.from))
    {
      AroundIs(nodes, edges, t, n.id);
      assert IsFile(n, p);
    }
  }

  // ---------------------------------------------------------------- sets built by the loops

  function TestsOf(byId: map<NodeId, Node>, edges: seq<Edge>, id: NodeId): set<string> {
    if edges == [] then {}
    else
      var e := edges[|edges| - 1];
      TestsOf(byId, edges[..|edges| - 1], id) + if IsTest(byId, e, id) then {PathOf(byId, e)} else {}
  }

  function DependentPaths(byId: map<NodeId, Node>, edges: seq<Edge>, id: NodeId): set<string> {
    if edges == [] then {}
    else
      var e := edges[|edges| - 1];
      DependentPaths(byId, edges[..|edges| - 1], id) + if IsDependency(byId, e, id) then {PathOf(byId, e)} else {}
  }

  /** Tests of the nodes from which an edge of `es` depends on node `id`. */
  function DependentTests(byId: map<NodeId, Node>, edges: seq<Edge>, es: seq<Edge>, id: NodeId): set<string> {
    if es == [] then {}
    else
      var e := es[|es| - 1];
      DependentTests(byId, edges, es[..|es| - 1], id) + if IsDependency(byId, e, id) then TestsOf(byId, edges, e.from) else {}
  }

  /** The paths that depend on a file with path `p` among the nodes `ns`. */
  function Dependents(byId: map<NodeId, Node>, ns: seq<Node>, edges: seq<Edge>, p: string): set<string> {
    if ns == [] then {}
    else
      var n := ns[|ns| - 1];
      Dependents(byId, ns[..|ns| - 1], edges, p) + if IsFile(n, p) then DependentPaths(byId, edges, n.id) else {}
  }

  /** The tests that visiting the files with path `p` among the nodes `ns` adds. */
  function TestsAt(byId: map<NodeId, Node>, ns: seq<Node>, edges: seq<Edge>, p: string): set<string> {
    if ns == [] then {}
    else
      var n := ns[|ns| - 1];
      TestsAt(byId, ns[..|ns| - 1], edges, p)
      + if IsFile(n, p) then TestsAround(byId, edges, n.id) else {}
  }

  ghost function AllTests(byId: map<NodeId, Node>, nodes: seq<Node>, edges: seq<Edge>, ps: set<string>): set<string> {
    UnionOver(ps, p => TestsAt(byId, nodes, edges, p))
  }

  ghost function UnionOver(ps: set<string>, f: string -> set<string>): set<string> {
    set p, t | p in ps && t in f(p) :: t
  }

  lemma UnionMember(ps: set<string>, f: string -> set<string>, t: string)
    ensures t in UnionOver(ps, f) <==> exists p :: p in ps && t in f(p)
  {}

  lemma UnionAdd(ps: set<string>, f: string -> set<string>, p: string)
    ensures UnionOver(ps + {p}, f) == UnionOver(ps, f) + f(p)
  {
    assert p in ps + {p};
    forall t | t in f(p) ensures t in UnionOver(ps + {p}, f) {}
  }

  lemma {:induction false} TestsOfAre(byId: map<NodeId, Node>, edges: seq<Edge>, id: NodeId, t: string)
    ensures t in TestsOf(byId, edges, id) <==> exists e :: e in edges && IsTest(byId, e, id) && t == PathOf(byId, e)
  {
    if edges != [] {
      var n := |edges| - 1;
      TestsOfAre(byId, edges[..n], id, t);
      assert forall e :: e in edges <==> e in edges[..n] || e == edges[n];
    }
  }

  lemma {:induction false} DependentPathsAre(byId: map<NodeId, Node>, edges: seq<Edge>, id: NodeId, q: string)
    ensures q in DependentPaths(byId, edges, id) <==>
            exists e :: e in edges && IsDependency(byId, e, id) && q == PathOf(byId, e)
  {
    if edges != [] {
      var n := |edges| - 1;
      DependentPathsAre(byId, edges[..n], id, q);
      assert forall e :: e in edges <==> e in edges[..n] || e == edges[n];
    }
  }

  lemma {:induction false} DependentTestsAre(byId: map<NodeId, Node>, edges: seq<Edge>, es: seq<Edge>, id: NodeId, t: string)
    ensures t in DependentTests(byId, edges, es, id) <==>
            exists e :: e in es && IsDependency(byId, e, id) && t in TestsOf(byId, edges, e.from)
  {
    if es != [] {
      var n := |es| - 1;
      DependentTestsAre(byId, edges, es[..n], id, t);
      assert forall e :: e in es <==> e in es[..n] || e == es[n];
    }
  }

  lemma {:induction false} DependentsAre(byId: map<NodeId, Node>, ns: seq<Node>, edges: seq<Edge>, p: string, q: string)
    ensures q in Dependents(byId, ns, edges, p) <==>
            exists n :: n in ns && IsFile(n, p) && q in DependentPaths(byId, edges, n.id)
  {
    if ns != [] {
      var k := |ns| - 1;
      DependentsAre(byId, ns[..k], edges, p, q);
      assert forall n :: n in ns <==> n in ns[..k] || n == ns[k];
    }
  }

  lemma {:induction false} TestsAtAre(byId: map<NodeId, Node>, ns: seq<Node>, edges: seq<Edge>, p: string, t: string)
    ensures t in TestsAt(byId, ns, edges, p) <==>
            exists n :: n in ns && IsFile(n, p) && t in TestsAround(byId, edges, n.id)
  {
    if ns != [] {
      var k := |ns| - 1;
      TestsAtAre(byId, ns[..k], edges, p, t);
      assert forall n :: n in ns <==> n in ns[..k] || n == ns[k];
    }
  }

  // ---------------------------------------------------------------- the work list

  method AddProbableTests(id: NodeId, edges: seq<Edge>, byId: map<NodeId, Node>, tests: set<string>)
    returns (tests': set<string>)
    ensures tests' == tests + TestsOf(byId, edges, id)
  {
    tests' := tests;
    var i := 0;
    while i < |edges|
      invariant 0 <= i <= |edges|
      invariant tests' == tests + TestsOf(byId, edges[..i], id)
    {
      var te := edges[i];
      assert edges[..i + 1][..i] == edges[..i];
      if IsTest(byId, te, id) {
        tests' := tests' + {byId[te.from].path.value};
      }
      i := i + 1;
    }
    assert edges[..i] == edges;
  }

  /** The work list after some paths became impacted: each of them is queued, and nothing else is. */
  ghost predicate Grown(impacted: set<string>, queue: seq<string>, impacted': set<string>, queue': seq<string>) {
    && impacted <= impacted' && queue <= queue'
    && (impacted' == impacted ==> queue' == queue)
    && (forall q :: q in impacted' - impacted ==> q in queue')
    && (forall q :: q in queue' ==> q in queue || q in impacted')
  }

  lemma GrownTrans(i0: set<string>, q0: seq<string>, i1: set<string>, q1: seq<string>, i2: set<string>, q2: seq<string>)
    requires Grown(i0, q0, i1, q1) && Grown(i1, q1, i2, q2)
    ensures Grown(i0, q0, i2, q2)
  {
    if i2 == i0 { assert i1 == i0; }
    assert forall q :: q in q1 ==> q in q2;
  }

  lemma GrownOne(impacted: set<string>, queue: seq<string>, q: string)
    requires q !in impacted
    ensures Grown(impacted, queue, impacted + {q}, queue + [q])
  {}

  /** Visit the edges into one file node; newly impacted paths are queued once. */
  method ExpandNode(n: Node, edges: seq<Edge>, byId: map<NodeId, Node>,
                    impacted: set<string>, queue: seq<string>, tests: set<string>)
    returns (impacted': set<string>, queue': seq<string>, tests': set<string>)
    ensures impacted' == impacted + DependentPaths(byId, edges, n.id)
    ensures Grown(impacted, queue, impacted', queue')
    ensures tests' == tests + TestsOf(byId, edges, n.id) + DependentTests(byId, edges, edges, n.id)
  {
    impacted', queue' := impacted, queue;
    tests' := AddProbableTests(n.id, edges, byId, tests);
    var i := 0;
    while i < |edges|
      invariant 0 <= i <= |edges|
      invariant impacted' == impacted + DependentPaths(byId, edges[..i], n.id)
      invariant Grown(impacted, queue, impacted', queue')
      invariant tests' == tests + TestsOf(byId, edges, n.id) + DependentTests(byId, edges, edges[..i], n.id)
    {
      var e := edges[i];
      assert edges[..i + 1][..i] == edges[..i];
      if IsDependency(byId, e, n.id) {
        var q := byId[e.from].path.value;
        if q !in impacted' {
          GrownOne(impacted', queue', q);
          GrownTrans(impacted, queue, impacted', queue', impacted' + {q}, queue' + [q]);
          impacted', queue' := impacted' + {q}, queue' + [q];
        }
        tests' := AddProbableTests(e.from, edges, byId, tests');
      }
      i := i + 1;
    }
    assert edges[..i] == edges;
  }

  method ExpandPath(p: string, nodes: seq<Node>, edges: seq<Edge>, byId: map<NodeId, Node>,
                    impacted: set<string>, queue: seq<string>, tests: set<string>)
    returns (impacted': set<string>, queue': seq<string>, tests': set<string>)
    ensures impacted' == impacted + Dependents(byId, nodes, edges, p)
    ensures Grown(impacted, queue, impacted', queue')
    ensures tests' == tests + TestsAt(byId, nodes, edges, p)
  {
    impacted', queue', tests' := impacted, queue, tests;
    var i := 0;
    while i < |nodes|
      invariant 0 <= i <= |nodes|
      invariant impacted' == impacted + Dependents(byId, nodes[..i], edges, p)
      invariant Grown(impacted, queue, impacted', queue')
      invariant tests' == tests + TestsAt(byId, nodes[..i], edges, p)
    {
      assert nodes[..i + 1][..i] == nodes[..i];
      if IsFile(nodes[i], p) {
        ghost var i1, q1 := impacted', queue';
        impacted', queue', tests' := ExpandNode(nodes[i], edges, byId, impacted', queue', tests');
        GrownTrans(impacted, queue, i1, q1, impacted', queue');
      }
      i := i + 1;
    }
    assert nodes[..i] == nodes;
  }

  lemma DependsOnIff(nodes: seq<Node>, edges: seq<Edge>, p: string, q: string)
    ensures q in Dependents(NodeById(nodes), nodes, edges, p) <==> DependsOn(nodes, edges, q, p)
  {
    var byId := NodeById(nodes);
    DependentsAre(byId, nodes, edges, p, q);
    forall n | n in nodes
      ensures q in DependentPaths(byId, edges, n.id) <==>
              exists e :: e in edges && IsDependency(byId, e, n.id) && q == PathOf(byId, e)
    {
      DependentPathsAre(byId, edges, n.id, q);
    }
  }

  function PathsOf(nodes: seq<Node>): set<string> {
    set n | n in nodes && HasPath(n) :: n.path.value
  }

  lemma DependsOnPath(nodes: seq<Node>, edges: seq<Edge>, p: string, q: string)
    requires DependsOn(nodes, edges, q, p)
    ensures q in PathsOf(nodes)
  {
    var byId := NodeById(nodes);
    var n, e :| n in nodes && IsFile(n, p) && e in edges && IsDependency(byId, e, n.id) && q == PathOf(byId, e);
    assert byId[e.from] in nodes;
  }

  lemma AllTestsAdd(byId: map<NodeId, Node>, nodes: seq<Node>, edges: seq<Edge>, ps: set<string>, p: string)
    ensures AllTests(byId, nodes, edges, ps + {p}) == AllTests(byId, nodes, edges, ps) + TestsAt(byId, nodes, edges, p)
  {
    UnionAdd(ps, p => TestsAt(byId, nodes, edges, p), p);
  }

  /** A path that depends on a reachable path is reachable. */
  lemma ReachesStep(nodes: seq<Node>, edges: seq<Edge>, changed: set<string>, p: string, q: string)
    requires Reaches(nodes, edges, changed, p) && DependsOn(nodes, edges, q, p)
    ensures Reaches(nodes, edges, changed, q)
  {
    var c :| Chain(nodes, edges, c) && c[0] in changed && c[|c| - 1] == p;
    var d := c + [q];
    forall i | 0 <= i < |d| - 1 ensures DependsOn(nodes, edges, d[i + 1], d[i]) {
      if i < |c| - 1 { assert d[i] == c[i] && d[i + 1] == c[i + 1]; }
    }
    assert Chain(nodes, edges, d);
  }

  lemma ReachesSelf(nodes: seq<Node>, edges: seq<Edge>, changed: set<string>, p: string)
    requires p in changed
    ensures Reaches(nodes, edges, changed, p)
  {
    assert Chain(nodes, edges, [p]);
  }

  /** A set that is closed under dependents and holds the start of a chain holds its end. */
  lemma {:induction false} ClosedHoldsChain(nodes: seq<Node>, edges: seq<Edge>, s: set<string>, c: seq<string>)
    requires Chain(nodes, edges, c) && c[0] in s
    requires forall p, q :: p in s && DependsOn(nodes, edges, q, p) ==> q in s
    ensures c[|c| - 1] in s
    decreases |c|
  {
    if |c| > 1 {
      var d := c[..|c| - 1];
      forall i | 0 <= i < |d| - 1 ensures DependsOn(nodes, edges, d[i + 1], d[i]) {
        assert d[i] == c[i] && d[i + 1] == c[i + 1];
      }
      ClosedHoldsChain(nodes, edges, s, d);
      assert DependsOn(nodes, edges, c[|c| - 2 + 1], c[|c| - 2]);
    }
  }

  /** What the work list keeps: `done` are the paths already expanded. */
  ghost predicate WorkList(nodes: seq<Node>, edges: seq<Edge>, start: set<string>, done: set<string>,
                           impacted: set<string>, queue: seq<string>) {
    && start <= impacted <= start + PathsOf(nodes)
    && done <= impacted
    && (forall q :: q in queue ==> q in impacted)
    && (forall p :: p in impacted ==> p in done || p in queue)
    && (forall p, q :: p in done && DependsOn(nodes, edges, q, p) ==> q in impacted)
    && (forall q :: q in impacted ==> Reaches(nodes, edges, start, q))
  }

  lemma ExpandedReach(nodes: seq<Node>, edges: seq<Edge>, start: set<string>, impacted: set<string>, p: string, q: string)
    requires p in impacted && start <= impacted <= start + PathsOf(nodes)
    requires forall x :: x in impacted ==> Reaches(nodes, edges, start, x)
    requires q in impacted + Dependents(NodeById(nodes), nodes, edges, p)
    ensures Reaches(nodes, edges, start, q) && q in start + PathsOf(nodes)
  {
    if q !in impacted {
      DependsOnIff(nodes, edges, p, q);
      DependsOnPath(nodes, edges, p, q);
      ReachesStep(nodes, edges, start, p, q);
    }
  }

  lemma QueueStep(done: set<string>, impacted: set<string>, queue: seq<string>, impacted': set<string>, queue': seq<string>)
    requires queue != [] && Grown(impacted, queue[1..], impacted', queue')
    requires forall q :: q in queue ==> q in impacted
    requires forall p :: p in impacted ==> p in done || p in queue
    ensures forall q :: q in queue' ==> q in impacted'
    ensures forall p :: p in impacted' ==> p in done + {queue[0]} || p in queue'
  {
    assert forall q :: q in queue ==> q == queue[0] || q in queue[1..];
    assert forall q :: q in queue[1..] ==> q in queue';
  }

  lemma WorkListStep(nodes: seq<Node>, edges: seq<Edge>, start: set<string>, done: set<string>,
                     impacted: set<string>, queue: seq<string>, impacted': set<string>, queue': seq<string>)
    requires queue != [] && WorkList(nodes, edges, start, done, impacted, queue)
    requires impacted' == impacted + Dependents(NodeById(nodes), nodes, edges, queue[0])
    requires Grown(impacted, queue[1..], impacted', queue')
    ensures WorkList(nodes, edges, start, done + {queue[0]}, impacted', queue')
  {
    assert queue[0] in queue;
    QueueStep(done, impacted, queue, impacted', queue');
    forall q | DependsOn(nodes, edges, q, queue[0]) ensures q in impacted' {
      DependsOnIff(nodes, edges, queue[0], q);
    }
    forall q | q in impacted' ensures Reaches(nodes, edges, start, q) && q in start + PathsOf(nodes) {
      ExpandedReach(nodes, edges, start, impacted, queue[0], q);
    }
  }

  lemma WorkListDone(nodes: seq<Node>, edges: seq<Edge>, start: set<string>, done: set<string>, impacted: set<string>)
    requires WorkList(nodes, edges, start, done, impacted, [])
    ensures done == impacted
    ensures forall q :: q in impacted <==> Reaches(nodes, edges, start, q)
  {
    forall q | Reaches(nodes, edges, start, q) ensures q in impacted {
      var c :| Chain(nodes, edges, c) && c[0] in start && c[|c| - 1] == q;
      ClosedHoldsChain(nodes, edges, impacted, c);
    }
  }

  function TestsAround(byId: map<NodeId, Node>, edges: seq<Edge>, id: NodeId): set<string> {
    TestsOf(byId, edges, id) + DependentTests(byId, edges, edges, id)
  }

  lemma TestsAroundAre(nodes: seq<Node>, edges: seq<Edge>, id: NodeId, t: string)
    ensures t in TestsAround(NodeById(nodes), edges, id) <==> CoversAround(nodes, edges, t, id)
  {
    var byId := NodeById(nodes);
    TestsOfAre(byId, edges, id, t);
    DependentTestsAre(byId, edges, edges, id, t);
    forall e | e in edges ensures t in TestsOf(byId, edges, e.from) <==> Covers(nodes, edges, t, e.from) {
      TestsOfAre(byId, edges, e.from, t);
    }
  }

  lemma TestsAtIff(nodes: seq<Node>, edges: seq<Edge>, p: string, t: string)
    ensures t in TestsAt(NodeById(nodes), nodes, edges, p) <==>
            exists n :: n in nodes && IsFile(n, p) && CoversAround(nodes, edges, t, n.id)
  {
    var byId := NodeById(nodes);
    TestsAtAre(byId, nodes, edges, p, t);
    forall n | n in nodes ensures t in TestsAround(byId, edges, n.id) <==> CoversAround(nodes, edges, t, n.id) {
      TestsAroundAre(nodes, edges, n.id, t);
    }
  }

  lemma ProbableTestIff(nodes: seq<Node>, edges: seq<Edge>, impacted: set<string>, t: string)
    ensures t in AllTests(NodeById(nodes), nodes, edges, impacted) <==> ProbableTest(nodes, edges, impacted, t)
  {
    var byId := NodeById(nodes);
    AllTestsAre(byId, nodes, edges, impacted, t);
    forall p ensures t in TestsAt(byId, nodes, edges, p) <==>
                     exists n :: n in nodes && IsFile(n, p) && CoversAround(nodes, edges, t, n.id)
    {
      TestsAtIff(nodes, edges, p, t);
    }
    if n, p :| n in nodes && p in impacted && IsFile(n, p) && CoversAround(nodes, edges, t, n.id) {
      assert t in TestsAt(byId, nodes, edges, p);
    }
  }

  lemma ProbableTests(nodes: seq<Node>, edges: seq<Edge>, impacted: set<string>)
    ensures forall t :: t in AllTests(NodeById(nodes), nodes, edges, impacted) <==> ProbableTest(nodes, edges, impacted, t)
  {
    forall t ensures t in AllTests(NodeById(nodes), nodes, edges, impacted) <==> ProbableTest(nodes, edges, impacted, t) {
      ProbableTestIff(nodes, edges, impacted, t);
    }
  }

  lemma AllTestsAre(byId: map<NodeId, Node>, nodes: seq<Node>, edges: seq<Edge>, ps: set<string>, t: string)
    ensures t in AllTests(byId, nodes, edges, ps) <==> exists p :: p in ps && t in TestsAt(byId, nodes, edges, p)
  {
    UnionMember(ps, p => TestsAt(byId, nodes, edges, p), t);
  }

  /** Either a path becomes impacted or the queue gets shorter. */
  lemma WorkListShrinks(all: set<string>, impacted: set<string>, queue: seq<string>, impacted': set<string>, queue': seq<string>)
    requires queue != [] && Grown(impacted, queue[1..], impacted', queue') && forall q :: q in impacted' ==> q in all
    ensures all - impacted' < all - impacted || (impacted' == impacted && |queue'| < |queue|)
  {
    if impacted' != impacted {
      var q :| q in impacted' && q !in impacted;
      assert q in all - impacted && q !in all - impacted';
    }
  }

  lemma WorkListStart(nodes: seq<Node>, edges: seq<Edge>, changed: seq<string>)
    ensures var start := set p | p in changed; WorkList(nodes, edges, start, {}, start, changed)
  {
    var start := set p | p in changed;
    forall p | p in start ensures Reaches(nodes, edges, start, p) {
      ReachesSelf(nodes, edges, start, p);
    }
  }

  /**
   The impacted paths are exactly the paths from which a chain of dependencies leads
   to a changed path; the probable tests are exactly the tests of an impacted file or
   of a node that depends on one.
   */
  method ComputeStructuralImpactSets(changed: seq<string>, nodes: seq<Node>, edges: seq<Edge>)
    returns (impacted: set<string>, probableTests: set<string>)
    ensures forall q :: q in impacted <==> Reaches(nodes, edges, (set p | p in changed), q)
    ensures forall t :: t in probableTests <==> ProbableTest(nodes, edges, impacted, t)
  {
    var byId := NodeById(nodes);
    ghost var start := set p | p in changed;
    ghost var done: set<string> := {};
    impacted := set p | p in changed;
    probableTests := {};
    var queue := changed;
    WorkListStart(nodes, edges, changed);
    while queue != []
      invariant WorkList(nodes, edges, start, done, impacted, queue)
      invariant probableTests == AllTests(byId, nodes, edges, done)
      decreases start + PathsOf(nodes) - impacted, |queue|
    {
      ghost var i1, q1 := impacted, queue;
      impacted, queue, probableTests :=
        ExpandPath(queue[0], nodes, edges, byId, impacted, queue[1..], probableTests);
      WorkListStep(nodes, edges, start, done, i1, q1, impacted, queue);
      WorkListShrinks(start + PathsOf(nodes), i1, q1, impacted, queue);
      AllTestsAdd(byId, nodes, edges, done, q1[0]);
      done := done + {q1[0]};
    }
    WorkListDone(nodes, edges, start, done, impacted);
    ProbableTests(nodes, edges, impacted);
  }

  // ---------------------------------------------------------------- a closure operator

  lemma {:induction false} ChainConcat(nodes: seq<Node>, edges: seq<Edge>, c: seq<string>, d: seq<string>)
    requires Chain(nodes, edges, c) && Chain(nodes, edges, d) && c[|c| - 1] == d[0]
    ensures Chain(nodes, edges, c + d[1..])
  {
    var cd := c + d[1..];
    forall i | 0 <= i < |cd| - 1 ensures DependsOn(nodes, edges, cd[i + 1], cd[i]) {
      if i < |c| - 1 {
        assert cd[i] == c[i] && cd[i + 1] == c[i + 1];
      } else {
        var j := i - (|c| - 1);
        assert cd[i] == d[j] && cd[i + 1] == d[j + 1];
      }
    }
  }

  /** Growing the change can only grow the impact: the impact of a union is the union of the impacts. */
  lemma ImpactUnion(nodes: seq<Node>, edges: seq<Edge>, a: set<string>, b: set<string>, q: string)
    ensures Reaches(nodes, edges, a + b, q) <==> Reaches(nodes, edges, a, q) || Reaches(nodes, edges, b, q)
  {}

  /** Asking for the impact of everything impacted adds nothing. */
  lemma ImpactIdempotent(nodes: seq<Node>, edges: seq<Edge>, a: set<string>, ia: set<string>, q: string)
    requires forall p :: p in ia <==> Reaches(nodes, edges, a, p)
    ensures Reaches(nodes, edges, ia, q) <==> q in ia
  {
    if Reaches(nodes, edges, ia, q) {
      var d :| Chain(nodes, edges, d) && d[0] in ia && d[|d| - 1] == q;
      var c :| Chain(nodes, edges, c) && c[0] in a && c[|c| - 1] == d[0];
      ChainConcat(nodes, edges, c, d);
      var cd := c + d[1..];
      assert cd[|cd| - 1] == q;
    }
    if q in ia {
      ReachesSelf(nodes, edges, ia, q);
    }
  }

  /** The impact is the least set that holds the change and is closed under dependents. */
  lemma ImpactLeast(nodes: seq<Node>, edges: seq<Edge>, a: set<string>, s: set<string>, q: string)
    requires a <= s && forall p, r :: p in s && DependsOn(nodes, edges, r, p) ==> r in s
    requires Reaches(nodes, edges, a, q)
    ensures q in s
  {
    var c :| Chain(nodes, edges, c) && c[0] in a && c[|c| - 1] == q;
    ClosedHoldsChain(nodes, edges, s, c);
  }
}
