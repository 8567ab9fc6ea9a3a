/** The impact query on graphs that the builder produces, in terms of imports and linked tests. */
module BuiltImpact {
  import opened Wrappers
  import opened Graph
  import opened Paths
  import opened TestLinker
  import opened GraphBuilder
  import opened BuiltGraph
  import opened Impact
  import IR = ImportResolver

  /** File `q` has an import that resolves to file `p`. */
  ghost predicate DirectImport(inp: Input, q: string, p: string) {
    exists f, site :: f in inp.files && f.path == q && HasStructure(inp, f) && site in inp.sources[q].imports
                      && IR.ResolveTarget(site.specifier, q, PathSet(inp.files)) == IR.FileTarget(p)
  }

  /** `findTests` links the test file `t` to the source file `p`. */
  ghost predicate TestLink(inp: Input, p: string, t: string) {
    exists f :: f in inp.files && f.path == p && t in LinkedTestsOf(inp, SortedFiles(inp), f) && t in TestPaths(inp.files)
  }

  ghost predicate ChainOf(rel: (string, string) -> bool, c: seq<string>) {
    c != [] && forall i :: 0 <= i < |c| - 1 ==> rel(c[i + 1], c[i])
  }

  /** A chain of resolved imports leads from `q` to a changed path. */
  ghost predicate ImportReaches(inp: Input, changed: set<string>, q: string) {
    ReachesBy((x, y) => DirectImport(inp, x, y), changed, q)
  }

  ghost predicate ReachesBy(rel: (string, string) -> bool, changed: set<string>, q: string) {
    exists c :: ChainOf(rel, c) && c[0] in changed && c[|c| - 1] == q
  }

  // ---------------------------------------------------------------- edges between files

  lemma FileNodePath(inp: Input, nodeName: NodeId -> string, p: string)
    requires ValidFiles(inp.files)
    ensures FileId(p) in NodeById(Nodes(inp, nodeName)) <==> p in PathSet(inp.files)
    ensures p in PathSet(inp.files) ==>
      var n := NodeById(Nodes(inp, nodeName))[FileId(p)]; n.path == Some(p) && HasPath(n)
  {
    var nodes := Nodes(inp, nodeName);
    var byId := NodeById(nodes);
    if p in PathSet(inp.files) {
      var f :| f in inp.files && f.path == p;
      InventoryNodesKept(inp, nodeName, FileNode(f));
      assert FileNode(f).id in byId;
      CanonicalNormal(p);
    }
    if FileId(p) in byId {
      FileNodesAre(inp, nodeName, byId[FileId(p)]);
    }
  }

  /** The dependency edges are the edges of imports. */
  lemma DependencyEdge(inp: Input, edgeName: EdgeId -> string, e: Edge, p: string)
    requires e in Edges(inp, edgeName) && IsReverseDependency(e.kind) && e.to == FileId(p)
    ensures e.from.FileId? && DirectImport(inp, e.from.path, p)
  {
    EdgeOrigin(inp, edgeName, e);
    var f :| f in inp.files && IsImportEdge(inp, f, e);
    var site :| site in inp.sources[f.path].imports && e in ImportEdges(f.path, site, PathSet(inp.files));
    ImportEdgeShape(inp, f.path, site, e);
  }

  lemma ImportHasEdge(inp: Input, edgeName: EdgeId -> string, q: string, p: string)
    requires DirectImport(inp, q, p)
    ensures PlainEdge(DEPENDS_ON, FileId(q), FileId(p)) in Edges(inp, edgeName)
    ensures q in PathSet(inp.files) && p in PathSet(inp.files)
  {
    var e := PlainEdge(DEPENDS_ON, FileId(q), FileId(p));
    var f, site :| f in inp.files && f.path == q && HasStructure(inp, f) && site in inp.sources[q].imports
                   && IR.ResolveTarget(site.specifier, q, PathSet(inp.files)) == IR.FileTarget(p);
    IR.FileTargetIndexed(site.specifier, q, PathSet(inp.files));
    assert ImportEdges(q, site, PathSet(inp.files))[1] == e;
    assert IsImportEdge(inp, f, e);
    StructuralEdgeIff(inp, e);
    NoEdgeLost(inp, edgeName, e);
  }

  lemma TestEdgeLinks(inp: Input, edgeName: EdgeId -> string, e: Edge, p: string)
    requires e in Edges(inp, edgeName) && e.kind.TESTS? && e.to == FileId(p)
    ensures e.from.FileId? && TestLink(inp, p, e.from.path)
  {
    EdgeOrigin(inp, edgeName, e);
  }

  lemma LinkHasEdge(inp: Input, edgeName: EdgeId -> string, p: string, t: string)
    requires TestLink(inp, p, t)
    ensures PlainEdge(TESTS, FileId(t), FileId(p)) in Edges(inp, edgeName)
    ensures p in PathSet(inp.files) && t in PathSet(inp.files)
  {
    var e := PlainEdge(TESTS, FileId(t), FileId(p));
    var f :| f in inp.files && f.path == p && t in LinkedTestsOf(inp, SortedFiles(inp), f) && t in TestPaths(inp.files);
    assert IsTestEdge(inp, f, e);
    StructuralEdgeIff(inp, e);
    NoEdgeLost(inp, edgeName, e);
  }

  // ---------------------------------------------------------------- dependencies and tests

  lemma FileWithPath(inp: Input, nodeName: NodeId -> string, n: Node)
    requires n in Nodes(inp, nodeName) && IsFileLike(n.kind)
    ensures n.id.FileId? && n.path == Some(n.id.path)
  {
    FileNodesAre(inp, nodeName, n);
  }

  lemma FileHasNode(inp: Input, nodeName: NodeId -> string, p: string) returns (n: Node)
    requires ValidFiles(inp.files) && p in PathSet(inp.files)
    ensures n in Nodes(inp, nodeName) && IsFile(n, p) && n.id == FileId(p)
  {
    var f :| f in inp.files && f.path == p;
    InventoryNodesKept(inp, nodeName, FileNode(f));
    n := FileNode(f);
  }

  lemma DependencyIsImport(inp: Input, nodeName: NodeId -> string, edgeName: EdgeId -> string, p: string, e: Edge)
    requires ValidFiles(inp.files) && e in Edges(inp, edgeName) && IsDependency(NodeById(Nodes(inp, nodeName)), e, FileId(p))
    ensures DirectImport(inp, PathOf(NodeById(Nodes(inp, nodeName)), e), p)
    ensures e.from == FileId(PathOf(NodeById(Nodes(inp, nodeName)), e))
  {
    DependencyEdge(inp, edgeName, e, p);
    FileNodePath(inp, nodeName, e.from.path);
  }

  lemma ImportIsDependency(inp: Input, nodeName: NodeId -> string, edgeName: EdgeId -> string, q: string, p: string)
    requires ValidFiles(inp.files) && DirectImport(inp, q, p)
    ensures DependsOn(Nodes(inp, nodeName), Edges(inp, edgeName), q, p)
  {
    ImportHasEdge(inp, edgeName, q, p);
    FileNodePath(inp, nodeName, q);
    var n := FileHasNode(inp, nodeName, p);
    var e := PlainEdge(DEPENDS_ON, FileId(q), FileId(p));
    DependencyWitness(Nodes(inp, nodeName), Edges(inp, edgeName), n, e, q, p);
  }

  lemma DependencyWitness(nodes: seq<Node>, edges: seq<Edge>, n: Node, e: Edge, q: string, p: string)
    requires n in nodes && IsFile(n, p) && e in edges && e.to == n.id && IsReverseDependency(e.kind)
    requires e.from in NodeById(nodes) && HasPath(NodeById(nodes)[e.from]) && NodeById(nodes)[e.from].path == Some(q)
    ensures DependsOn(nodes, edges, q, p)
  {
    assert IsDependency(NodeById(nodes), e, n.id) && q == PathOf(NodeById(nodes), e);
  }

  /** One step of the impact query is one resolved import. */
  lemma DependsOnIsImport(inp: Input, nodeName: NodeId -> string, edgeName: EdgeId -> string, q: string, p: string)
    requires ValidFiles(inp.files)
    ensures DependsOn(Nodes(inp, nodeName), Edges(inp, edgeName), q, p) <==> DirectImport(inp, q, p)
  {
    var nodes, edges := Nodes(inp, nodeName), Edges(inp, edgeName);
    if DependsOn(nodes, edges, q, p) {
      var n, e :| n in nodes && IsFile(n, p) && e in edges
                  && IsDependency(NodeById(nodes), e, n.id) && q == PathOf(NodeById(nodes), e);
      FileWithPath(inp, nodeName, n);
      DependencyIsImport(inp, nodeName, edgeName, p, e);
    }
    if DirectImport(inp, q, p) {
      ImportIsDependency(inp, nodeName, edgeName, q, p);
    }
  }

  lemma CoversIsLink(inp: Input, nodeName: NodeId -> string, edgeName: EdgeId -> string, p: string, t: string)
    requires ValidFiles(inp.files)
    ensures Covers(Nodes(inp, nodeName), Edges(inp, edgeName), t, FileId(p)) <==> TestLink(inp, p, t)
  {
    var nodes, edges := Nodes(inp, nodeName), Edges(inp, edgeName);
    if Covers(nodes, edges, t, FileId(p)) {
      var e :| e in edges && IsTest(NodeById(nodes), e, FileId(p)) && t == PathOf(NodeById(nodes), e);
      TestEdgeLinks(inp, edgeName, e, p);
      FileNodePath(inp, nodeName, e.from.path);
    }
    if TestLink(inp, p, t) {
      LinkHasEdge(inp, edgeName, p, t);
      FileNodePath(inp, nodeName, t);
      assert IsTest(NodeById(nodes), PlainEdge(TESTS, FileId(t), FileId(p)), FileId(p));
    }
  }

  /** The impacted paths are the changed ones and every file with a chain of resolved imports to one. */
  lemma ReachesIsImportChain(inp: Input, nodeName: NodeId -> string, edgeName: EdgeId -> string, changed: set<string>, q: string)
    requires ValidFiles(inp.files)
    ensures Reaches(Nodes(inp, nodeName), Edges(inp, edgeName), changed, q) <==> ImportReaches(inp, changed, q)
  {
    var nodes, edges := Nodes(inp, nodeName), Edges(inp, edgeName);
    forall p, q ensures DependsOn(nodes, edges, q, p) <==> DirectImport(inp, q, p) {
      DependsOnIsImport(inp, nodeName, edgeName, q, p);
    }
    SameChains(nodes, edges, (x, y) => DirectImport(inp, x, y), changed, q);
  }

  lemma SameChains(nodes: seq<Node>, edges: seq<Edge>, rel: (string, string) -> bool, changed: set<string>, q: string)
    requires forall p, q :: DependsOn(nodes, edges, q, p) <==> rel(q, p)
    ensures Reaches(nodes, edges, changed, q) <==> ReachesBy(rel, changed, q)
  {
    forall c ensures Chain(nodes, edges, c) <==> ChainOf(rel, c) {}
  }

  lemma LinkIsProbable(inp: Input, nodeName: NodeId -> string, edgeName: EdgeId -> string, impacted: set<string>, p: string, t: string)
    requires ValidFiles(inp.files) && p in impacted && TestLink(inp, p, t)
    ensures ProbableTest(Nodes(inp, nodeName), Edges(inp, edgeName), impacted, t)
  {
    LinkHasEdge(inp, edgeName, p, t);
    CoversIsLink(inp, nodeName, edgeName, p, t);
    var n := FileHasNode(inp, nodeName, p);
    assert CoversAround(Nodes(inp, nodeName), Edges(inp, edgeName), t, n.id);
  }

  /** The tests that visiting one impacted file adds are linked to it or to a file that imports it. */
  lemma AroundIsLinked(inp: Input, nodeName: NodeId -> string, edgeName: EdgeId -> string, p: string, t: string)
    requires ValidFiles(inp.files) && CoversAround(Nodes(inp, nodeName), Edges(inp, edgeName), t, FileId(p))
    ensures TestLink(inp, p, t) || exists q :: DirectImport(inp, q, p) && TestLink(inp, q, t)
  {
    var nodes, edges := Nodes(inp, nodeName), Edges(inp, edgeName);
    CoversIsLink(inp, nodeName, edgeName, p, t);
    if e :| e in edges && IsDependency(NodeById(nodes), e, FileId(p)) && Covers(nodes, edges, t, e.from) {
      DependencyIsImport(inp, nodeName, edgeName, p, e);
      CoversIsLink(inp, nodeName, edgeName, e.from.path, t);
    }
  }

  /** The probable tests are the tests linked to an impacted file. */
  lemma ProbableIsLinked(inp: Input, nodeName: NodeId -> string, edgeName: EdgeId -> string, impacted: set<string>, t: string)
    requires ValidFiles(inp.files)
    requires forall p, q :: p in impacted && DirectImport(inp, q, p) ==> q in impacted
    ensures ProbableTest(Nodes(inp, nodeName), Edges(inp, edgeName), impacted, t) <==>
            exists p :: p in impacted && TestLink(inp, p, t)
  {
    var nodes, edges := Nodes(inp, nodeName), Edges(inp, edgeName);
    if ProbableTest(nodes, edges, impacted, t) {
      var n, p :| n in nodes && p in impacted && IsFile(n, p) && CoversAround(nodes, edges, t, n.id);
      FileWithPath(inp, nodeName, n);
      AroundIsLinked(inp, nodeName, edgeName, p, t);
    }
    if p :| p in impacted && TestLink(inp, p, t) {
      LinkIsProbable(inp, nodeName, edgeName, impacted, p, t);
    }
  }

  // ---------------------------------------------------------------- building and querying

  lemma StepBy(rel: (string, string) -> bool, changed: set<string>, p: string, q: string)
    requires ReachesBy(rel, changed, p) && rel(q, p)
    ensures ReachesBy(rel, changed, q)
  {
    var c :| ChainOf(rel, c) && c[0] in changed && c[|c| - 1] == p;
    assert ChainOf(rel, c + [q]);
  }

  lemma ReachClosed(inp: Input, changed: set<string>, impacted: set<string>)
    requires forall q :: q in impacted <==> ImportReaches(inp, changed, q)
    ensures forall p, q :: p in impacted && DirectImport(inp, q, p) ==> q in impacted
  {
    forall p, q | p in impacted && DirectImport(inp, q, p) ensures q in impacted {
      StepBy((x, y) => DirectImport(inp, x, y), changed, p, q);
    }
  }

  /**
   Build a graph, then ask for the impact of a change: the impacted files are the changed
   paths and every source file with a chain of resolved imports to one of them; the
   probable tests are the test files linked to an impacted source file.
   */
  method ImpactOfChange(inp: Input, changed: seq<string>, nodeName: NodeId -> string, edgeName: EdgeId -> string)
    returns (impacted: set<string>, probableTests: set<string>)
    requires ValidFiles(inp.files)
    ensures forall q :: q in impacted <==> ImportReaches(inp, (set p | p in changed), q)
    ensures forall t :: t in probableTests <==> exists p :: p in impacted && TestLink(inp, p, t)
  {
    var nodes, edges := BuildGraphSnapshot(inp, nodeName, edgeName);
    impacted, probableTests := ComputeStructuralImpactSets(changed, nodes, edges);
    ghost var start := set p | p in changed;
    forall q ensures q in impacted <==> ImportReaches(inp, start, q) {
      ReachesIsImportChain(inp, nodeName, edgeName, start, q);
    }
    ReachClosed(inp, start, impacted);
    forall t ensures t in probableTests <==> exists p :: p in impacted && TestLink(inp, p, t) {
      ProbableIsLinked(inp, nodeName, edgeName, impacted, t);
    }
  }
}
