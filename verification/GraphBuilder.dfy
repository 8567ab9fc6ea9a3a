/**
 Building the repository graph from an inventory of files and what was extracted from
 their source text: inventory nodes with a containment tree, then symbols, imports and
 test links, merged by id and sorted by id.
 */
module GraphBuilder {
  import opened Wrappers
  import opened Graph
  import opened Ordering
  import opened Paths
  import opened TestLinker
  import IR = ImportResolver

  datatype FileKind = SourceKind | TestKind | DocKind | ConfigKind | OtherKind

  datatype SourceFile = SourceFile(path: string, kind: FileKind, tsOrJs: bool)

  datatype SymbolKind = FunctionSymbol | ClassSymbol | InterfaceSymbol | TypeAliasSymbol | EnumSymbol | OtherSymbol

  datatype SymbolDef = SymbolDef(name: string, exported: bool, kind: SymbolKind, startLine: nat)

  datatype Extracted = Extracted(symbols: seq<SymbolDef>, imports: seq<ImportSite>)

  /** `sources` has what was extracted from each file whose text is available. */
  datatype Input = Input(files: seq<SourceFile>, sources: map<string, Extracted>)

  /** What the inventory provides: canonical paths, each once. */
  ghost predicate ValidFiles(files: seq<SourceFile>) {
    (forall f :: f in files ==> Canonical(f.path)) && DistinctKeys(files, (f: SourceFile) => f.path)
  }

  function GraphKind(k: FileKind): NodeKind {
    match k
    case TestKind => NodeKind.Test
    case DocKind => Doc
    case ConfigKind => Config
    case _ => File
  }

  function SymbolNodeKind(k: SymbolKind): NodeKind {
    match k
    case FunctionSymbol => Function
    case ClassSymbol => Class
    case InterfaceSymbol => Interface
    case TypeAliasSymbol => TypeAlias
    case EnumSymbol => Enum
    case OtherSymbol => Symbol
  }

  predicate IsStructural(f: SourceFile) {
    f.kind.SourceKind? && f.tsOrJs
  }

  function PathSet(files: seq<SourceFile>): set<string> {
    set f | f in files :: f.path
  }

  function Map<S, T>(xs: seq<S>, f: S -> T): (ys: seq<T>)
    ensures |ys| == |xs| && forall i :: 0 <= i < |xs| ==> ys[i] == f(xs[i])
  {
    seq(|xs|, i requires 0 <= i < |xs| => f(xs[i]))
  }

  function FlatMap<S, T>(xs: seq<S>, f: S -> seq<T>): seq<T> {
    if xs == [] then [] else FlatMap(xs[..|xs| - 1], f) + f(xs[|xs| - 1])
  }

  lemma {:induction false} FlatMapMember<S, T>(xs: seq<S>, f: S -> seq<T>, y: T)
    ensures y in FlatMap(xs, f) <==> exists x :: x in xs && y in f(x)
  {
    if xs != [] {
      var n := |xs| - 1;
      FlatMapMember(xs[..n], f, y);
      assert forall x :: x in xs <==> x in xs[..n] || x == xs[n];
    }
  }

  // ---------------------------------------------------------------- directories

  function ParentOf(p: string): string {
    var slash := LastIndexOf(p, '/');
    if slash <= 0 then "." else p[..slash]
  }

  function Ancestors(p: string): set<string>
    decreases |p|
  {
    var slash := LastIndexOf(p, '/');
    if slash < 0 then {}
    else
      var q := p[..slash];
      (if q != "" && q != "." then {q} else {}) + Ancestors(q)
  }

  /** `d` is a directory above `p`. */
  predicate IsAbove(d: string, p: string) {
    d != "" && d != "." && d + "/" <= p
  }

  /** What ends before a slash of `p` ends before its last slash or before an earlier one. */
  lemma BeforeSlash(p: string, slash: nat, d: string)
    requires slash < |p| && p[slash] == '/' && forall j :: slash < j < |p| ==> p[j] != '/'
    ensures d + "/" <= p <==> d == p[..slash] || d + "/" <= p[..slash]
  {
    assert p[..slash] + "/" == p[..slash + 1];
    if d + "/" <= p {
      assert p[|d|] == '/' && p[..|d|] == d;
      assert |d| <= slash;
      assert |d| < slash ==> d + "/" == p[..slash][..|d| + 1];
    }
  }

  lemma {:induction false} AncestorsAre(p: string, d: string)
    ensures d in Ancestors(p) <==> IsAbove(d, p)
    decreases |p|
  {
    var slash := LastIndexOf(p, '/');
    assert d + "/" <= p ==> p[|d|] == '/';
    if slash >= 0 {
      BeforeSlash(p, slash, d);
      AncestorsAre(p[..slash], d);
    }
  }

  function Directories(files: seq<SourceFile>): set<string> {
    set f, d | f in files && d in Ancestors(f.path) :: d
  }

  /** The directories above any file: every prefix that ends before a slash. */
  method CollectAncestorDirectories(files: seq<SourceFile>) returns (dirs: set<string>)
    ensures dirs == Directories(files)
    ensures forall d :: d in dirs <==> exists f :: f in files && IsAbove(d, f.path)
  {
    dirs := {};
    var i := 0;
    while i < |files|
      invariant 0 <= i <= |files|
      invariant dirs == Directories(files[..i])
    {
      var p := files[i].path;
      ghost var before := dirs;
      while '/' in p
        invariant dirs + Ancestors(p) == before + Ancestors(files[i].path)
        decreases |p|
      {
        var slash := LastIndexOf(p, '/');
        assert slash >= 0;
        p := p[..slash];
        if |p| > 0 && p != "." {
          dirs := dirs + {p};
        }
      }
      assert LastIndexOf(p, '/') < 0;
      DirectoriesSnoc(files, i);
      i := i + 1;
    }
    assert files[..i] == files;
    forall d ensures d in dirs <==> exists f :: f in files && IsAbove(d, f.path) {
      forall f | f in files ensures d in Ancestors(f.path) <==> IsAbove(d, f.path) {
        AncestorsAre(f.path, d);
      }
    }
  }

  lemma DirectoriesSnoc(files: seq<SourceFile>, i: nat)
    requires i < |files|
    ensures Directories(files[..i + 1]) == Directories(files[..i]) + Ancestors(files[i].path)
  {
    assert forall f :: f in files[..i + 1] <==> f in files[..i] || f == files[i];
    forall d | d in Ancestors(files[i].path) ensures d in Directories(files[..i + 1]) {
      assert files[i] in files[..i + 1];
    }
  }

  // ---------------------------------------------------------------- inventory nodes and edges

  function ParentId(p: string): NodeId {
    if ParentOf(p) == "." then ProjectId else DirectoryId(ParentOf(p))
  }

  function PlainEdge(kind: EdgeKind, from: NodeId, to: NodeId): Edge {
    Edge(EdgeId.EdgeId(kind, from, to), kind, from, to)
  }

  function DirNode(d: string): Node {
    Node(DirectoryId(d), Directory, Some(d))
  }

  function FileNode(f: SourceFile): Node {
    Node(FileId(f.path), GraphKind(f.kind), Some(f.path))
  }

  function BaseNodes(dirs: seq<string>, files: seq<SourceFile>): seq<Node> {
    [Node(ProjectId, Project, Some(".")), Node(PackageId("."), Package, Some("package.json"))]
    + Map(dirs, DirNode)
    + Map(files, FileNode)
  }

  /** The container of an inventory id. */
  function Up(id: NodeId): NodeId {
    match id
    case DirectoryId(d) => ParentId(d)
    case FileId(p) => ParentId(p)
    case _ => ProjectId
  }

  function ContainsEdge(id: NodeId): Edge {
    PlainEdge(CONTAINS, Up(id), id)
  }

  function BaseEdges(dirs: seq<string>, files: seq<SourceFile>): seq<Edge> {
    [ContainsEdge(PackageId("."))]
    + Map(dirs, (d: string) => ContainsEdge(DirectoryId(d)))
    + Map(files, (f: SourceFile) => ContainsEdge(FileId(f.path)))
  }

  // ---------------------------------------------------------------- symbols and imports

  function SymbolIdOf(p: string, s: SymbolDef): NodeId {
    SymbolId(p, s.exported, s.name, s.startLine)
  }

  function SymbolEdges(p: string, s: SymbolDef): seq<Edge> {
    [PlainEdge(DEFINES, FileId(p), SymbolIdOf(p, s))]
    + if s.exported then [PlainEdge(EXPORTS, FileId(p), SymbolIdOf(p, s))] else []
  }

  /** The node that an import site of file `p` leads to, if it leads anywhere. */
  function TargetId(p: string, specifier: string, indexed: set<string>): Option<NodeId> {
    match IR.ResolveTarget(specifier, p, indexed)
    case FileTarget(q) => Some(FileId(q))
    case PackageTarget(s) => Some(PackageId(NormalizePath(s)))
    case _ => None
  }

  function ImportEdges(p: string, site: ImportSite, indexed: set<string>): seq<Edge> {
    var to := TargetId(p, site.specifier, indexed);
    if to.None? then []
    else
      [Edge(ImportEdgeId(FileId(p), site.specifier), IMPORTS, FileId(p), to.value),
       PlainEdge(DEPENDS_ON, FileId(p), to.value)]
      + if site.exportFrom then [PlainEdge(EXPORTS, FileId(p), to.value)] else []
  }

  predicate HasStructure(inp: Input, f: SourceFile) {
    IsStructural(f) && f.path in inp.sources
  }

  function FileEdges(inp: Input, f: SourceFile, indexed: set<string>): seq<Edge> {
    if !HasStructure(inp, f) then []
    else FlatMap(inp.sources[f.path].symbols, s => SymbolEdges(f.path, s))
         + FlatMap(inp.sources[f.path].imports, site => ImportEdges(f.path, site, indexed))
  }

  predicate IsBare(specifier: string) {
    !IR.IsRelative(specifier) && !IR.IsAliasLike(specifier)
  }

  function PackageNode(specifier: string): Node {
    Node(PackageId(NormalizePath(specifier)), Package, Some(specifier))
  }

  function SymbolNode(p: string, s: SymbolDef): Node {
    Node(SymbolIdOf(p, s), SymbolNodeKind(s.kind), Some(p))
  }

  function SitePackages(site: ImportSite): seq<Node> {
    if IsBare(site.specifier) then [PackageNode(site.specifier)] else []
  }

  /** Nodes of a file's symbols and of the packages it imports. */
  function FileNodes(inp: Input, f: SourceFile): seq<Node> {
    if !HasStructure(inp, f) then []
    else Map(inp.sources[f.path].symbols, s => SymbolNode(f.path, s))
         + FlatMap(inp.sources[f.path].imports, SitePackages)
  }

  function ImportsOf(sources: map<string, Extracted>): map<string, seq<ImportSite>> {
    map p | p in sources :: sources[p].imports
  }

  function TestPaths(files: seq<SourceFile>): set<string> {
    set f | f in files && f.kind.TestKind? :: f.path
  }

  function LinkedTestsOf(inp: Input, files: seq<SourceFile>, f: SourceFile): seq<string> {
    if !HasStructure(inp, f) then []
    else FindTests(Map(files, FilePath), ImportsOf(inp.sources), f.path)
  }

  /** The edge of a linked test, if it is one of the test files. */
  function LinkEdges(tests: set<string>, p: string, t: string): seq<Edge> {
    if t in tests then [PlainEdge(TESTS, FileId(t), FileId(p))] else []
  }

  function TestEdges(inp: Input, files: seq<SourceFile>, f: SourceFile): seq<Edge> {
    FlatMap(LinkedTestsOf(inp, files, f), t => LinkEdges(TestPaths(files), f.path, t))
  }

  // ---------------------------------------------------------------- merging by id

  function Position<T, K(==)>(xs: seq<T>, id: T -> K, k: K): (i: int)
    ensures -1 <= i < |xs| && (i >= 0 ==> id(xs[i]) == k)
    ensures i == -1 ==> forall j :: 0 <= j < |xs| ==> id(xs[j]) != k
  {
    if xs == [] then -1
    else if id(xs[|xs| - 1]) == k then |xs| - 1
    else Position(xs[..|xs| - 1], id, k)
  }

  /** Set an entry of an ordered map: an existing entry keeps its place. */
  function Put<T, K(==)>(xs: seq<T>, id: T -> K, x: T): seq<T> {
    var i := Position(xs, id, id(x));
    if i >= 0 then xs[i := x] else xs + [x]
  }

  function PutNew<T, K(==)>(xs: seq<T>, id: T -> K, x: T): seq<T> {
    if Position(xs, id, id(x)) >= 0 then xs else xs + [x]
  }

  function PutAll<T, K(==)>(xs: seq<T>, id: T -> K): seq<T> {
    if xs == [] then [] else Put(PutAll(xs[..|xs| - 1], id), id, xs[|xs| - 1])
  }

  function PutAllNew<T, K(==)>(base: seq<T>, xs: seq<T>, id: T -> K): seq<T> {
    if xs == [] then base else PutNew(PutAllNew(base, xs[..|xs| - 1], id), id, xs[|xs| - 1])
  }

  /** Inventory entries first, structural entries only under new ids. */
  method MergeById<T(!new), K(==, !new)>(base: seq<T>, extra: seq<T>, id: T -> K) returns (merged: seq<T>)
    ensures merged == PutAllNew(PutAll(base, id), extra, id)
  {
    merged := [];
    var i := 0;
    while i < |base|
      invariant 0 <= i <= |base|
      invariant merged == PutAll(base[..i], id)
    {
      assert base[..i + 1][..i] == base[..i];
      var at := Position(merged, id, id(base[i]));
      if at >= 0 {
        merged := merged[at := base[i]];
      } else {
        merged := merged + [base[i]];
      }
      i := i + 1;
    }
    assert base[..i] == base;
    i := 0;
    while i < |extra|
      invariant 0 <= i <= |extra|
      invariant merged == PutAllNew(PutAll(base, id), extra[..i], id)
    {
      assert extra[..i + 1][..i] == extra[..i];
      if Position(merged, id, id(extra[i])) < 0 {
        merged := merged + [extra[i]];
      }
      i := i + 1;
    }
    assert extra[..i] == extra;
  }

  lemma PutDistinct<T(!new), K(!new)>(xs: seq<T>, id: T -> K, x: T)
    requires DistinctKeys(xs, id)
    ensures DistinctKeys(Put(xs, id, x), id) && DistinctKeys(PutNew(xs, id, x), id)
  {}

  lemma {:induction false} PutAllDistinct<T(!new), K(!new)>(xs: seq<T>, id: T -> K)
    ensures DistinctKeys(PutAll(xs, id), id)
  {
    if xs != [] {
      PutAllDistinct(xs[..|xs| - 1], id);
      PutDistinct(PutAll(xs[..|xs| - 1], id), id, xs[|xs| - 1]);
    }
  }

  /** Merging keeps ids distinct, keeps the base, adds nothing foreign and loses no id. */
  lemma {:induction false} PutAllNewOk<T(!new), K(!new)>(base: seq<T>, xs: seq<T>, id: T -> K)
    requires DistinctKeys(base, id)
    ensures var r := PutAllNew(base, xs, id);
      && DistinctKeys(r, id)
      && base <= r
      && (forall x :: x in r ==> x in base || x in xs)
      && (forall x :: x in xs ==> exists y :: y in r && id(y) == id(x))
  {
    if xs != [] {
      var n := |xs| - 1;
      PutAllNewOk(base, xs[..n], id);
      var r := PutAllNew(base, xs[..n], id);
      PutDistinct(r, id, xs[n]);
      var r' := PutNew(r, id, xs[n]);
      assert forall x :: x in xs <==> x in xs[..n] || x == xs[n];
      assert r <= r';
      assert forall y :: y in r ==> y in r';
      if Position(r, id, id(xs[n])) >= 0 {
        assert r[Position(r, id, id(xs[n]))] in r';
      } else {
        assert xs[n] in r';
      }
    }
  }

  // ---------------------------------------------------------------- the whole graph

  function NodeKey(n: Node): NodeId { n.id }

  function EdgeKey(e: Edge): EdgeId { e.id }

  function FilePath(f: SourceFile): string { f.path }

  function SortedFiles(inp: Input): seq<SourceFile> {
    SortBy(inp.files, FilePath)
  }

  function BaseNodesOf(inp: Input): seq<Node> {
    BaseNodes(SortedSet(Directories(inp.files)), SortedFiles(inp))
  }

  function BaseEdgesOf(inp: Input): seq<Edge> {
    BaseEdges(SortedSet(Directories(inp.files)), SortedFiles(inp))
  }

  function StructuralNodes(inp: Input, files: seq<SourceFile>): seq<Node> {
    FlatMap(files, f => FileNodes(inp, f))
  }

  function ImportingEdges(inp: Input, files: seq<SourceFile>, indexed: set<string>): seq<Edge> {
    FlatMap(files, f => FileEdges(inp, f, indexed))
  }

  function TestingEdges(inp: Input, files: seq<SourceFile>, of: seq<SourceFile>): seq<Edge> {
    FlatMap(of, f => TestEdges(inp, files, f))
  }

  function StructuralEdges(inp: Input): seq<Edge> {
    ImportingEdges(inp, SortedFiles(inp), PathSet(inp.files)) + TestingEdges(inp, SortedFiles(inp), SortedFiles(inp))
  }

  function MergedNodes(inp: Input): seq<Node> {
    PutAllNew(PutAll(BaseNodesOf(inp), NodeKey), StructuralNodes(inp, SortedFiles(inp)), NodeKey)
  }

  function MergedEdges(inp: Input): seq<Edge> {
    PutAllNew(PutAll(BaseEdgesOf(inp), EdgeKey), StructuralEdges(inp), EdgeKey)
  }

  /** `nodeName` and `edgeName` print ids. */
  function Nodes(inp: Input, nodeName: NodeId -> string): seq<Node> {
    SortBy(MergedNodes(inp), (n: Node) => nodeName(n.id))
  }

  function Edges(inp: Input, edgeName: EdgeId -> string): seq<Edge> {
    SortBy(MergedEdges(inp), (e: Edge) => edgeName(e.id))
  }

  // ---------------------------------------------------------------- the loops

  lemma {:induction false} PutAllNewAppend<T, K>(base: seq<T>, xs: seq<T>, ys: seq<T>, id: T -> K)
    ensures PutAllNew(base, xs + ys, id) == PutAllNew(PutAllNew(base, xs, id), ys, id)
    decreases |ys|
  {
    if ys == [] {
      assert xs + ys == xs;
    } else {
      var n := |ys| - 1;
      PutAllNewAppend(base, xs, ys[..n], id);
      var all := xs + ys;
      assert all[..|all| - 1] == xs + ys[..n] && all[|all| - 1] == ys[n];
    }
  }

  lemma {:induction false} PutAllNewHolds<T, K>(base: seq<T>, xs: seq<T>, id: T -> K, k: K)
    requires Position(base, id, k) >= 0
    ensures Position(PutAllNew(base, xs, id), id, k) >= 0
  {
    if xs != [] {
      PutAllNewHolds(base, xs[..|xs| - 1], id, k);
    }
  }

  lemma FlatMapSnoc<S, T>(xs: seq<S>, i: nat, f: S -> seq<T>)
    requires i < |xs|
    ensures FlatMap(xs[..i + 1], f) == FlatMap(xs[..i], f) + f(xs[i])
  {
    assert xs[..i + 1][..i] == xs[..i];
  }

  /** The nodes emitted for bare packages so far; each is in the graph. */
  ghost predicate BareOk(bare: map<string, NodeId>, merged: seq<Node>) {
    forall s :: s in bare ==> bare[s] == PackageId(NormalizePath(s)) && Position(merged, NodeKey, bare[s]) >= 0
  }

  lemma BareGrows(bare: map<string, NodeId>, merged: seq<Node>, more: seq<Node>)
    requires BareOk(bare, merged)
    ensures BareOk(bare, PutAllNew(merged, more, NodeKey))
  {
    forall s | s in bare ensures Position(PutAllNew(merged, more, NodeKey), NodeKey, bare[s]) >= 0 {
      PutAllNewHolds(merged, more, NodeKey, bare[s]);
    }
  }

  /** Merging the emitted nodes into `base` gives what merging `spec` gives. */
  ghost predicate Emitted(base: seq<Node>, bare: map<string, NodeId>, nodes: seq<Node>, spec: seq<Node>) {
    BareOk(bare, PutAllNew(base, nodes, NodeKey)) && PutAllNew(base, nodes, NodeKey) == PutAllNew(base, spec, NodeKey)
  }

  lemma EmittedMore(base: seq<Node>, bare: map<string, NodeId>, nodes: seq<Node>, spec: seq<Node>, more: seq<Node>)
    requires Emitted(base, bare, nodes, spec)
    ensures Emitted(base, bare, nodes + more, spec + more)
  {
    PutAllNewAppend(base, nodes, more, NodeKey);
    PutAllNewAppend(base, spec, more, NodeKey);
    BareGrows(bare, PutAllNew(base, nodes, NodeKey), more);
  }

  lemma PutOne(merged: seq<Node>, n: Node)
    ensures PutAllNew(merged, [n], NodeKey) == PutNew(merged, NodeKey, n)
    ensures Position(PutNew(merged, NodeKey, n), NodeKey, n.id) >= 0
  {
    assert [n][..0] == [];
  }

  /** A package that was emitted before need not be emitted again. */
  lemma EmittedBefore(base: seq<Node>, bare: map<string, NodeId>, nodes: seq<Node>, spec: seq<Node>, specifier: string)
    requires Emitted(base, bare, nodes, spec) && specifier in bare
    ensures Emitted(base, bare, nodes, spec + [PackageNode(specifier)])
  {
    var n := PackageNode(specifier);
    PutAllNewAppend(base, spec, [n], NodeKey);
    PutOne(PutAllNew(base, spec, NodeKey), n);
  }

  lemma EmittedNow(base: seq<Node>, bare: map<string, NodeId>, nodes: seq<Node>, spec: seq<Node>, specifier: string)
    requires Emitted(base, bare, nodes, spec)
    ensures var n := PackageNode(specifier); Emitted(base, bare[specifier := n.id], nodes + [n], spec + [n])
  {
    var n := PackageNode(specifier);
    EmittedMore(base, bare, nodes, spec, [n]);
    PutAllNewAppend(base, nodes, [n], NodeKey);
    PutOne(PutAllNew(base, nodes, NodeKey), n);
  }

  /** The target node of an import; a package node is emitted only the first time. */
  method ResolveTargetNode(p: string, site: ImportSite, indexed: set<string>,
                           bare: map<string, NodeId>, nodes: seq<Node>, ghost base: seq<Node>, ghost spec: seq<Node>)
    returns (to: Option<NodeId>, bare': map<string, NodeId>, nodes': seq<Node>)
    requires Emitted(base, bare, nodes, spec)
    ensures to == TargetId(p, site.specifier, indexed)
    ensures Emitted(base, bare', nodes', spec + SitePackages(site))
    ensures site.specifier in bare || !IsBare(site.specifier) ==> nodes' == nodes && bare' == bare
    ensures IsBare(site.specifier) ==> site.specifier in bare'
  {
    bare', nodes' := bare, nodes;
    to := TargetId(p, site.specifier, indexed);
    if IsBare(site.specifier) {
      if site.specifier in bare {
        EmittedBefore(base, bare, nodes, spec, site.specifier);
      } else {
        EmittedNow(base, bare, nodes, spec, site.specifier);
        var n := PackageNode(site.specifier);
        bare' := bare[site.specifier := n.id];
        nodes' := nodes + [n];
      }
    } else {
      assert spec + [] == spec;
    }
  }

  /** One import site; a re-export looks its target up a second time. */
  method EmitImport(p: string, site: ImportSite, indexed: set<string>,
                    bare: map<string, NodeId>, nodes: seq<Node>, ghost base: seq<Node>, ghost spec: seq<Node>)
    returns (bare': map<string, NodeId>, nodes': seq<Node>, edges: seq<Edge>)
    requires Emitted(base, bare, nodes, spec)
    ensures Emitted(base, bare', nodes', spec + SitePackages(site))
    ensures edges == ImportEdges(p, site, indexed)
  {
    var to;
    edges := [];
    to, bare', nodes' := ResolveTargetNode(p, site, indexed, bare, nodes, base, spec);
    if to.Some? {
      edges := [Edge(ImportEdgeId(FileId(p), site.specifier), IMPORTS, FileId(p), to.value),
                PlainEdge(DEPENDS_ON, FileId(p), to.value)];
    }
    if site.exportFrom {
      to, bare', nodes' := ResolveTargetNode(p, site, indexed, bare', nodes', base, spec + SitePackages(site));
      if to.Some? {
        edges := edges + [PlainEdge(EXPORTS, FileId(p), to.value)];
      }
    }
  }

  method EmitImports(p: string, imports: seq<ImportSite>, indexed: set<string>,
                     bare: map<string, NodeId>, nodes: seq<Node>, ghost base: seq<Node>, ghost spec: seq<Node>)
    returns (bare': map<string, NodeId>, nodes': seq<Node>, edges: seq<Edge>)
    requires Emitted(base, bare, nodes, spec)
    ensures Emitted(base, bare', nodes', spec + FlatMap(imports, SitePackages))
    ensures edges == FlatMap(imports, site => ImportEdges(p, site, indexed))
  {
    bare', nodes', edges := bare, nodes, [];
    var i := 0;
    assert spec + [] == spec;
    while i < |imports|
      invariant 0 <= i <= |imports|
      invariant Emitted(base, bare', nodes', spec + FlatMap(imports[..i], SitePackages))
      invariant edges == FlatMap(imports[..i], site => ImportEdges(p, site, indexed))
    {
      FlatMapSnoc(imports, i, SitePackages);
      FlatMapSnoc(imports, i, site => ImportEdges(p, site, indexed));
      ghost var done := spec + FlatMap(imports[..i], SitePackages);
      assert done + SitePackages(imports[i]) == spec + FlatMap(imports[..i + 1], SitePackages);
      var emitted;
      bare', nodes', emitted := EmitImport(p, imports[i], indexed, bare', nodes', base, done);
      edges := edges + emitted;
      i := i + 1;
    }
    assert imports[..i] == imports;
  }

  method EmitSymbols(p: string, symbols: seq<SymbolDef>) returns (nodes: seq<Node>, edges: seq<Edge>)
    ensures nodes == Map(symbols, s => SymbolNode(p, s))
    ensures edges == FlatMap(symbols, s => SymbolEdges(p, s))
  {
    nodes, edges := [], [];
    var i := 0;
    while i < |symbols|
      invariant 0 <= i <= |symbols|
      invariant nodes == Map(symbols[..i], s => SymbolNode(p, s))
      invariant edges == FlatMap(symbols[..i], s => SymbolEdges(p, s))
    {
      var s := symbols[i];
      FlatMapSnoc(symbols, i, s => SymbolEdges(p, s));
      nodes := nodes + [SymbolNode(p, s)];
      var emitted := [PlainEdge(DEFINES, FileId(p), SymbolIdOf(p, s))];
      if s.exported {
        emitted := emitted + [PlainEdge(EXPORTS, FileId(p), SymbolIdOf(p, s))];
      }
      edges := edges + emitted;
      i := i + 1;
    }
    assert symbols[..i] == symbols;
  }

  method EmitFile(inp: Input, f: SourceFile, indexed: set<string>,
                  bare: map<string, NodeId>, nodes: seq<Node>, ghost base: seq<Node>, ghost spec: seq<Node>)
    returns (bare': map<string, NodeId>, nodes': seq<Node>, edges: seq<Edge>)
    requires Emitted(base, bare, nodes, spec)
    ensures Emitted(base, bare', nodes', spec + FileNodes(inp, f))
    ensures edges == FileEdges(inp, f, indexed)
  {
    if !HasStructure(inp, f) {
      assert spec + [] == spec;
      return bare, nodes, [];
    }
    var extracted := inp.sources[f.path];
    var symbolNodes, symbolEdges := EmitSymbols(f.path, extracted.symbols);
    EmittedMore(base, bare, nodes, spec, symbolNodes);
    bare', nodes', edges :=
      EmitImports(f.path, extracted.imports, indexed, bare, nodes + symbolNodes, base, spec + symbolNodes);
    edges := symbolEdges + edges;
    AppendAssoc(spec, symbolNodes, FlatMap(extracted.imports, SitePackages));
  }

  lemma AppendAssoc<T>(a: seq<T>, b: seq<T>, c: seq<T>)
    ensures a + b + c == a + (b + c)
  {}

  /** Up to the merge by id, the emitted nodes are those of every file in turn. */
  method EmitStructure(inp: Input, files: seq<SourceFile>, indexed: set<string>, ghost base: seq<Node>)
    returns (nodes: seq<Node>, edges: seq<Edge>)
    ensures PutAllNew(base, nodes, NodeKey) == PutAllNew(base, StructuralNodes(inp, files), NodeKey)
    ensures edges == ImportingEdges(inp, files, indexed)
  {
    nodes, edges := [], [];
    var bare: map<string, NodeId> := map[];
    var i := 0;
    while i < |files|
      invariant 0 <= i <= |files|
      invariant Emitted(base, bare, nodes, StructuralNodes(inp, files[..i]))
      invariant edges == ImportingEdges(inp, files[..i], indexed)
    {
      FlatMapSnoc(files, i, f => FileNodes(inp, f));
      FlatMapSnoc(files, i, f => FileEdges(inp, f, indexed));
      var emitted;
      bare, nodes, emitted := EmitFile(inp, files[i], indexed, bare, nodes, base, StructuralNodes(inp, files[..i]));
      edges := edges + emitted;
      i := i + 1;
    }
    assert files[..i] == files;
  }

  method EmitLinks(tests: set<string>, p: string, linked: seq<string>) returns (edges: seq<Edge>)
    ensures edges == FlatMap(linked, t => LinkEdges(tests, p, t))
  {
    edges := [];
    var j := 0;
    while j < |linked|
      invariant 0 <= j <= |linked|
      invariant edges == FlatMap(linked[..j], t => LinkEdges(tests, p, t))
    {
      FlatMapSnoc(linked, j, t => LinkEdges(tests, p, t));
      if linked[j] in tests {
        edges := edges + [PlainEdge(TESTS, FileId(linked[j]), FileId(p))];
      }
      j := j + 1;
    }
    assert linked[..j] == linked;
  }

  method EmitTestsOf(inp: Input, files: seq<SourceFile>, f: SourceFile) returns (edges: seq<Edge>)
    ensures edges == TestEdges(inp, files, f)
  {
    if !HasStructure(inp, f) {
      return [];
    }
    var linked := FindTestsByLoops(Map(files, FilePath), ImportsOf(inp.sources), f.path);
    edges := EmitLinks(TestPaths(files), f.path, linked);
  }

  method EmitTestEdges(inp: Input, files: seq<SourceFile>) returns (edges: seq<Edge>)
    ensures edges == TestingEdges(inp, files, files)
  {
    edges := [];
    var i := 0;
    while i < |files|
      invariant 0 <= i <= |files|
      invariant edges == TestingEdges(inp, files, files[..i])
    {
      FlatMapSnoc(files, i, f => TestEdges(inp, files, f));
      var emitted := EmitTestsOf(inp, files, files[i]);
      edges := edges + emitted;
      i := i + 1;
    }
    assert files[..i] == files;
  }

  method BuildGraphSnapshot(inp: Input, nodeName: NodeId -> string, edgeName: EdgeId -> string)
    returns (nodes: seq<Node>, edges: seq<Edge>)
    ensures nodes == Nodes(inp, nodeName)
    ensures edges == Edges(inp, edgeName)
  {
    var dirs := CollectAncestorDirectories(inp.files);
    var files := SortBy(inp.files, FilePath);
    var baseNodes := BaseNodes(SortedSet(dirs), files);
    var baseEdges := BaseEdges(SortedSet(dirs), files);
    var structuralNodes, structuralEdges :=
      EmitStructure(inp, files, PathSet(inp.files), PutAll(baseNodes, NodeKey));
    var testEdges := EmitTestEdges(inp, files);
    var mergedNodes := MergeById(baseNodes, structuralNodes, NodeKey);
    var mergedEdges := MergeById(baseEdges, structuralEdges + testEdges, EdgeKey);
    nodes := SortBy(mergedNodes, (n: Node) => nodeName(n.id));
    edges := SortBy(mergedEdges, (e: Edge) => edgeName(e.id));
  }
}
