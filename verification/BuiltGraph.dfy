/**
 What holds of every graph the builder produces: ids are unique, merging by id loses no
 edge, no edge dangles, containment is a tree, the order of the input files does not
 matter, and the impact query over it follows resolved imports and linked tests.
 */
module BuiltGraph {
  import opened Wrappers
  import opened Graph
  import opened Ordering
  import opened Paths
  import opened TestLinker
  import opened GraphBuilder
  import IR = ImportResolver

  // ---------------------------------------------------------------- merging

  /** The id of an entry determines the entry. */
  ghost predicate Functional<T(!new), K(!new)>(xs: seq<T>, id: T -> K) {
    forall x, y :: x in xs && y in xs && id(x) == id(y) ==> x == y
  }

  lemma {:induction false} PutAllOk<T(!new), K(!new)>(xs: seq<T>, id: T -> K, x: T)
    ensures x in PutAll(xs, id) ==> x in xs
    ensures x in xs ==> HasId(PutAll(xs, id), id, id(x))
  {
    if xs != [] {
      var n := |xs| - 1;
      PutAllOk(xs[..n], id, x);
      PutKeeps(PutAll(xs[..n], id), id, xs[n], x);
      assert x in xs <==> x in xs[..n] || x == xs[n];
    }
  }

  ghost predicate HasId<T(!new), K(!new)>(xs: seq<T>, id: T -> K, k: K) {
    exists y :: y in xs && id(y) == k
  }

  lemma PutKeeps<T(!new), K(!new)>(xs: seq<T>, id: T -> K, x: T, y: T)
    ensures var r := Put(xs, id, x);
      && (y in r ==> y in xs || y == x)
      && (HasId(xs, id, id(y)) || y == x ==> HasId(r, id, id(y)))
  {
    var r := Put(xs, id, x);
    var i := Position(xs, id, id(x));
    assert x in r by { assert r[if i >= 0 then i else |xs|] == x; }
    if z :| z in xs && id(z) == id(y) {
      var j :| 0 <= j < |xs| && xs[j] == z;
      assert r[j] in r;
    }
  }

  lemma MergeSource<T(!new), K(!new)>(base: seq<T>, xs: seq<T>, id: T -> K, x: T)
    requires x in PutAllNew(PutAll(base, id), xs, id)
    ensures x in base || x in xs
  {
    PutAllDistinct(base, id);
    PutAllNewOk(PutAll(base, id), xs, id);
    PutAllOk(base, id, x);
  }

  lemma MergeKeepsIds<T(!new), K(!new)>(base: seq<T>, xs: seq<T>, id: T -> K, x: T)
    requires x in base || x in xs
    ensures HasId(PutAllNew(PutAll(base, id), xs, id), id, id(x))
  {
    PutAllDistinct(base, id);
    PutAllNewOk(PutAll(base, id), xs, id);
    PutAllOk(base, id, x);
  }

  lemma MergeKeepsBase<T(!new), K(!new)>(base: seq<T>, xs: seq<T>, id: T -> K, x: T)
    requires Functional(base, id) && x in base
    ensures x in PutAllNew(PutAll(base, id), xs, id)
  {
    var kept := PutAll(base, id);
    PutAllDistinct(base, id);
    PutAllNewOk(kept, xs, id);
    PutAllOk(base, id, x);
    var y :| y in kept && id(y) == id(x);
    PutAllOk(base, id, y);
  }

  /** Merging by id loses nothing when ids determine entries. */
  lemma MergeLossless<T(!new), K(!new)>(base: seq<T>, xs: seq<T>, id: T -> K, x: T)
    requires Functional(base + xs, id)
    ensures x in PutAllNew(PutAll(base, id), xs, id) <==> x in base || x in xs
  {
    if x in PutAllNew(PutAll(base, id), xs, id) {
      MergeSource(base, xs, id, x);
    }
    if x in base || x in xs {
      MergeKeepsIds(base, xs, id, x);
      var y :| y in PutAllNew(PutAll(base, id), xs, id) && id(y) == id(x);
      MergeSource(base, xs, id, y);
      assert x in base + xs && y in base + xs;
    }
  }

  // ---------------------------------------------------------------- inventory

  /** Ids that the inventory alone gives rise to. */
  ghost predicate InInventory(inp: Input, id: NodeId) {
    match id
    case ProjectId => true
    case PackageId(d) => d == "."
    case DirectoryId(d) => d in Directories(inp.files)
    case FileId(p) => p in PathSet(inp.files)
    case SymbolId(_, _, _, _) => false
  }

  ghost predicate IsBaseNode(inp: Input, n: Node) {
    || n == Node(ProjectId, Project, Some("."))
    || n == Node(PackageId("."), Package, Some("package.json"))
    || (exists d :: d in Directories(inp.files) && n == DirNode(d))
    || (exists f :: f in inp.files && n == FileNode(f))
  }

  lemma MapMember<S, T>(xs: seq<S>, f: S -> T, y: T)
    ensures y in Map(xs, f) <==> exists x :: x in xs && y == f(x)
  {
    if x :| x in xs && y == f(x) {
      var i :| 0 <= i < |xs| && xs[i] == x;
      assert Map(xs, f)[i] == y;
    }
  }

  lemma BaseNodeIff(inp: Input, n: Node)
    ensures n in BaseNodesOf(inp) <==> IsBaseNode(inp, n)
  {
    var dirs, files := SortedSet(Directories(inp.files)), SortedFiles(inp);
    SortByOk(inp.files, FilePath);
    MapMember(dirs, DirNode, n);
    MapMember(files, FileNode, n);
  }

  lemma BaseEdgeIff(inp: Input, e: Edge)
    ensures e in BaseEdgesOf(inp) <==> e.to != ProjectId && InInventory(inp, e.to) && e == ContainsEdge(e.to)
  {
    var dirs, files := SortedSet(Directories(inp.files)), SortedFiles(inp);
    SortByOk(inp.files, FilePath);
    MapMember(dirs, (d: string) => ContainsEdge(DirectoryId(d)), e);
    MapMember(files, (f: SourceFile) => ContainsEdge(FileId(f.path)), e);
    if e.to.FileId? && InInventory(inp, e.to) {
      var f :| f in inp.files && f.path == e.to.path;
      assert f in files;
    }
  }

  // ---------------------------------------------------------------- structural edges

  ghost predicate IsSymbolEdge(inp: Input, f: SourceFile, e: Edge) {
    HasStructure(inp, f) && exists s :: s in inp.sources[f.path].symbols && e in SymbolEdges(f.path, s)
  }

  ghost predicate IsImportEdge(inp: Input, f: SourceFile, e: Edge) {
    HasStructure(inp, f)
    && exists site :: site in inp.sources[f.path].imports && e in ImportEdges(f.path, site, PathSet(inp.files))
  }

  ghost predicate IsTestEdge(inp: Input, f: SourceFile, e: Edge) {
    exists t :: t in LinkedTestsOf(inp, SortedFiles(inp), f) && t in TestPaths(inp.files)
                && e == PlainEdge(TESTS, FileId(t), FileId(f.path))
  }

  lemma FileEdgeIff(inp: Input, f: SourceFile, e: Edge)
    ensures e in FileEdges(inp, f, PathSet(inp.files)) <==> IsSymbolEdge(inp, f, e) || IsImportEdge(inp, f, e)
  {
    if HasStructure(inp, f) {
      FlatMapMember(inp.sources[f.path].symbols, s => SymbolEdges(f.path, s), e);
      FlatMapMember(inp.sources[f.path].imports, site => ImportEdges(f.path, site, PathSet(inp.files)), e);
    }
  }

  lemma TestPathsSorted(inp: Input)
    ensures TestPaths(SortedFiles(inp)) == TestPaths(inp.files)
  {
    SortByOk(inp.files, FilePath);
  }

  lemma TestEdgeIff(inp: Input, f: SourceFile, e: Edge)
    ensures e in TestEdges(inp, SortedFiles(inp), f) <==> IsTestEdge(inp, f, e)
  {
    var files := SortedFiles(inp);
    FlatMapMember(LinkedTestsOf(inp, files, f), t => LinkEdges(TestPaths(files), f.path, t), e);
    TestPathsSorted(inp);
  }

  /** Where an edge of the structural extraction comes from. */
  lemma StructuralEdgeIff(inp: Input, e: Edge)
    ensures e in StructuralEdges(inp) <==>
            exists f :: f in inp.files && (IsSymbolEdge(inp, f, e) || IsImportEdge(inp, f, e) || IsTestEdge(inp, f, e))
  {
    var files := SortedFiles(inp);
    SortByOk(inp.files, FilePath);
    FlatMapMember(files, f => FileEdges(inp, f, PathSet(inp.files)), e);
    FlatMapMember(files, f => TestEdges(inp, files, f), e);
    forall f ensures e in FileEdges(inp, f, PathSet(inp.files)) <==> IsSymbolEdge(inp, f, e) || IsImportEdge(inp, f, e) {
      FileEdgeIff(inp, f, e);
    }
    forall f ensures e in TestEdges(inp, files, f) <==> IsTestEdge(inp, f, e) {
      TestEdgeIff(inp, f, e);
    }
  }

  /** An edge whose id determines it. */
  ghost predicate Determined(inp: Input, e: Edge) {
    match e.id
    case EdgeId(kind, from, to) => e == PlainEdge(kind, from, to)
    case ImportEdgeId(importer, specifier) =>
      && importer.FileId?
      && TargetId(importer.path, specifier, PathSet(inp.files)) == Some(e.to)
      && e == Edge(e.id, IMPORTS, importer, e.to)
  }

  lemma ImportEdgeShape(inp: Input, p: string, site: ImportSite, e: Edge)
    requires e in ImportEdges(p, site, PathSet(inp.files))
    ensures Determined(inp, e) && e.from == FileId(p) && (IsReverseDependency(e.kind) || e.kind.EXPORTS?)
    ensures TargetId(p, site.specifier, PathSet(inp.files)) == Some(e.to)
  {
    var to := TargetId(p, site.specifier, PathSet(inp.files));
    assert || e == Edge(ImportEdgeId(FileId(p), site.specifier), IMPORTS, FileId(p), to.value)
           || e == PlainEdge(DEPENDS_ON, FileId(p), to.value)
           || e == PlainEdge(EXPORTS, FileId(p), to.value);
  }

  lemma SymbolEdgeShape(p: string, s: SymbolDef, e: Edge)
    requires e in SymbolEdges(p, s)
    ensures e == PlainEdge(DEFINES, FileId(p), SymbolIdOf(p, s)) || e == PlainEdge(EXPORTS, FileId(p), SymbolIdOf(p, s))
  {}

  lemma EdgesDetermined(inp: Input, e: Edge)
    requires e in BaseEdgesOf(inp) || e in StructuralEdges(inp)
    ensures Determined(inp, e)
  {
    if e in BaseEdgesOf(inp) {
      BaseEdgeIff(inp, e);
    } else {
      StructuralEdgeIff(inp, e);
      var f :| f in inp.files && (IsSymbolEdge(inp, f, e) || IsImportEdge(inp, f, e) || IsTestEdge(inp, f, e));
      if IsSymbolEdge(inp, f, e) {
        var s :| s in inp.sources[f.path].symbols && e in SymbolEdges(f.path, s);
        SymbolEdgeShape(f.path, s, e);
      } else if IsImportEdge(inp, f, e) {
        var site :| site in inp.sources[f.path].imports && e in ImportEdges(f.path, site, PathSet(inp.files));
        ImportEdgeShape(inp, f.path, site, e);
      }
    }
  }

  /** The graph has exactly the edges that were emitted: merging by id drops only repetitions. */
  lemma NoEdgeLost(inp: Input, edgeName: EdgeId -> string, e: Edge)
    ensures e in Edges(inp, edgeName) <==> e in BaseEdgesOf(inp) || e in StructuralEdges(inp)
  {
    var base, extra := BaseEdgesOf(inp), StructuralEdges(inp);
    forall x, y | x in base + extra && y in base + extra && EdgeKey(x) == EdgeKey(y) ensures x == y {
      EdgesDetermined(inp, x);
      EdgesDetermined(inp, y);
    }
    MergeLossless(base, extra, EdgeKey, e);
    SortByOk(MergedEdges(inp), (d: Edge) => edgeName(d.id));
  }

  // ---------------------------------------------------------------- nodes

  lemma PathUnique(files: seq<SourceFile>, f: SourceFile, g: SourceFile)
    requires ValidFiles(files) && f in files && g in files && f.path == g.path
    ensures f == g
  {
    var key := (f: SourceFile) => f.path;
    var i :| 0 <= i < |files| && files[i] == f;
    var j :| 0 <= j < |files| && files[j] == g;
    assert key(files[i]) == key(files[j]);
  }

  lemma BaseNodesFunctional(inp: Input, m: Node, n: Node)
    requires ValidFiles(inp.files) && IsBaseNode(inp, m) && IsBaseNode(inp, n) && m.id == n.id
    ensures m == n
  {
    if f, g :| f in inp.files && g in inp.files && m == FileNode(f) && n == FileNode(g) {
      PathUnique(inp.files, f, g);
    }
  }

  /** A node of the extraction is a symbol or an imported package. */
  lemma StructuralNodeShape(inp: Input, n: Node)
    requires n in StructuralNodes(inp, SortedFiles(inp))
    ensures (n.id.SymbolId? || n.id.PackageId?) && !IsFileLike(n.kind)
  {
    FlatMapMember(SortedFiles(inp), f => FileNodes(inp, f), n);
    var f :| f in SortedFiles(inp) && n in FileNodes(inp, f);
    FileNodeIff(inp, f, n);
    FileNodeShape(inp, f, n);
  }

  lemma FileNodeShape(inp: Input, f: SourceFile, n: Node)
    requires IsSymbolNode(inp, f, n) || IsPackageNode(inp, f, n)
    ensures (n.id.SymbolId? || n.id.PackageId?) && !IsFileLike(n.kind)
  {}

  ghost predicate IsSymbolNode(inp: Input, f: SourceFile, n: Node) {
    HasStructure(inp, f) && exists s :: s in inp.sources[f.path].symbols && n == SymbolNode(f.path, s)
  }

  ghost predicate IsPackageNode(inp: Input, f: SourceFile, n: Node) {
    HasStructure(inp, f)
    && exists site :: site in inp.sources[f.path].imports && IsBare(site.specifier) && n == PackageNode(site.specifier)
  }

  lemma FileNodeIff(inp: Input, f: SourceFile, n: Node)
    ensures n in FileNodes(inp, f) <==> IsSymbolNode(inp, f, n) || IsPackageNode(inp, f, n)
  {
    if HasStructure(inp, f) {
      MapMember(inp.sources[f.path].symbols, s => SymbolNode(f.path, s), n);
      FlatMapMember(inp.sources[f.path].imports, SitePackages, n);
    }
  }

  lemma NodesMerged(inp: Input, nodeName: NodeId -> string, n: Node)
    ensures n in Nodes(inp, nodeName) <==> n in MergedNodes(inp)
  {
    SortByOk(MergedNodes(inp), (m: Node) => nodeName(m.id));
  }

  /** Inventory nodes are all kept. */
  lemma InventoryNodesKept(inp: Input, nodeName: NodeId -> string, n: Node)
    requires ValidFiles(inp.files) && IsBaseNode(inp, n)
    ensures n in Nodes(inp, nodeName)
  {
    var base := BaseNodesOf(inp);
    forall x, y | x in base && y in base && NodeKey(x) == NodeKey(y) ensures x == y {
      BaseNodeIff(inp, x);
      BaseNodeIff(inp, y);
      BaseNodesFunctional(inp, x, y);
    }
    BaseNodeIff(inp, n);
    MergeKeepsBase(base, StructuralNodes(inp, SortedFiles(inp)), NodeKey, n);
    NodesMerged(inp, nodeName, n);
  }

  /** Only inventory files have a file id or a file kind. */
  lemma FileNodesAre(inp: Input, nodeName: NodeId -> string, n: Node)
    requires n in Nodes(inp, nodeName) && (n.id.FileId? || IsFileLike(n.kind))
    ensures exists f :: f in inp.files && n == FileNode(f)
  {
    NodesMerged(inp, nodeName, n);
    MergeSource(BaseNodesOf(inp), StructuralNodes(inp, SortedFiles(inp)), NodeKey, n);
    if n in StructuralNodes(inp, SortedFiles(inp)) {
      StructuralNodeShape(inp, n);
    }
    BaseNodeIff(inp, n);
  }

  /** Every emitted node id is the id of a node of the graph. */
  lemma IdsKept(inp: Input, nodeName: NodeId -> string, n: Node)
    requires n in BaseNodesOf(inp) || n in StructuralNodes(inp, SortedFiles(inp))
    ensures HasId(Nodes(inp, nodeName), NodeKey, n.id)
  {
    MergeKeepsIds(BaseNodesOf(inp), StructuralNodes(inp, SortedFiles(inp)), NodeKey, n);
    var m :| m in MergedNodes(inp) && NodeKey(m) == n.id;
    NodesMerged(inp, nodeName, m);
  }

  lemma InventoryIdsKept(inp: Input, nodeName: NodeId -> string, id: NodeId)
    requires InInventory(inp, id)
    ensures HasId(Nodes(inp, nodeName), NodeKey, id)
  {
    var n := match id
      case ProjectId => Node(ProjectId, Project, Some("."))
      case PackageId(_) => Node(PackageId("."), Package, Some("package.json"))
      case DirectoryId(d) => DirNode(d)
      case FileId(p) => (var f :| f in inp.files && f.path == p; FileNode(f))
      case _ => DirNode("");
    BaseNodeIff(inp, n);
    IdsKept(inp, nodeName, n);
  }

  lemma SymbolIdKept(inp: Input, nodeName: NodeId -> string, f: SourceFile, s: SymbolDef)
    requires f in inp.files && HasStructure(inp, f) && s in inp.sources[f.path].symbols
    ensures HasId(Nodes(inp, nodeName), NodeKey, SymbolIdOf(f.path, s))
  {
    StructuralNodeKept(inp, nodeName, f, SymbolNode(f.path, s));
  }

  lemma StructuralNodeKept(inp: Input, nodeName: NodeId -> string, f: SourceFile, n: Node)
    requires f in inp.files && (IsSymbolNode(inp, f, n) || IsPackageNode(inp, f, n))
    ensures HasId(Nodes(inp, nodeName), NodeKey, n.id)
  {
    FileNodeIff(inp, f, n);
    FlatMapMember(SortedFiles(inp), g => FileNodes(inp, g), n);
    SortByOk(inp.files, FilePath);
    IdsKept(inp, nodeName, n);
  }

  lemma TargetKept(inp: Input, nodeName: NodeId -> string, f: SourceFile, site: ImportSite, to: NodeId)
    requires f in inp.files && HasStructure(inp, f) && site in inp.sources[f.path].imports
    requires TargetId(f.path, site.specifier, PathSet(inp.files)) == Some(to)
    ensures HasId(Nodes(inp, nodeName), NodeKey, to)
  {
    IR.FileTargetIndexed(site.specifier, f.path, PathSet(inp.files));
    if to.FileId? {
      InventoryIdsKept(inp, nodeName, to);
    } else {
      StructuralNodeKept(inp, nodeName, f, PackageNode(site.specifier));
    }
  }

  // ---------------------------------------------------------------- directories

  lemma ParentAbove(p: string)
    ensures ParentOf(p) == "." || IsAbove(ParentOf(p), p)
  {
    var slash := LastIndexOf(p, '/');
    if slash > 0 {
      assert p[..slash] + "/" == p[..slash + 1];
    }
  }

  lemma DirectoryIff(files: seq<SourceFile>, d: string)
    ensures d in Directories(files) <==> exists f :: f in files && IsAbove(d, f.path)
  {
    forall f | f in files ensures d in Ancestors(f.path) <==> IsAbove(d, f.path) {
      AncestorsAre(f.path, d);
    }
  }

  lemma AboveTrans(c: string, d: string, p: string)
    requires IsAbove(c, d) && IsAbove(d, p)
    ensures IsAbove(c, p)
  {}

  /** The container of an inventory id is in the inventory. */
  lemma UpInInventory(inp: Input, id: NodeId)
    requires InInventory(inp, id)
    ensures InInventory(inp, Up(id))
  {
    if id.FileId? {
      var f :| f in inp.files && f.path == id.path;
      ParentAbove(id.path);
      DirectoryIff(inp.files, ParentOf(id.path));
    } else if id.DirectoryId? {
      DirectoryIff(inp.files, id.path);
      var f :| f in inp.files && IsAbove(id.path, f.path);
      ParentAbove(id.path);
      DirectoryIff(inp.files, ParentOf(id.path));
      if ParentOf(id.path) != "." {
        AboveTrans(ParentOf(id.path), id.path, f.path);
      }
    }
  }

  /** Both ends of every edge are nodes of the graph. */
  lemma NoDanglingEdge(inp: Input, nodeName: NodeId -> string, edgeName: EdgeId -> string, e: Edge)
    requires e in Edges(inp, edgeName)
    ensures HasId(Nodes(inp, nodeName), NodeKey, e.from) && HasId(Nodes(inp, nodeName), NodeKey, e.to)
  {
    NoEdgeLost(inp, edgeName, e);
    if e in BaseEdgesOf(inp) {
      BaseEdgeIff(inp, e);
      UpInInventory(inp, e.to);
      InventoryIdsKept(inp, nodeName, e.to);
      InventoryIdsKept(inp, nodeName, e.from);
    } else {
      StructuralEdgeIff(inp, e);
      var f :| f in inp.files && (IsSymbolEdge(inp, f, e) || IsImportEdge(inp, f, e) || IsTestEdge(inp, f, e));
      StructuralEnds(inp, nodeName, f, e);
    }
  }

  lemma StructuralEnds(inp: Input, nodeName: NodeId -> string, f: SourceFile, e: Edge)
    requires f in inp.files && (IsSymbolEdge(inp, f, e) || IsImportEdge(inp, f, e) || IsTestEdge(inp, f, e))
    ensures HasId(Nodes(inp, nodeName), NodeKey, e.from) && HasId(Nodes(inp, nodeName), NodeKey, e.to)
  {
    InventoryIdsKept(inp, nodeName, FileId(f.path));
    if IsSymbolEdge(inp, f, e) {
      var s :| s in inp.sources[f.path].symbols && e in SymbolEdges(f.path, s);
      SymbolEdgeShape(f.path, s, e);
      SymbolIdKept(inp, nodeName, f, s);
    } else if IsImportEdge(inp, f, e) {
      var site :| site in inp.sources[f.path].imports && e in ImportEdges(f.path, site, PathSet(inp.files));
      ImportEdgeShape(inp, f.path, site, e);
      TargetKept(inp, nodeName, f, site, e.to);
    } else {
      InventoryIdsKept(inp, nodeName, e.from);
    }
  }

  // ---------------------------------------------------------------- containment is a tree

  /**
   The containment edges are exactly the edges from the container of an inventory id
   to that id: one for every package, directory and file, and none into the project.
   */
  lemma ContainsIff(inp: Input, edgeName: EdgeId -> string, e: Edge)
    ensures e in Edges(inp, edgeName) && e.kind.CONTAINS? <==>
            e.to != ProjectId && InInventory(inp, e.to) && e == ContainsEdge(e.to)
  {
    NoEdgeLost(inp, edgeName, e);
    BaseEdgeIff(inp, e);
    if e in StructuralEdges(inp) {
      StructuralNotContains(inp, e);
    }
  }

  lemma StructuralNotContains(inp: Input, e: Edge)
    requires e in StructuralEdges(inp)
    ensures !e.kind.CONTAINS?
  {
    StructuralEdgeIff(inp, e);
    var f :| f in inp.files && (IsSymbolEdge(inp, f, e) || IsImportEdge(inp, f, e) || IsTestEdge(inp, f, e));
    StructuralKinds(inp, f, e);
  }

  lemma StructuralKinds(inp: Input, f: SourceFile, e: Edge)
    ensures IsSymbolEdge(inp, f, e) ==> e.kind.DEFINES? || e.kind.EXPORTS?
    ensures IsImportEdge(inp, f, e) ==> IsReverseDependency(e.kind) || e.kind.EXPORTS?
    ensures IsTestEdge(inp, f, e) ==> e.kind.TESTS?
  {
    if IsSymbolEdge(inp, f, e) {
      var s :| s in inp.sources[f.path].symbols && e in SymbolEdges(f.path, s);
      SymbolEdgeShape(f.path, s, e);
    }
    if IsImportEdge(inp, f, e) {
      var site :| site in inp.sources[f.path].imports && e in ImportEdges(f.path, site, PathSet(inp.files));
      ImportEdgeShape(inp, f.path, site, e);
    }
  }

  /** Only imports give dependency edges and only test links give test edges. */
  lemma EdgeOrigin(inp: Input, edgeName: EdgeId -> string, e: Edge)
    requires e in Edges(inp, edgeName)
    ensures IsReverseDependency(e.kind) ==> exists f :: f in inp.files && IsImportEdge(inp, f, e)
    ensures e.kind.TESTS? ==> exists f :: f in inp.files && IsTestEdge(inp, f, e)
  {
    NoEdgeLost(inp, edgeName, e);
    BaseEdgeIff(inp, e);
    if e in StructuralEdges(inp) {
      StructuralEdgeIff(inp, e);
      var f :| f in inp.files && (IsSymbolEdge(inp, f, e) || IsImportEdge(inp, f, e) || IsTestEdge(inp, f, e));
      StructuralKinds(inp, f, e);
    }
  }

  // ---------------------------------------------------------------- definitions and exports

  lemma SymbolEdgesIff(p: string, s: SymbolDef, e: Edge)
    ensures e in SymbolEdges(p, s) <==>
            e == PlainEdge(DEFINES, FileId(p), SymbolIdOf(p, s)) || (s.exported && e == PlainEdge(EXPORTS, FileId(p), SymbolIdOf(p, s)))
  {
    assert SymbolEdges(p, s)[0] == PlainEdge(DEFINES, FileId(p), SymbolIdOf(p, s));
    assert s.exported ==> SymbolEdges(p, s)[1] == PlainEdge(EXPORTS, FileId(p), SymbolIdOf(p, s));
  }

  ghost predicate Defines(inp: Input, f: SourceFile, s: SymbolDef) {
    f in inp.files && HasStructure(inp, f) && s in inp.sources[f.path].symbols
  }

  /** The DEFINES edges lead exactly from the structural files to the symbols found in them. */
  lemma DefinesIff(inp: Input, edgeName: EdgeId -> string, e: Edge)
    ensures e in Edges(inp, edgeName) && e.kind.DEFINES? <==>
            exists f, s :: Defines(inp, f, s) && e == PlainEdge(DEFINES, FileId(f.path), SymbolIdOf(f.path, s))
  {
    NoEdgeLost(inp, edgeName, e);
    if e in Edges(inp, edgeName) && e.kind.DEFINES? {
      BaseEdgeIff(inp, e);
      StructuralEdgeIff(inp, e);
      var f :| f in inp.files && (IsSymbolEdge(inp, f, e) || IsImportEdge(inp, f, e) || IsTestEdge(inp, f, e));
      StructuralKinds(inp, f, e);
      var s :| s in inp.sources[f.path].symbols && e in SymbolEdges(f.path, s);
      SymbolEdgesIff(f.path, s, e);
      assert Defines(inp, f, s);
    }
    if f, s :| Defines(inp, f, s) && e == PlainEdge(DEFINES, FileId(f.path), SymbolIdOf(f.path, s)) {
      SymbolEdgesIff(f.path, s, e);
      assert IsSymbolEdge(inp, f, e);
      StructuralEdgeIff(inp, e);
    }
  }

  lemma ImportExportsIff(p: string, site: ImportSite, indexed: set<string>, e: Edge)
    ensures e in ImportEdges(p, site, indexed) && e.kind.EXPORTS? <==>
            site.exportFrom && TargetId(p, site.specifier, indexed) == Some(e.to) && e == PlainEdge(EXPORTS, FileId(p), e.to)
  {
    var to := TargetId(p, site.specifier, indexed);
    if to.Some? {
      var es := ImportEdges(p, site, indexed);
      assert es[0].kind == IMPORTS && es[1].kind == DEPENDS_ON;
      assert site.exportFrom ==> es[2] == PlainEdge(EXPORTS, FileId(p), to.value);
    }
  }

  ghost predicate ReExports(inp: Input, f: SourceFile, to: NodeId) {
    && f in inp.files && HasStructure(inp, f)
    && exists site :: site in inp.sources[f.path].imports && site.exportFrom
                      && TargetId(f.path, site.specifier, PathSet(inp.files)) == Some(to)
  }

  /** The EXPORTS edges lead exactly from a structural file to its exported symbols and to what it re-exports. */
  lemma ExportsIff(inp: Input, edgeName: EdgeId -> string, e: Edge)
    ensures e in Edges(inp, edgeName) && e.kind.EXPORTS? <==>
            || (exists f, s :: Defines(inp, f, s) && s.exported && e == PlainEdge(EXPORTS, FileId(f.path), SymbolIdOf(f.path, s)))
            || (exists f :: ReExports(inp, f, e.to) && e == PlainEdge(EXPORTS, FileId(f.path), e.to))
  {
    NoEdgeLost(inp, edgeName, e);
    if e in Edges(inp, edgeName) && e.kind.EXPORTS? {
      ExportOrigin(inp, e);
    }
    if f, s :| Defines(inp, f, s) && s.exported && e == PlainEdge(EXPORTS, FileId(f.path), SymbolIdOf(f.path, s)) {
      SymbolEdgesIff(f.path, s, e);
      assert IsSymbolEdge(inp, f, e);
      StructuralEdgeIff(inp, e);
    }
    if f :| ReExports(inp, f, e.to) && e == PlainEdge(EXPORTS, FileId(f.path), e.to) {
      ReExportHasEdge(inp, f, e);
    }
  }

  lemma ExportOrigin(inp: Input, e: Edge)
    requires (e in BaseEdgesOf(inp) || e in StructuralEdges(inp)) && e.kind.EXPORTS?
    ensures (exists f, s :: Defines(inp, f, s) && s.exported && e == PlainEdge(EXPORTS, FileId(f.path), SymbolIdOf(f.path, s)))
            || (exists f :: ReExports(inp, f, e.to) && e == PlainEdge(EXPORTS, FileId(f.path), e.to))
  {
    BaseEdgeIff(inp, e);
    StructuralEdgeIff(inp, e);
    var f :| f in inp.files && (IsSymbolEdge(inp, f, e) || IsImportEdge(inp, f, e) || IsTestEdge(inp, f, e));
    StructuralKinds(inp, f, e);
    if IsSymbolEdge(inp, f, e) {
      var s :| s in inp.sources[f.path].symbols && e in SymbolEdges(f.path, s);
      SymbolEdgesIff(f.path, s, e);
      assert Defines(inp, f, s);
    } else {
      var site :| site in inp.sources[f.path].imports && e in ImportEdges(f.path, site, PathSet(inp.files));
      ImportExportsIff(f.path, site, PathSet(inp.files), e);
      assert ReExports(inp, f, e.to);
    }
  }

  lemma ReExportHasEdge(inp: Input, f: SourceFile, e: Edge)
    requires ReExports(inp, f, e.to) && e == PlainEdge(EXPORTS, FileId(f.path), e.to)
    ensures e in StructuralEdges(inp)
  {
    var site :| site in inp.sources[f.path].imports && site.exportFrom
                && TargetId(f.path, site.specifier, PathSet(inp.files)) == Some(e.to);
    ImportExportsIff(f.path, site, PathSet(inp.files), e);
    assert IsImportEdge(inp, f, e);
    StructuralEdgeIff(inp, e);
  }

  // ---------------------------------------------------------------- climbing to the project

  /** `c` climbs containment edges from its first id to its last. */
  ghost predicate Climb(edges: seq<Edge>, c: seq<NodeId>) {
    c != [] && forall i :: 0 <= i < |c| - 1 ==> PlainEdge(CONTAINS, c[i + 1], c[i]) in edges
  }

  /** Exactly one containment edge leads to each inventory id but the project. */
  lemma OneContainer(inp: Input, edgeName: EdgeId -> string, id: NodeId)
    requires InInventory(inp, id) && id != ProjectId
    ensures ContainsEdge(id) in Edges(inp, edgeName)
    ensures forall e :: e in Edges(inp, edgeName) && e.kind.CONTAINS? && e.to == id ==> e == ContainsEdge(id)
  {
    ContainsIff(inp, edgeName, ContainsEdge(id));
    forall e | e in Edges(inp, edgeName) && e.kind.CONTAINS? && e.to == id ensures e == ContainsEdge(id) {
      ContainsIff(inp, edgeName, e);
    }
  }

  function Size(id: NodeId): nat {
    match id
    case ProjectId => 0
    case PackageId(_) => 1
    case DirectoryId(d) => 1 + |d|
    case FileId(p) => 1 + |p|
    case _ => 1
  }

  /** `c` climbs from an inventory id to the project, through inventory ids. */
  ghost predicate ClimbsToProject(inp: Input, edges: seq<Edge>, id: NodeId, c: seq<NodeId>) {
    Climb(edges, c) && c[0] == id && c[|c| - 1] == ProjectId && forall x :: x in c ==> InInventory(inp, x)
  }

  /** Following containers from any inventory id leads to the project, through nodes of the inventory. */
  lemma {:induction false} ReachesProject(inp: Input, edgeName: EdgeId -> string, id: NodeId) returns (c: seq<NodeId>)
    requires InInventory(inp, id)
    ensures ClimbsToProject(inp, Edges(inp, edgeName), id, c)
    decreases Size(id)
  {
    if id == ProjectId {
      c := [ProjectId];
    } else {
      UpInInventory(inp, id);
      UpSmaller(id);
      var rest := ReachesProject(inp, edgeName, Up(id));
      ContainsIff(inp, edgeName, ContainsEdge(id));
      c := [id] + rest;
      ClimbFurther(inp, Edges(inp, edgeName), id, rest);
    }
  }

  lemma ClimbFurther(inp: Input, edges: seq<Edge>, id: NodeId, rest: seq<NodeId>)
    requires InInventory(inp, id) && ClimbsToProject(inp, edges, Up(id), rest) && ContainsEdge(id) in edges
    ensures ClimbsToProject(inp, edges, id, [id] + rest)
  {
    ClimbOne(edges, id, rest);
  }

  lemma ClimbOne(edges: seq<Edge>, id: NodeId, rest: seq<NodeId>)
    requires Climb(edges, rest) && rest[0] == Up(id) && ContainsEdge(id) in edges
    ensures Climb(edges, [id] + rest)
  {
    var c := [id] + rest;
    forall i | 0 <= i < |c| - 1 ensures PlainEdge(CONTAINS, c[i + 1], c[i]) in edges {
      if i > 0 { assert c[i + 1] == rest[i] && c[i] == rest[i - 1]; }
    }
  }

  lemma UpSmaller(id: NodeId)
    requires id != ProjectId
    ensures Size(Up(id)) < Size(id)
  {}

  // ---------------------------------------------------------------- unique, sorted, order independent

  /** Ids are unique and both lists are sorted by printed id, however ids are printed. */
  lemma UniqueAndSorted(inp: Input, nodeName: NodeId -> string, edgeName: EdgeId -> string)
    ensures DistinctKeys(Nodes(inp, nodeName), NodeKey) && Sorted(Nodes(inp, nodeName), (n: Node) => nodeName(n.id))
    ensures DistinctKeys(Edges(inp, edgeName), EdgeKey) && Sorted(Edges(inp, edgeName), (e: Edge) => edgeName(e.id))
  {
    NodesUniqueAndSorted(inp, nodeName);
    EdgesUniqueAndSorted(inp, edgeName);
  }

  lemma NodesUniqueAndSorted(inp: Input, nodeName: NodeId -> string)
    ensures DistinctKeys(Nodes(inp, nodeName), NodeKey) && Sorted(Nodes(inp, nodeName), (n: Node) => nodeName(n.id))
  {
    PutAllDistinct(BaseNodesOf(inp), NodeKey);
    PutAllNewOk(PutAll(BaseNodesOf(inp), NodeKey), StructuralNodes(inp, SortedFiles(inp)), NodeKey);
    SortByOk(MergedNodes(inp), (n: Node) => nodeName(n.id));
    DistinctPermuted(MergedNodes(inp), Nodes(inp, nodeName), NodeKey);
  }

  lemma EdgesUniqueAndSorted(inp: Input, edgeName: EdgeId -> string)
    ensures DistinctKeys(Edges(inp, edgeName), EdgeKey) && Sorted(Edges(inp, edgeName), (e: Edge) => edgeName(e.id))
  {
    PutAllDistinct(BaseEdgesOf(inp), EdgeKey);
    PutAllNewOk(PutAll(BaseEdgesOf(inp), EdgeKey), StructuralEdges(inp), EdgeKey);
    SortByOk(MergedEdges(inp), (e: Edge) => edgeName(e.id));
    DistinctPermuted(MergedEdges(inp), Edges(inp, edgeName), EdgeKey);
  }

  /** The order in which the files come does not matter. */
  lemma OrderIndependent(inp: Input, files: seq<SourceFile>, nodeName: NodeId -> string, edgeName: EdgeId -> string)
    requires ValidFiles(inp.files) && multiset(files) == multiset(inp.files)
    ensures Nodes(Input(files, inp.sources), nodeName) == Nodes(inp, nodeName)
    ensures Edges(Input(files, inp.sources), edgeName) == Edges(inp, edgeName)
  {
    var inp' := Input(files, inp.sources);
    assert DistinctKeys(inp.files, FilePath) by {
      var key := (f: SourceFile) => f.path;
      assert DistinctKeys(inp.files, key);
      assert forall f :: FilePath(f) == key(f);
    }
    SortPermutation(inp.files, files, FilePath);
    forall f ensures f in files <==> f in inp.files {
      assert f in multiset(files) <==> f in multiset(inp.files);
    }
    assert PathSet(files) == PathSet(inp.files);
    assert Directories(files) == Directories(inp.files);
    SameParts(inp', inp);
  }

  lemma SameParts(a: Input, b: Input)
    requires a.sources == b.sources && SortedFiles(a) == SortedFiles(b)
    requires PathSet(a.files) == PathSet(b.files) && Directories(a.files) == Directories(b.files)
    ensures MergedNodes(a) == MergedNodes(b) && MergedEdges(a) == MergedEdges(b)
  {
    var files := SortedFiles(a);
    forall f ensures FileNodes(a, f) == FileNodes(b, f) && FileEdges(a, f, PathSet(a.files)) == FileEdges(b, f, PathSet(b.files))
                     && TestEdges(a, files, f) == TestEdges(b, files, f)
    {}
    FlatMapSame(files, f => FileNodes(a, f), f => FileNodes(b, f));
    FlatMapSame(files, f => FileEdges(a, f, PathSet(a.files)), f => FileEdges(b, f, PathSet(b.files)));
    FlatMapSame(files, f => TestEdges(a, files, f), f => TestEdges(b, files, f));
  }

  lemma {:induction false} FlatMapSame<S(!new), T>(xs: seq<S>, f: S -> seq<T>, g: S -> seq<T>)
    requires forall x :: f(x) == g(x)
    ensures FlatMap(xs, f) == FlatMap(xs, g)
  {
    if xs != [] {
      FlatMapSame(xs[..|xs| - 1], f, g);
    }
  }
}
