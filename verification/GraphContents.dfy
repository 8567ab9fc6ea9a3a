/**
 What a built graph consists of, spelled out in terms of paths, extracted symbols and
 import sites: every edge kind and every node, with both directions.
 */
module GraphContents {
  import opened Wrappers
  import opened Graph
  import opened Ordering
  import opened Paths
  import opened TestLinker
  import opened GraphBuilder
  import opened BuiltGraph
  import IR = ImportResolver

  // ---------------------------------------------------------------- containers

  /** The container of a canonical path: what stands before its last slash, or the project. */
  ghost predicate Holds(from: NodeId, p: string) {
    if '/' !in p then from == ProjectId
    else exists d, name :: p == d + "/" + name && '/' !in name && from == DirectoryId(d)
  }

  lemma SplitAtLast(p: string, slash: nat)
    requires Canonical(p) && slash < |p| && p[slash] == '/'
    ensures p == p[..slash] + "/" + p[slash + 1..] && p[..slash] != "" && p[..slash] != "."
  {
    assert p == p[..slash] + "/" + p[slash + 1..];
    SplitAppend(p[..slash], p[slash + 1..]);
    assert Split(p[..slash])[0] in Split(p);
    if p[..slash] == "." {
      SplitSegment(".");
    }
  }

  lemma LastName(d: string, name: string, slash: int)
    requires '/' !in name && var p := d + "/" + name;
      0 <= slash < |p| && p[slash] == '/' && forall j :: slash < j < |p| ==> p[j] != '/'
    ensures slash == |d|
  {
    var p := d + "/" + name;
    assert p[|d|] == '/';
    forall j | |d| < j < |p| ensures p[j] == name[j - |d| - 1] != '/' {}
  }

  lemma HoldsParent(p: string, from: NodeId)
    requires Canonical(p)
    ensures Holds(from, p) <==> from == ParentId(p)
  {
    var slash := LastIndexOf(p, '/');
    if '/' in p {
      assert slash >= 0 by {
        var i :| 0 <= i < |p| && p[i] == '/';
      }
      SplitAtLast(p, slash);
      var d, name := p[..slash], p[slash + 1..];
      assert '/' !in name;
      assert p == d + "/" + name;
      if d', name' :| p == d' + "/" + name' && '/' !in name' && from == DirectoryId(d') {
        LastName(d', name', slash);
        assert d' == d;
      }
    } else {
      assert slash < 0;
    }
  }

  /** The paths of the tree below the project: files, and what stands before a slash of a file's path. */
  ghost predicate IsFilePath(inp: Input, p: string) {
    exists f :: f in inp.files && f.path == p
  }

  ghost predicate IsDirectoryPath(inp: Input, d: string) {
    exists f :: f in inp.files && d + "/" <= f.path
  }

  lemma DirectoryPaths(inp: Input, d: string)
    requires ValidFiles(inp.files)
    ensures d in Directories(inp.files) <==> IsDirectoryPath(inp, d)
    ensures IsDirectoryPath(inp, d) ==> Canonical(d)
  {
    DirectoryIff(inp.files, d);
    if f :| f in inp.files && d + "/" <= f.path {
      assert f.path == d + "/" + f.path[|d| + 1..];
      SplitAppend(d, f.path[|d| + 1..]);
      assert forall s :: s in Split(d) ==> s in Split(f.path);
      CanonicalNormal(d);
      SplitSegment(".");
      assert Split(d)[0] in Split(d);
      assert IsAbove(d, f.path);
    }
  }

  /**
   The containment edges, for canonical paths: one from the project to the package, and one
   to every file and directory, from the project if its path has no slash and else from the
   directory that is named before the last slash.
   */
  lemma ContainsAre(inp: Input, edgeName: EdgeId -> string, e: Edge)
    requires ValidFiles(inp.files)
    ensures e in Edges(inp, edgeName) && e.kind.CONTAINS? <==>
      && e == Edge(EdgeId.EdgeId(CONTAINS, e.from, e.to), CONTAINS, e.from, e.to)
      && (|| (e.from == ProjectId && e.to == PackageId("."))
          || (e.to.FileId? && IsFilePath(inp, e.to.path) && Holds(e.from, e.to.path))
          || (e.to.DirectoryId? && IsDirectoryPath(inp, e.to.path) && Holds(e.from, e.to.path)))
  {
    ContainsIff(inp, edgeName, e);
    match e.to
    case FileId(p) =>
      if IsFilePath(inp, p) { HoldsParent(p, e.from); }
    case DirectoryId(d) =>
      DirectoryPaths(inp, d);
      if IsDirectoryPath(inp, d) { HoldsParent(d, e.from); }
    case _ =>
  }

  /**
   Every file and every directory has exactly one container: the project exactly if its path
   has no slash, directory `d` exactly if the path is `d`, a slash and a name without slashes.
   */
  lemma ContainerOf(inp: Input, edgeName: EdgeId -> string, id: NodeId, p: string)
    requires ValidFiles(inp.files)
    requires (id == FileId(p) && IsFilePath(inp, p)) || (id == DirectoryId(p) && IsDirectoryPath(inp, p))
    ensures exists e :: e in Edges(inp, edgeName) && e.kind.CONTAINS? && e.to == id
    ensures forall e :: e in Edges(inp, edgeName) && e.kind.CONTAINS? && e.to == id ==>
      && (e.from == ProjectId <==> '/' !in p)
      && forall d :: e.from == DirectoryId(d) <==> exists name :: '/' !in name && p == d + "/" + name
  {
    DirectoryPaths(inp, p);
    OneContainer(inp, edgeName, id);
    forall e | e in Edges(inp, edgeName) && e.kind.CONTAINS? && e.to == id
      ensures e.from == ProjectId <==> '/' !in p
      ensures forall d :: e.from == DirectoryId(d) <==> exists name :: '/' !in name && p == d + "/" + name
    {
      HoldsParent(p, e.from);
      forall d ensures e.from == DirectoryId(d) <==> exists name :: '/' !in name && p == d + "/" + name {
        HoldsParent(p, DirectoryId(d));
        if name :| '/' !in name && p == d + "/" + name {
          assert p[|d|] == '/';
        }
      }
    }
  }

  // ---------------------------------------------------------------- structural edges

  /** A source file in TypeScript or JavaScript whose text is available. */
  ghost predicate Analysed(inp: Input, f: SourceFile) {
    f in inp.files && f.kind.SourceKind? && f.tsOrJs && f.path in inp.sources
  }

  /** What an import of file `p` leads to: a resolved file, or the package of a bare specifier. */
  ghost predicate LeadsTo(inp: Input, p: string, specifier: string, to: NodeId) {
    match IR.ResolveTarget(specifier, p, (set f | f in inp.files :: f.path))
    case FileTarget(q) => to == FileId(q)
    case PackageTarget(s) => to == PackageId(NormalizePath(s))
    case _ => false
  }

  ghost predicate HasImport(inp: Input, f: SourceFile, specifier: string, to: NodeId) {
    Analysed(inp, f) && (exists site :: site in inp.sources[f.path].imports && site.specifier == specifier)
    && LeadsTo(inp, f.path, specifier, to)
  }

  lemma LeadsToIff(inp: Input, p: string, specifier: string, to: NodeId)
    ensures LeadsTo(inp, p, specifier, to) <==> TargetId(p, specifier, PathSet(inp.files)) == Some(to)
  {
    assert PathSet(inp.files) == set f | f in inp.files :: f.path;
  }

  lemma ImportEdgesOf(inp: Input, f: SourceFile, site: ImportSite, e: Edge)
    ensures e in ImportEdges(f.path, site, PathSet(inp.files)) <==>
      && LeadsTo(inp, f.path, site.specifier, e.to)
      && (|| e == Edge(ImportEdgeId(FileId(f.path), site.specifier), IMPORTS, FileId(f.path), e.to)
          || e == Edge(EdgeId.EdgeId(DEPENDS_ON, FileId(f.path), e.to), DEPENDS_ON, FileId(f.path), e.to)
          || (site.exportFrom && e == Edge(EdgeId.EdgeId(EXPORTS, FileId(f.path), e.to), EXPORTS, FileId(f.path), e.to)))
  {
    LeadsToIff(inp, f.path, site.specifier, e.to);
    var es := ImportEdges(f.path, site, PathSet(inp.files));
    if es != [] {
      var to := TargetId(f.path, site.specifier, PathSet(inp.files)).value;
      assert es[0] == Edge(ImportEdgeId(FileId(f.path), site.specifier), IMPORTS, FileId(f.path), to);
      assert es[1] == Edge(EdgeId.EdgeId(DEPENDS_ON, FileId(f.path), to), DEPENDS_ON, FileId(f.path), to);
      assert site.exportFrom ==> es[2] == Edge(EdgeId.EdgeId(EXPORTS, FileId(f.path), to), EXPORTS, FileId(f.path), to);
      assert |es| == if site.exportFrom then 3 else 2;
    }
  }

  lemma ImportEdgeKept(inp: Input, edgeName: EdgeId -> string, f: SourceFile, site: ImportSite, e: Edge)
    requires Analysed(inp, f) && site in inp.sources[f.path].imports && e in ImportEdges(f.path, site, PathSet(inp.files))
    ensures e in Edges(inp, edgeName)
  {
    assert IsImportEdge(inp, f, e);
    StructuralEdgeIff(inp, e);
    NoEdgeLost(inp, edgeName, e);
  }

  lemma ImportEdgeFrom(inp: Input, edgeName: EdgeId -> string, e: Edge) returns (f: SourceFile, site: ImportSite)
    requires e in Edges(inp, edgeName) && (e.kind.IMPORTS? || e.kind.DEPENDS_ON?)
    ensures Analysed(inp, f) && site in inp.sources[f.path].imports && e in ImportEdges(f.path, site, PathSet(inp.files))
  {
    EdgeOrigin(inp, edgeName, e);
    f :| f in inp.files && IsImportEdge(inp, f, e);
    site :| site in inp.sources[f.path].imports && e in ImportEdges(f.path, site, PathSet(inp.files));
  }

  /** The IMPORTS edges: one for each analysed file and specifier that leads somewhere. */
  lemma ImportsAre(inp: Input, edgeName: EdgeId -> string, e: Edge)
    ensures e in Edges(inp, edgeName) && e.kind.IMPORTS? <==>
      exists f, s :: HasImport(inp, f, s, e.to) && e == Edge(ImportEdgeId(FileId(f.path), s), IMPORTS, FileId(f.path), e.to)
  {
    if e in Edges(inp, edgeName) && e.kind.IMPORTS? {
      var f, site := ImportEdgeFrom(inp, edgeName, e);
      ImportEdgesOf(inp, f, site, e);
      assert HasImport(inp, f, site.specifier, e.to);
    }
    if f, s :| HasImport(inp, f, s, e.to) && e == Edge(ImportEdgeId(FileId(f.path), s), IMPORTS, FileId(f.path), e.to) {
      var site :| site in inp.sources[f.path].imports && site.specifier == s;
      ImportEdgesOf(inp, f, site, e);
      ImportEdgeKept(inp, edgeName, f, site, e);
    }
  }

  /** The DEPENDS_ON edges: one from each analysed file to each thing that it imports. */
  lemma DependsOnAre(inp: Input, edgeName: EdgeId -> string, e: Edge)
    ensures e in Edges(inp, edgeName) && e.kind.DEPENDS_ON? <==>
      exists f, s :: HasImport(inp, f, s, e.to)
                     && e == Edge(EdgeId.EdgeId(DEPENDS_ON, FileId(f.path), e.to), DEPENDS_ON, FileId(f.path), e.to)
  {
    if e in Edges(inp, edgeName) && e.kind.DEPENDS_ON? {
      var f, site := ImportEdgeFrom(inp, edgeName, e);
      ImportEdgesOf(inp, f, site, e);
      assert HasImport(inp, f, site.specifier, e.to);
    }
    if f, s :| HasImport(inp, f, s, e.to)
               && e == Edge(EdgeId.EdgeId(DEPENDS_ON, FileId(f.path), e.to), DEPENDS_ON, FileId(f.path), e.to) {
      var site :| site in inp.sources[f.path].imports && site.specifier == s;
      ImportEdgesOf(inp, f, site, e);
      ImportEdgeKept(inp, edgeName, f, site, e);
    }
  }

  /** The TESTS edges: one from each test file that is linked to an analysed file. */
  lemma TestsAre(inp: Input, edgeName: EdgeId -> string, e: Edge)
    ensures e in Edges(inp, edgeName) && e.kind.TESTS? <==>
      exists f, t :: && Analysed(inp, f) && (exists g :: g in inp.files && g.kind.TestKind? && g.path == t)
                     && t in FindTests(Map(SortedFiles(inp), FilePath), ImportsOf(inp.sources), f.path)
                     && e == Edge(EdgeId.EdgeId(TESTS, FileId(t), FileId(f.path)), TESTS, FileId(t), FileId(f.path))
  {
    if e in Edges(inp, edgeName) && e.kind.TESTS? {
      EdgeOrigin(inp, edgeName, e);
      var f :| f in inp.files && IsTestEdge(inp, f, e);
      var t :| t in LinkedTestsOf(inp, SortedFiles(inp), f) && t in TestPaths(inp.files)
               && e == PlainEdge(TESTS, FileId(t), FileId(f.path));
      assert Analysed(inp, f);
    }
    if f, t :| && Analysed(inp, f) && (exists g :: g in inp.files && g.kind.TestKind? && g.path == t)
               && t in FindTests(Map(SortedFiles(inp), FilePath), ImportsOf(inp.sources), f.path)
               && e == Edge(EdgeId.EdgeId(TESTS, FileId(t), FileId(f.path)), TESTS, FileId(t), FileId(f.path)) {
      assert t in TestPaths(inp.files) && t in LinkedTestsOf(inp, SortedFiles(inp), f);
      assert IsTestEdge(inp, f, e);
      StructuralEdgeIff(inp, e);
      NoEdgeLost(inp, edgeName, e);
    }
  }

  // ---------------------------------------------------------------- nodes

  lemma FileKinds(f: SourceFile)
    ensures FileNode(f) == Node(FileId(f.path), if f.kind.TestKind? then NodeKind.Test else if f.kind.DocKind? then Doc
                                                else if f.kind.ConfigKind? then Config else File, Some(f.path))
  {}

  /** A symbol of an analysed file, and the kind of its node. */
  ghost predicate HasSymbol(inp: Input, id: NodeId, kind: NodeKind) {
    id.SymbolId? && exists f, s ::
      && Analysed(inp, f) && f.path == id.path && s in inp.sources[f.path].symbols
      && s.exported == id.exported && s.name == id.name && s.startLine == id.startLine
      && kind == match s.kind
                 case FunctionSymbol => NodeKind.Function
                 case ClassSymbol => NodeKind.Class
                 case InterfaceSymbol => NodeKind.Interface
                 case TypeAliasSymbol => NodeKind.TypeAlias
                 case EnumSymbol => NodeKind.Enum
                 case OtherSymbol => NodeKind.Symbol
  }

  /** A specifier of an analysed file that is neither relative nor like an alias, and that normalises to the package id. */
  ghost predicate HasPackage(inp: Input, id: NodeId, specifier: string) {
    id == PackageId(NormalizePath(specifier))
    && !("./" <= specifier || "../" <= specifier || "@/" <= specifier || "~/" <= specifier || specifier == "~")
    && exists f, site :: Analysed(inp, f) && site in inp.sources[f.path].imports && site.specifier == specifier
  }

  /** A node of a built graph, by its id. */
  ghost predicate IsNodeOf(inp: Input, n: Node) {
    match n.id
    case ProjectId => n == Node(ProjectId, Project, Some("."))
    case PackageId(d) =>
      if d == "." then n == Node(PackageId("."), Package, Some("package.json"))
      else n.kind.Package? && n.path.Some? && HasPackage(inp, n.id, n.path.value)
    case DirectoryId(d) => n == Node(DirectoryId(d), Directory, Some(d)) && IsDirectoryPath(inp, d)
    case FileId(p) =>
      exists f :: f in inp.files && f.path == p
        && n == Node(FileId(p), if f.kind.TestKind? then NodeKind.Test else if f.kind.DocKind? then Doc
                                else if f.kind.ConfigKind? then Config else File, Some(p))
    case SymbolId(p, _, _, _) => n.path == Some(p) && HasSymbol(inp, n.id, n.kind)
  }

  /** Which ids a built graph has. */
  ghost predicate IsIdOf(inp: Input, id: NodeId) {
    match id
    case ProjectId => true
    case PackageId(d) => d == "." || exists s :: HasPackage(inp, id, s)
    case DirectoryId(d) => IsDirectoryPath(inp, d)
    case FileId(p) => IsFilePath(inp, p)
    case SymbolId(_, _, _, _) => exists k :: HasSymbol(inp, id, k)
  }

  lemma ExtractedNode(inp: Input, n: Node)
    ensures n in StructuralNodes(inp, SortedFiles(inp)) <==>
            (exists f :: f in inp.files && (IsSymbolNode(inp, f, n) || IsPackageNode(inp, f, n)))
  {
    FlatMapMember(SortedFiles(inp), f => FileNodes(inp, f), n);
    SortByOk(inp.files, FilePath);
    forall f ensures n in FileNodes(inp, f) <==> IsSymbolNode(inp, f, n) || IsPackageNode(inp, f, n) {
      FileNodeIff(inp, f, n);
    }
  }

  lemma BareIff(specifier: string)
    ensures IsBare(specifier) <==>
            !("./" <= specifier || "../" <= specifier || "@/" <= specifier || "~/" <= specifier || specifier == "~")
  {}

  lemma SymbolNodeIs(inp: Input, f: SourceFile, n: Node)
    requires f in inp.files && IsSymbolNode(inp, f, n)
    ensures n.id.SymbolId? && n.path == Some(n.id.path) && HasSymbol(inp, n.id, n.kind)
  {
    var s :| s in inp.sources[f.path].symbols && n == SymbolNode(f.path, s);
    assert Analysed(inp, f);
  }

  lemma PackageNodeIs(inp: Input, f: SourceFile, n: Node)
    requires f in inp.files && IsPackageNode(inp, f, n)
    ensures n.id.PackageId? && n.kind.Package? && n.path.Some? && HasPackage(inp, n.id, n.path.value)
  {
    var site :| site in inp.sources[f.path].imports && IsBare(site.specifier) && n == PackageNode(site.specifier);
    BareIff(site.specifier);
    assert Analysed(inp, f);
  }

  lemma BaseNodeIs(inp: Input, n: Node)
    requires ValidFiles(inp.files) && IsBaseNode(inp, n)
    ensures IsNodeOf(inp, n) && IsIdOf(inp, n.id)
  {
    if d :| d in Directories(inp.files) && n == DirNode(d) {
      DirectoryPaths(inp, d);
    }
    if f :| f in inp.files && n == FileNode(f) {
      FileKinds(f);
    }
  }

  /** The package node of the inventory is not replaced by an imported package. */
  lemma RootPackageKept(inp: Input, nodeName: NodeId -> string, n: Node)
    requires ValidFiles(inp.files) && n in Nodes(inp, nodeName) && n.id == PackageId(".")
    ensures n == Node(PackageId("."), Package, Some("package.json"))
  {
    var root := Node(PackageId("."), Package, Some("package.json"));
    InventoryNodesKept(inp, nodeName, root);
    NodesUniqueAndSorted(inp, nodeName);
    var nodes := Nodes(inp, nodeName);
    var i :| 0 <= i < |nodes| && nodes[i] == n;
    var j :| 0 <= j < |nodes| && nodes[j] == root;
    assert NodeKey(nodes[i]) == NodeKey(nodes[j]);
  }

  /**
   The nodes of a graph: the project, the package, every directory and file of the inventory
   with the kind of the file, every symbol found and every package imported; each id once.
   */
  lemma NodesAre(inp: Input, nodeName: NodeId -> string)
    requires ValidFiles(inp.files)
    ensures forall n :: n in Nodes(inp, nodeName) ==> IsNodeOf(inp, n)
    ensures forall id :: (exists n :: n in Nodes(inp, nodeName) && n.id == id) <==> IsIdOf(inp, id)
    ensures forall i, j :: 0 <= i < j < |Nodes(inp, nodeName)| ==> Nodes(inp, nodeName)[i].id != Nodes(inp, nodeName)[j].id
  {
    forall n | n in Nodes(inp, nodeName) ensures IsNodeOf(inp, n) && IsIdOf(inp, n.id) {
      NodeIs(inp, nodeName, n);
    }
    forall id | IsIdOf(inp, id) ensures exists n :: n in Nodes(inp, nodeName) && n.id == id {
      IdHasNode(inp, nodeName, id);
      var n :| n in Nodes(inp, nodeName) && NodeKey(n) == id;
    }
    NodesUniqueAndSorted(inp, nodeName);
    forall i, j | 0 <= i < j < |Nodes(inp, nodeName)| ensures Nodes(inp, nodeName)[i].id != Nodes(inp, nodeName)[j].id {
      assert NodeKey(Nodes(inp, nodeName)[i]) != NodeKey(Nodes(inp, nodeName)[j]);
    }
  }

  lemma NodeIs(inp: Input, nodeName: NodeId -> string, n: Node)
    requires ValidFiles(inp.files) && n in Nodes(inp, nodeName)
    ensures IsNodeOf(inp, n) && IsIdOf(inp, n.id)
  {
    NodesMerged(inp, nodeName, n);
    MergeSource(BaseNodesOf(inp), StructuralNodes(inp, SortedFiles(inp)), NodeKey, n);
    BaseNodeIff(inp, n);
    if IsBaseNode(inp, n) {
      BaseNodeIs(inp, n);
    } else {
      ExtractedNode(inp, n);
      var f :| f in inp.files && (IsSymbolNode(inp, f, n) || IsPackageNode(inp, f, n));
      if IsSymbolNode(inp, f, n) {
        SymbolNodeIs(inp, f, n);
      } else {
        PackageNodeIs(inp, f, n);
        if n.id == PackageId(".") {
          RootPackageKept(inp, nodeName, n);
        }
      }
    }
  }

  lemma IdHasNode(inp: Input, nodeName: NodeId -> string, id: NodeId)
    requires ValidFiles(inp.files) && IsIdOf(inp, id)
    ensures HasId(Nodes(inp, nodeName), NodeKey, id)
  {
    match id
    case ProjectId => InventoryIdsKept(inp, nodeName, id);
    case DirectoryId(d) =>
      DirectoryPaths(inp, d);
      InventoryIdsKept(inp, nodeName, id);
    case FileId(p) => InventoryIdsKept(inp, nodeName, id);
    case PackageId(d) =>
      if d == "." {
        InventoryIdsKept(inp, nodeName, id);
      } else {
        var s :| HasPackage(inp, id, s);
        PackageIdKept(inp, nodeName, id, s);
      }
    case SymbolId(p, _, _, _) =>
      var k :| HasSymbol(inp, id, k);
      var f, s :| Analysed(inp, f) && f.path == p && s in inp.sources[f.path].symbols
                  && s.exported == id.exported && s.name == id.name && s.startLine == id.startLine;
      SymbolIdKept(inp, nodeName, f, s);
  }

  lemma PackageIdKept(inp: Input, nodeName: NodeId -> string, id: NodeId, specifier: string)
    requires HasPackage(inp, id, specifier)
    ensures HasId(Nodes(inp, nodeName), NodeKey, id)
  {
    var f, site :| Analysed(inp, f) && site in inp.sources[f.path].imports && site.specifier == specifier;
    BareIff(specifier);
    assert IsPackageNode(inp, f, PackageNode(specifier));
    StructuralNodeKept(inp, nodeName, f, PackageNode(specifier));
  }
}
