/** Nodes and edges of the repository graph.  Ids are values; their printed form is a parameter where it matters. */
module Graph {
  import opened Wrappers

  datatype NodeKind =
    | Project | Package | Directory | File | Test | Doc | Config
    | Symbol | Function | Class | Interface | TypeAlias | Enum

  datatype NodeId =
    | ProjectId
    | PackageId(dir: string)
    | DirectoryId(path: string)
    | FileId(path: string)
    | SymbolId(path: string, exported: bool, name: string, startLine: nat)

  datatype EdgeKind = CONTAINS | DEFINES | EXPORTS | IMPORTS | DEPENDS_ON | TESTS

  /** Import edges are identified by their specifier, all others by their end points. */
  datatype EdgeId =
    | EdgeId(kind: EdgeKind, from: NodeId, to: NodeId)
    | ImportEdgeId(importer: NodeId, specifier: string)

  datatype Node = Node(id: NodeId, kind: NodeKind, path: Option<string>)

  datatype Edge = Edge(id: EdgeId, kind: EdgeKind, from: NodeId, to: NodeId)

  predicate IsFileLike(k: NodeKind) {
    k.File? || k.Test? || k.Doc? || k.Config?
  }

  predicate IsReverseDependency(k: EdgeKind) {
    k.DEPENDS_ON? || k.IMPORTS?
  }

  /** An absent path and an empty path both count as no path. */
  predicate HasPath(n: Node) {
    n.path.Some? && n.path.value != ""
  }
}
