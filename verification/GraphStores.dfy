/**
 The two graph stores.  A put replaces what was stored under the same root and inventory
 snapshot; in SQLite it is a transaction.
 */
module GraphStores {
  import opened Ordering
  import opened Snapshots
  import opened Paths

  /** A node or an edge; the store looks only at its id and the snapshot it claims to belong to. */
  datatype Item = Item(id: string, snapshotId: string, body: string)

  datatype Sizes = Sizes(inventorySnapshotId: string, nodeCount: nat, edgeCount: nat)

  type Snapshot = Header<Sizes>

  datatype PutInput = PutInput(root: string, inventoryId: string, createdAt: string, nodes: seq<Item>, edges: seq<Item>)

  /** How a normalised root and an inventory id make a snapshot id. */
  type Naming = (string, string) -> string

  function SnapshotId(name: Naming, root: string, inventoryId: string): string {
    name(NormalizePath(root), inventoryId)
  }

  function HeaderOf(name: Naming, p: PutInput): Snapshot {
    Header(SnapshotId(name, p.root, p.inventoryId), p.root, p.createdAt, Sizes(p.inventoryId, |p.nodes|, |p.edges|))
  }

  function ItemId(x: Item): string { x.id }

  // ---------------------------------------------------------------- in memory

  /** The position of the first snapshot with an id, or the length. */
  function FirstWith(xs: seq<Snapshot>, id: string): (i: nat)
    ensures i <= |xs| && (i < |xs| ==> xs[i].id == id) && forall j :: 0 <= j < i ==> xs[j].id != id
  {
    if xs == [] then 0
    else if xs[0].id == id then 0
    else 1 + FirstWith(xs[1..], id)
  }

  function Replaced(xs: seq<Snapshot>, s: Snapshot): seq<Snapshot> {
    var i := FirstWith(xs, s.id);
    (if i < |xs| then xs[..i] + xs[i + 1..] else xs) + [s]
  }

  datatype Memory = Memory(snapshots: map<string, seq<Snapshot>>, nodes: map<string, seq<Item>>, edges: map<string, seq<Item>>) {
    function SnapshotsOf(root: string): seq<Snapshot> {
      if root in snapshots then snapshots[root] else []
    }

    function Put(name: Naming, p: PutInput): Memory {
      var s := HeaderOf(name, p);
      Memory(snapshots[p.root := Replaced(SnapshotsOf(p.root), s)], nodes[s.id := p.nodes], edges[s.id := p.edges])
    }

    function List(root: string): seq<Snapshot> { Arrange(SnapshotsOf(root)) }

    function Get(name: Naming, root: string, inventoryId: string): seq<Snapshot> {
      var xs := SnapshotsOf(root);
      var i := FirstWith(xs, SnapshotId(name, root, inventoryId));
      if i < |xs| then [xs[i]] else []
    }

    function ListNodes(id: string): seq<Item> { if id in nodes then SortBy(nodes[id], ItemId) else [] }

    function ListEdges(id: string): seq<Item> { if id in edges then SortBy(edges[id], ItemId) else [] }
  }

  const NO_MEMORY := Memory(map[], map[], map[])

  // ---------------------------------------------------------------- in tables

  /** Rows under the primary key of snapshot id and item id. */
  type Rows = map<(string, string), Item>

  function DeleteSnapshot(rows: Rows, id: string): Rows {
    map k | k in rows && k.0 != id :: rows[k]
  }

  /** Insert in order until a primary key is taken. */
  function InsertAll(rows: Rows, xs: seq<Item>): (Rows, bool) {
    if xs == [] then (rows, true)
    else
      var (before, ok) := InsertAll(rows, xs[..|xs| - 1]);
      var x := xs[|xs| - 1];
      if !ok || (x.snapshotId, x.id) in before then (before, false)
      else (before[(x.snapshotId, x.id) := x], true)
  }

  function IdsIn(rows: Rows, id: string): set<string> {
    set k | k in rows && k.0 == id :: k.1
  }

  /** The rows of a snapshot, ordered by id. */
  function RowsOf(rows: Rows, id: string): seq<Item> {
    var ids := SortedSet(IdsIn(rows, id));
    seq(|ids|, i requires 0 <= i < |ids| => assert ids[i] in ids; rows[(id, ids[i])])
  }

  datatype Tables = Tables(snapshots: map<string, Snapshot>, nodes: Rows, edges: Rows) {
    /** A transaction: if an insert fails, the tables stay as they were. */
    function Put(name: Naming, p: PutInput): (Tables, bool) {
      var s := HeaderOf(name, p);
      var (ns, nodesOk) := InsertAll(DeleteSnapshot(nodes, s.id), p.nodes);
      var (es, edgesOk) := InsertAll(DeleteSnapshot(edges, s.id), p.edges);
      if nodesOk && edgesOk then (Tables(snapshots[s.id := s], ns, es), true) else (this, false)
    }

    function List(root: string): seq<Snapshot> { Arrange(RowsFor(snapshots, root)) }

    function Get(name: Naming, root: string, inventoryId: string): seq<Snapshot> {
      var id := SnapshotId(name, root, inventoryId);
      if id in snapshots then [snapshots[id]] else []
    }

    function ListNodes(id: string): seq<Item> { RowsOf(nodes, id) }

    function ListEdges(id: string): seq<Item> { RowsOf(edges, id) }
  }

  const NO_TABLES := Tables(map[], map[], map[])

  // ---------------------------------------------------------------- the stores as objects

  class InMemoryGraphStore {
    var snapshots: map<string, seq<Snapshot>>
    var nodes: map<string, seq<Item>>
    var edges: map<string, seq<Item>>

    constructor ()
      ensures State() == NO_MEMORY
    {
      snapshots, nodes, edges := map[], map[], map[];
    }

    function State(): Memory
      reads this
    {
      Memory(snapshots, nodes, edges)
    }

    method PutGraphSnapshot(name: Naming, p: PutInput) returns (header: Snapshot)
      modifies this
      ensures header == HeaderOf(name, p)
      ensures State() == old(State()).Put(name, p)
    {
      header := HeaderOf(name, p);
      var list := State().SnapshotsOf(p.root);
      var i := FindIndex(list, header.id);
      if i < |list| {
        list := list[..i] + list[i + 1..];
      }
      snapshots := snapshots[p.root := list + [header]];
      nodes := nodes[header.id := p.nodes];
      edges := edges[header.id := p.edges];
    }
  }

  method FindIndex(xs: seq<Snapshot>, id: string) returns (i: nat)
    ensures i == FirstWith(xs, id)
  {
    i := 0;
    while i < |xs| && xs[i].id != id
      invariant 0 <= i <= |xs|
      invariant forall j :: 0 <= j < i ==> xs[j].id != id
    {
      i := i + 1;
    }
  }

  lemma InsertSnoc(rows: Rows, xs: seq<Item>, i: nat)
    requires i < |xs|
    ensures var (before, ok) := InsertAll(rows, xs[..i]);
      InsertAll(rows, xs[..i + 1]) ==
        if !ok || (xs[i].snapshotId, xs[i].id) in before then (before, false)
        else (before[(xs[i].snapshotId, xs[i].id) := xs[i]], true)
  {
    assert xs[..i + 1][..i] == xs[..i];
  }

  /** Once an insert has failed, the batch has failed. */
  lemma {:induction false} InsertFails(rows: Rows, xs: seq<Item>, i: nat)
    requires i <= |xs| && !InsertAll(rows, xs[..i]).1
    ensures !InsertAll(rows, xs).1
    decreases |xs| - i
  {
    if i < |xs| {
      InsertSnoc(rows, xs, i);
      InsertFails(rows, xs, i + 1);
    } else {
      assert xs[..i] == xs;
    }
  }

  method InsertRows(rows: Rows, xs: seq<Item>) returns (rows': Rows, ok: bool)
    ensures ok == InsertAll(rows, xs).1
    ensures ok ==> rows' == InsertAll(rows, xs).0
  {
    rows', ok := rows, true;
    var i := 0;
    while i < |xs|
      invariant 0 <= i <= |xs|
      invariant InsertAll(rows, xs[..i]) == (rows', true)
    {
      InsertSnoc(rows, xs, i);
      if (xs[i].snapshotId, xs[i].id) in rows' {
        InsertFails(rows, xs, i + 1);
        return rows', false;
      }
      rows' := rows'[(xs[i].snapshotId, xs[i].id) := xs[i]];
      i := i + 1;
    }
    assert xs[..i] == xs;
  }

  class SqliteGraphStore {
    var db: Tables

    constructor ()
      ensures db == NO_TABLES
    {
      db := NO_TABLES;
    }

    method PutGraphSnapshot(name: Naming, p: PutInput) returns (ok: bool)
      modifies this
      ensures (db, ok) == old(db).Put(name, p)
    {
      var begun := db;
      var header := HeaderOf(name, p);
      db := db.(snapshots := (db.snapshots - {header.id})[header.id := header]);
      db := db.(nodes := DeleteSnapshot(db.nodes, header.id), edges := DeleteSnapshot(db.edges, header.id));
      assert db.snapshots == begun.snapshots[header.id := header];
      var rows, inserted := InsertRows(db.nodes, p.nodes);
      if !inserted {
        db := begun;
        return false;
      }
      db := db.(nodes := rows);
      rows, inserted := InsertRows(db.edges, p.edges);
      if !inserted {
        db := begun;
        return false;
      }
      db := db.(edges := rows);
      return true;
    }
  }
}
