/** The SQLite graph store refines the in-memory one on everything the builder puts. */
module GraphStoreAgreement {
  import opened Ordering
  import opened Snapshots
  import opened Paths
  import opened GraphStores

  ghost predicate Injective(name: Naming) {
    forall a, b, c, d :: name(a, b) == name(c, d) ==> a == c && b == d
  }

  ghost predicate ProperItems(xs: seq<Item>, id: string) {
    DistinctKeys(xs, ItemId) && forall x :: x in xs ==> x.snapshotId == id
  }

  /** What the builder puts: a normalised root, distinct ids, and items of this very snapshot. */
  ghost predicate Proper(name: Naming, p: PutInput) {
    && NormalizePath(p.root) == p.root
    && ProperItems(p.nodes, SnapshotId(name, p.root, p.inventoryId))
    && ProperItems(p.edges, SnapshotId(name, p.root, p.inventoryId))
  }

  // ---------------------------------------------------------------- inserting rows

  function Key(x: Item): (string, string) { (x.snapshotId, x.id) }

  ghost predicate NoClash(rows: Rows, xs: seq<Item>) {
    && (forall i, j :: 0 <= i < j < |xs| ==> Key(xs[i]) != Key(xs[j]))
    && (forall i :: 0 <= i < |xs| ==> Key(xs[i]) !in rows)
  }

  ghost predicate KeyAmong(xs: seq<Item>, k: (string, string)) {
    exists i :: 0 <= i < |xs| && k == Key(xs[i])
  }

  /** `r` is `rows` with the items added. */
  ghost predicate Extends(rows: Rows, xs: seq<Item>, r: Rows) {
    && (forall k :: k in r ==> k in rows || KeyAmong(xs, k))
    && (forall k :: k in rows ==> k in r && r[k] == rows[k])
    && (forall i :: 0 <= i < |xs| ==> Key(xs[i]) in r && r[Key(xs[i])] == xs[i])
  }

  lemma ExtendOne(rows: Rows, xs: seq<Item>, r: Rows, x: Item)
    requires Extends(rows, xs, r) && Key(x) !in rows && !KeyAmong(xs, Key(x))
    ensures Key(x) !in r && Extends(rows, xs + [x], r[Key(x) := x])
  {
    var all := xs + [x];
    assert all[|xs|] == x;
    forall k | KeyAmong(xs, k) ensures KeyAmong(all, k) {
      var i :| 0 <= i < |xs| && k == Key(xs[i]);
      assert all[i] == xs[i];
    }
  }

  lemma {:induction false} InsertIs(rows: Rows, xs: seq<Item>)
    requires NoClash(rows, xs)
    ensures InsertAll(rows, xs).1 && Extends(rows, xs, InsertAll(rows, xs).0)
  {
    if xs != [] {
      var n := |xs| - 1;
      InsertIs(rows, xs[..n]);
      ExtendOne(rows, xs[..n], InsertAll(rows, xs[..n]).0, xs[n]);
      assert xs == xs[..n] + [xs[n]];
    }
  }

  /** A batch of inserts fails exactly when two of its keys coincide or one is taken. */
  lemma {:induction false} InsertOkIff(rows: Rows, xs: seq<Item>)
    ensures InsertAll(rows, xs).1 <==> NoClash(rows, xs)
  {
    if xs != [] {
      var n := |xs| - 1;
      var init := xs[..n];
      InsertOkIff(rows, init);
      if NoClash(rows, xs) {
        InsertIs(rows, xs);
      }
      if InsertAll(rows, xs).1 {
        InsertIs(rows, init);
        forall i | 0 <= i < n ensures Key(xs[i]) != Key(xs[n]) {
          assert Key(init[i]) in InsertAll(rows, init).0;
        }
      }
    }
  }

  /** A put fails exactly when a primary key is taken once the old snapshot is gone, and then nothing changes. */
  lemma PutFailsIff(name: Naming, t: Tables, p: PutInput)
    ensures var id := SnapshotId(name, p.root, p.inventoryId);
      t.Put(name, p).1 <==> NoClash(DeleteSnapshot(t.nodes, id), p.nodes) && NoClash(DeleteSnapshot(t.edges, id), p.edges)
    ensures !t.Put(name, p).1 ==> t.Put(name, p).0 == t
  {
    var id := SnapshotId(name, p.root, p.inventoryId);
    InsertOkIff(DeleteSnapshot(t.nodes, id), p.nodes);
    InsertOkIff(DeleteSnapshot(t.edges, id), p.edges);
  }

  lemma ProperNoClash(rows: Rows, xs: seq<Item>, id: string)
    requires ProperItems(xs, id)
    ensures NoClash(DeleteSnapshot(rows, id), xs)
  {
    forall i | 0 <= i < |xs| ensures Key(xs[i]).0 == id {}
    forall i, j | 0 <= i < j < |xs| ensures Key(xs[i]) != Key(xs[j]) {
      assert ItemId(xs[i]) != ItemId(xs[j]);
    }
  }

  // ---------------------------------------------------------------- items agree

  /** The rows of a snapshot are the items of a list. */
  ghost predicate ItemsMatch(rows: Rows, id: string, xs: seq<Item>) {
    && ProperItems(xs, id)
    && (forall x :: x in xs ==> (id, x.id) in rows && rows[(id, x.id)] == x)
    && (forall k :: k in rows && k.0 == id ==> rows[k] in xs && rows[k].id == k.1)
  }

  lemma PutItemsMatch(rows: Rows, xs: seq<Item>, id: string)
    requires ProperItems(xs, id)
    ensures ItemsMatch(InsertAll(DeleteSnapshot(rows, id), xs).0, id, xs)
  {
    var kept := DeleteSnapshot(rows, id);
    ProperNoClash(rows, xs, id);
    InsertIs(kept, xs);
    var r := InsertAll(kept, xs).0;
    forall x | x in xs ensures (id, x.id) in r && r[(id, x.id)] == x {
      var i :| 0 <= i < |xs| && xs[i] == x;
      assert Key(xs[i]) == (id, x.id);
    }
    forall k | k in r && k.0 == id ensures r[k] in xs && r[k].id == k.1 {
      assert k !in kept;
      var i :| 0 <= i < |xs| && k == Key(xs[i]);
    }
  }

  lemma PutOthersMatch(rows: Rows, xs: seq<Item>, id: string, other: string, ys: seq<Item>)
    requires ProperItems(xs, id) && other != id && ItemsMatch(rows, other, ys)
    ensures ItemsMatch(InsertAll(DeleteSnapshot(rows, id), xs).0, other, ys)
  {
    var kept := DeleteSnapshot(rows, id);
    ProperNoClash(rows, xs, id);
    InsertIs(kept, xs);
    var r := InsertAll(kept, xs).0;
    forall i | 0 <= i < |xs| ensures Key(xs[i]).0 == id {}
    forall y | y in ys ensures (other, y.id) in r && r[(other, y.id)] == y {
      assert (other, y.id) in kept;
    }
    forall k | k in r && k.0 == other ensures r[k] in ys && r[k].id == k.1 {
      assert k in kept;
    }
  }

  /** Rows that match a list are listed as the list sorted by id. */
  lemma MatchedListing(rows: Rows, id: string, xs: seq<Item>)
    requires ItemsMatch(rows, id, xs)
    ensures RowsOf(rows, id) == SortBy(xs, ItemId)
  {
    var ids := SortedSet(IdsIn(rows, id));
    var listed := RowsOf(rows, id);
    SortedSetOk(IdsIn(rows, id));
    SortByOk(xs, ItemId);
    DistinctPermuted(xs, SortBy(xs, ItemId), ItemId);
    forall i | 0 <= i < |ids| ensures listed[i] in xs && listed[i].id == ids[i] {
      assert ids[i] in ids;
    }
    forall x | x in xs ensures x in listed {
      assert x.id in IdsIn(rows, id) by { assert (id, x.id) in rows; }
      var i :| 0 <= i < |ids| && ids[i] == x.id;
      assert listed[i] == rows[(id, x.id)];
    }
    forall i, j | 0 <= i < j < |listed| ensures Leq(ItemId(listed[i]), ItemId(listed[j])) && ItemId(listed[i]) != ItemId(listed[j]) {
      assert Leq(Self(ids[i]), Self(ids[j])) && Self(ids[i]) != Self(ids[j]);
    }
    SortedSameMembers(listed, SortBy(xs, ItemId), ItemId);
  }

  // ---------------------------------------------------------------- stores agree

  ghost predicate IsRow(t: Tables, root: string, s: Snapshot) {
    s.root == root && s.id in t.snapshots && t.snapshots[s.id] == s
  }

  ghost predicate HeadersAgree(name: Naming, m: Memory, t: Tables) {
    && (forall root :: UniqueIds(m.SnapshotsOf(root)))
    && (forall root, s :: s in m.SnapshotsOf(root) <==> IsRow(t, root, s))
    && (forall id :: id in t.snapshots ==>
          var s := t.snapshots[id];
          s.id == id && NormalizePath(s.root) == s.root && id == name(s.root, s.payload.inventorySnapshotId))
  }

  function ItemsOf(items: map<string, seq<Item>>, id: string): seq<Item> {
    if id in items then items[id] else []
  }

  ghost predicate Agree(name: Naming, m: Memory, t: Tables) {
    && HeadersAgree(name, m, t)
    && (forall id :: ItemsMatch(t.nodes, id, ItemsOf(m.nodes, id)))
    && (forall id :: ItemsMatch(t.edges, id, ItemsOf(m.edges, id)))
  }

  lemma SplicedUnique(xs: seq<Snapshot>, i: nat)
    requires UniqueIds(xs) && i < |xs|
    ensures UniqueIds(xs[..i] + xs[i + 1..])
  {
    var rest := xs[..i] + xs[i + 1..];
    forall j | 0 <= j < |rest| ensures rest[j] == xs[if j < i then j else j + 1] {}
  }

  lemma SplicedMembers(xs: seq<Snapshot>, i: nat)
    requires UniqueIds(xs) && i < |xs|
    ensures forall x :: x in xs[..i] + xs[i + 1..] <==> x in xs && x.id != xs[i].id
  {
    assert xs == xs[..i] + [xs[i]] + xs[i + 1..];
    assert forall x :: x in xs[..i] ==> x.id != xs[i].id;
    assert forall x :: x in xs[i + 1..] ==> x.id != xs[i].id;
  }

  lemma ReplacedIs(xs: seq<Snapshot>, s: Snapshot)
    requires UniqueIds(xs)
    ensures UniqueIds(Replaced(xs, s))
    ensures forall x :: x in Replaced(xs, s) <==> x == s || (x in xs && x.id != s.id)
  {
    var i := FirstWith(xs, s.id);
    if i < |xs| {
      SplicedUnique(xs, i);
      SplicedMembers(xs, i);
    }
  }

  lemma PutMember(name: Naming, m: Memory, t: Tables, p: PutInput, root: string, x: Snapshot)
    requires Injective(name) && HeadersAgree(name, m, t) && Proper(name, p) && t.Put(name, p).1
    ensures x in m.Put(name, p).SnapshotsOf(root) <==> IsRow(t.Put(name, p).0, root, x)
  {
    var s := HeaderOf(name, p);
    ReplacedIs(m.SnapshotsOf(p.root), s);
    assert x in m.SnapshotsOf(root) <==> IsRow(t, root, x);
    assert IsRow(t, root, x) && x.id == s.id ==> x.root == p.root;
  }

  lemma PutHeadersAgree(name: Naming, m: Memory, t: Tables, p: PutInput)
    requires Injective(name) && HeadersAgree(name, m, t) && Proper(name, p) && t.Put(name, p).1
    ensures HeadersAgree(name, m.Put(name, p), t.Put(name, p).0)
  {
    var m', t' := m.Put(name, p), t.Put(name, p).0;
    ReplacedIs(m.SnapshotsOf(p.root), HeaderOf(name, p));
    forall root ensures UniqueIds(m'.SnapshotsOf(root)) {
      assert UniqueIds(m.SnapshotsOf(root));
    }
    forall root, x ensures x in m'.SnapshotsOf(root) <==> IsRow(t', root, x) {
      PutMember(name, m, t, p, root, x);
    }
  }

  lemma PutAgrees(name: Naming, m: Memory, t: Tables, p: PutInput)
    requires Injective(name) && Agree(name, m, t) && Proper(name, p)
    ensures t.Put(name, p).1 && Agree(name, m.Put(name, p), t.Put(name, p).0)
  {
    var id := SnapshotId(name, p.root, p.inventoryId);
    ProperNoClash(t.nodes, p.nodes, id);
    ProperNoClash(t.edges, p.edges, id);
    PutFailsIff(name, t, p);
    PutHeadersAgree(name, m, t, p);
    var m', t' := m.Put(name, p), t.Put(name, p).0;
    forall x ensures ItemsMatch(t'.nodes, x, ItemsOf(m'.nodes, x)) {
      PutItemsMatch(t.nodes, p.nodes, id);
      if x != id { PutOthersMatch(t.nodes, p.nodes, id, x, ItemsOf(m.nodes, x)); }
    }
    forall x ensures ItemsMatch(t'.edges, x, ItemsOf(m'.edges, x)) {
      PutItemsMatch(t.edges, p.edges, id);
      if x != id { PutOthersMatch(t.edges, p.edges, id, x, ItemsOf(m.edges, x)); }
    }
  }

  function MemoryAfter(name: Naming, ps: seq<PutInput>): Memory {
    if ps == [] then NO_MEMORY else MemoryAfter(name, ps[..|ps| - 1]).Put(name, ps[|ps| - 1])
  }

  function TablesAfter(name: Naming, ps: seq<PutInput>): Tables {
    if ps == [] then NO_TABLES else TablesAfter(name, ps[..|ps| - 1]).Put(name, ps[|ps| - 1]).0
  }

  /** Over every sequence of proper puts, SQLite never fails and the stores agree. */
  lemma {:induction false} StoresAgree(name: Naming, ps: seq<PutInput>)
    requires Injective(name) && forall p :: p in ps ==> Proper(name, p)
    ensures Agree(name, MemoryAfter(name, ps), TablesAfter(name, ps))
    ensures ps != [] ==> TablesAfter(name, ps[..|ps| - 1]).Put(name, ps[|ps| - 1]).1
  {
    if ps != [] {
      var n := |ps| - 1;
      StoresAgree(name, ps[..n]);
      assert ps[n] in ps;
      PutAgrees(name, MemoryAfter(name, ps[..n]), TablesAfter(name, ps[..n]), ps[n]);
    }
  }

  // ---------------------------------------------------------------- answers

  lemma SameList(name: Naming, m: Memory, t: Tables, root: string)
    requires HeadersAgree(name, m, t)
    ensures m.List(root) == t.List(root)
  {
    forall s ensures s in m.SnapshotsOf(root) <==> s.root == root && s.id in t.snapshots && t.snapshots[s.id] == s {
      assert s in m.SnapshotsOf(root) <==> IsRow(t, root, s);
    }
    SameAsTable(m.SnapshotsOf(root), t.snapshots, root);
  }

  lemma SameGet(name: Naming, m: Memory, t: Tables, root: string, inventoryId: string)
    requires Injective(name) && HeadersAgree(name, m, t) && NormalizePath(root) == root
    ensures m.Get(name, root, inventoryId) == t.Get(name, root, inventoryId)
  {
    var id := SnapshotId(name, root, inventoryId);
    var xs := m.SnapshotsOf(root);
    var i := FirstWith(xs, id);
    if i < |xs| {
      assert xs[i] in xs;
      assert IsRow(t, root, xs[i]);
    }
    if id in t.snapshots {
      assert t.snapshots[id].root == root;
      assert IsRow(t, root, t.snapshots[id]);
    }
  }

  /** Stores that agree give the same answers. */
  lemma SameAnswers(name: Naming, m: Memory, t: Tables, root: string, inventoryId: string, id: string)
    requires Injective(name) && Agree(name, m, t) && NormalizePath(root) == root
    ensures m.List(root) == t.List(root)
    ensures m.Get(name, root, inventoryId) == t.Get(name, root, inventoryId)
    ensures m.ListNodes(id) == t.ListNodes(id) && m.ListEdges(id) == t.ListEdges(id)
  {
    SameList(name, m, t, root);
    SameGet(name, m, t, root, inventoryId);
    assert ItemsMatch(t.nodes, id, ItemsOf(m.nodes, id)) && ItemsMatch(t.edges, id, ItemsOf(m.edges, id));
    MatchedListing(t.nodes, id, ItemsOf(m.nodes, id));
    MatchedListing(t.edges, id, ItemsOf(m.edges, id));
  }

  /** A put replaces what its key had, header, nodes and edges, and leaves every other key alone. */
  lemma PutReplaces(name: Naming, t: Tables, p: PutInput, root: string, inventoryId: string)
    requires Injective(name) && Proper(name, p) && t.Put(name, p).1 && NormalizePath(root) == root
    ensures var t' := t.Put(name, p).0;
      var id := SnapshotId(name, root, inventoryId);
      if root == p.root && inventoryId == p.inventoryId then
        && t'.Get(name, root, inventoryId) == [HeaderOf(name, p)]
        && t'.ListNodes(id) == SortBy(p.nodes, ItemId) && t'.ListEdges(id) == SortBy(p.edges, ItemId)
      else
        && t'.Get(name, root, inventoryId) == t.Get(name, root, inventoryId)
        && t'.ListNodes(id) == t.ListNodes(id) && t'.ListEdges(id) == t.ListEdges(id)
  {
    var id, put := SnapshotId(name, root, inventoryId), SnapshotId(name, p.root, p.inventoryId);
    PutItemsMatch(t.nodes, p.nodes, put);
    PutItemsMatch(t.edges, p.edges, put);
    if id == put {
      MatchedListing(t.Put(name, p).0.nodes, id, p.nodes);
      MatchedListing(t.Put(name, p).0.edges, id, p.edges);
    } else {
      OtherRowsKept(t.nodes, p.nodes, put, id);
      OtherRowsKept(t.edges, p.edges, put, id);
    }
  }

  lemma OtherRowsKept(rows: Rows, xs: seq<Item>, id: string, other: string)
    requires ProperItems(xs, id) && other != id
    ensures RowsOf(InsertAll(DeleteSnapshot(rows, id), xs).0, other) == RowsOf(rows, other)
  {
    var kept := DeleteSnapshot(rows, id);
    ProperNoClash(rows, xs, id);
    InsertIs(kept, xs);
    var r := InsertAll(kept, xs).0;
    forall i | 0 <= i < |xs| ensures Key(xs[i]).0 == id {}
    forall k: (string, string) | k.0 == other ensures k in r <==> k in rows {
      if k in rows { assert k in kept; }
    }
    assert IdsIn(r, other) == IdsIn(rows, other);
    var ids := SortedSet(IdsIn(rows, other));
    forall i | 0 <= i < |ids| ensures RowsOf(r, other)[i] == RowsOf(rows, other)[i] {
      assert ids[i] in ids;
      assert (other, ids[i]) in kept;
    }
  }
}
