/**
 What the stores answer, spelled out: the order and the contents of every listing, and
 what one persisted scan or one put graph leaves behind.
 */
module StoreListings {
  import opened Ordering
  import opened Snapshots
  import opened Walk
  import opened Inventory
  import opened Paths
  import IA = InventoryAgreement
  import G = GraphStores
  import GA = GraphStoreAgreement

  // ---------------------------------------------------------------- snapshot listings

  /** Both inventory stores list the newest snapshot first and, of equally new ones, the one with the smallest id. */
  lemma InventoryNewestFirst(m: Memory, t: Tables, root: string)
    ensures var l := m.ListSnapshots(root);
      && multiset(l) == multiset(m.SnapshotsOf(root))
      && forall i, j :: 0 <= i < j < |l| ==>
           Leq(l[j].createdAt, l[i].createdAt) && (l[i].createdAt == l[j].createdAt ==> Leq(l[i].id, l[j].id))
    ensures var l := t.ListSnapshots(root);
      && (forall s :: s in l <==> s.root == root && exists id :: id in t.snapshots && t.snapshots[id] == s)
      && forall i, j :: 0 <= i < j < |l| ==>
           Leq(l[j].createdAt, l[i].createdAt) && (l[i].createdAt == l[j].createdAt ==> Leq(l[i].id, l[j].id))
  {
    NewestFirst(m.SnapshotsOf(root));
    ArrangePermutes(m.SnapshotsOf(root));
    assert t.ListSnapshots(root) == Arrange(RowsFor(t.snapshots, root));
    NewestFirst(RowsFor(t.snapshots, root));
    TableRows(t.snapshots, root);
  }

  /** Both graph stores do. */
  lemma GraphNewestFirst(m: G.Memory, t: G.Tables, root: string)
    ensures var l := m.List(root);
      && multiset(l) == multiset(m.SnapshotsOf(root))
      && forall i, j :: 0 <= i < j < |l| ==>
           Leq(l[j].createdAt, l[i].createdAt) && (l[i].createdAt == l[j].createdAt ==> Leq(l[i].id, l[j].id))
    ensures var l := t.List(root);
      && (forall s :: s in l <==> s.root == root && exists id :: id in t.snapshots && t.snapshots[id] == s)
      && forall i, j :: 0 <= i < j < |l| ==>
           Leq(l[j].createdAt, l[i].createdAt) && (l[i].createdAt == l[j].createdAt ==> Leq(l[i].id, l[j].id))
  {
    NewestFirst(m.SnapshotsOf(root));
    ArrangePermutes(m.SnapshotsOf(root));
    assert t.List(root) == Arrange(RowsFor(t.snapshots, root));
    NewestFirst(RowsFor(t.snapshots, root));
    TableRows(t.snapshots, root);
  }

  lemma TableRows<P(!new)>(table: map<string, Header<P>>, root: string)
    ensures forall s :: s in Arrange(RowsFor(table, root)) <==> s.root == root && exists id :: id in table && table[id] == s
  {
    ArrangeOk(RowsFor(table, root));
    forall s ensures s in RowsFor(table, root) <==> s.root == root && exists id :: id in table && table[id] == s {
      RowsFromAre(table, SortedSet(table.Keys), root, s);
    }
  }

  // ---------------------------------------------------------------- the inventory

  /** Records are stored under their own paths. */
  ghost predicate OwnPaths(m: Index) {
    forall p :: p in m ==> m[p].path == p
  }

  lemma {:induction false} UpsertOwnPaths(m: Index, fs: seq<FileRecord>)
    requires OwnPaths(m)
    ensures OwnPaths(UpsertAll(m, fs))
  {
    if fs != [] {
      UpsertOwnPaths(m, fs[..|fs| - 1]);
    }
  }

  lemma OpOwnPaths(m: Memory, op: Op)
    requires forall root :: OwnPaths(m.FilesOf(root))
    ensures forall root :: OwnPaths(InMemory(m, op).FilesOf(root))
  {
    forall root ensures OwnPaths(InMemory(m, op).FilesOf(root)) {
      assert OwnPaths(m.FilesOf(root));
      match op
      case Upsert(_, fs) => UpsertOwnPaths(m.FilesOf(root), fs);
      case Persist(_, r) => UpsertOwnPaths(m.FilesOf(root), r.files);
      case _ =>
    }
  }

  lemma {:induction false} StoredOwnPaths(ops: seq<Op>)
    ensures forall root :: OwnPaths(IA.MemoryAfter(ops).FilesOf(root))
  {
    if ops != [] {
      var n := |ops| - 1;
      StoredOwnPaths(ops[..n]);
      OpOwnPaths(IA.MemoryAfter(ops[..n]), ops[n]);
    }
  }

  /** After any operations the files of a root are listed in path order, each stored record once and nothing else. */
  lemma FilesListed(ops: seq<Op>, root: string)
    ensures var m := IA.MemoryAfter(ops); var l := m.ListFiles(root);
      && (forall f :: f in l <==> f.path in m.FilesOf(root) && m.FilesOf(root)[f.path] == f)
      && forall i, j :: 0 <= i < j < |l| ==> Leq(l[i].path, l[j].path) && l[i].path != l[j].path
  {
    var files := IA.MemoryAfter(ops).FilesOf(root);
    var ks := SortedSet(files.Keys);
    var l := ByPath(files);
    StoredOwnPaths(ops);
    SortedSetOk(files.Keys);
    forall i | 0 <= i < |l| ensures l[i] == files[ks[i]] && l[i].path == ks[i] { assert ks[i] in ks; }
    forall i, j | 0 <= i < j < |l| ensures Leq(l[i].path, l[j].path) && l[i].path != l[j].path {
      assert Self(ks[i]) != Self(ks[j]);
      assert Leq(Self(ks[i]), Self(ks[j]));
    }
    forall f: FileRecord | f.path in files && files[f.path] == f ensures f in l {
      assert f.path in ks;
      var i :| 0 <= i < |ks| && ks[i] == f.path;
      assert l[i] == f;
    }
  }

  /** Position `i` holds the last record of the path. */
  ghost predicate LastAt(fs: seq<FileRecord>, i: nat, p: string) {
    i < |fs| && fs[i].path == p && forall j :: i < j < |fs| ==> fs[j].path != p
  }

  lemma {:induction false} UpsertAt(m: Index, fs: seq<FileRecord>, p: string)
    ensures forall i: nat :: LastAt(fs, i, p) ==>
              && (p in UpsertAll(m, fs) <==> !fs[i].ignored)
              && (p in UpsertAll(m, fs) ==> UpsertAll(m, fs)[p] == fs[i])
    ensures (forall i :: 0 <= i < |fs| ==> fs[i].path != p) ==>
              && (p in UpsertAll(m, fs) <==> p in m)
              && (p in m ==> UpsertAll(m, fs)[p] == m[p])
  {
    if fs != [] {
      var n := |fs| - 1;
      UpsertAt(m, fs[..n], p);
      forall i: nat | LastAt(fs, i, p) && i < n ensures LastAt(fs[..n], i, p) {}
    }
  }

  /**
   What persisting a scan leaves in memory: the snapshot with its counts behind the
   earlier ones of its root, the errors behind the earlier ones of its id, the last record
   of each listed path unless it is ignored or the path was deleted, and all else as it was.
   */
  lemma PersistsAll(m: Memory, root: string, r: ScanResult)
    ensures var m' := m.Persist(root, r);
      && m'.SnapshotsOf(root) == m.SnapshotsOf(root) + [Header(r.id, root, r.createdAt,
           Counts(|r.files| + |r.ignored|, |r.files|, |r.ignored|, |r.deleted|, |r.changed|))]
      && m'.ErrorsOf(r.id) == m.ErrorsOf(r.id) + r.errors
      && (forall p, i: nat :: LastAt(r.files, i, p) ==>
            && (p in m'.FilesOf(root) <==> p !in r.deleted && !r.files[i].ignored)
            && (p in m'.FilesOf(root) ==> m'.FilesOf(root)[p] == r.files[i]))
      && (forall p :: (forall i :: 0 <= i < |r.files| ==> r.files[i].path != p) ==>
            && (p in m'.FilesOf(root) <==> p !in r.deleted && p in m.FilesOf(root))
            && (p in m'.FilesOf(root) ==> m'.FilesOf(root)[p] == m.FilesOf(root)[p]))
    ensures var m' := m.Persist(root, r);
      && (forall q :: q != root ==> m'.SnapshotsOf(q) == m.SnapshotsOf(q) && m'.FilesOf(q) == m.FilesOf(q))
      && (forall id :: id != r.id ==> m'.ErrorsOf(id) == m.ErrorsOf(id))
  {
    var before, after := m.FilesOf(root), m.Persist(root, r).FilesOf(root);
    assert after == RemoveAll(UpsertAll(before, r.files), r.deleted);
    forall p
      ensures forall i: nat :: LastAt(r.files, i, p) ==>
                && (p in after <==> p !in r.deleted && !r.files[i].ignored)
                && (p in after ==> after[p] == r.files[i])
      ensures (forall i :: 0 <= i < |r.files| ==> r.files[i].path != p) ==>
                && (p in after <==> p !in r.deleted && p in before)
                && (p in after ==> after[p] == before[p])
    {
      UpsertAt(before, r.files, p);
    }
  }

  // ---------------------------------------------------------------- the graph store

  /**
   What a put leaves in the tables: the header of its key, with the counts, and its nodes
   and edges in the order of their ids.
   */
  lemma PutLeaves(name: G.Naming, t: G.Tables, p: G.PutInput)
    requires GA.Injective(name) && GA.Proper(name, p) && t.Put(name, p).1
    ensures var t', id := t.Put(name, p).0, name(p.root, p.inventoryId);
      && t'.Get(name, p.root, p.inventoryId) ==
           [Header(id, p.root, p.createdAt, G.Sizes(p.inventoryId, |p.nodes|, |p.edges|))]
      && multiset(t'.ListNodes(id)) == multiset(p.nodes) && multiset(t'.ListEdges(id)) == multiset(p.edges)
      && (forall i, j :: 0 <= i < j < |p.nodes| ==> |t'.ListNodes(id)| == |p.nodes| && Leq(t'.ListNodes(id)[i].id, t'.ListNodes(id)[j].id))
      && (forall i, j :: 0 <= i < j < |p.edges| ==> |t'.ListEdges(id)| == |p.edges| && Leq(t'.ListEdges(id)[i].id, t'.ListEdges(id)[j].id))
  {
    var t', id := t.Put(name, p).0, name(p.root, p.inventoryId);
    GA.PutReplaces(name, t, p, p.root, p.inventoryId);
    SortByOk(p.nodes, G.ItemId);
    SortByOk(p.edges, G.ItemId);
    forall i, j | 0 <= i < j < |p.nodes| ensures Leq(t'.ListNodes(id)[i].id, t'.ListNodes(id)[j].id) {
      assert Leq(G.ItemId(t'.ListNodes(id)[i]), G.ItemId(t'.ListNodes(id)[j]));
    }
    forall i, j | 0 <= i < j < |p.edges| ensures Leq(t'.ListEdges(id)[i].id, t'.ListEdges(id)[j].id) {
      assert Leq(G.ItemId(t'.ListEdges(id)[i]), G.ItemId(t'.ListEdges(id)[j]));
    }
  }

  /**
   Roots have to be normalised: `r` and `r/` have one key in the tables and two lists in
   memory.  After an empty graph was put under each, memory lists both and SQLite the second.
   */
  lemma SlashedRootDiffers(name: G.Naming, r: string, inventoryId: string, at: string)
    requires Tidy(r)
    ensures var a, b := G.PutInput(r, inventoryId, at, [], []), G.PutInput(r + "/", inventoryId, at, [], []);
      var t := G.NO_TABLES.Put(name, a).0.Put(name, b);
      && t.1 && t.0.List(r) == [] && |t.0.List(r + "/")| == 1
      && var m := G.NO_MEMORY.Put(name, a).Put(name, b);
      |m.List(r)| == 1 && |m.List(r + "/")| == 1
  {
    var a, b := G.PutInput(r, inventoryId, at, [], []), G.PutInput(r + "/", inventoryId, at, [], []);
    TidyNormal(r);
    TidySlashNormal(r);
    var id := name(r, inventoryId);
    var t1 := G.NO_TABLES.Put(name, a).0;
    var t2 := t1.Put(name, b).0;
    assert t2.snapshots == map[id := G.HeaderOf(name, b)];
    OneRow(t2.snapshots, id, r);
    OneRow(t2.snapshots, id, r + "/");
    ArrangePermutes([t2.snapshots[id]]);
    assert |multiset(Arrange([t2.snapshots[id]]))| == 1;
    var m := G.NO_MEMORY.Put(name, a).Put(name, b);
    assert m.SnapshotsOf(r) == [G.HeaderOf(name, a)] && m.SnapshotsOf(r + "/") == [G.HeaderOf(name, b)];
    ArrangePermutes(m.SnapshotsOf(r));
    ArrangePermutes(m.SnapshotsOf(r + "/"));
    assert |multiset(m.List(r))| == 1 && |multiset(m.List(r + "/"))| == 1;
  }

  lemma OneRow<P>(table: map<string, Header<P>>, id: string, root: string)
    requires table.Keys == {id}
    ensures RowsFor(table, root) == if table[id].root == root then [table[id]] else []
  {
    var none: set<string> := {};
    assert {id} - {id} == none;
    assert SortedSet({id}) == [id];
    assert RowsFrom(table, [id][..0], root) == [];
  }
}
