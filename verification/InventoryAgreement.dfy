/** The SQLite inventory store refines the in-memory one as long as no snapshot id is reused. */
module InventoryAgreement {
  import opened Ordering
  import opened Snapshots
  import opened Walk
  import opened Inventory

  ghost predicate FilesAgree(m: Memory, t: Tables) {
    forall root :: m.FilesOf(root) == t.FilesOf(root)
  }

  ghost predicate IsRow(t: Tables, root: string, s: Snapshot) {
    s.root == root && s.id in t.snapshots && t.snapshots[s.id] == s
  }

  ghost predicate SnapshotsAgree(m: Memory, t: Tables) {
    && (forall root :: UniqueIds(m.SnapshotsOf(root)))
    && (forall root, s :: s in m.SnapshotsOf(root) <==> IsRow(t, root, s))
    && (forall id :: id in t.snapshots ==> t.snapshots[id].id == id)
  }

  /** The rows of a snapshot are numbered from zero without gaps. */
  ghost predicate ErrorsMatch(t: Tables, id: string, es: seq<ScanError>) {
    && (forall i: nat :: (id, i) in t.errors <==> i < |es|)
    && (forall i: nat :: i < |es| ==> t.errors[(id, i)] == es[i])
  }

  ghost predicate ErrorsAgree(m: Memory, t: Tables) {
    forall id :: ErrorsMatch(t, id, m.ErrorsOf(id))
  }

  ghost predicate Agree(m: Memory, t: Tables) {
    FilesAgree(m, t) && SnapshotsAgree(m, t) && ErrorsAgree(m, t)
  }

  // ---------------------------------------------------------------- files

  lemma UpsertOneAgrees(t: Tables, root: string, f: FileRecord, other: string)
    ensures t.UpsertOne(root, f).FilesOf(other) == if other == root then UpsertOne(t.FilesOf(root), f) else t.FilesOf(other)
  {}

  lemma {:induction false} UpsertAgrees(t: Tables, root: string, fs: seq<FileRecord>, other: string)
    ensures t.Upsert(root, fs).FilesOf(other) == if other == root then UpsertAll(t.FilesOf(root), fs) else t.FilesOf(other)
    ensures t.Upsert(root, fs).snapshots == t.snapshots && t.Upsert(root, fs).errors == t.errors
  {
    if fs != [] {
      var n := |fs| - 1;
      UpsertAgrees(t, root, fs[..n], other);
      UpsertAgrees(t, root, fs[..n], root);
      UpsertOneAgrees(t.Upsert(root, fs[..n]), root, fs[n], other);
    }
  }

  lemma RemoveAgrees(t: Tables, root: string, paths: seq<string>, other: string)
    ensures t.Remove(root, paths).FilesOf(other) == if other == root then RemoveAll(t.FilesOf(root), paths) else t.FilesOf(other)
  {}

  lemma UpsertKeeps(m: Memory, t: Tables, root: string, fs: seq<FileRecord>)
    requires Agree(m, t)
    ensures Agree(m.Upsert(root, fs), t.Upsert(root, fs))
  {
    var m', t' := m.Upsert(root, fs), t.Upsert(root, fs);
    forall other ensures m'.FilesOf(other) == t'.FilesOf(other) {
      UpsertAgrees(t, root, fs, other);
    }
    UpsertAgrees(t, root, fs, root);
    OthersKept(m, t, m', t');
  }

  lemma RemoveKeeps(m: Memory, t: Tables, root: string, paths: seq<string>)
    requires Agree(m, t)
    ensures Agree(m.Remove(root, paths), t.Remove(root, paths))
  {
    var m', t' := m.Remove(root, paths), t.Remove(root, paths);
    forall other ensures m'.FilesOf(other) == t'.FilesOf(other) {
      RemoveAgrees(t, root, paths, other);
      assert m.FilesOf(other) == t.FilesOf(other);
    }
    OthersKept(m, t, m', t');
  }

  /** Agreement on snapshots and errors does not depend on files. */
  lemma OthersKept(m: Memory, t: Tables, m': Memory, t': Tables)
    requires SnapshotsAgree(m, t) && ErrorsAgree(m, t)
    requires m'.snapshots == m.snapshots && m'.errors == m.errors && t'.snapshots == t.snapshots && t'.errors == t.errors
    ensures SnapshotsAgree(m', t') && ErrorsAgree(m', t')
  {
    forall id ensures ErrorsMatch(t', id, m'.ErrorsOf(id)) {
      assert ErrorsMatch(t, id, m.ErrorsOf(id));
    }
    forall root ensures UniqueIds(m'.SnapshotsOf(root)) {
      assert UniqueIds(m.SnapshotsOf(root));
    }
    forall root, s ensures s in m'.SnapshotsOf(root) <==> IsRow(t', root, s) {
      assert s in m.SnapshotsOf(root) <==> IsRow(t, root, s);
    }
  }

  // ---------------------------------------------------------------- snapshots

  lemma CreateKeeps(m: Memory, t: Tables, s: Snapshot)
    requires Agree(m, t) && s.id !in t.snapshots
    ensures Agree(m.Create(s), t.WithSnapshot(s))
  {
    var m', t' := m.Create(s), t.WithSnapshot(s);
    forall root ensures UniqueIds(m'.SnapshotsOf(root)) {
      assert UniqueIds(m.SnapshotsOf(root));
      forall x | x in m.SnapshotsOf(root) ensures x.id != s.id { assert IsRow(t, root, x); }
    }
    forall root, x ensures x in m'.SnapshotsOf(root) <==> IsRow(t', root, x) {
      assert x in m.SnapshotsOf(root) <==> IsRow(t, root, x);
    }
    forall root ensures m'.FilesOf(root) == t'.FilesOf(root) {
      assert m.FilesOf(root) == t.FilesOf(root);
    }
    forall id ensures ErrorsMatch(t', id, m'.ErrorsOf(id)) {
      assert ErrorsMatch(t, id, m.ErrorsOf(id));
    }
  }

  // ---------------------------------------------------------------- errors

  lemma {:induction false} RecordFromIs(t: Tables, id: string, start: nat, es: seq<ScanError>)
    ensures var t' := t.RecordFrom(id, start, es);
      && t'.files == t.files && t'.snapshots == t.snapshots
      && (forall k: (string, nat) :: k in t'.errors <==> k in t.errors || (k.0 == id && start <= k.1 < start + |es|))
      && (forall k: (string, nat) :: k in t'.errors ==>
            t'.errors[k] == if k.0 == id && start <= k.1 < start + |es| then es[k.1 - start] else t.errors[k])
  {
    if es != [] {
      RecordFromIs(t, id, start, es[..|es| - 1]);
    }
  }

  lemma NextIsLength(t: Tables, id: string, es: seq<ScanError>)
    requires ErrorsMatch(t, id, es)
    ensures Next(t.SeqsOf(id)) == |es|
  {
    var s := t.SeqsOf(id);
    assert forall i: nat :: i in s <==> (id, i) in t.errors;
    if |es| > 0 {
      var last: nat := |es| - 1;
      assert (id, last) in t.errors;
    }
  }

  lemma RecordMatches(t: Tables, id: string, before: seq<ScanError>, es: seq<ScanError>)
    requires ErrorsMatch(t, id, before)
    ensures ErrorsMatch(t.Record(id, es), id, before + es)
  {
    NextIsLength(t, id, before);
    RecordFromIs(t, id, |before|, es);
  }

  lemma OthersMatch(t: Tables, id: string, start: nat, es: seq<ScanError>, other: string, others: seq<ScanError>)
    requires ErrorsMatch(t, other, others) && other != id
    ensures ErrorsMatch(t.RecordFrom(id, start, es), other, others)
  {
    RecordFromIs(t, id, start, es);
  }

  lemma RecordKeeps(m: Memory, t: Tables, id: string, es: seq<ScanError>)
    requires Agree(m, t)
    ensures Agree(m.Record(id, es), t.Record(id, es))
  {
    var m', t' := m.Record(id, es), t.Record(id, es);
    assert ErrorsMatch(t, id, m.ErrorsOf(id));
    RecordFromIs(t, id, Next(t.SeqsOf(id)), es);
    forall x ensures ErrorsMatch(t', x, m'.ErrorsOf(x)) {
      assert ErrorsMatch(t, x, m.ErrorsOf(x));
      if x == id {
        RecordMatches(t, id, m.ErrorsOf(id), es);
      } else {
        OthersMatch(t, id, Next(t.SeqsOf(id)), es, x, m.ErrorsOf(x));
      }
    }
    FilesAndSnapshotsKept(m, t, m', t');
  }

  lemma FilesAndSnapshotsKept(m: Memory, t: Tables, m': Memory, t': Tables)
    requires FilesAgree(m, t) && SnapshotsAgree(m, t)
    requires m'.snapshots == m.snapshots && m'.files == m.files && t'.snapshots == t.snapshots && t'.files == t.files
    ensures FilesAgree(m', t') && SnapshotsAgree(m', t')
  {
    forall root ensures m'.FilesOf(root) == t'.FilesOf(root) {
      assert m.FilesOf(root) == t.FilesOf(root);
    }
    forall root ensures UniqueIds(m'.SnapshotsOf(root)) {
      assert UniqueIds(m.SnapshotsOf(root));
    }
    forall root, s ensures s in m'.SnapshotsOf(root) <==> IsRow(t', root, s) {
      assert s in m.SnapshotsOf(root) <==> IsRow(t, root, s);
    }
  }

  lemma {:induction false} ErrorsBetweenAre(t: Tables, id: string, es: seq<ScanError>, i: nat)
    requires ErrorsMatch(t, id, es) && i <= |es|
    ensures t.ErrorsBetween(id, i, |es|) == es[i..]
    decreases |es| - i
  {
    if i < |es| {
      ErrorsBetweenAre(t, id, es, i + 1);
      assert es[i..] == [es[i]] + es[i + 1..];
    }
  }

  // ---------------------------------------------------------------- runs of operations

  /** An operation fails in SQLite exactly when it creates a snapshot under a taken id, and then changes nothing. */
  lemma FailsIffReused(t: Tables, op: Op)
    ensures !InTables(t, op).1 <==> exists id :: id in CreatedId(op) && id in t.snapshots
    ensures !InTables(t, op).1 ==> InTables(t, op).0 == t
  {
    if id :| id in CreatedId(op) && id in t.snapshots {
      assert id in CreatedId(op) * t.snapshots.Keys;
    }
  }

  lemma StepAgrees(m: Memory, t: Tables, op: Op)
    requires Agree(m, t) && InTables(t, op).1
    ensures Agree(InMemory(m, op), InTables(t, op).0)
  {
    FailsIffReused(t, op);
    match op
    case Upsert(root, fs) => UpsertKeeps(m, t, root, fs);
    case Remove(root, paths) => RemoveKeeps(m, t, root, paths);
    case Create(s) =>
      assert s.id in CreatedId(op);
      CreateKeeps(m, t, s);
    case Record(id, es) => RecordKeeps(m, t, id, es);
    case Persist(root, r) =>
      assert r.id in CreatedId(op);
      var s := SnapshotOf(root, r);
      CreateKeeps(m, t, s);
      RecordKeeps(m.Create(s), t.WithSnapshot(s), r.id, r.errors);
      var m2, t2 := m.Create(s).Record(r.id, r.errors), t.WithSnapshot(s).Record(r.id, r.errors);
      UpsertKeeps(m2, t2, root, r.files);
      RemoveKeeps(m2.Upsert(root, r.files), t2.Upsert(root, r.files), root, r.deleted);
  }

  function MemoryAfter(ops: seq<Op>): Memory {
    if ops == [] then NO_MEMORY else InMemory(MemoryAfter(ops[..|ops| - 1]), ops[|ops| - 1])
  }

  function TablesAfter(ops: seq<Op>): Tables {
    if ops == [] then NO_TABLES else InTables(TablesAfter(ops[..|ops| - 1]), ops[|ops| - 1]).0
  }

  /** No snapshot id is created twice. */
  ghost predicate NoReuse(ops: seq<Op>) {
    forall i, j, id :: 0 <= i < j < |ops| && id in CreatedId(ops[i]) ==> id !in CreatedId(ops[j])
  }

  lemma InTablesIds(t: Tables, op: Op)
    ensures InTables(t, op).1 ==> InTables(t, op).0.snapshots.Keys == t.snapshots.Keys + CreatedId(op)
  {
    match op
    case Upsert(root, fs) => UpsertAgrees(t, root, fs, root);
    case Remove(root, paths) =>
    case Create(s) =>
    case Record(id, es) => RecordFromIs(t, id, Next(t.SeqsOf(id)), es);
    case Persist(root, r) =>
      var t1 := t.WithSnapshot(SnapshotOf(root, r));
      RecordFromIs(t1, r.id, Next(t1.SeqsOf(r.id)), r.errors);
      UpsertAgrees(t1.Record(r.id, r.errors), root, r.files, root);
  }

  /** Every id in the tables was created by an operation. */
  lemma {:induction false} IdsCreated(ops: seq<Op>, id: string)
    requires id in TablesAfter(ops).snapshots
    ensures exists i :: 0 <= i < |ops| && id in CreatedId(ops[i])
  {
    var n := |ops| - 1;
    var t := TablesAfter(ops[..n]);
    InTablesIds(t, ops[n]);
    FailsIffReused(t, ops[n]);
    if id in t.snapshots {
      IdsCreated(ops[..n], id);
      var i :| 0 <= i < n && id in CreatedId(ops[..n][i]);
      assert ops[i] == ops[..n][i];
    }
  }

  /** Over every sequence of operations that reuses no snapshot id, SQLite never fails and the stores agree. */
  lemma {:induction false} StoresAgree(ops: seq<Op>)
    requires NoReuse(ops)
    ensures Agree(MemoryAfter(ops), TablesAfter(ops))
    ensures ops != [] ==> InTables(TablesAfter(ops[..|ops| - 1]), ops[|ops| - 1]).1
  {
    if ops != [] {
      var n := |ops| - 1;
      StoresAgree(ops[..n]);
      var t := TablesAfter(ops[..n]);
      forall id | id in t.snapshots ensures id !in CreatedId(ops[n]) {
        IdsCreated(ops[..n], id);
        var i :| 0 <= i < n && id in CreatedId(ops[..n][i]);
        assert ops[i] == ops[..n][i];
      }
      FailsIffReused(t, ops[n]);
      StepAgrees(MemoryAfter(ops[..n]), t, ops[n]);
    }
  }

  // ---------------------------------------------------------------- answers

  /** Stores that agree give the same answers. */
  lemma SameAnswers(m: Memory, t: Tables, root: string, id: string)
    requires Agree(m, t)
    ensures m.ListFiles(root) == t.ListFiles(root)
    ensures m.ListSnapshots(root) == t.ListSnapshots(root)
    ensures m.ErrorsOf(id) == t.ErrorsOf(id)
  {
    assert m.FilesOf(root) == t.FilesOf(root);
    assert ErrorsMatch(t, id, m.ErrorsOf(id));
    NextIsLength(t, id, m.ErrorsOf(id));
    ErrorsBetweenAre(t, id, m.ErrorsOf(id), 0);
    SameSnapshots(m, t, root);
  }

  lemma SameSnapshots(m: Memory, t: Tables, root: string)
    requires SnapshotsAgree(m, t)
    ensures m.ListSnapshots(root) == t.ListSnapshots(root)
  {
    forall s ensures s in m.SnapshotsOf(root) <==> s.root == root && s.id in t.snapshots && t.snapshots[s.id] == s {
      assert s in m.SnapshotsOf(root) <==> IsRow(t, root, s);
    }
    SameAsTable(m.SnapshotsOf(root), t.snapshots, root);
  }

  /** Reusing an id makes the stores differ: memory lists one snapshot more. */
  lemma ReuseDiffers(m: Memory, t: Tables, op: Op)
    requires Agree(m, t) && !InTables(t, op).1
    ensures var root := if op.Create? then op.snapshot.root else op.root;
      |InMemory(m, op).ListSnapshots(root)| == |InTables(t, op).0.ListSnapshots(root)| + 1
  {
    var root := if op.Create? then op.snapshot.root else op.root;
    FailsIffReused(t, op);
    SameSnapshots(m, t, root);
    ArrangePermutes(m.SnapshotsOf(root));
    ArrangePermutes(InMemory(m, op).SnapshotsOf(root));
    assert |multiset(m.ListSnapshots(root))| == |multiset(m.SnapshotsOf(root))|;
    assert |multiset(InMemory(m, op).ListSnapshots(root))| == |multiset(InMemory(m, op).SnapshotsOf(root))|;
  }
}
