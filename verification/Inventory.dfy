/**
 The two inventory stores as values: maps of lists in memory, tables with primary keys
 in SQLite.  They agree after every sequence of operations that reuses no snapshot id.
 */
module Inventory {
  import opened Ordering
  import opened Snapshots
  import opened Walk

  datatype FileRecord =
    FileRecord(path: string, hash: string, size: nat, mtime: int, ignored: bool, lastIndexedAt: string)

  datatype Counts = Counts(files: nat, indexed: nat, ignored: nat, deleted: nat, changed: nat)

  type Snapshot = Header<Counts>

  datatype ScanResult = ScanResult(
    id: string, createdAt: string, files: seq<FileRecord>, changed: seq<FileRecord>,
    deleted: seq<string>, ignored: seq<IgnoredRef>, errors: seq<ScanError>)

  function SnapshotOf(root: string, r: ScanResult): Snapshot {
    Header(r.id, root, r.createdAt,
           Counts(|r.files| + |r.ignored|, |r.files|, |r.ignored|, |r.deleted|, |r.changed|))
  }

  type Index = map<string, FileRecord>

  /** An ignored record takes its path out of the index. */
  function UpsertOne(m: Index, f: FileRecord): Index {
    if f.ignored then m - {f.path} else m[f.path := f]
  }

  function UpsertAll(m: Index, files: seq<FileRecord>): Index {
    if files == [] then m else UpsertOne(UpsertAll(m, files[..|files| - 1]), files[|files| - 1])
  }

  function RemoveAll(m: Index, paths: seq<string>): Index {
    m - (set p | p in paths)
  }

  /** The records of an index, ordered by path. */
  function ByPath(m: Index): seq<FileRecord> {
    var ks := SortedSet(m.Keys);
    seq(|ks|, i requires 0 <= i < |ks| => assert ks[i] in ks; m[ks[i]])
  }

  // ---------------------------------------------------------------- in memory

  datatype Memory = Memory(files: map<string, Index>, snapshots: map<string, seq<Snapshot>>, errors: map<string, seq<ScanError>>) {
    function FilesOf(root: string): Index {
      if root in files then files[root] else map[]
    }

    function SnapshotsOf(root: string): seq<Snapshot> {
      if root in snapshots then snapshots[root] else []
    }

    function ErrorsOf(id: string): seq<ScanError> {
      if id in errors then errors[id] else []
    }

    function Upsert(root: string, fs: seq<FileRecord>): Memory {
      this.(files := files[root := UpsertAll(FilesOf(root), fs)])
    }

    function Remove(root: string, paths: seq<string>): Memory {
      if root in files then this.(files := files[root := RemoveAll(files[root], paths)]) else this
    }

    function Create(s: Snapshot): Memory {
      this.(snapshots := snapshots[s.root := SnapshotsOf(s.root) + [s]])
    }

    function Record(id: string, es: seq<ScanError>): Memory {
      this.(errors := errors[id := ErrorsOf(id) + es])
    }

    function Persist(root: string, r: ScanResult): Memory {
      Create(SnapshotOf(root, r)).Record(r.id, r.errors).Upsert(root, r.files).Remove(root, r.deleted)
    }

    function ListFiles(root: string): seq<FileRecord> { ByPath(FilesOf(root)) }

    function ListSnapshots(root: string): seq<Snapshot> { Arrange(SnapshotsOf(root)) }
  }

  const NO_MEMORY := Memory(map[], map[], map[])

  // ---------------------------------------------------------------- in tables

  /** Primary keys: root and path, snapshot id, snapshot id and sequence number. */
  datatype Tables = Tables(files: map<(string, string), FileRecord>, snapshots: map<string, Snapshot>, errors: map<(string, nat), ScanError>) {
    function FilesOf(root: string): Index {
      map k | k in files && k.0 == root :: k.1 := files[k]
    }

    function UpsertOne(root: string, f: FileRecord): Tables {
      if f.ignored then this.(files := files - {(root, f.path)}) else this.(files := files[(root, f.path) := f])
    }

    function Upsert(root: string, fs: seq<FileRecord>): Tables {
      if fs == [] then this else Upsert(root, fs[..|fs| - 1]).UpsertOne(root, fs[|fs| - 1])
    }

    function Remove(root: string, paths: seq<string>): Tables {
      this.(files := map k | k in files && !(k.0 == root && k.1 in paths) :: files[k])
    }

    function WithSnapshot(s: Snapshot): Tables {
      this.(snapshots := snapshots[s.id := s])
    }

    /** The id is the primary key: inserting under a taken one fails. */
    function Insert(s: Snapshot): (Tables, bool) {
      if s.id in snapshots then (this, false) else (WithSnapshot(s), true)
    }

    function SeqsOf(id: string): set<nat> {
      set k | k in errors && k.0 == id :: k.1
    }

    function RecordFrom(id: string, start: nat, es: seq<ScanError>): Tables {
      if es == [] then this
      else
        var t := RecordFrom(id, start, es[..|es| - 1]);
        t.(errors := t.errors[(id, start + |es| - 1) := es[|es| - 1]])
    }

    function Record(id: string, es: seq<ScanError>): Tables {
      RecordFrom(id, Next(SeqsOf(id)), es)
    }

    /** What follows the insert of the snapshot. */
    function Filled(root: string, r: ScanResult): Tables {
      Record(r.id, r.errors).Upsert(root, r.files).Remove(root, r.deleted)
    }

    /** One transaction: when an insert fails, everything is rolled back. */
    function Persist(root: string, r: ScanResult): (Tables, bool) {
      var (t, ok) := Insert(SnapshotOf(root, r));
      if ok then (t.Filled(root, r), true) else (this, false)
    }

    /** The errors of a snapshot by ascending sequence number, from `i` up to `n`. */
    function ErrorsBetween(id: string, i: nat, n: nat): seq<ScanError>
      decreases n - i
    {
      if i >= n then []
      else (if (id, i) in errors then [errors[(id, i)]] else []) + ErrorsBetween(id, i + 1, n)
    }

    function ErrorsOf(id: string): seq<ScanError> {
      ErrorsBetween(id, 0, Next(SeqsOf(id)))
    }

    function ListFiles(root: string): seq<FileRecord> { ByPath(FilesOf(root)) }

    function ListSnapshots(root: string): seq<Snapshot> { Arrange(RowsFor(snapshots, root)) }
  }

  const NO_TABLES := Tables(map[], map[], map[])

  /** One more than the greatest number, or zero. */
  function Next(s: set<nat>): (n: nat)
    ensures forall i :: i in s ==> i < n
    ensures n > 0 ==> n - 1 in s
  {
    if s == {} then 0
    else
      GreatestExists(s);
      var m :| m in s && forall i :: i in s ==> i <= m;
      m + 1
  }

  lemma {:induction false} GreatestExists(s: set<nat>)
    requires s != {}
    ensures exists m :: m in s && forall i :: i in s ==> i <= m
  {
    var x :| x in s;
    if s - {x} != {} {
      GreatestExists(s - {x});
      var m :| m in s - {x} && forall i :: i in s - {x} ==> i <= m;
      var g := if m < x then x else m;
      assert g in s;
      forall i | i in s ensures i <= g {
        assert i == x || i in s - {x};
      }
    } else {
      assert s == {x};
    }
  }

  // ---------------------------------------------------------------- operations

  datatype Op =
    | Upsert(root: string, files: seq<FileRecord>)
    | Remove(root: string, paths: seq<string>)
    | Create(snapshot: Snapshot)
    | Record(id: string, errors: seq<ScanError>)
    | Persist(root: string, result: ScanResult)

  function CreatedId(op: Op): set<string> {
    match op
    case Create(s) => {s.id}
    case Persist(_, r) => {r.id}
    case _ => {}
  }

  function InMemory(m: Memory, op: Op): Memory {
    match op
    case Upsert(root, fs) => m.Upsert(root, fs)
    case Remove(root, paths) => m.Remove(root, paths)
    case Create(s) => m.Create(s)
    case Record(id, es) => m.Record(id, es)
    case Persist(root, r) => m.Persist(root, r)
  }

  function InTables(t: Tables, op: Op): (Tables, bool) {
    match op
    case Upsert(root, fs) => (t.Upsert(root, fs), true)
    case Remove(root, paths) => (t.Remove(root, paths), true)
    case Create(s) => t.Insert(s)
    case Record(id, es) => (t.Record(id, es), true)
    case Persist(root, r) => t.Persist(root, r)
  }
}
