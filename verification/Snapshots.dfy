/** Snapshot headers and their listing order: newest first, then by id. */
module Snapshots {
  import opened Ordering

  datatype Header<+P> = Header(id: string, root: string, createdAt: string, payload: P)

  predicate Before<P>(a: Header<P>, b: Header<P>) {
    if a.createdAt == b.createdAt then Leq(a.id, b.id) else Leq(b.createdAt, a.createdAt)
  }

  lemma BeforeTotal<P>(a: Header<P>, b: Header<P>)
    ensures Before(a, b) || Before(b, a)
  {
    LeqTotal(a.id, b.id);
    LeqTotal(a.createdAt, b.createdAt);
  }

  lemma BeforeAntisymmetric<P>(a: Header<P>, b: Header<P>)
    requires Before(a, b) && Before(b, a)
    ensures a.createdAt == b.createdAt && a.id == b.id
  {
    if a.createdAt == b.createdAt {
      LeqAntisymmetric(a.id, b.id);
    } else {
      LeqAntisymmetric(a.createdAt, b.createdAt);
    }
  }

  lemma BeforeTransitive<P>(a: Header<P>, b: Header<P>, c: Header<P>)
    requires Before(a, b) && Before(b, c)
    ensures Before(a, c)
  {
    if a.createdAt == b.createdAt && b.createdAt == c.createdAt {
      LeqTransitive(a.id, b.id, c.id);
    } else if a.createdAt != b.createdAt && b.createdAt != c.createdAt {
      LeqTransitive(c.createdAt, b.createdAt, a.createdAt);
      if a.createdAt == c.createdAt {
        LeqAntisymmetric(a.createdAt, b.createdAt);
      }
    }
  }

  ghost predicate InListOrder<P(!new)>(xs: seq<Header<P>>) {
    forall i, j :: 0 <= i < j < |xs| ==> Before(xs[i], xs[j])
  }

  ghost predicate UniqueIds<P(!new)>(xs: seq<Header<P>>) {
    forall i, j :: 0 <= i < j < |xs| ==> xs[i].id != xs[j].id
  }

  function Place<P>(x: Header<P>, ys: seq<Header<P>>): seq<Header<P>> {
    if ys == [] then [x]
    else if !Before(ys[0], x) then [x] + ys
    else [ys[0]] + Place(x, ys[1..])
  }

  /** A stable sort into listing order. */
  function Arrange<P>(xs: seq<Header<P>>): seq<Header<P>> {
    if xs == [] then [] else Place(xs[|xs| - 1], Arrange(xs[..|xs| - 1]))
  }

  lemma {:induction false} PlaceMembers<P(!new)>(x: Header<P>, ys: seq<Header<P>>)
    ensures forall z :: z in Place(x, ys) <==> z == x || z in ys
  {
    if ys != [] && Before(ys[0], x) {
      assert forall z :: z in ys <==> z == ys[0] || z in ys[1..];
      PlaceMembers(x, ys[1..]);
    }
  }

  lemma {:induction false} PlaceUnique<P(!new)>(x: Header<P>, ys: seq<Header<P>>)
    requires UniqueIds(ys) && forall y :: y in ys ==> y.id != x.id
    ensures UniqueIds(Place(x, ys))
  {
    if ys != [] && Before(ys[0], x) {
      PlaceUnique(x, ys[1..]);
      PlaceMembers(x, ys[1..]);
      forall z | z in Place(x, ys[1..]) ensures z.id != ys[0].id {}
    }
  }

  lemma {:induction false} PlaceInOrder<P(!new)>(x: Header<P>, ys: seq<Header<P>>)
    requires InListOrder(ys)
    ensures InListOrder(Place(x, ys))
  {
    if ys != [] {
      BeforeTotal(ys[0], x);
      if Before(ys[0], x) {
        PlaceInOrder(x, ys[1..]);
        PlaceMembers(x, ys[1..]);
        forall z | z in Place(x, ys[1..]) ensures Before(ys[0], z) {}
      } else {
        forall j | 0 <= j < |ys| ensures Before(x, ys[j]) {
          if j > 0 { BeforeTransitive(x, ys[0], ys[j]); }
        }
      }
    }
  }

  lemma {:induction false} ArrangeOk<P(!new)>(xs: seq<Header<P>>)
    ensures InListOrder(Arrange(xs)) && forall z :: z in Arrange(xs) <==> z in xs
    ensures UniqueIds(xs) ==> UniqueIds(Arrange(xs))
  {
    if xs != [] {
      var n := |xs| - 1;
      ArrangeOk(xs[..n]);
      PlaceMembers(xs[n], Arrange(xs[..n]));
      PlaceInOrder(xs[n], Arrange(xs[..n]));
      assert forall z :: z in xs <==> z == xs[n] || z in xs[..n];
      if UniqueIds(xs) {
        PlaceUnique(xs[n], Arrange(xs[..n]));
      }
    }
  }

  lemma FirstAgrees<P(!new)>(xs: seq<Header<P>>, ys: seq<Header<P>>)
    requires xs != [] && InListOrder(xs) && InListOrder(ys) && UniqueIds(xs) && forall z :: z in xs <==> z in ys
    ensures ys != [] && xs[0] == ys[0]
  {
    assert xs[0] in ys;
    assert ys[0] in xs;
    var i :| 0 <= i < |ys| && ys[i] == xs[0];
    var j :| 0 <= j < |xs| && xs[j] == ys[0];
    if i > 0 && j > 0 {
      BeforeAntisymmetric(xs[0], ys[0]);
    }
  }

  lemma TailMembers<T(!new)>(xs: seq<T>, ys: seq<T>)
    requires xs != [] && ys != [] && xs[0] == ys[0] && xs[0] !in xs[1..] && ys[0] !in ys[1..]
    requires forall z :: z in xs <==> z in ys
    ensures forall z :: z in xs[1..] <==> z in ys[1..]
  {
    assert forall z :: z in xs <==> z == xs[0] || z in xs[1..];
    assert forall z :: z in ys <==> z == ys[0] || z in ys[1..];
  }

  /** The listing of a set of snapshots with distinct ids is determined by the set. */
  lemma {:induction false} ListingUnique<P(!new)>(xs: seq<Header<P>>, ys: seq<Header<P>>)
    requires InListOrder(xs) && InListOrder(ys) && UniqueIds(xs) && UniqueIds(ys)
    requires forall z :: z in xs <==> z in ys
    ensures xs == ys
    decreases |xs|
  {
    assert ys != [] ==> ys[0] in ys;
    if xs != [] {
      FirstAgrees(xs, ys);
      TailMembers(xs, ys);
      ListingUnique(xs[1..], ys[1..]);
      assert xs == [xs[0]] + xs[1..] && ys == [ys[0]] + ys[1..];
    }
  }

  /** Sorting lists with the same members and distinct ids gives the same listing. */
  lemma SameListing<P(!new)>(xs: seq<Header<P>>, ys: seq<Header<P>>)
    requires UniqueIds(xs) && UniqueIds(ys) && forall z :: z in xs <==> z in ys
    ensures Arrange(xs) == Arrange(ys)
  {
    ArrangeOk(xs);
    ArrangeOk(ys);
    ListingUnique(Arrange(xs), Arrange(ys));
  }

  /** In a listing the newer comes first, and of two equally new ones the one with the smaller id. */
  lemma NewestFirst<P(!new)>(xs: seq<Header<P>>)
    ensures var l := Arrange(xs);
      forall i, j :: 0 <= i < j < |l| ==>
        Leq(l[j].createdAt, l[i].createdAt) && (l[i].createdAt == l[j].createdAt ==> Leq(l[i].id, l[j].id))
  {
    var l := Arrange(xs);
    ArrangeOk(xs);
    forall i, j | 0 <= i < j < |l|
      ensures Leq(l[j].createdAt, l[i].createdAt) && (l[i].createdAt == l[j].createdAt ==> Leq(l[i].id, l[j].id))
    {
      assert Before(l[i], l[j]);
      LeqTotal(l[i].createdAt, l[j].createdAt);
    }
  }

  /** A listing has the given snapshots, each as often as given. */
  lemma {:induction false} ArrangePermutes<P>(xs: seq<Header<P>>)
    ensures multiset(Arrange(xs)) == multiset(xs)
  {
    if xs != [] {
      var n := |xs| - 1;
      var init, last := xs[..n], xs[n];
      ArrangePermutes(init);
      PlacePermutes(last, Arrange(init));
      assert xs == init + [last];
    }
  }

  lemma {:induction false} PlacePermutes<P>(x: Header<P>, ys: seq<Header<P>>)
    ensures multiset(Place(x, ys)) == multiset(ys) + multiset{x}
  {
    if ys != [] {
      assert ys == [ys[0]] + ys[1..];
      if Before(ys[0], x) {
        PlacePermutes(x, ys[1..]);
      }
    }
  }

  /** The first of a listing is the newest, and among equally new ones the one with the smallest id. */
  lemma LatestIsFirst<P(!new)>(xs: seq<Header<P>>, s: Header<P>)
    requires xs != []
    ensures Arrange(xs) != [] && Arrange(xs)[0] in xs
    ensures s in xs ==> var l := Arrange(xs)[0];
      Leq(s.createdAt, l.createdAt) && (s.createdAt == l.createdAt ==> Leq(l.id, s.id))
  {
    ArrangeOk(xs);
    NewestFirst(xs);
    assert xs[0] in Arrange(xs);
    assert Arrange(xs)[0] in Arrange(xs);
    if s in xs {
      var i :| 0 <= i < |Arrange(xs)| && Arrange(xs)[i] == s;
      LeqTotal(s.createdAt, s.createdAt);
      LeqTotal(s.id, s.id);
    }
  }

  // ---------------------------------------------------------------- rows of a table

  function RowsFrom<P>(table: map<string, Header<P>>, ids: seq<string>, root: string): seq<Header<P>> {
    if ids == [] then []
    else
      var rest := RowsFrom(table, ids[..|ids| - 1], root);
      var id := ids[|ids| - 1];
      if id in table && table[id].root == root then rest + [table[id]] else rest
  }

  /** The rows of one root in a table whose primary key is the snapshot id. */
  function RowsFor<P>(table: map<string, Header<P>>, root: string): seq<Header<P>> {
    RowsFrom(table, SortedSet(table.Keys), root)
  }

  lemma {:induction false} RowsFromAre<P>(table: map<string, Header<P>>, ids: seq<string>, root: string, s: Header<P>)
    ensures s in RowsFrom(table, ids, root) <==> exists id :: id in ids && id in table && table[id] == s && s.root == root
  {
    if ids != [] {
      RowsFromAre(table, ids[..|ids| - 1], root, s);
      assert forall id :: id in ids <==> id in ids[..|ids| - 1] || id == ids[|ids| - 1];
    }
  }

  lemma {:induction false} RowsFromUnique<P(!new)>(table: map<string, Header<P>>, ids: seq<string>, root: string)
    requires DistinctKeys(ids, Self) && forall id :: id in table ==> table[id].id == id
    ensures UniqueIds(RowsFrom(table, ids, root))
  {
    if ids != [] {
      var n := |ids| - 1;
      RowsFromUnique(table, ids[..n], root);
      forall s | s in RowsFrom(table, ids[..n], root) ensures s.id != ids[n] {
        RowsFromAre(table, ids[..n], root, s);
        var i :| 0 <= i < n && ids[i] == s.id;
        assert Self(ids[i]) != Self(ids[n]);
      }
    }
  }

  /** A list that has the rows of one root as members is listed like the table. */
  lemma SameAsTable<P(!new)>(xs: seq<Header<P>>, table: map<string, Header<P>>, root: string)
    requires UniqueIds(xs) && forall id :: id in table ==> table[id].id == id
    requires forall s :: s in xs <==> s.root == root && s.id in table && table[s.id] == s
    ensures Arrange(xs) == Arrange(RowsFor(table, root))
  {
    var ids := SortedSet(table.Keys);
    SortedSetOk(table.Keys);
    RowsFromUnique(table, ids, root);
    forall s ensures s in xs <==> s in RowsFor(table, root) {
      RowsFromAre(table, ids, root, s);
    }
    SameListing(xs, RowsFor(table, root));
  }
}
