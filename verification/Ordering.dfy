/** The total order on strings that all sorted outputs use, and a stable sort by a string key. */
module Ordering {

  predicate Leq(a: string, b: string) {
    a == "" || (b != "" && (a[0] < b[0] || (a[0] == b[0] && Leq(a[1..], b[1..]))))
  }

  lemma {:induction false} LeqTotal(a: string, b: string)
    ensures Leq(a, b) || Leq(b, a)
  {
    if a != "" && b != "" {
      LeqTotal(a[1..], b[1..]);
    }
  }

  lemma {:induction false} LeqAntisymmetric(a: string, b: string)
    requires Leq(a, b) && Leq(b, a)
    ensures a == b
  {
    if a != "" && b != "" {
      LeqAntisymmetric(a[1..], b[1..]);
      assert a == [a[0]] + a[1..] && b == [b[0]] + b[1..];
    }
  }

  lemma {:induction false} LeqTransitive(a: string, b: string, c: string)
    requires Leq(a, b) && Leq(b, c)
    ensures Leq(a, c)
  {
    if a != "" && a[0] == b[0] && b[0] == c[0] {
      LeqTransitive(a[1..], b[1..], c[1..]);
    }
  }

  /** The order is lexicographic: a prefix comes first, and else the first character that differs decides. */
  lemma {:induction false} LeqIff(a: string, b: string)
    ensures Leq(a, b) <==> a <= b || exists k :: 0 <= k < |a| && k < |b| && a[..k] == b[..k] && a[k] < b[k]
  {
    if a != "" && b != "" {
      if a[0] == b[0] {
        LeqIff(a[1..], b[1..]);
        assert a == [a[0]] + a[1..] && b == [b[0]] + b[1..];
        if k :| 0 <= k < |a[1..]| && k < |b[1..]| && a[1..][..k] == b[1..][..k] && a[1..][k] < b[1..][k] {
          assert a[..k + 1] == [a[0]] + a[1..][..k] && b[..k + 1] == [b[0]] + b[1..][..k];
        }
        if k :| 0 <= k < |a| && k < |b| && a[..k] == b[..k] && a[k] < b[k] {
          assert a[1..][..k - 1] == a[..k][1..] && b[1..][..k - 1] == b[..k][1..];
        }
      } else {
        assert a[..0] == b[..0];
        forall k | 0 < k < |a| && k < |b| ensures a[..k] != b[..k] {
          assert a[..k][0] != b[..k][0];
        }
      }
    }
  }

  ghost predicate Sorted<T(!new)>(xs: seq<T>, key: T -> string) {
    forall i, j :: 0 <= i < j < |xs| ==> Leq(key(xs[i]), key(xs[j]))
  }

  ghost predicate DistinctKeys<T(!new), K(!new)>(xs: seq<T>, key: T -> K) {
    forall i, j :: 0 <= i < j < |xs| ==> key(xs[i]) != key(xs[j])
  }

  function Insert<T>(x: T, ys: seq<T>, key: T -> string): seq<T> {
    if ys == [] then [x]
    else if !Leq(key(ys[0]), key(x)) then [x] + ys
    else [ys[0]] + Insert(x, ys[1..], key)
  }

  function SortBy<T>(xs: seq<T>, key: T -> string): seq<T> {
    if xs == [] then [] else Insert(xs[|xs| - 1], SortBy(xs[..|xs| - 1], key), key)
  }

  lemma {:induction false} InsertKeeps<T>(x: T, ys: seq<T>, key: T -> string)
    ensures multiset(Insert(x, ys, key)) == multiset(ys) + multiset{x}
  {
    if ys != [] {
      assert ys == [ys[0]] + ys[1..];
      if Leq(key(ys[0]), key(x)) {
        InsertKeeps(x, ys[1..], key);
      }
    }
  }

  lemma InsertMembers<T(!new)>(x: T, ys: seq<T>, key: T -> string)
    ensures forall z :: z in Insert(x, ys, key) <==> z == x || z in ys
  {
    InsertKeeps(x, ys, key);
    forall z ensures z in Insert(x, ys, key) <==> z == x || z in ys {
      assert z in Insert(x, ys, key) <==> z in multiset(Insert(x, ys, key));
    }
  }

  lemma SortedCons<T(!new)>(x: T, ys: seq<T>, key: T -> string)
    requires Sorted(ys, key) && forall y :: y in ys ==> Leq(key(x), key(y))
    ensures Sorted([x] + ys, key)
  {}

  lemma {:induction false} InsertSorted<T(!new)>(x: T, ys: seq<T>, key: T -> string)
    requires Sorted(ys, key)
    ensures Sorted(Insert(x, ys, key), key)
  {
    if ys != [] {
      LeqTotal(key(ys[0]), key(x));
      if !Leq(key(ys[0]), key(x)) {
        forall y | y in ys ensures Leq(key(x), key(y)) {
          var j :| 0 <= j < |ys| && ys[j] == y;
          if j > 0 { LeqTransitive(key(x), key(ys[0]), key(ys[j])); }
        }
        SortedCons(x, ys, key);
      } else {
        InsertSorted(x, ys[1..], key);
        InsertMembers(x, ys[1..], key);
        SortedCons(ys[0], Insert(x, ys[1..], key), key);
      }
    }
  }

  lemma {:induction false} SortByOk<T(!new)>(xs: seq<T>, key: T -> string)
    ensures Sorted(SortBy(xs, key), key) && multiset(SortBy(xs, key)) == multiset(xs)
    ensures forall x :: x in SortBy(xs, key) <==> x in xs
    ensures |SortBy(xs, key)| == |xs|
  {
    if xs != [] {
      var n := |xs| - 1;
      SortByOk(xs[..n], key);
      InsertSorted(xs[n], SortBy(xs[..n], key), key);
      InsertKeeps(xs[n], SortBy(xs[..n], key), key);
      assert xs == xs[..n] + [xs[n]];
    }
    assert |multiset(SortBy(xs, key))| == |multiset(xs)|;
    forall x ensures x in SortBy(xs, key) <==> x in xs {
      assert x in multiset(SortBy(xs, key)) <==> x in multiset(xs);
    }
  }

  lemma MemberOf<T>(xs: seq<T>, ys: seq<T>, i: nat) returns (a: nat)
    requires multiset(xs) == multiset(ys) && i < |ys|
    ensures a < |xs| && xs[a] == ys[i]
  {
    assert ys[i] in multiset(xs);
    a :| 0 <= a < |xs| && xs[a] == ys[i];
  }

  /** Keys are distinct exactly when no key occurs twice, whatever the order. */
  lemma DistinctPermuted<T(!new), K(!new)>(xs: seq<T>, ys: seq<T>, key: T -> K)
    requires multiset(xs) == multiset(ys) && DistinctKeys(xs, key)
    ensures DistinctKeys(ys, key)
  {
    forall i, j | 0 <= i < j < |ys| ensures key(ys[i]) != key(ys[j]) {
      if ys[i] == ys[j] {
        TwoPositions(ys, i, j);
        TwiceOccurs(xs, ys[i], key);
      } else {
        var a := MemberOf(xs, ys, i);
        var b := MemberOf(xs, ys, j);
      }
    }
  }

  lemma {:induction false} TwiceOccurs<T(!new), K(!new)>(xs: seq<T>, x: T, key: T -> K)
    requires DistinctKeys(xs, key)
    ensures multiset(xs)[x] <= 1
  {
    if xs != [] {
      var n := |xs| - 1;
      assert xs == xs[..n] + [xs[n]];
      TwiceOccurs(xs[..n], x, key);
      if xs[n] == x {
        assert x !in xs[..n];
        assert multiset(xs[..n])[x] == 0;
      }
    }
  }

  lemma FirstSame<T(!new)>(xs: seq<T>, ys: seq<T>, key: T -> string)
    requires Sorted(xs, key) && Sorted(ys, key) && multiset(xs) == multiset(ys) && DistinctKeys(xs, key)
    requires xs != [] && ys != []
    ensures xs[0] == ys[0]
  {
    assert xs[0] in multiset(ys) && ys[0] in multiset(xs);
    var i :| 0 <= i < |ys| && ys[i] == xs[0];
    var j :| 0 <= j < |xs| && xs[j] == ys[0];
    LeqTotal(key(xs[0]), key(xs[0]));
    LeqAntisymmetric(key(xs[0]), key(ys[0]));
  }

  lemma TailMultiset<T>(xs: seq<T>)
    requires xs != []
    ensures multiset(xs[1..]) == multiset(xs) - multiset{xs[0]} && xs == [xs[0]] + xs[1..]
  {
    assert xs == [xs[0]] + xs[1..];
  }

  /** With distinct keys there is only one sorted order. */
  lemma {:induction false} SortedUnique<T(!new)>(xs: seq<T>, ys: seq<T>, key: T -> string)
    requires Sorted(xs, key) && Sorted(ys, key) && multiset(xs) == multiset(ys) && DistinctKeys(xs, key)
    ensures xs == ys
    decreases |xs|
  {
    assert |multiset(xs)| == |multiset(ys)|;
    if xs != [] {
      FirstSame(xs, ys, key);
      TailMultiset(xs);
      TailMultiset(ys);
      SortedUnique(xs[1..], ys[1..], key);
    }
  }

  /** The sorted order of items with distinct keys does not depend on the order they came in. */
  lemma SortPermutation<T(!new)>(xs: seq<T>, ys: seq<T>, key: T -> string)
    requires multiset(xs) == multiset(ys) && DistinctKeys(xs, key)
    ensures SortBy(xs, key) == SortBy(ys, key)
  {
    SortByOk(xs, key);
    SortByOk(ys, key);
    DistinctPermuted(xs, SortBy(xs, key), key);
    SortedUnique(SortBy(xs, key), SortBy(ys, key), key);
  }

  // ---------------------------------------------------------------- sorted contents of a set

  function Self(s: string): string { s }

  ghost predicate IsLeast(x: string, s: set<string>) {
    x in s && forall y :: y in s ==> Leq(x, y)
  }

  lemma {:induction false} LeastExists(s: set<string>)
    requires s != {}
    ensures exists x :: IsLeast(x, s)
    decreases |s|
  {
    var y :| y in s;
    LeqTotal(y, y);
    var rest := s - {y};
    if rest == {} {
      assert s == {y};
      assert IsLeast(y, s);
    } else {
      LeastExists(rest);
      var x :| IsLeast(x, rest);
      LeqTotal(x, y);
      if Leq(x, y) {
        assert IsLeast(x, s);
      } else {
        forall z | z in rest ensures Leq(y, z) { LeqTransitive(y, x, z); }
        assert IsLeast(y, s);
      }
    }
  }

  lemma LeastUnique(s: set<string>)
    ensures forall x, y :: IsLeast(x, s) && IsLeast(y, s) ==> x == y
  {
    forall x, y | IsLeast(x, s) && IsLeast(y, s) ensures x == y {
      LeqAntisymmetric(x, y);
    }
  }

  /** The members of a set in ascending order. */
  function SortedSet(s: set<string>): (r: seq<string>)
    ensures forall x :: x in r <==> x in s
  {
    if s == {} then []
    else
      LeastExists(s);
      LeastUnique(s);
      assert forall x :: IsLeast(x, s) <==> x in s && forall y :: y in s ==> Leq(x, y);
      var x :| x in s && forall y :: y in s ==> Leq(x, y);
      [x] + SortedSet(s - {x})
  }

  lemma {:induction false} SortedSetOk(s: set<string>)
    ensures Sorted(SortedSet(s), Self) && DistinctKeys(SortedSet(s), Self)
  {
    if s != {} {
      var r := SortedSet(s);
      SortedSetOk(s - {r[0]});
    }
  }

  /** With distinct keys, a sorted sequence is determined by its members. */
  lemma {:induction false} SortedSameMembers<T(!new)>(xs: seq<T>, ys: seq<T>, key: T -> string)
    requires Sorted(xs, key) && Sorted(ys, key) && DistinctKeys(xs, key) && DistinctKeys(ys, key)
    requires forall z :: z in xs <==> z in ys
    ensures xs == ys
    decreases |xs|
  {
    assert ys != [] ==> ys[0] in ys;
    if xs != [] {
      FirstSameMember(xs, ys, key);
      assert xs == [xs[0]] + xs[1..] && ys == [ys[0]] + ys[1..];
      assert forall z :: z in xs <==> z == xs[0] || z in xs[1..];
      assert forall z :: z in ys <==> z == ys[0] || z in ys[1..];
      SortedSameMembers(xs[1..], ys[1..], key);
    }
  }

  lemma FirstSameMember<T(!new)>(xs: seq<T>, ys: seq<T>, key: T -> string)
    requires xs != [] && Sorted(xs, key) && Sorted(ys, key) && DistinctKeys(xs, key)
    requires forall z :: z in xs <==> z in ys
    ensures ys != [] && xs[0] == ys[0]
  {
    assert xs[0] in ys;
    assert ys[0] in xs;
    var i :| 0 <= i < |ys| && ys[i] == xs[0];
    var j :| 0 <= j < |xs| && xs[j] == ys[0];
    LeqTotal(key(xs[0]), key(xs[0]));
    LeqAntisymmetric(key(xs[0]), key(ys[0]));
  }

  // ---------------------------------------------------------------- multiplicity

  lemma TwoPositions<T>(xs: seq<T>, i: nat, j: nat)
    requires i < j < |xs| && xs[i] == xs[j]
    ensures multiset(xs)[xs[i]] >= 2
  {
    assert xs == xs[..i] + [xs[i]] + xs[i + 1..j] + [xs[j]] + xs[j + 1..];
  }

  function MapAll<S, T>(xs: seq<S>, f: S -> T): (ys: seq<T>)
    ensures |ys| == |xs| && forall i :: 0 <= i < |xs| ==> ys[i] == f(xs[i])
  {
    seq(|xs|, i requires 0 <= i < |xs| => f(xs[i]))
  }

  lemma MapAppend<S, T>(xs: seq<S>, ys: seq<S>, f: S -> T)
    ensures MapAll(xs + ys, f) == MapAll(xs, f) + MapAll(ys, f)
  {}

  lemma TakenOut<T>(ys: seq<T>, j: nat)
    requires j < |ys|
    ensures multiset(ys[..j] + ys[j + 1..]) == multiset(ys) - multiset{ys[j]}
  {
    assert ys == ys[..j] + [ys[j]] + ys[j + 1..];
  }

  /** Applying a function keeps permutations. */
  lemma {:induction false} MapPermuted<S, T>(xs: seq<S>, ys: seq<S>, f: S -> T)
    requires multiset(xs) == multiset(ys)
    ensures multiset(MapAll(xs, f)) == multiset(MapAll(ys, f))
    decreases |xs|
  {
    assert |multiset(xs)| == |multiset(ys)|;
    if xs != [] {
      var n := |xs| - 1;
      assert xs[n] in multiset(ys);
      var j :| 0 <= j < |ys| && ys[j] == xs[n];
      TakenOut(xs, n);
      TakenOut(ys, j);
      MapPermuted(xs[..n] + xs[n + 1..], ys[..j] + ys[j + 1..], f);
      MapTakenOut(xs, n, f);
      MapTakenOut(ys, j, f);
    }
  }

  lemma MapTakenOut<S, T>(ys: seq<S>, j: nat, f: S -> T)
    requires j < |ys|
    ensures multiset(MapAll(ys, f)) == multiset(MapAll(ys[..j] + ys[j + 1..], f)) + multiset{f(ys[j])}
  {
    assert ys == ys[..j] + [ys[j]] + ys[j + 1..];
    MapAppend(ys[..j] + [ys[j]], ys[j + 1..], f);
    MapAppend(ys[..j], [ys[j]], f);
    MapAppend(ys[..j], ys[j + 1..], f);
    assert MapAll([ys[j]], f) == [f(ys[j])];
  }

  /** A function of distinct items takes no value twice exactly if it is injective on them. */
  lemma MapOnceIff<S(!new)>(xs: seq<S>, f: S -> string)
    requires forall x :: multiset(xs)[x] <= 1
    ensures (forall v :: multiset(MapAll(xs, f))[v] <= 1) <==>
            forall x, y :: x in xs && y in xs && f(x) == f(y) ==> x == y
  {
    var ys := MapAll(xs, f);
    if forall v :: multiset(ys)[v] <= 1 {
      forall x, y | x in xs && y in xs && f(x) == f(y) ensures x == y {
        var i :| 0 <= i < |xs| && xs[i] == x;
        var j :| 0 <= j < |xs| && xs[j] == y;
        if i < j { TwoPositions(ys, i, j); } else if j < i { TwoPositions(ys, j, i); }
      }
    }
    if forall x, y :: x in xs && y in xs && f(x) == f(y) ==> x == y {
      forall i, j | 0 <= i < j < |ys| ensures Self(ys[i]) != Self(ys[j]) {
        if xs[i] == xs[j] { TwoPositions(xs, i, j); }
      }
      forall v ensures multiset(ys)[v] <= 1 { TwiceOccurs(ys, v, Self); }
    }
  }
}
