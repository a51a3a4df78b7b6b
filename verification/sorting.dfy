/** SQL `ORDER BY key asc|desc` over one sort key. NULL sorts below every
    value; rows with equal keys stay in table order (the database leaves
    their order unspecified, so contracts only promise sortedness and that
    no row is gained or lost). */
module Sorting {
  import opened Common
  import Paging

  datatype SortKey = NullKey | KeyValue(v: real)

  /** The database's ordering of key values, NULL lowest. */
  predicate KeyLe(a: SortKey, b: SortKey) {
    a.NullKey? || (b.KeyValue? && a.v <= b.v)
  }

  /** `x` may precede `y` in an `asc` (or `desc`) ordering on `key`. */
  predicate Before<T>(key: T -> SortKey, asc: bool, x: T, y: T) {
    if asc then KeyLe(key(x), key(y)) else KeyLe(key(y), key(x))
  }

  ghost predicate SortedBy<T>(xs: seq<T>, key: T -> SortKey, asc: bool) {
    forall i, j :: 0 <= i < j < |xs| ==> Before(key, asc, xs[i], xs[j])
  }

  lemma BeforeTotal<T>(key: T -> SortKey, asc: bool, x: T, y: T)
    ensures Before(key, asc, x, y) || Before(key, asc, y, x)
  {
  }

  function Insert<T>(x: T, xs: seq<T>, key: T -> SortKey, asc: bool): (r: seq<T>)
    requires SortedBy(xs, key, asc)
    ensures SortedBy(r, key, asc)
    ensures multiset(r) == multiset(xs) + multiset{x}
    ensures |r| == |xs| + 1
  {
    if xs == [] then [x]
    else if Before(key, asc, x, xs[0]) then
      assert forall j :: 0 < j < |xs| ==> Before(key, asc, xs[0], xs[j]);
      ConsSorted(x, xs, key, asc);
      [x] + xs
    else
      BeforeTotal(key, asc, x, xs[0]);
      var rest := Insert(x, xs[1..], key, asc);
      assert forall j :: 0 <= j < |xs[1..]| ==> Before(key, asc, xs[0], xs[1..][j]);
      BoundSurvivesInsert(xs[0], x, xs[1..], rest, key, asc);
      ConsSorted(xs[0], rest, key, asc);
      ConsMultiset(xs, rest, x);
      [xs[0]] + rest
  }

  /** A lower bound of a sorted sequence may be put in front of it. */
  lemma ConsSorted<T>(a: T, xs: seq<T>, key: T -> SortKey, asc: bool)
    requires SortedBy(xs, key, asc)
    requires forall j :: 0 <= j < |xs| ==> Before(key, asc, a, xs[j])
    ensures SortedBy([a] + xs, key, asc)
  {
    forall i, j | 0 <= i < j < |[a] + xs| ensures Before(key, asc, ([a] + xs)[i], ([a] + xs)[j]) {
      assert ([a] + xs)[j] == xs[j - 1];
      if i > 0 {
        assert ([a] + xs)[i] == xs[i - 1];
      }
    }
  }

  lemma ConsMultiset<T>(xs: seq<T>, rest: seq<T>, x: T)
    requires xs != []
    requires multiset(rest) == multiset(xs[1..]) + multiset{x}
    ensures multiset([xs[0]] + rest) == multiset(xs) + multiset{x}
  {
    assert xs == [xs[0]] + xs[1..];
  }

  /** A lower bound of `x` and of every element of `pool` bounds every
      element of a sequence holding exactly those. */
  lemma BoundSurvivesInsert<T>(a: T, x: T, pool: seq<T>, rest: seq<T>, key: T -> SortKey, asc: bool)
    requires multiset(rest) == multiset(pool) + multiset{x}
    requires Before(key, asc, a, x)
    requires forall j :: 0 <= j < |pool| ==> Before(key, asc, a, pool[j])
    ensures forall j :: 0 <= j < |rest| ==> Before(key, asc, a, rest[j])
  {
    forall j | 0 <= j < |rest| ensures Before(key, asc, a, rest[j]) {
      assert rest[j] in multiset(rest);
      if rest[j] != x {
        assert rest[j] in multiset(pool);
        var k :| 0 <= k < |pool| && pool[k] == rest[j];
      }
    }
  }

  /** Insertion sort: the stable ordering the model gives `ORDER BY`. */
  function SortBy<T>(xs: seq<T>, key: T -> SortKey, asc: bool): (r: seq<T>)
    ensures SortedBy(r, key, asc)
    ensures multiset(r) == multiset(xs)
    ensures |r| == |xs|
  {
    if xs == [] then []
    else
      assert xs == [xs[0]] + xs[1..];
      Insert(xs[0], SortBy(xs[1..], key, asc), key, asc)
  }

  /** The key of a nullable integer column. */
  function IntKey(v: Option<int>): SortKey
  {
    match v
    case None => NullKey
    case Some(n) => KeyValue(n as real)
  }

  /** Sorting neither invents rows nor drops a row's membership. */
  lemma SortByMembers<T>(xs: seq<T>, key: T -> SortKey, asc: bool)
    ensures forall i :: 0 <= i < |SortBy(xs, key, asc)| ==> SortBy(xs, key, asc)[i] in xs
    ensures forall i :: 0 <= i < |xs| ==> xs[i] in SortBy(xs, key, asc)
  {
    var r := SortBy(xs, key, asc);
    forall i | 0 <= i < |r| ensures r[i] in xs {
      assert r[i] in multiset(r);
    }
    forall i | 0 <= i < |xs| ensures xs[i] in r {
      assert xs[i] in multiset(xs);
    }
  }

  /** Any offset/limit window of a sorted result is sorted. */
  lemma SortedSlice<T>(xs: seq<T>, key: T -> SortKey, asc: bool, offset: nat, limit: nat)
    requires SortedBy(xs, key, asc)
    ensures SortedBy(Paging.Slice(xs, offset, limit), key, asc)
  {
    var r := Paging.Slice(xs, offset, limit);
    forall i, j | 0 <= i < j < |r| ensures Before(key, asc, r[i], r[j]) {
      assert r[i] == xs[offset + i] && r[j] == xs[offset + j];
    }
  }
}
