/** SQL `AVG` and `COUNT` over a nullable integer column. Averages are exact
    rationals here; the database returns them as doubles. */
module Aggregates {
  import opened Common

  /** The sum of the non-null values. */
  function PresentSum(xs: seq<Option<int>>): int {
    if xs == [] then 0 else xs[0].GetOr(0) + PresentSum(xs[1..])
  }

  /** How many values are non-null. */
  function PresentCount(xs: seq<Option<int>>): nat {
    if xs == [] then 0 else (if xs[0].Some? then 1 else 0) + PresentCount(xs[1..])
  }

  /** `AVG(col)`: nulls are ignored, and with no non-null value the result
      is null. */
  function Avg(xs: seq<Option<int>>): (r: Option<real>)
    ensures r.None? <==> PresentCount(xs) == 0
    ensures r.Some? ==> r.value * PresentCount(xs) as real == PresentSum(xs) as real
  {
    if PresentCount(xs) == 0 then None
    else Some(PresentSum(xs) as real / PresentCount(xs) as real)
  }

  /** Every non-null value lies in [lo, hi]. */
  predicate AllWithin(xs: seq<Option<int>>, lo: int, hi: int) {
    forall i :: 0 <= i < |xs| && xs[i].Some? ==> lo <= xs[i].value <= hi
  }

  lemma {:induction false} SumBounds(xs: seq<Option<int>>, lo: int, hi: int)
    requires AllWithin(xs, lo, hi)
    ensures lo * PresentCount(xs) <= PresentSum(xs) <= hi * PresentCount(xs)
  {
    if xs != [] {
      assert AllWithin(xs[1..], lo, hi) by {
        forall i | 0 <= i < |xs[1..]| && xs[1..][i].Some? ensures lo <= xs[1..][i].value <= hi {
          assert xs[1..][i] == xs[i + 1];
        }
      }
      SumBounds(xs[1..], lo, hi);
      SumBoundsStep(xs, lo, hi);
    }
  }

  /** One step of `SumBounds`: the head adds at most one value in range. */
  lemma SumBoundsStep(xs: seq<Option<int>>, lo: int, hi: int)
    requires xs != [] && (xs[0].Some? ==> lo <= xs[0].value <= hi)
    requires lo * PresentCount(xs[1..]) <= PresentSum(xs[1..]) <= hi * PresentCount(xs[1..])
    ensures lo * PresentCount(xs) <= PresentSum(xs) <= hi * PresentCount(xs)
  {
    var c := PresentCount(xs[1..]);
    if xs[0].Some? {
      assert PresentCount(xs) == c + 1 && PresentSum(xs) == xs[0].value + PresentSum(xs[1..]);
      MulSucc(lo, c);
      MulSucc(hi, c);
    } else {
      assert PresentCount(xs) == c && PresentSum(xs) == PresentSum(xs[1..]);
    }
  }

  lemma MulSucc(a: int, c: int)
    ensures a * (c + 1) == a * c + a
  {
  }

  lemma QuotientWithin(s: int, c: nat, lo: int, hi: int)
    requires c > 0 && lo * c <= s <= hi * c
    ensures lo as real <= s as real / c as real <= hi as real
  {
    var q := s as real / c as real;
    assert q * c as real == s as real;
    assert (lo * c) as real == lo as real * c as real;
    assert (hi * c) as real == hi as real * c as real;
  }

  /** The average of values in a range lies in that range. */
  lemma AvgWithin(xs: seq<Option<int>>, lo: int, hi: int)
    requires AllWithin(xs, lo, hi)
    ensures Avg(xs).Some? ==> lo as real <= Avg(xs).value <= hi as real
  {
    if PresentCount(xs) > 0 {
      SumBounds(xs, lo, hi);
      QuotientWithin(PresentSum(xs), PresentCount(xs), lo, hi);
    }
  }
}
