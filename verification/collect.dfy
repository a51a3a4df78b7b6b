/** The two `java.util.stream.Collectors` the repositories use to key query
    results by reference id. */
module Collect {
  import opened Common

  /** The value of the first pair whose key is `k`, scanning in order. */
  function FirstValue<K(==,!new), V>(pairs: seq<(K, V)>, k: K): (r: Option<V>)
    ensures r.None? <==> forall i :: 0 <= i < |pairs| ==> pairs[i].0 != k
    ensures r.Some? ==> exists i :: 0 <= i < |pairs| && pairs[i] == (k, r.value)
  {
    if pairs == [] then None
    else if pairs[0].0 == k then Some(pairs[0].1)
    else FirstValue(pairs[1..], k)
  }

  /** A lookup behind at most one leading pair: that pair answers when its
      key matches, otherwise the rest does. */
  lemma FirstValueAfter<K(!new), V>(head: seq<(K, V)>, tail: seq<(K, V)>, k: K)
    requires |head| <= 1
    ensures FirstValue(head + tail, k)
      == if head != [] && head[0].0 == k then Some(head[0].1) else FirstValue(tail, k)
  {
    if head != [] {
      assert (head + tail)[0] == head[0];
      assert (head + tail)[1..] == tail;
    } else {
      assert head + tail == tail;
    }
  }

  /** `Collectors.toMap(key, value, (existing, replacement) -> existing)`:
      a later pair never replaces an earlier one with the same key. */
  function ToMapFirstWins<K(==,!new), V>(pairs: seq<(K, V)>): (m: map<K, V>)
    ensures forall k :: k in m <==> FirstValue(pairs, k).Some?
    ensures forall k :: k in m ==> m[k] == FirstValue(pairs, k).value
  {
    if pairs == [] then map[]
    else ToMapFirstWins(pairs[1..])[pairs[0].0 := pairs[0].1]
  }

  /** The values of the pairs whose key is `k`, in order. */
  function ValuesOf<K(==,!new), V>(pairs: seq<(K, V)>, k: K): (r: seq<V>)
    ensures |r| <= |pairs|
    ensures r == [] <==> forall i :: 0 <= i < |pairs| ==> pairs[i].0 != k
  {
    if pairs == [] then []
    else (if pairs[0].0 == k then [pairs[0].1] else []) + ValuesOf(pairs[1..], k)
  }

  /** `Collectors.groupingBy(key, Collectors.mapping(value, toList()))`:
      each key present maps to all its values in encounter order. */
  function GroupingBy<K(==,!new), V>(pairs: seq<(K, V)>): (m: map<K, seq<V>>)
    ensures forall k :: k in m <==> ValuesOf(pairs, k) != []
    ensures forall k :: k in m ==> m[k] == ValuesOf(pairs, k)
    decreases |pairs|
  {
    if pairs == [] then map[]
    else
      var init := pairs[..|pairs| - 1];
      var last := pairs[|pairs| - 1];
      var g := GroupingBy(init);
      var m := g[last.0 := (if last.0 in g then g[last.0] else []) + [last.1]];
      assert forall k :: k in m <==> ValuesOf(pairs, k) != [] by {
        forall k ensures k in m <==> ValuesOf(pairs, k) != [] {
          ValuesOfSnoc(pairs, k);
        }
      }
      assert forall k :: k in m ==> m[k] == ValuesOf(pairs, k) by {
        forall k | k in m ensures m[k] == ValuesOf(pairs, k) {
          ValuesOfSnoc(pairs, k);
        }
      }
      m
  }

  /** Extending the input by one pair extends exactly that key's values. */
  lemma {:induction false} ValuesOfSnoc<K(!new), V>(pairs: seq<(K, V)>, k: K)
    requires pairs != []
    ensures ValuesOf(pairs, k) == ValuesOf(pairs[..|pairs| - 1], k)
      + (if pairs[|pairs| - 1].0 == k then [pairs[|pairs| - 1].1] else [])
    decreases |pairs|
  {
    if |pairs| > 1 {
      assert pairs[1..][..|pairs[1..]| - 1] == pairs[..|pairs| - 1][1..];
      ValuesOfSnoc(pairs[1..], k);
    }
  }

  /** `map.getOrDefault(k, d)`. */
  function GetOrDefault<K(==,!new), V>(m: map<K, V>, k: K, d: V): V {
    if k in m then m[k] else d
  }
}
