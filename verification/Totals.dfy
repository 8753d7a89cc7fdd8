/** Sums over the values of a finite map. */
module Totals {
  ghost function Sum<K(!new), V>(m: map<K, V>, f: V -> int): int
    decreases |m|
  {
    if m == map[] then 0
    else
      var k :| k in m;
      f(m[k]) + Sum(m - {k}, f)
  }

  lemma {:induction false} SumTake<K(!new), V>(m: map<K, V>, f: V -> int, k: K)
    requires k in m
    ensures Sum(m, f) == f(m[k]) + Sum(m - {k}, f)
    decreases |m|
  {
    var first :| first in m && Sum(m, f) == f(m[first]) + Sum(m - {first}, f);
    if first != k {
      SumTake(m - {first}, f, k);
      SumTake(m - {k}, f, first);
      assert m - {first} - {k} == m - {k} - {first};
    }
  }

  lemma SumPut<K(!new), V>(m: map<K, V>, f: V -> int, k: K, v: V)
    ensures Sum(m[k := v], f) == Sum(m, f) - (if k in m then f(m[k]) else 0) + f(v)
  {
    SumTake(m[k := v], f, k);
    assert m[k := v] - {k} == m - {k};
    if k in m {
      SumTake(m, f, k);
    } else {
      assert m - {k} == m;
    }
  }

  ghost function SeqSum<K(!new), V>(order: seq<K>, m: map<K, V>, f: V -> int): int
    requires forall k :: k in order ==> k in m
  {
    if order == [] then 0
    else SeqSum(order[..|order| - 1], m, f) + f(m[order[|order| - 1]])
  }

  function Restrict<K, V>(order: seq<K>, m: map<K, V>): map<K, V>
    requires forall k :: k in order ==> k in m
  {
    map k | k in order :: m[k]
  }

  lemma RestrictLast<K(!new), V>(order: seq<K>, m: map<K, V>)
    requires order != [] && forall k :: k in order ==> k in m
    requires forall i, j :: 0 <= i < j < |order| ==> order[i] != order[j]
    ensures var before := order[..|order| - 1];
            var last := order[|order| - 1];
            && last !in before
            && Restrict(order, m) == Restrict(before, m)[last := m[last]]
  {
    assert order == order[..|order| - 1] + [order[|order| - 1]];
  }

  lemma {:induction false} PrefixSum<K(!new), V>(order: seq<K>, m: map<K, V>, f: V -> int)
    requires forall k :: k in order ==> k in m
    requires forall i, j :: 0 <= i < j < |order| ==> order[i] != order[j]
    ensures SeqSum(order, m, f) == Sum(Restrict(order, m), f)
  {
    if order == [] {
      assert Restrict(order, m) == map[];
    } else {
      var last := order[|order| - 1];
      var before := order[..|order| - 1];
      PrefixSum(before, m, f);
      RestrictLast(order, m);
      SumPut(Restrict(before, m), f, last, m[last]);
    }
  }

  /** Adding up along any listing of the keys, each once, gives the sum of the map. */
  lemma SumInOrder<K(!new), V>(order: seq<K>, m: map<K, V>, f: V -> int)
    requires forall k :: k in m <==> k in order
    requires forall i, j :: 0 <= i < j < |order| ==> order[i] != order[j]
    ensures SeqSum(order, m, f) == Sum(m, f)
  {
    PrefixSum(order, m, f);
    assert Restrict(order, m) == m;
  }
}
