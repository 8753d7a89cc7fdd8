/** The nearest-rank percentile of a list of delays. */
module Percentile {
  import opened Wrappers
  import Sorting

  function Ascending(a: int, b: int): bool { a <= b }

  /** How many of the values are at most `v`. */
  function CountAtMost(values: seq<int>, v: int): (n: nat)
    ensures n <= |values|
  {
    if values == [] then 0 else (if values[0] <= v then 1 else 0) + CountAtMost(values[1..], v)
  }

  /** Ceiling of p/100 of the count; a percentage of zero still asks for the first value. */
  function Rank(p: nat, n: nat): (k: nat)
    ensures k >= 1
  {
    var k := (p * n + 99) / 100;
    if k < 1 then 1 else k
  }

  /** An index past the end reads as absent, which only a percentage above 100 can reach. */
  function Percentile(values: seq<int>, p: nat): Option<int> {
    if values == [] then Some(0)
    else
      var sorted := Sorting.Sort(values, Ascending);
      var k := Rank(p, |sorted|);
      if k <= |sorted| then Some(sorted[k - 1]) else None
  }

  lemma {:induction false} CountConcat(a: seq<int>, b: seq<int>, v: int)
    ensures CountAtMost(a + b, v) == CountAtMost(a, v) + CountAtMost(b, v)
  {
    if a == [] {
      assert a + b == b;
    } else {
      assert (a + b)[1..] == a[1..] + b;
      CountConcat(a[1..], b, v);
    }
  }

  lemma {:induction false} CountInsert(x: int, xs: seq<int>, v: int)
    ensures CountAtMost(Sorting.Insert(x, xs, Ascending), v) == CountAtMost([x] + xs, v)
  {
    var le := Ascending;
    if xs != [] && !le(x, xs[0]) {
      CountInsert(x, xs[1..], v);
      assert ([x] + xs)[1..] == xs && ([x] + xs[1..])[1..] == xs[1..];
    }
  }

  lemma {:induction false} CountSort(xs: seq<int>, v: int)
    ensures CountAtMost(Sorting.Sort(xs, Ascending), v) == CountAtMost(xs, v)
  {
    if xs != [] {
      CountSort(xs[1..], v);
      CountInsert(xs[0], Sorting.Sort(xs[1..], Ascending), v);
      assert xs == [xs[0]] + xs[1..];
      assert ([xs[0]] + Sorting.Sort(xs[1..], Ascending))[1..] == Sorting.Sort(xs[1..], Ascending);
    }
  }

  lemma {:induction false} CountAll(xs: seq<int>, v: int)
    requires forall i :: 0 <= i < |xs| ==> xs[i] <= v
    ensures CountAtMost(xs, v) == |xs|
  {
    if xs != [] { CountAll(xs[1..], v); }
  }

  lemma {:induction false} CountNone(xs: seq<int>, v: int)
    requires forall i :: 0 <= i < |xs| ==> xs[i] > v
    ensures CountAtMost(xs, v) == 0
  {
    if xs != [] { CountNone(xs[1..], v); }
  }

  lemma SortedAscending(values: seq<int>)
    ensures var s := Sorting.Sort(values, Ascending);
            && (forall i, j :: 0 <= i <= j < |s| ==> s[i] <= s[j])
            && multiset(s) == multiset(values)
  {
    Sorting.SortSorts(values, Ascending);
    Sorting.SortKeepsElements(values, Ascending);
  }

  lemma RankInRange(p: nat, n: nat)
    requires p <= 100 && n > 0
    ensures 1 <= Rank(p, n) <= n
  {
    assert p * n <= 100 * n;
  }

  /** Position `i` of the sorted values, counted in the original values. */
  lemma SortedCounts(values: seq<int>, i: nat, v: int)
    requires i < |values|
    ensures var s := Sorting.Sort(values, Ascending);
            CountAtMost(values, v) > i <==> s[i] <= v
  {
    var s := Sorting.Sort(values, Ascending);
    SortedAscending(values);
    CountSort(values, v);
    if s[i] <= v {
      assert s == s[..i + 1] + s[i + 1..];
      CountConcat(s[..i + 1], s[i + 1..], v);
      CountAll(s[..i + 1], v);
    } else {
      assert s == s[..i] + s[i..];
      CountConcat(s[..i], s[i..], v);
      CountNone(s[i..], v);
    }
  }

  /**
   * For every percentage up to 100 the result is one of the values, and it is the
   * smallest number that at least ceil(p/100 * n) of the values do not exceed.
   */
  lemma NearestRank(values: seq<int>, p: nat)
    requires values != [] && p <= 100
    ensures Percentile(values, p).Some?
    ensures Percentile(values, p).value in values
    ensures forall v :: CountAtMost(values, v) >= Rank(p, |values|) <==> Percentile(values, p).value <= v
  {
    RankInRange(p, |values|);
    var k := Rank(p, |values|);
    var s := Sorting.Sort(values, Ascending);
    SortedAscending(values);
    Sorting.SameMembers(s, values, s[k - 1]);
    forall v ensures CountAtMost(values, v) >= k <==> s[k - 1] <= v {
      SortedCounts(values, k - 1, v);
    }
  }

  lemma RankMonotone(p: nat, q: nat, n: nat)
    requires p <= q
    ensures Rank(p, n) <= Rank(q, n)
  {
    var low, high := p * n + 99, q * n + 99;
    assert high - low == (q - p) * n >= 0;
    assert low / 100 <= high / 100;
  }

  lemma Monotone(values: seq<int>, p: nat, q: nat)
    requires p <= q <= 100
    ensures Percentile(values, p).Some? && Percentile(values, q).Some?
    ensures Percentile(values, p).value <= Percentile(values, q).value
  {
    if values != [] {
      RankInRange(p, |values|);
      RankInRange(q, |values|);
      RankMonotone(p, q, |values|);
      SortedAscending(values);
    }
  }
}
