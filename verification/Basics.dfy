/** Small notions that several modules share. */
module Basics {
  ghost predicate NoRepeats<T>(xs: seq<T>) {
    forall i, j :: 0 <= i < j < |xs| ==> xs[i] != xs[j]
  }

  /** Each element once, where it first stood. */
  function Once<T(==)>(xs: seq<T>): seq<T> {
    if xs == [] then []
    else
      var before, last := Once(xs[..|xs| - 1]), xs[|xs| - 1];
      if last in before then before else before + [last]
  }

  lemma {:induction false} OnceFacts<T>(xs: seq<T>)
    ensures NoRepeats(Once(xs))
    ensures forall x :: x in Once(xs) <==> x in xs
    ensures NoRepeats(xs) ==> Once(xs) == xs
  {
    if xs != [] {
      var before, last := xs[..|xs| - 1], xs[|xs| - 1];
      OnceFacts(before);
      assert xs == before + [last];
      if last in before {
        var i :| 0 <= i < |before| && before[i] == last;
        assert xs[i] == xs[|xs| - 1];
      }
    }
  }

  function Max(a: int, b: int): int { if a >= b then a else b }

  /** Lower case for ASCII letters; every other character stays. */
  function Lower(s: string): string {
    if s == "" then "" else [if 'A' <= s[0] <= 'Z' then s[0] - 'A' + 'a' else s[0]] + Lower(s[1..])
  }

  predicate Contains(s: string, word: string) {
    exists i :: 0 <= i <= |s| && word <= s[i..]
  }

  /** Letter by letter. */
  lemma {:induction false} LowerAt(s: string, i: nat)
    requires i < |s|
    ensures |Lower(s)| == |s|
    ensures Lower(s)[i] == if 'A' <= s[i] <= 'Z' then s[i] - 'A' + 'a' else s[i]
  {
    LowerLength(s);
    if i > 0 { LowerAt(s[1..], i - 1); }
  }

  lemma {:induction false} LowerLength(s: string)
    ensures |Lower(s)| == |s|
  {
    if s != "" { LowerLength(s[1..]); }
  }

  /** The word stands somewhere in the text. */
  lemma ContainsIff(s: string, word: string)
    ensures Contains(s, word) <==> exists i: nat :: i + |word| <= |s| && s[i..][..|word|] == word
  {
    if i :| 0 <= i <= |s| && word <= s[i..] {
      assert s[i..][..|word|] == word;
    }
    if i: nat :| i + |word| <= |s| && s[i..][..|word|] == word {
      assert word <= s[i..];
    }
  }
}
