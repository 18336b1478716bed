/** Small facts about sequences shared by the puzzle modules. */
module Seqs {

  function Min(a: int, b: int): int { if a <= b then a else b }

  /** Python's `s[:n]` for a non-negative n. */
  function Take<T>(s: seq<T>, n: nat): (r: seq<T>)
    ensures |r| == Min(n, |s|)
    ensures r == s[..Min(n, |s|)]
  {
    if n <= |s| then s[..n] else s
  }

  /** No element occurs twice. */
  predicate Distinct<T(==)>(s: seq<T>) {
    forall i, j :: 0 <= i < j < |s| ==> s[i] != s[j]
  }

  /** Python's `set(s)`. */
  function SetOf<T>(s: seq<T>): set<T> {
    set x | x in s
  }

  lemma {:induction false} SetOfAppend<T>(s: seq<T>, x: T)
    ensures SetOf(s + [x]) == SetOf(s) + {x}
  {
    assert forall y :: y in s + [x] <==> y in s || y == x;
  }

  lemma {:induction false} SetOfCons<T>(x: T, s: seq<T>)
    ensures SetOf([x] + s) == {x} + SetOf(s)
  {
    assert forall y :: y in [x] + s <==> y == x || y in s;
  }

  lemma {:induction false} SetOfNoLarger<T>(s: seq<T>)
    ensures |SetOf(s)| <= |s|
  {
    if s != [] {
      var t := s[..|s| - 1];
      assert s == t + [s[|s| - 1]];
      SetOfAppend(t, s[|s| - 1]);
      SetOfNoLarger(t);
    }
  }

  /** `len(set(s)) == len(s)` is the source's test for "no duplicates". */
  lemma {:induction false} DistinctIffCardinality<T>(s: seq<T>)
    ensures |SetOf(s)| == |s| <==> Distinct(s)
  {
    if s == [] {
      assert SetOf(s) == {};
    } else {
      var t, x := s[..|s| - 1], s[|s| - 1];
      assert s == t + [x];
      SetOfAppend(t, x);
      DistinctIffCardinality(t);
      SetOfNoLarger(t);
      if x in t {
        assert SetOf(s) == SetOf(t);
        var k :| 0 <= k < |t| && t[k] == x;
        assert s[k] == s[|s| - 1];
        assert !Distinct(s);
      } else {
        assert |SetOf(s)| == |SetOf(t)| + 1;
        if Distinct(t) {
          forall i, j | 0 <= i < j < |s| ensures s[i] != s[j] {
            if j == |s| - 1 { assert s[i] == t[i]; } else { assert s[i] == t[i] && s[j] == t[j]; }
          }
        } else {
          var i, j :| 0 <= i < j < |t| && t[i] == t[j];
          assert s[i] == s[j];
        }
      }
    }
  }
}
