/** Small facts about sequences shared by the extractor and the edge store. */
module Sequences {

  /** No element occurs twice. */
  predicate Distinct<T(==)>(s: seq<T>) {
    forall i, j :: 0 <= i < j < |s| ==> s[i] != s[j]
  }

  /** `s` with every repeated element dropped after its first occurrence. */
  function Dedup<T(==,!new)>(s: seq<T>): (r: seq<T>)
    ensures Distinct(r)
    ensures forall x :: x in r <==> x in s
    ensures |r| <= |s|
    decreases |s|
  {
    if |s| == 0 then []
    else
      var d := Dedup(s[..|s| - 1]);
      var last := s[|s| - 1];
      assert s == s[..|s| - 1] + [last];
      if last in d then d else d + [last]
  }

  /** In a sequence without repeats, every element occurs at most once. */
  lemma {:induction false} DistinctCountsAtMostOne<T>(s: seq<T>, x: T)
    requires Distinct(s)
    ensures multiset(s)[x] <= 1
    decreases |s|
  {
    if |s| > 0 {
      var rest := s[1..];
      assert s == [s[0]] + rest;
      assert Distinct(rest) by {
        forall i, j | 0 <= i < j < |rest|
          ensures rest[i] != rest[j]
        {
          assert rest[i] == s[i + 1] && rest[j] == s[j + 1];
        }
      }
      DistinctCountsAtMostOne(rest, x);
      if s[0] == x {
        assert x !in rest;
        assert multiset(rest)[x] == 0;
      }
    }
  }

  /** In a sequence of copies of `x`, `x` occurs once per position. */
  lemma {:induction false} ConstantCount<T>(s: seq<T>, x: T)
    requires forall y :: y in s ==> y == x
    ensures multiset(s)[x] == |s|
    decreases |s|
  {
    if |s| > 0 {
      assert s == [s[0]] + s[1..];
      assert forall y :: y in s[1..] ==> y in s;
      ConstantCount(s[1..], x);
      assert s[0] in s;
      assert multiset(s) == multiset{s[0]} + multiset(s[1..]);
    }
  }

  /** A repeat-free sequence whose only element is `x` is `[x]`. */
  lemma DistinctSingleton<T>(s: seq<T>, x: T)
    requires Distinct(s)
    requires forall y :: y in s <==> y == x
    ensures s == [x]
  {
    ConstantCount(s, x);
    DistinctCountsAtMostOne(s, x);
    assert x in s;
    assert s[0] in s;
  }
}
