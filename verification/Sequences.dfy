/** Sequences without repetitions, and how long they can be. */
module Sequences {

  predicate Distinct<T(==)>(s: seq<T>) { forall i, j | 0 <= i < j < |s| :: s[i] != s[j] }

  function Members<T(==)>(s: seq<T>): set<T> { set x | x in s }

  lemma {:induction false} MembersBound<T>(s: seq<T>)
    ensures |Members(s)| <= |s| && (Distinct(s) ==> |Members(s)| == |s|)
    decreases |s|
  {
    if s == [] {
    } else {
      var front, last := s[..|s| - 1], s[|s| - 1];
      MembersBound(front);
      assert s == front + [last];
      assert Members(s) == Members(front) + {last};
    }
  }

  lemma {:induction false} SubsetBound<T>(a: set<T>, b: set<T>)
    requires a <= b
    ensures |a| <= |b|
  {
    if a == {} {
    } else {
      var x :| x in a;
      SubsetBound(a - {x}, b - {x});
    }
  }

  /** A sequence without repetitions is no longer than a set holding its elements. */
  lemma DistinctWithin<T>(s: seq<T>, within: set<T>)
    requires Distinct(s) && forall x | x in s :: x in within
    ensures |s| <= |within|
  {
    MembersBound(s);
    SubsetBound(Members(s), within);
  }
}
