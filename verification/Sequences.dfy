// What several parts say about sequences and sets of any type.
module Sequences {

  ghost predicate Distinct<T>(s: seq<T>) {
    forall i, j :: 0 <= i < j < |s| ==> s[i] != s[j]
  }

  // Where x is first, |s| when it is nowhere.
  function FirstIndex<T(==)>(s: seq<T>, x: T): (k: nat)
    ensures k <= |s| && (k < |s| ==> s[k] == x) && forall i :: 0 <= i < k ==> s[i] != x
  {
    if s == [] || s[0] == x then 0 else 1 + FirstIndex(s[1..], x)
  }

  lemma FirstIndexIs<T>(s: seq<T>, x: T, k: nat)
    requires k <= |s| && (k < |s| ==> s[k] == x) && forall i :: 0 <= i < k ==> s[i] != x
    ensures FirstIndex(s, x) == k
  {
    var n := FirstIndex(s, x);
    assert n < |s| ==> s[n] == x;
  }

  lemma FirstIndexOfSeparator<T>(left: seq<T>, x: T, right: seq<T>)
    requires x !in left
    ensures FirstIndex(left + [x] + right, x) == |left|
  {
    var s := left + [x] + right;
    assert s[|left|] == x && forall i :: 0 <= i < |left| ==> s[i] == left[i];
    FirstIndexIs(s, x, |left|);
  }

  lemma Fewer<T>(a: set<T>, b: set<T>)
    requires a <= b
    ensures |a| <= |b|
  {
    if a != b { assert b == a + (b - a); }
  }
}
