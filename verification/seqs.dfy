/** Facts about sequences without duplicates and their subsequences. */
module Seqs {

  predicate Distinct<T(==)>(s: seq<T>) {
    forall i, j :: 0 <= i < j < |s| ==> s[i] != s[j]
  }

  /** The position of the first occurrence of `x` in `s`. */
  function IndexOf<T(==)>(s: seq<T>, x: T): (i: nat)
    requires x in s
    ensures i < |s| && s[i] == x
    ensures forall j :: 0 <= j < i ==> s[j] != x
  {
    if s[0] == x then 0 else 1 + IndexOf(s[1..], x)
  }

  /** `a` is `b` with some elements dropped and the rest kept in order. */
  predicate IsSubsequence<T(==)>(a: seq<T>, b: seq<T>)
    decreases |b|
  {
    if a == [] then true
    else if b == [] then false
    else if a[0] == b[0] then IsSubsequence(a[1..], b[1..])
    else IsSubsequence(a, b[1..])
  }

  lemma {:induction false} SubsequenceMembers<T>(a: seq<T>, b: seq<T>)
    requires IsSubsequence(a, b)
    ensures forall x :: x in a ==> x in b
    decreases |b|
  {
    if a != [] && b != [] {
      if a[0] == b[0] {
        SubsequenceMembers(a[1..], b[1..]);
        assert forall x :: x in a ==> x == a[0] || x in a[1..];
      } else {
        SubsequenceMembers(a, b[1..]);
      }
    }
  }

  /** In a list without duplicates, the first element can only be kept at the front. */
  lemma SubsequenceHead<T>(a: seq<T>, b: seq<T>)
    requires Distinct(b) && |b| > 0
    requires IsSubsequence(a, b) && b[0] in a
    ensures a[0] == b[0] && IsSubsequence(a[1..], b[1..])
    ensures forall x :: x in a[1..] <==> x in a && x != b[0]
  {
    assert b[0] !in b[1..];
    if a[0] != b[0] {
      SubsequenceMembers(a, b[1..]);
      assert false;
    }
    SubsequenceMembers(a[1..], b[1..]);
    assert forall x :: x in a <==> x == a[0] || x in a[1..];
  }

  /**
   * Over a whitelist without duplicates, a subsequence is determined by its
   * elements: there is exactly one order in which a set of columns can
   * appear, the whitelist's.
   */
  lemma {:induction false} SubsequenceDetermined<T>(a1: seq<T>, a2: seq<T>, b: seq<T>)
    requires Distinct(b)
    requires IsSubsequence(a1, b) && IsSubsequence(a2, b)
    requires forall x :: x in a1 <==> x in a2
    ensures a1 == a2
    decreases |b|
  {
    if b == [] {
      assert a1 == [] && a2 == [];
    } else if b[0] in a1 {
      SubsequenceHead(a1, b);
      SubsequenceHead(a2, b);
      SubsequenceDetermined(a1[1..], a2[1..], b[1..]);
      assert a1 == [a1[0]] + a1[1..] && a2 == [a2[0]] + a2[1..];
    } else {
      assert a1 != [] ==> a1[0] != b[0];
      assert a2 != [] ==> a2[0] != b[0];
      SubsequenceDetermined(a1, a2, b[1..]);
    }
  }

  lemma {:induction false} DistinctSubsequence<T>(a: seq<T>, b: seq<T>)
    requires Distinct(b)
    requires IsSubsequence(a, b)
    ensures Distinct(a)
    decreases |b|
  {
    if a != [] && b != [] {
      if a[0] == b[0] {
        DistinctSubsequence(a[1..], b[1..]);
        SubsequenceMembers(a[1..], b[1..]);
        assert b[0] !in b[1..];
      } else {
        DistinctSubsequence(a, b[1..]);
      }
    }
  }
}
