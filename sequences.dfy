/** Order-preserving selection over sequences: the model of JavaScript's
    `Array.prototype.filter`, which every query and most mutations of the
    todo list are built from. */
module Sequences {

  /** `r` can be obtained from `s` by deleting elements, keeping the order of
      the rest. Greedy matching is complete for this relation. */
  predicate IsSubsequence<T(==)>(r: seq<T>, s: seq<T>)
    decreases |s|
  {
    if r == [] then true
    else if s == [] then false
    else if r[0] == s[0] then IsSubsequence(r[1..], s[1..])
    else IsSubsequence(r, s[1..])
  }

  /** The elements of `s` that satisfy `p`, in their original order. */
  function Filter<T(==)>(s: seq<T>, p: T -> bool): (r: seq<T>)
    ensures IsSubsequence(r, s)
    ensures forall i :: 0 <= i < |r| ==> p(r[i])
  {
    if s == [] then []
    else
      var rest := Filter(s[1..], p);
      if p(s[0]) then [s[0]] + rest else rest
  }

  /** A filter keeps every passing element with its multiplicity and drops
      every other one: together with the order it keeps, this determines the
      result. */
  lemma {:induction false} FilterMultiset<T(!new)>(s: seq<T>, p: T -> bool)
    ensures forall x :: multiset(Filter(s, p))[x] == if p(x) then multiset(s)[x] else 0
  {
    if s != [] {
      FilterMultiset(s[1..], p);
      assert s == [s[0]] + s[1..];
    }
  }

  /** Every element kept by a filter already occurs in the input. */
  lemma {:induction false} FilterMember<T>(s: seq<T>, p: T -> bool, x: T)
    requires x in Filter(s, p)
    ensures x in s && p(x)
  {
    if s != [] && x != s[0] {
      FilterMember(s[1..], p, x);
    }
  }

  /** An element of the input that satisfies the predicate is kept. */
  lemma {:induction false} FilterKeeps<T>(s: seq<T>, p: T -> bool, x: T)
    requires x in s && p(x)
    ensures x in Filter(s, p)
  {
    if x != s[0] {
      FilterKeeps(s[1..], p, x);
    }
  }

  /** A filter keeps the whole input exactly when every element passes. */
  lemma {:induction false} FilterIdentity<T>(s: seq<T>, p: T -> bool)
    ensures Filter(s, p) == s <==> forall i :: 0 <= i < |s| ==> p(s[i])
  {
    if s != [] {
      FilterIdentity(s[1..], p);
      if !p(s[0]) {
        assert |Filter(s[1..], p)| <= |s[1..]| by { FilterLength(s[1..], p); }
      } else {
        assert forall i :: 0 < i < |s| ==> s[i] == s[1..][i - 1];
      }
    }
  }

  /** A filter never lengthens its input. */
  lemma {:induction false} FilterLength<T>(s: seq<T>, p: T -> bool)
    ensures |Filter(s, p)| <= |s|
  {
    if s != [] { FilterLength(s[1..], p); }
  }

  /** A filter yields nothing exactly when no element passes. */
  lemma FilterEmpty<T>(s: seq<T>, p: T -> bool)
    ensures Filter(s, p) == [] <==> forall i :: 0 <= i < |s| ==> !p(s[i])
  {
    if Filter(s, p) == [] {
      forall i | 0 <= i < |s| ensures !p(s[i]) {
        if p(s[i]) {
          FilterKeeps(s, p, s[i]);
          assert false;
        }
      }
    }
  }

  /** Filtering twice by the same predicate is filtering once. */
  lemma FilterIdempotent<T>(s: seq<T>, p: T -> bool)
    ensures Filter(Filter(s, p), p) == Filter(s, p)
  {
    FilterIdentity(Filter(s, p), p);
  }

  /** Two complementary filters split the input: their lengths add up. */
  lemma {:induction false} FilterComplement<T>(s: seq<T>, p: T -> bool, q: T -> bool)
    requires forall x :: q(x) <==> !p(x)
    ensures |Filter(s, p)| + |Filter(s, q)| == |s|
  {
    if s != [] { FilterComplement(s[1..], p, q); }
  }

  /** Replacing one element changes the number kept by at most that element. */
  lemma {:induction false} FilterUpdateLength<T>(s: seq<T>, p: T -> bool, k: nat, x: T)
    requires k < |s|
    ensures |Filter(s[k := x], p)| ==
            |Filter(s, p)| - (if p(s[k]) then 1 else 0) + (if p(x) then 1 else 0)
  {
    if k == 0 {
      assert s[k := x][1..] == s[1..];
    } else {
      FilterUpdateLength(s[1..], p, k - 1, x);
      assert s[k := x][1..] == s[1..][k - 1 := x];
    }
  }
}
