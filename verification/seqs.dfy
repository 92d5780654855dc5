/** Order-preserving filtering of sequences, the one collection operation the
    page performs on its tables (pandas boolean-mask selection and list
    comprehensions with an `if`). */
module Seqs {

  /** `a` can be obtained from `b` by deleting elements, keeping the order.
      Greedy matching of `a[0]` against the first equal element of `b` is
      complete for this relation. */
  predicate IsSubsequence<T(==)>(a: seq<T>, b: seq<T>)
    decreases |b|
  {
    if a == [] then true
    else if b == [] then false
    else if a[0] == b[0] then IsSubsequence(a[1..], b[1..])
    else IsSubsequence(a, b[1..])
  }

  /** The elements of `s` that satisfy `p`, in their original order. */
  function Filter<T(==)>(p: T -> bool, s: seq<T>): (r: seq<T>)
    ensures |r| <= |s|
    ensures forall i | 0 <= i < |r| :: p(r[i])
    ensures IsSubsequence(r, s)
  {
    if s == [] then []
    else if p(s[0]) then [s[0]] + Filter(p, s[1..])
    else Filter(p, s[1..])
  }

  /** Filtering a sequence that starts with `x` decides `x` first and then
      filters the rest. */
  lemma FilterCons<T>(p: T -> bool, x: T, s: seq<T>)
    ensures Filter(p, [x] + s) == (if p(x) then [x] else []) + Filter(p, s)
  {
    assert ([x] + s)[1..] == s;
  }

  /** Filtering a four-element sequence, decided element by element. */
  lemma FilterOfFour<T>(p: T -> bool, a: T, b: T, c: T, d: T)
    ensures Filter(p, [a, b, c, d]) ==
      (if p(a) then [a] else []) + (if p(b) then [b] else []) + (if p(c) then [c] else []) + (if p(d) then [d] else [])
  {
    var s3 := [d];
    var s2 := [c] + s3;
    var s1 := [b] + s2;
    var s0 := [a] + s1;
    assert s0 == [a, b, c, d];
    FilterCons(p, d, []);
    assert [d] + [] == s3;
    var f3 := Filter(p, s3);
    FilterCons(p, c, s3);
    var f2 := Filter(p, s2);
    assert f2 == (if p(c) then [c] else []) + f3;
    FilterCons(p, b, s2);
    var f1 := Filter(p, s1);
    assert f1 == (if p(b) then [b] else []) + f2;
    FilterCons(p, a, s1);
    assert Filter(p, s0) == (if p(a) then [a] else []) + f1;
  }

  /** Filtering keeps every element that satisfies `p` exactly as often as it
      occurs in `s`, and nothing else: together with `IsSubsequence` this pins
      the result down completely. */
  lemma {:induction false} FilterMultiset<T>(p: T -> bool, s: seq<T>)
    ensures forall x :: multiset(Filter(p, s))[x] == if p(x) then multiset(s)[x] else 0
  {
    if s != [] {
      FilterMultiset(p, s[1..]);
      assert s == [s[0]] + s[1..];
      assert multiset(s) == multiset{s[0]} + multiset(s[1..]);
    }
  }

  /** Membership in the filtered sequence: present in `s` and satisfying `p`. */
  lemma FilterMembership<T>(p: T -> bool, s: seq<T>, x: T)
    ensures x in Filter(p, s) <==> x in s && p(x)
  {
    FilterMultiset(p, s);
    assert x in Filter(p, s) <==> multiset(Filter(p, s))[x] > 0;
    assert x in s <==> multiset(s)[x] > 0;
  }

  /** Every element of the filtered sequence comes from `s`. */
  lemma {:induction false} FilterFrom<T>(p: T -> bool, s: seq<T>)
    ensures forall i | 0 <= i < |Filter(p, s)| :: Filter(p, s)[i] in s
  {
    if s != [] {
      FilterFrom(p, s[1..]);
    }
  }

  /** Splitting a sequence by a predicate and by its complement accounts for
      every element exactly once. */
  lemma {:induction false} FilterPartition<T>(p: T -> bool, q: T -> bool, s: seq<T>)
    requires forall x :: q(x) == !p(x)
    ensures |Filter(p, s)| + |Filter(q, s)| == |s|
  {
    if s != [] {
      FilterPartition(p, q, s[1..]);
    }
  }

  /** Nothing is dropped exactly when every element satisfies the predicate. */
  lemma {:induction false} FilterKeepsAll<T>(p: T -> bool, s: seq<T>)
    ensures Filter(p, s) == s <==> forall i | 0 <= i < |s| :: p(s[i])
  {
    if s != [] {
      FilterKeepsAll(p, s[1..]);
      if !p(s[0]) {
        assert |Filter(p, s)| < |s|;
      } else {
        assert (forall i | 0 <= i < |s| :: p(s[i])) <==> (forall i | 0 <= i < |s[1..]| :: p(s[1..][i]));
      }
    }
  }

  /** The result is empty exactly when no element satisfies the predicate. */
  lemma {:induction false} FilterEmpty<T>(p: T -> bool, s: seq<T>)
    ensures Filter(p, s) == [] <==> forall i | 0 <= i < |s| :: !p(s[i])
  {
    if s != [] {
      FilterEmpty(p, s[1..]);
      if !p(s[0]) {
        assert (forall i | 0 <= i < |s| :: !p(s[i])) <==> (forall i | 0 <= i < |s[1..]| :: !p(s[1..][i]));
      }
    }
  }

  /** A weaker predicate keeps at least as much, and strictly more when it
      accepts an element of `s` that the stronger one rejects. */
  lemma {:induction false} FilterGrows<T>(p: T -> bool, q: T -> bool, s: seq<T>, x: T)
    requires forall y :: p(y) ==> q(y)
    ensures |Filter(p, s)| <= |Filter(q, s)|
    ensures x in s && q(x) && !p(x) ==> |Filter(p, s)| < |Filter(q, s)|
  {
    if s != [] {
      FilterGrows(p, q, s[1..], x);
    }
  }

  /** Two predicates that agree on the elements of `s` select the same elements. */
  lemma {:induction false} FilterCongruent<T>(p: T -> bool, q: T -> bool, s: seq<T>)
    requires forall i | 0 <= i < |s| :: p(s[i]) == q(s[i])
    ensures Filter(p, s) == Filter(q, s)
  {
    if s != [] {
      FilterCongruent(p, q, s[1..]);
    }
  }
}
