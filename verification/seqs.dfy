/**
  Sequence facts shared by the photo list and the solutions filter:
  order-preserving subsequences, distinctness, and deletion by position
  as JavaScript's `xs.filter((_, i) => i !== index)` does it.
 */
module Seqs {

  /** `a` can be obtained from `b` by deleting elements, keeping the order of the rest. */
  predicate IsSubsequence<T(==)>(a: seq<T>, b: seq<T>)
    decreases |b|
  {
    if b == [] then a == []
    else (a != [] && a[0] == b[0] && IsSubsequence(a[1..], b[1..])) || IsSubsequence(a, b[1..])
  }

  /** A subsequence is no longer than its source, and one of the same length is the source itself. */
  lemma {:induction false} SubsequenceLength<T>(a: seq<T>, b: seq<T>)
    requires IsSubsequence(a, b)
    ensures |a| <= |b|
    ensures |a| == |b| ==> a == b
    decreases |b|
  {
    if b != [] {
      if a != [] && a[0] == b[0] && IsSubsequence(a[1..], b[1..]) {
        SubsequenceLength(a[1..], b[1..]);
        assert |a| == |b| ==> a == [a[0]] + a[1..];
      } else {
        SubsequenceLength(a, b[1..]);
      }
    }
  }

  /** A subsequence only holds elements of the sequence it was taken from. */
  lemma {:induction false} SubsequenceMembers<T>(a: seq<T>, b: seq<T>)
    requires IsSubsequence(a, b)
    ensures forall x :: x in a ==> x in b
    decreases |b|
  {
    if b != [] {
      if a != [] && a[0] == b[0] && IsSubsequence(a[1..], b[1..]) {
        SubsequenceMembers(a[1..], b[1..]);
        assert a == [a[0]] + a[1..];
      } else {
        SubsequenceMembers(a, b[1..]);
      }
    }
  }

  /** No element occurs twice. */
  predicate Distinct<T(==)>(xs: seq<T>) {
    forall i, j :: 0 <= i < j < |xs| ==> xs[i] != xs[j]
  }

  /** `xs.filter((_, i) => i !== index)`: keeps every element whose position differs from `index`. */
  function WithoutIndex<T>(xs: seq<T>, index: int): (r: seq<T>)
    ensures 0 <= index < |xs| ==> |r| == |xs| - 1 && r == xs[..index] + xs[index + 1..]
    ensures !(0 <= index < |xs|) ==> r == xs
    decreases |xs|
  {
    if xs == [] then []
    else
      var rest := WithoutIndex(xs[1..], index - 1);
      if index == 0 then
        assert xs[1..] == xs[..0] + xs[1..];
        rest
      else
        assert 0 < index < |xs| ==> xs[..index] == [xs[0]] + xs[1..][..index - 1];
        assert 0 < index < |xs| ==> xs[index + 1..] == xs[1..][index..];
        assert [xs[0]] + xs[1..] == xs;
        [xs[0]] + rest
  }

  /**
    Deleting one position from a duplicate-free sequence removes exactly the
    element that was there: it no longer occurs, and every other element still does.
   */
  lemma DeleteDistinct<T>(xs: seq<T>, index: int)
    requires Distinct(xs) && 0 <= index < |xs|
    ensures Distinct(xs[..index] + xs[index + 1..])
    ensures forall x :: x in xs[..index] + xs[index + 1..] <==> x in xs && x != xs[index]
  {
    var r := xs[..index] + xs[index + 1..];
    assert forall i :: 0 <= i < |r| ==> r[i] == xs[Skip(i, index)];
    forall i, j | 0 <= i < j < |r| ensures r[i] != r[j] {
      assert Skip(i, index) < Skip(j, index);
    }
    forall x | x in xs && x != xs[index] ensures x in r {
      var i :| 0 <= i < |xs| && xs[i] == x;
      var k := if i < index then i else i - 1;
      assert r[k] == x;
    }
  }

  /** The position in the original sequence of position `i` after deleting position `index`. */
  function Skip(i: int, index: int): int {
    if i < index then i else i + 1
  }

  /**
    `xs.filter(keep)`: the elements for which `keep` holds, in their original
    order, each as often as it occurs in `xs`.
   */
  function Filter<T(!new)>(xs: seq<T>, keep: T -> bool): (r: seq<T>)
    ensures IsSubsequence(r, xs)
    ensures forall x :: x in r <==> x in xs && keep(x)
    ensures forall x :: multiset(r)[x] == if keep(x) then multiset(xs)[x] else 0
    decreases |xs|
  {
    if xs == [] then []
    else
      var rest := Filter(xs[1..], keep);
      var r := if keep(xs[0]) then [xs[0]] + rest else rest;
      assert keep(xs[0]) ==> r[1..] == rest;
      assert xs == [xs[0]] + xs[1..];
      assert multiset(xs) == multiset{xs[0]} + multiset(xs[1..]);
      r
  }

  /** Filtering with two predicates that agree on every element gives the same result. */
  lemma {:induction false} FilterCongruent<T(!new)>(xs: seq<T>, p: T -> bool, q: T -> bool)
    requires forall i :: 0 <= i < |xs| ==> p(xs[i]) == q(xs[i])
    ensures Filter(xs, p) == Filter(xs, q)
    decreases |xs|
  {
    if xs != [] {
      FilterCongruent(xs[1..], p, q);
    }
  }

  /** Filtering with a weaker predicate keeps everything the stronger one keeps, in the same order. */
  lemma {:induction false} FilterMonotone<T(!new)>(xs: seq<T>, p: T -> bool, q: T -> bool)
    requires forall i :: 0 <= i < |xs| ==> p(xs[i]) ==> q(xs[i])
    ensures IsSubsequence(Filter(xs, p), Filter(xs, q))
    decreases |xs|
  {
    if xs != [] {
      FilterMonotone(xs[1..], p, q);
      var a := Filter(xs[1..], p);
      var b := Filter(xs[1..], q);
      if p(xs[0]) {
        assert ([xs[0]] + a)[1..] == a;
        assert ([xs[0]] + b)[1..] == b;
      } else if q(xs[0]) {
        assert ([xs[0]] + b)[1..] == b;
      }
    }
  }

  /** A predicate that holds of every element keeps the whole sequence. */
  lemma {:induction false} FilterKeepsAll<T(!new)>(xs: seq<T>, keep: T -> bool)
    requires forall i :: 0 <= i < |xs| ==> keep(xs[i])
    ensures Filter(xs, keep) == xs
    decreases |xs|
  {
    if xs != [] {
      FilterKeepsAll(xs[1..], keep);
      assert xs == [xs[0]] + xs[1..];
    }
  }
}
