/**
 * The PHP array built-ins the users application relies on, over sequences:
 * `array_filter` with a callback, and `rsort` on a list of integers.
 */
module PhpArrays {

  /** `a` can be obtained from `b` by deleting elements, keeping the order of the rest. */
  predicate IsSubsequence<T(==)>(a: seq<T>, b: seq<T>)
    decreases |b|
  {
    if a == [] then true
    else if b == [] then false
    else if a[0] == b[0] then IsSubsequence(a[1..], b[1..])
    else IsSubsequence(a, b[1..])
  }

  /**
   * `array_filter(s, keep)`: the elements for which `keep` holds, in their
   * original order. (PHP also keeps their original keys; a sequence does not
   * carry keys.)
   */
  function ArrayFilter<T(==)>(s: seq<T>, keep: T -> bool): (r: seq<T>)
    ensures |r| <= |s|
    ensures forall i :: 0 <= i < |r| ==> r[i] in s && keep(r[i])
    ensures forall i :: 0 <= i < |s| && keep(s[i]) ==> s[i] in r
  {
    if s == [] then []
    else if keep(s[0]) then [s[0]] + ArrayFilter(s[1..], keep)
    else ArrayFilter(s[1..], keep)
  }

  /** The filter keeps the order of what it keeps. */
  lemma {:induction false} ArrayFilterIsSubsequence<T>(s: seq<T>, keep: T -> bool)
    ensures IsSubsequence(ArrayFilter(s, keep), s)
  {
    if s != [] {
      ArrayFilterIsSubsequence(s[1..], keep);
      var r := ArrayFilter(s, keep);
      if !keep(s[0]) {
        SubsequenceOfTail(r, s);
      }
    }
  }

  /** A subsequence of the tail of `b` is a subsequence of `b`. */
  lemma {:induction false} SubsequenceOfTail<T>(a: seq<T>, b: seq<T>)
    requires b != [] && IsSubsequence(a, b[1..])
    ensures IsSubsequence(a, b)
    decreases |b|, 0
  {
    if a != [] && a[0] == b[0] {
      if |b| > 1 {
        SubsequenceDropHead(a, b[1..]);
      } else {
        assert false;
      }
    }
  }

  /** Dropping the first element of a subsequence leaves a subsequence. */
  lemma {:induction false} SubsequenceDropHead<T>(a: seq<T>, b: seq<T>)
    requires a != [] && IsSubsequence(a, b)
    ensures IsSubsequence(a[1..], b)
    decreases |b|, 1
  {
    if a[0] == b[0] {
      SubsequenceOfTail(a[1..], b);
    } else {
      SubsequenceDropHead(a, b[1..]);
      SubsequenceOfTail(a[1..], b);
    }
  }

  /** Every kept element is kept as many times as it occurs; every other one is dropped. */
  lemma {:induction false} ArrayFilterCount<T>(s: seq<T>, keep: T -> bool, x: T)
    ensures multiset(ArrayFilter(s, keep))[x] == if keep(x) then multiset(s)[x] else 0
  {
    if s != [] {
      ArrayFilterCount(s[1..], keep, x);
      assert s == [s[0]] + s[1..];
    }
  }

  /** Filtering with two callbacks that agree on the elements gives the same result. */
  lemma {:induction false} ArrayFilterCongruent<T>(s: seq<T>, p: T -> bool, q: T -> bool)
    requires forall x :: x in s ==> p(x) == q(x)
    ensures ArrayFilter(s, p) == ArrayFilter(s, q)
  {
    if s != [] {
      ArrayFilterCongruent(s[1..], p, q);
    }
  }

  /** Sorted from largest to smallest, the order `rsort` produces. */
  predicate Descending(s: seq<int>) {
    forall i, j :: 0 <= i < j < |s| ==> s[i] >= s[j]
  }

  /** Inserts `x` into a descending sequence, keeping it descending. */
  function InsertDescending(x: int, s: seq<int>): (r: seq<int>)
    requires Descending(s)
    ensures Descending(r)
    ensures multiset(r) == multiset(s) + multiset{x}
    ensures |r| == |s| + 1
    ensures r[0] == x || (s != [] && r[0] == s[0])
  {
    if s == [] || x >= s[0] then [x] + s
    else
      var rest := InsertDescending(x, s[1..]);
      assert s == [s[0]] + s[1..];
      [s[0]] + rest
  }

  /** `rsort(s)`: the same integers, largest first. */
  function RSort(s: seq<int>): (r: seq<int>)
    ensures Descending(r)
    ensures multiset(r) == multiset(s)
  {
    if s == [] then []
    else
      assert s == [s[0]] + s[1..];
      InsertDescending(s[0], RSort(s[1..]))
  }

  /** After `rsort`, the first element is the largest one. */
  lemma RSortHeadIsMaximum(s: seq<int>)
    requires s != []
    ensures RSort(s) != [] && RSort(s)[0] in s
    ensures forall x :: x in s ==> x <= RSort(s)[0]
  {
    var r := RSort(s);
    assert s[0] in multiset(r);
    assert r[0] in multiset(s);
    forall x | x in s
      ensures x <= r[0]
    {
      assert x in multiset(r);
      var k :| 0 <= k < |r| && r[k] == x;
      assert k == 0 || r[0] >= r[k];
    }
  }
}
