/**
 * Sequence operations standing in for the JavaScript array calls the game
 * makes: `reduce` with `+` (Sum), `indexOf` (IndexOf), reading an array at a
 * list of positions (Pick) and the index range `0..n-1` (Indices).
 */
module Sequences {

  /** Every entry of `ids` is a valid index into a sequence of length `n`. */
  predicate IndicesIn(ids: seq<int>, n: int)
  {
    forall k :: 0 <= k < |ids| ==> 0 <= ids[k] < n
  }

  /** No value occurs twice in `s`. */
  predicate Distinct(s: seq<int>)
  {
    forall i, j :: 0 <= i < j < |s| ==> s[i] != s[j]
  }

  /** `s.reduce((acc, curr) => acc + curr, 0)`: a left fold with `+` from 0. */
  function Sum(s: seq<int>): int
  {
    if s == [] then 0 else Sum(s[..|s| - 1]) + s[|s| - 1]
  }

  /** The values of `xs` at the positions `ids`, in the order of `ids`. */
  function Pick(xs: seq<int>, ids: seq<int>): seq<int>
    requires IndicesIn(ids, |xs|)
  {
    seq(|ids|, k requires 0 <= k < |ids| => xs[ids[k]])
  }

  /** The indices `0, 1, ..., n - 1` in increasing order. */
  function Indices(n: nat): seq<int>
  {
    seq(n, k => k)
  }

  /**
   * `s.indexOf(x)`: the position of the first occurrence of `x` in `s`, or
   * -1 when `x` does not occur.
   */
  function IndexOf(s: seq<int>, x: int): (k: int)
    ensures -1 <= k < |s|
    ensures k == -1 <==> x !in s
    ensures 0 <= k ==> s[k] == x && x !in s[..k]
  {
    if s == [] then -1
    else if s[0] == x then 0
    else
      var k' := IndexOf(s[1..], x);
      assert s == [s[0]] + s[1..];
      if k' == -1 then -1
      else
        assert s[..k' + 1] == [s[0]] + s[1..][..k'];
        k' + 1
  }

  /** The sum of a concatenation is the sum of the parts. */
  lemma {:induction false} SumAppend(a: seq<int>, b: seq<int>)
    ensures Sum(a + b) == Sum(a) + Sum(b)
  {
    if b == [] {
      assert a + b == a;
    } else {
      assert (a + b)[..|a + b| - 1] == a + b[..|b| - 1];
      SumAppend(a, b[..|b| - 1]);
    }
  }

  /** A sum of `|s|` values that are each at least `lo` is at least `lo * |s|`. */
  lemma {:induction false} SumAtLeast(s: seq<int>, lo: int)
    requires forall k :: 0 <= k < |s| ==> lo <= s[k]
    ensures lo * |s| <= Sum(s)
  {
    if s != [] {
      SumAtLeast(s[..|s| - 1], lo);
      assert lo * |s| == lo * (|s| - 1) + lo;
    }
  }

  /** A sum of `|s|` values that are each at most `hi` is at most `hi * |s|`. */
  lemma {:induction false} SumAtMost(s: seq<int>, hi: int)
    requires forall k :: 0 <= k < |s| ==> s[k] <= hi
    ensures Sum(s) <= hi * |s|
  {
    if s != [] {
      SumAtMost(s[..|s| - 1], hi);
      assert hi * |s| == hi * (|s| - 1) + hi;
    }
  }

  /**
   * Over positive values, a longer prefix has a strictly larger sum: the
   * running total grows with every element.
   */
  lemma PrefixSumIncreases(s: seq<int>, j: nat, m: nat)
    requires j < m <= |s|
    requires forall k :: 0 <= k < |s| ==> 1 <= s[k]
    ensures Sum(s[..j]) < Sum(s[..m])
  {
    assert s[..m] == s[..j] + s[j..m];
    SumAppend(s[..j], s[j..m]);
    SumAtLeast(s[j..m], 1);
  }

  /** Over non-negative values, extending a selection never lowers its sum. */
  lemma ExtensionSumGrows(xs: seq<int>, ids: seq<int>, ids': seq<int>)
    requires IndicesIn(ids', |xs|)
    requires ids <= ids'
    requires forall k :: 0 <= k < |xs| ==> 0 <= xs[k]
    ensures Sum(Pick(xs, ids)) <= Sum(Pick(xs, ids'))
  {
    var rest := ids'[|ids|..];
    assert ids' == ids + rest;
    PickAppend(xs, ids, rest);
    SumAppend(Pick(xs, ids), Pick(xs, rest));
    SumAtLeast(Pick(xs, rest), 0);
  }

  /** Picking at a concatenation of positions concatenates the picks. */
  lemma PickAppend(xs: seq<int>, a: seq<int>, b: seq<int>)
    requires IndicesIn(a, |xs|) && IndicesIn(b, |xs|)
    ensures IndicesIn(a + b, |xs|)
    ensures Pick(xs, a + b) == Pick(xs, a) + Pick(xs, b)
  {
  }

  /** `x` occurs in `Indices(n)` exactly when it is one of `0..n-1`, and then once. */
  lemma {:induction false} IndicesCount(n: nat, x: int)
    ensures x in Indices(n) <==> 0 <= x < n
    ensures multiset(Indices(n))[x] == if 0 <= x < n then 1 else 0
  {
    if 0 <= x < n {
      assert Indices(n)[x] == x;
    }
    if n > 0 {
      IndicesCount(n - 1, x);
      assert Indices(n) == Indices(n - 1) + [n - 1];
    }
  }

  /** `s` without its element at position `i`. */
  function RemoveAt(s: seq<int>, i: int): (r: seq<int>)
    requires 0 <= i < |s|
    ensures |r| == |s| - 1
    ensures multiset(s) == multiset(r) + multiset{s[i]}
  {
    assert s == s[..i] + [s[i]] + s[i + 1..];
    s[..i] + s[i + 1..]
  }

  /** One occurrence of the same value can be cancelled from both sides of a multiset equation. */
  lemma MultisetCancel(m1: multiset<int>, m2: multiset<int>, x: int)
    requires m1 + multiset{x} == m2 + multiset{x}
    ensures m1 == m2
  {
    forall y
      ensures m1[y] == m2[y]
    {
      assert (m1 + multiset{x})[y] == (m2 + multiset{x})[y];
    }
  }

  /** Picking at `b` without position `j` drops exactly the value picked there. */
  lemma PickRemoveAt(xs: seq<int>, b: seq<int>, j: int)
    requires IndicesIn(b, |xs|) && 0 <= j < |b|
    ensures IndicesIn(RemoveAt(b, j), |xs|)
    ensures multiset(Pick(xs, b)) == multiset(Pick(xs, RemoveAt(b, j))) + multiset{xs[b[j]]}
  {
    var r := RemoveAt(b, j);
    forall k | 0 <= k < |r|
      ensures r[k] == if k < j then b[k] else b[k + 1]
    {
    }
    assert IndicesIn(r, |xs|);
    var p, q := Pick(xs, b), Pick(xs, r);
    assert q == RemoveAt(p, j) by {
      forall k | 0 <= k < |q|
        ensures q[k] == RemoveAt(p, j)[k]
      {
      }
    }
  }

  /**
   * Reading `xs` at two position lists that hold the same positions (as a
   * multiset) yields the same values (as a multiset).
   */
  lemma {:induction false} PickRespectsMultiset(xs: seq<int>, a: seq<int>, b: seq<int>)
    requires IndicesIn(a, |xs|) && IndicesIn(b, |xs|)
    requires multiset(a) == multiset(b)
    ensures multiset(Pick(xs, a)) == multiset(Pick(xs, b))
    decreases |a|
  {
    if a == [] {
      assert |b| == |multiset(b)| == 0;
    } else {
      var x := a[0];
      assert x in multiset(b);
      var j := IndexOf(b, x);
      PickRemoveAt(xs, a, 0);
      PickRemoveAt(xs, b, j);
      MultisetCancel(multiset(RemoveAt(a, 0)), multiset(RemoveAt(b, j)), x);
      PickRespectsMultiset(xs, RemoveAt(a, 0), RemoveAt(b, j));
    }
  }
}
