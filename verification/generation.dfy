/**
 * Round generation: the random numbers of a round, the target they define
 * and the shuffled order in which they are shown (src/components/Game.js,
 * the `randomNumbers`, `target` and `shuffledRandomNumbers` fields).
 *
 * `Math.random()` and lodash's `shuffle` are not modelled; what they hand
 * back enters as parameters: one draw in [0, 1) per number, and a
 * permutation of the indices.
 */
module Generation {
  import opened Sequences

  /** What `Math.random()` promises about a draw: it lies in [0, 1). */
  predicate IsUnitDraw(u: real)
  {
    0.0 <= u < 1.0
  }

  predicate AllUnitDraws(draws: seq<real>)
  {
    forall k :: 0 <= k < |draws| ==> IsUnitDraw(draws[k])
  }

  /** Every value lies in 1..10. */
  predicate InRange(numbers: seq<int>)
  {
    forall k :: 0 <= k < |numbers| ==> 1 <= numbers[k] <= 10
  }

  /** `1 + Math.floor(10 * u)` for one draw `u`. */
  function RandomNumber(u: real): (n: int)
    requires IsUnitDraw(u)
    ensures 1 <= n <= 10
  {
    1 + (10.0 * u).Floor
  }

  /** One number per draw, in draw order. */
  function RandomNumbers(draws: seq<real>): (numbers: seq<int>)
    requires AllUnitDraws(draws)
    ensures |numbers| == |draws| && InRange(numbers)
  {
    seq(|draws|, k requires 0 <= k < |draws| => RandomNumber(draws[k]))
  }

  /**
   * The end position `slice(0, end)` uses on an array of length `len`: a
   * negative `end` counts back from the length, and the result is clamped
   * to 0..len.
   */
  function SliceEnd(len: nat, end: int): (e: nat)
    ensures e <= len
  {
    if end < 0 then (if len + end < 0 then 0 else len + end)
    else if end < len then end
    else len
  }

  /**
   * How many leading numbers the target adds up: `slice(0, count - 2)` on
   * `count` numbers keeps all but the last two, and none when there are at
   * most two.
   */
  function TargetLength(count: nat): (m: nat)
    ensures count >= 2 ==> m == count - 2
    ensures count <= 2 ==> m == 0
  {
    SliceEnd(count, count - 2)
  }

  /** The target: the sum of the leading numbers in generation (unshuffled) order. */
  function Target(numbers: seq<int>): int
  {
    Sum(numbers[..TargetLength(|numbers|)])
  }

  /** With numbers in 1..10, the target lies between the prefix length and ten times it. */
  lemma TargetBounds(numbers: seq<int>)
    requires InRange(numbers)
    ensures TargetLength(|numbers|) <= Target(numbers) <= 10 * TargetLength(|numbers|)
  {
    var prefix := numbers[..TargetLength(|numbers|)];
    SumAtLeast(prefix, 1);
    SumAtMost(prefix, 10);
  }

  /** `order` lists each index 0..n-1 exactly once. */
  predicate IsPermutation(order: seq<int>, n: nat)
  {
    multiset(order) == multiset(Indices(n))
  }

  /**
   * A permutation of 0..n-1 has length n, holds only indices in 0..n-1,
   * holds each of them, and holds none twice.
   */
  lemma PermutationShape(order: seq<int>, n: nat)
    requires IsPermutation(order, n)
    ensures |order| == n && IndicesIn(order, n) && Distinct(order)
    ensures forall k :: 0 <= k < n ==> k in order
  {
    assert |order| == |multiset(order)| == |multiset(Indices(n))| == n;
    forall k | 0 <= k < |order|
      ensures 0 <= order[k] < n
    {
      assert order[k] in multiset(order);
      IndicesCount(n, order[k]);
    }
    forall i, j | 0 <= i < j < |order|
      ensures order[i] != order[j]
    {
      if order[i] == order[j] {
        var x := order[i];
        assert order == order[..i] + [x] + order[i + 1..j] + [x] + order[j + 1..];
        assert multiset(order)[x] >= 2;
        IndicesCount(n, x);
        assert false;
      }
    }
    forall k | 0 <= k < n
      ensures k in order
    {
      IndicesCount(n, k);
      assert k in multiset(order);
    }
  }

  /**
   * `shuffle(randomNumbers)`: position `p` shows the number generated at
   * index `order[p]`; the shown numbers are the generated ones, rearranged.
   */
  function Shuffle(numbers: seq<int>, order: seq<int>): (shown: seq<int>)
    requires IsPermutation(order, |numbers|)
    ensures |shown| == |numbers| && multiset(shown) == multiset(numbers)
    ensures |order| == |numbers| && IndicesIn(order, |numbers|)
    ensures forall p :: 0 <= p < |shown| ==> shown[p] == numbers[order[p]]
  {
    PermutationShape(order, |numbers|);
    PickRespectsMultiset(numbers, order, Indices(|numbers|));
    assert Pick(numbers, Indices(|numbers|)) == numbers;
    Pick(numbers, order)
  }

  /**
   * Selections name SHOWN positions: the numbers picked at positions `ids`
   * of the shuffled numbers are the generated numbers at the indices the
   * permutation puts there, `order[ids[0]], order[ids[1]], ...`.
   */
  lemma SelectionThroughOrder(numbers: seq<int>, order: seq<int>, ids: seq<int>)
    requires IsPermutation(order, |numbers|)
    requires IndicesIn(ids, |numbers|)
    ensures |order| == |numbers| && IndicesIn(Pick(order, ids), |numbers|)
    ensures Pick(Shuffle(numbers, order), ids) == Pick(numbers, Pick(order, ids))
  {
    PermutationShape(order, |numbers|);
  }

  /** The presentation positions at which the generated indices 0..m-1 are shown. */
  function PositionsOf(order: seq<int>, m: nat): (ps: seq<int>)
    requires forall k :: 0 <= k < m ==> k in order
    ensures |ps| == m && IndicesIn(ps, |order|) && Distinct(ps)
    ensures forall k :: 0 <= k < m ==> order[ps[k]] == k
  {
    seq(m, k requires 0 <= k < m => IndexOf(order, k))
  }

  /**
   * Every round is solvable: tapping the positions where the target's own
   * leading numbers are shown selects distinct positions, and the first
   * `j` of those taps add up to the first `j` generated numbers; all of
   * them add up to the target.
   */
  lemma TargetPrefixIsShown(numbers: seq<int>, order: seq<int>, j: nat)
    requires IsPermutation(order, |numbers|)
    requires j <= TargetLength(|numbers|)
    ensures forall k :: 0 <= k < |numbers| ==> k in order
    ensures var sol := PositionsOf(order, TargetLength(|numbers|));
            Distinct(sol) && IndicesIn(sol, |numbers|) &&
            Sum(Pick(Shuffle(numbers, order), sol[..j])) == Sum(numbers[..j])
    ensures Sum(Pick(Shuffle(numbers, order), PositionsOf(order, TargetLength(|numbers|)))) == Target(numbers)
  {
    PermutationShape(order, |numbers|);
    var shown := Shuffle(numbers, order);
    var sol := PositionsOf(order, TargetLength(|numbers|));
    forall i | 0 <= i <= TargetLength(|numbers|)
      ensures Pick(shown, sol[..i]) == numbers[..i]
    {
      assert forall k :: 0 <= k < i ==> Pick(shown, sol[..i])[k] == numbers[..i][k];
    }
    assert sol[..TargetLength(|numbers|)] == sol;
  }
}
