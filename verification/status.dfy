/**
 * The status of a round, derived from the selection, the remaining time,
 * the shown numbers and the target (`calcGameStatus` in
 * src/components/Game.js).
 */
module GameStatus {
  import opened Sequences
  import opened Generation

  datatype Status = Playing | Won | Lost

  /** A status other than `Playing` ends the round. */
  predicate IsTerminal(s: Status)
  {
    s != Playing
  }

  /**
   * `calcGameStatus`: the selected positions are summed over the SHOWN
   * numbers; running out of time loses whatever the sum, and otherwise the
   * sum below, at or above the target gives playing, won or lost. The last
   * comparison of the chain always holds when the ones before it fail, so
   * the derivation never falls through without a status.
   */
  function CalcStatus(selectedIds: seq<int>, remainingSeconds: int, shown: seq<int>, target: int): (r: Status)
    requires IndicesIn(selectedIds, |shown|)
    ensures r == Playing <==> remainingSeconds != 0 && Sum(Pick(shown, selectedIds)) < target
    ensures r == Won <==> remainingSeconds != 0 && Sum(Pick(shown, selectedIds)) == target
    ensures r == Lost <==> remainingSeconds == 0 || Sum(Pick(shown, selectedIds)) > target
  {
    var sumSelected := Sum(Pick(shown, selectedIds));
    if remainingSeconds == 0 then Lost
    else if sumSelected < target then Playing
    else if sumSelected == target then Won
    else if sumSelected > target then Lost
    else assert false; Lost
  }

  /**
   * Time-out precedence: with no time left the round is lost even when the
   * selection hits the target exactly.
   */
  lemma TimeoutBeatsExactSum(selectedIds: seq<int>, shown: seq<int>, target: int)
    requires IndicesIn(selectedIds, |shown|)
    requires Sum(Pick(shown, selectedIds)) == target
    ensures CalcStatus(selectedIds, 0, shown, target) == Lost
    ensures forall r :: r != 0 ==> CalcStatus(selectedIds, r, shown, target) == Won
  {
  }

  /**
   * A terminal status stays terminal: over non-negative shown numbers,
   * selecting more positions and having less time left never brings the
   * derived status back to `Playing`.
   */
  lemma TerminalIsAbsorbing(shown: seq<int>, target: int, ids: seq<int>, r: int, ids': seq<int>, r': int)
    requires forall k :: 0 <= k < |shown| ==> 0 <= shown[k]
    requires IndicesIn(ids', |shown|) && ids <= ids'
    requires 0 <= r' <= r
    requires IsTerminal(CalcStatus(ids, r, shown, target))
    ensures IsTerminal(CalcStatus(ids', r', shown, target))
  {
    ExtensionSumGrows(shown, ids, ids');
  }

  /**
   * Every round can be won while time is left: tapping the positions where
   * the target's leading numbers are shown keeps the round playing after
   * every tap but the last, and the last tap wins it.
   */
  lemma EveryRoundIsWinnable(numbers: seq<int>, order: seq<int>, r: int)
    requires InRange(numbers) && |numbers| >= 3
    requires IsPermutation(order, |numbers|)
    requires r != 0
    ensures forall k :: 0 <= k < |numbers| ==> k in order
    ensures var shown := Shuffle(numbers, order);
            var sol := PositionsOf(order, TargetLength(|numbers|));
            Distinct(sol) && IndicesIn(sol, |shown|) &&
            CalcStatus(sol, r, shown, Target(numbers)) == Won &&
            forall j :: 0 <= j < |sol| ==> CalcStatus(sol[..j], r, shown, Target(numbers)) == Playing
  {
    var m := TargetLength(|numbers|);
    TargetPrefixIsShown(numbers, order, m);
    var shown := Shuffle(numbers, order);
    var sol := PositionsOf(order, m);
    forall j | 0 <= j < |sol|
      ensures CalcStatus(sol[..j], r, shown, Target(numbers)) == Playing
    {
      TargetPrefixIsShown(numbers, order, j);
      PrefixSumIncreases(numbers, j, m);
    }
  }
}
