/**
 * Two ways a fresh round can be driven through the `Game` methods alone:
 * tapping the positions of the target's own numbers wins it, and letting
 * the countdown run with no taps loses it.
 */
module TargetSumClients {
  import opened Sequences
  import opened Generation
  import opened GameStatus
  import opened TargetSum

  /**
   * Taps, one after another, the positions where the target's leading
   * numbers are shown; with no tick in between the round stays playing
   * until the last tap, which wins it and clears the interval.
   */
  method PlayToWin(g: Game)
    requires g.Valid() && g.selectedIds == [] && g.remainingSeconds > 0
    modifies g
    ensures g.Valid() && g.gameStatus == Won && !g.intervalLive
    ensures g.remainingSeconds == old(g.remainingSeconds)
  {
    EveryRoundIsWinnable(g.randomNumbers, g.order, g.remainingSeconds);
    var sol := PositionsOf(g.order, TargetLength(g.randomNumberCount));
    var j := 0;
    while j < |sol|
      invariant 0 <= j <= |sol|
      invariant g.Valid() && g.selectedIds == sol[..j]
      invariant g.remainingSeconds == old(g.remainingSeconds)
    {
      assert sol[j] !in sol[..j];
      assert sol[..j] + [sol[j]] == sol[..j + 1];
      g.SelectNumber(sol[j]);
      j := j + 1;
    }
    assert sol[..j] == sol;
  }

  /**
   * Fires the interval `initialSeconds` times on a fresh round with no taps:
   * the countdown reaches 0, the round is lost and the interval cleared;
   * one more firing changes nothing.
   */
  method RunOutTheClock(g: Game)
    requires g.Valid() && g.selectedIds == [] && g.remainingSeconds == g.initialSeconds
    requires g.mounted
    modifies g
    ensures g.Valid() && g.remainingSeconds == 0 && g.gameStatus == Lost && !g.intervalLive
  {
    TargetBounds(g.randomNumbers);
    assert Pick(g.shuffledRandomNumbers, []) == [];
    var n := 0;
    while n < g.initialSeconds
      invariant 0 <= n <= g.initialSeconds
      invariant g.Valid() && g.mounted && g.selectedIds == []
      invariant g.remainingSeconds == g.initialSeconds - n
      invariant g.intervalLive == (n < g.initialSeconds)
    {
      g.Tick();
      n := n + 1;
    }
    g.Tick();
  }
}
