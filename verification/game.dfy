/**
 * The `Game` component of src/components/Game.js as an object: the round it
 * generated, the selected positions, the countdown, the cached status and
 * whether the countdown interval is still live.
 *
 * The React lifecycle becomes explicit calls: the constructor builds the
 * round and mounts it (starting the interval), `Tick` is one firing of the
 * interval, `SelectNumber` is a press forwarded by a shown number,
 * `WillUpdate` is the hook that recomputes the cached status before a state
 * change, and `Unmount` is the teardown. "Play again" constructs a new
 * `Game`.
 */
module TargetSum {
  import opened Sequences
  import opened Generation
  import opened GameStatus

  class Game {
    const randomNumberCount: nat
    const initialSeconds: int
    /** The generated numbers, in generation order. */
    const randomNumbers: seq<int>
    const target: int
    /** The permutation the shuffle applied: position `p` shows `randomNumbers[order[p]]`. */
    const order: seq<int>
    const shuffledRandomNumbers: seq<int>

    /** The tapped positions of `shuffledRandomNumbers`, in tap order. */
    var selectedIds: seq<int>
    var remainingSeconds: int
    /** The status as last computed (the `gameStatus` instance field). */
    var gameStatus: Status
    /** The countdown interval has been started and not yet cleared. */
    var intervalLive: bool
    var mounted: bool

    /**
     * The round is well formed, the selection names distinct shown positions,
     * the countdown lies between 0 and its start, the cached status equals
     * the status derived from the current state, and the interval is live
     * exactly while the component is mounted and the round is playing.
     */
    ghost predicate Valid()
      reads this
    {
      && randomNumberCount >= 3 && initialSeconds > 0
      && |randomNumbers| == randomNumberCount
      && InRange(randomNumbers)
      && target == Target(randomNumbers)
      && IsPermutation(order, randomNumberCount)
      && shuffledRandomNumbers == Shuffle(randomNumbers, order)
      && IndicesIn(selectedIds, |shuffledRandomNumbers|)
      && Distinct(selectedIds)
      && 0 <= remainingSeconds <= initialSeconds
      && gameStatus == CalcStatus(selectedIds, remainingSeconds, shuffledRandomNumbers, target)
      && (intervalLive <==> mounted && gameStatus == Playing)
    }

    /**
     * Builds a round from one `Math.random()` draw per number and the
     * permutation `shuffle` applied, then mounts it: nothing selected, the
     * full countdown, playing, interval live.
     */
    constructor (randomNumberCount: nat, initialSeconds: int, draws: seq<real>, order: seq<int>)
      requires randomNumberCount >= 3 && initialSeconds > 0
      requires |draws| == randomNumberCount && AllUnitDraws(draws)
      requires IsPermutation(order, randomNumberCount)
      ensures Valid()
      ensures this.randomNumberCount == randomNumberCount && this.initialSeconds == initialSeconds
      ensures randomNumbers == RandomNumbers(draws) && this.order == order
      ensures target == Sum(randomNumbers[..randomNumberCount - 2])
      ensures shuffledRandomNumbers == Shuffle(randomNumbers, order)
      ensures selectedIds == [] && remainingSeconds == initialSeconds
      ensures gameStatus == Playing && intervalLive && mounted
    {
      this.randomNumberCount := randomNumberCount;
      this.initialSeconds := initialSeconds;
      var numbers := RandomNumbers(draws);
      randomNumbers := numbers;
      target := Target(numbers);
      this.order := order;
      shuffledRandomNumbers := Shuffle(numbers, order);
      selectedIds := [];
      remainingSeconds := initialSeconds;
      gameStatus := Playing;
      // componentDidMount starts the countdown
      intervalLive := true;
      mounted := true;
      TargetBounds(numbers);
      assert Pick(Shuffle(numbers, order), []) == [];
    }

    /** `isNumberSelected`: whether the shown position has been tapped (via `indexOf`). */
    function IsNumberSelected(numberIndex: int): (r: bool)
      reads this
      ensures r <==> numberIndex in selectedIds
    {
      IndexOf(selectedIds, numberIndex) >= 0
    }

    /** A shown number is disabled once tapped or once the round is over. */
    predicate IsDisabled(numberIndex: int)
      reads this
    {
      IsNumberSelected(numberIndex) || gameStatus != Playing
    }

    /**
     * `UNSAFE_componentWillUpdate` followed by the state change it precedes:
     * when the selection changes or the countdown reaches 0, the status is
     * recomputed from the next state and a terminal status clears the
     * interval; then the next state becomes the current one.
     */
    method WillUpdate(nextSelectedIds: seq<int>, nextRemainingSeconds: int)
      requires IndicesIn(nextSelectedIds, |shuffledRandomNumbers|)
      modifies this
      ensures selectedIds == nextSelectedIds && remainingSeconds == nextRemainingSeconds
      ensures mounted == old(mounted)
      ensures nextSelectedIds != old(selectedIds) || nextRemainingSeconds == 0 ==>
        && gameStatus == CalcStatus(nextSelectedIds, nextRemainingSeconds, shuffledRandomNumbers, target)
        && intervalLive == (old(intervalLive) && gameStatus == Playing)
      ensures nextSelectedIds == old(selectedIds) && nextRemainingSeconds != 0 ==>
        gameStatus == old(gameStatus) && intervalLive == old(intervalLive)
    {
      if nextSelectedIds != selectedIds || nextRemainingSeconds == 0 {
        gameStatus := CalcStatus(nextSelectedIds, nextRemainingSeconds, shuffledRandomNumbers, target);
        if gameStatus != Playing {
          intervalLive := false;
        }
      }
      selectedIds := nextSelectedIds;
      remainingSeconds := nextRemainingSeconds;
    }

    /**
     * `selectNumber`, reached only through an enabled shown number: a tap on
     * a disabled number changes nothing; otherwise the position is appended
     * to the selection and the status is recomputed. The selection only
     * grows, and a finished round is never changed.
     */
    method SelectNumber(numberIndex: int)
      requires Valid()
      requires 0 <= numberIndex < |shuffledRandomNumbers|
      modifies this
      ensures Valid()
      ensures old(IsDisabled(numberIndex)) ==> unchanged(this)
      ensures !old(IsDisabled(numberIndex)) ==>
        && selectedIds == old(selectedIds) + [numberIndex]
        && remainingSeconds == old(remainingSeconds)
        && mounted == old(mounted)
      ensures old(selectedIds) <= selectedIds
      ensures IsTerminal(old(gameStatus)) ==> unchanged(this)
    {
      if IsDisabled(numberIndex) {
        return;
      }
      WillUpdate(selectedIds + [numberIndex], remainingSeconds);
    }

    /**
     * One firing of the countdown interval: while it is live, the remaining
     * time drops by exactly one and the status is recomputed when it reaches
     * 0, which loses the round and clears the interval. A cleared interval
     * no longer fires, so the time never drops below 0 and a finished round
     * is never changed.
     */
    method Tick()
      requires Valid()
      modifies this
      ensures Valid()
      ensures !old(intervalLive) ==> unchanged(this)
      ensures old(intervalLive) ==>
        && remainingSeconds == old(remainingSeconds) - 1
        && selectedIds == old(selectedIds)
        && mounted == old(mounted)
      ensures 0 <= remainingSeconds <= old(remainingSeconds)
      ensures remainingSeconds == 0 ==> gameStatus == Lost && !intervalLive
      ensures IsTerminal(old(gameStatus)) ==> unchanged(this)
    {
      if !intervalLive {
        return;
      }
      WillUpdate(selectedIds, remainingSeconds - 1);
      // the setState callback
      if remainingSeconds == 0 {
        intervalLive := false;
      }
    }

    /** `componentWillUnmount`: the interval is cleared; the round state stays as it was. */
    method Unmount()
      requires Valid()
      modifies this
      ensures Valid()
      ensures !mounted && !intervalLive
      ensures selectedIds == old(selectedIds) && remainingSeconds == old(remainingSeconds)
      ensures gameStatus == old(gameStatus)
    {
      intervalLive := false;
      mounted := false;
    }
  }
}
