# Target-sum game: a Dafny model of the round state machine

The game shows a handful of random numbers in shuffled order along with a
target. The player taps numbers to make their sum hit the target before a
countdown runs out. This project models the `Game` component of
`src/components/Game.js`:

- how a round is generated: the random numbers, the target and the shuffled display;
- the selection of shown numbers;
- the one-second countdown;
- how the status (`PLAYING`, `WON`, `LOST`) is derived and cached.

It then proves what the component promises.

Files and modules:

- `sequences.dfy` (`Sequences`): the array operations the component relies on. `Sum` stands for `reduce` with `+`, `IndexOf` for `indexOf`, and `Pick` reads an array at a list of positions. The file also holds the multiset facts behind "a shuffle is a permutation".
- `generation.dfy` (`Generation`): round generation.
  - One number `1 + floor(10 * u)` is drawn per `Math.random()` value `u`.
  - The target is the sum of `slice(0, randomNumberCount - 2)`, following JavaScript's `slice` rules for a negative end.
  - The shuffle is the permutation of indices that lodash's `shuffle` applies.
  - Every round is solvable.
- `status.dfy` (`GameStatus`): `calcGameStatus` as a pure function, plus lemmas about it: time-out precedence, terminal statuses are absorbing, every round can be won.
- `game.dfy` (`TargetSum`): the component as a class. Its fields follow the component's instance fields and state: `randomNumbers`, `order`, `target`, `shuffledRandomNumbers`, `selectedIds`, `remainingSeconds`, the cached `gameStatus`, and `intervalLive` (the interval is still set). The React lifecycle becomes explicit methods:
  - the constructor builds the round and mounts it, which starts the interval;
  - `Tick` is one firing of the interval;
  - `SelectNumber` is a press forwarded by an enabled number;
  - `WillUpdate` is `UNSAFE_componentWillUpdate` together with the state change it precedes;
  - `Unmount` is `componentWillUnmount`.

  `Valid()` is the object invariant. It says the cached status always equals the status derived from the current state, the interval is live exactly while the component is mounted and playing, the selection holds distinct shown positions, and the countdown stays between 0 and its start.
- `clients.dfy` (`TargetSumClients`): two drivers that use only the class's contracts. Tapping the target's own numbers wins any fresh round. Letting the clock run with no taps loses it.

Randomness is a parameter. The constructor takes one draw in [0, 1) per number and a permutation of the indices. "Play again" in `src/components/App.js` remounts the component, which here means constructing a new `Game`.

Where the code and a design reading of it differ, the model follows the code:

- The code has no configuration error. With fewer than 3 numbers the target is simply 0, and the model reproduces this through `TargetLength`.
- The status is cached in a field rather than derived on demand. The model keeps the cache and proves that it always agrees with the derivation.
- The selection is an ordered list that keeps tap order, not a set.

## Model

| member | source | states |
|---|---|---|
| `Generation.RandomNumber` | src/components/Game.js:38 | a draw `u` in [0, 1) gives `1 + floor(10u)` in 1..10 |
| `Generation.RandomNumbers` | src/components/Game.js:37-39 | exactly one number per draw (`randomNumberCount` of them), every one in 1..10 |
| `Generation.TargetLength` | src/components/Game.js:42-44 | `slice(0, count - 2)` keeps `count - 2` numbers when `count >= 2` and none when `count <= 2` (a negative end counts back from the length) |
| `Generation.TargetBounds` | src/components/Game.js:42-44 | with numbers in 1..10 the target lies between the prefix length and ten times it (so it is at least 1 for 3 or more numbers) |
| `Generation.PermutationShape` | src/components/Game.js:48 | the shuffle's permutation has length n, holds only indices 0..n-1, holds every one of them, and none twice |
| `Generation.Shuffle` | src/components/Game.js:48 | the shuffled numbers are the generated numbers rearranged: same length, same multiset, position `p` shows the number generated at `order[p]` |
| `Generation.SelectionThroughOrder` | src/components/Game.js:95-97 | summing `shuffledRandomNumbers[curr]` over selected positions reads the generated numbers at the indices the permutation put there, not at the selected indices themselves |
| `Generation.PositionsOf` | src/components/Game.js:48 | the shown positions of generated indices 0..m-1 are distinct valid positions, and the permutation maps each back to its index |
| `Generation.TargetPrefixIsShown` | src/components/Game.js:42-48 | the target's own numbers are shown at distinct positions whose first j taps sum to the first j generated numbers and whose taps together sum to the target |
| `GameStatus.CalcStatus` | src/components/Game.js:92-110 | PLAYING iff time is left and the selected sum is below the target, WON iff time is left and the sum equals it, LOST iff time is up or the sum exceeds it; the final comparison never falls through without a status |
| `GameStatus.TimeoutBeatsExactSum` | src/components/Game.js:98-100 | at 0 seconds the status is LOST even when the selected sum equals the target, which with time left is WON |
| `GameStatus.TerminalIsAbsorbing` | src/components/Game.js:92-110 | over non-negative numbers, extending the selection and lowering the time never turns WON or LOST back into PLAYING |
| `GameStatus.EveryRoundIsWinnable` | src/components/Game.js:42-48 | for numbers in 1..10 and any permutation, while time is left, tapping the target's own numbers keeps the round PLAYING after every proper prefix of taps and makes it WON after the last |
| `Sequences.IndexOf` | src/components/Game.js:32 | `indexOf`: -1 exactly when the value is absent, otherwise the position of its first occurrence |
| `TargetSum.Game.IsNumberSelected` | src/components/Game.js:31-33 | holds exactly when the position is in `selectedIds` |
| `TargetSum.Game.constructor` | src/components/Game.js:14-48 | builds the numbers from the draws, sets the target to the sum of all but the last two, stores the shuffled numbers; empty selection, full countdown, PLAYING, interval live; establishes the invariant |
| `TargetSum.Game.WillUpdate` | src/components/Game.js:76-89 | when the selection changes or the countdown reaches 0, the cached status becomes the derived status of the next state and a terminal status clears the interval; otherwise status and interval are untouched; then the next state is installed |
| `TargetSum.Game.SelectNumber` | src/components/Game.js:24-29 | a tap on a disabled number (already selected or round over) changes nothing; otherwise the position is appended and every earlier one stays in place and order; the time is unchanged, the status is re-derived, a finished round is never changed |
| `TargetSum.Game.Tick` | src/components/Game.js:53-63 | while the interval is live the time drops by exactly 1 and the selection is unchanged; reaching 0 makes the round LOST and clears the interval; a cleared interval changes nothing, so the time never goes below 0 and a finished round never changes |
| `TargetSum.Game.Unmount` | src/components/Game.js:70-72 | the interval is cleared and the round state is kept |
| `TargetSumClients.PlayToWin` | src/components/Game.js:42-44 | on any fresh round with time left, tapping the target's own numbers through `SelectNumber` ends WON with the interval cleared |
| `TargetSumClients.RunOutTheClock` | src/components/Game.js:53-63 | on a fresh mounted round, `initialSeconds` ticks with no taps end at 0 seconds, LOST, interval cleared |

## Left out

- Rendering, the style sheets, `Button`, `TouchableOpacity` and the `RandomNumber` component are presentation. The only thing kept from them is the disabled-number guard: a number is disabled when it is selected or the round is not playing (src/components/Game.js:129-131), and presses on disabled numbers are dropped (src/components/RandomNumber.js:20). `SelectNumber` folds this guard in as a no-op.
- Timing: `setInterval`, `clearInterval` and their one-second period are not modelled. Neither is React's asynchronous, batched `setState`. The interval is the boolean `intervalLive`, and each firing is one `Tick` call.
- RandomNumber: `10 * u` is computed with exact reals rather than IEEE doubles, so floating-point rounding is not modelled.
- The statistics of `Math.random` and of lodash's `shuffle` are not modelled. Only their contracts are kept: a draw lies in [0, 1), and the shuffle is a permutation.
- `TargetSum.Game.constructor` requires `randomNumberCount >= 3` and `initialSeconds > 0`; App.js always passes 6 and 10. For fewer than 3 numbers the target is 0 (see `TargetLength`), yet the cached status starts as PLAYING. With `initialSeconds <= 0`, the source counts down past 0 and its `=== 0` check never fires. Neither configuration is modelled as a round.
- `TargetSum.Game.SelectNumber` requires an index within the shown numbers. Only rendered positions are ever forwarded. The source has no check for other indices: they would add `undefined` to the sum, and the status chain would return no value.
- The `gameId` remount counter and the fixed configuration in src/components/App.js are not modelled. "Play again" is a new `Game`.
- `console.log` and the PropTypes declarations are not modelled.
- `GameStatus.TimeoutBeatsExactSum` is a fact about the derivation. Through the object, a selection that hits the target makes the round WON and stops the interval first, so the object never reaches 0 seconds with an exact sum.
