# SpongeBob canvas game: the game-state machine in Dafny

The game (`js/spongebob.js`) moves SpongeBob around a canvas with the arrow keys.
A black-hole obstacle and a yellow item bounce around the canvas. Touching the obstacle costs a
life and five points, then either starts a blinking "flash" or, on the last life, ends the game.
A game-over display follows and after it a fresh game. Touching the item earns five points and
moves the item to a random place.

This project models the state behind that. The source keeps it in three module-level records
that its functions update in place:

- `state`: SpongeBob's position, lives, score, the `gameOver` and `flashing` flags, the flash
  counter and the handle of the current flash interval.
- `obstacle`: the obstacle's centre and velocity.
- `item`: the item's corner and velocity.

The model adds the host's pending timers: the running flash intervals, each with its completion
callback, and the pending game-over timeouts.

- `rules.dfy`, module `Rules`: a snapshot datatype `World` of all of this. One pure function per
  operation of the game states what that operation does to the snapshot. The properties are
  proved here, as `ensures` clauses and lemmas.
- `game.dfy`, module `Spongebob`: classes `Obstacle`, `Item` and `Game` with the records'
  fields. Each method is proved to leave the fields exactly as the matching `Rules` function
  says (`Snapshot() == Rules.Op(old(Snapshot()))`). Most methods have an imperative body that
  follows the JS function of the same name. Two of them are the anonymous timer callbacks
  instead: `FlashTick` is the callback of the flash interval (lines 131-137) and
  `GameOverDone` is the callback of the game-over timeout (lines 156-159). `FlashTick` follows
  the corrected tick (see "## Left out"); `FlashTickAsWritten` is the same callback as written.
- `stale_timer.dfy`, module `StaleTimer`: the flash interval as written and a run that leaves
  the game stuck (see Findings).

Modelling choices:
- Positions and velocities are `real`. The canvas size is a constructor parameter of at least
  150 by 150.
- The obstacle radius (50) and the item size (30 by 30) never change, so they are constants.
- The arrow-key flags are a `Keys` parameter of a frame.
- The two `Math.random()` draws are parameters `rx`, `ry`. The lemmas that need it assume
  `0 <= r < 1`.
- `Math.sqrt` is replaced by a comparison of squared distances. `Rules.HitIffDistance` proves
  that this agrees with the source's test on the distance.
- Timer callbacks are explicit operations: `FlashTick(h)` for one firing of flash interval `h`,
  and `GameOverDone()` for the expiry of a game-over timeout. They can interleave with frames
  in any order.
- Flash-interval handles are naturals. 0 is the `null` that `state.flashInterval` holds before
  the first flash.

Three behaviours of the code worth knowing:
- Hits are not suppressed while flashing. `checkCollision` has no such guard, so the model has
  none either.
- A wrapped position lies in `[0, W-150] x [0, H-150]`, the range that keeps the whole sprite
  on the canvas.
- While flashing after a game over, frames still run. A hit then keeps lives at 0 and schedules
  another game-over display.

## Model

| member | source | states |
|---|---|---|
| `Rules.Max0` | js/spongebob.js:97-98 | `Math.max(0, n)` is at least 0 and at least `n`, and is either `n` or 0 |
| `Rules.Init` | js/spongebob.js:11-45 | the initial state satisfies the invariant: five lives, score 0, not over, not flashing, SpongeBob at the start point, no timers |
| `Rules.Shift` | js/spongebob.js:165-168 | the net step on one axis is 0 when both or neither opposing arrows are pressed, and plus or minus the speed otherwise |
| `Rules.Wrap` | js/spongebob.js:171-174 | the two wrap tests leave a coordinate in `[0, limit]`; an in-range coordinate is unchanged, one below 0 goes to `limit`, one beyond `limit` goes to 0 |
| `Rules.UpdatePosition` | js/spongebob.js:162-176 | only the position changes; nothing changes when the game is over or flashing; otherwise the position ends in `[0, W-150] x [0, H-150]`, a move that stays on the canvas is taken exactly, and pressing left and right together leaves an in-range x unchanged |
| `Rules.Bounce` | js/spongebob.js:183-188 | the velocity component keeps its magnitude, and is unchanged iff it is 0 or the new coordinate is within the bounds |
| `Rules.Move` | js/spongebob.js:178-201 | a body moves by exactly its old velocity; each velocity component keeps its magnitude and flips only on its own axis's edge test |
| `Rules.MoveObstacle` | js/spongebob.js:178-189 | only the obstacle changes; its centre moves by the old velocity; `dx` is kept iff it is 0 or the new x is within the radius margins, and likewise `dy` with y |
| `Rules.MoveItem` | js/spongebob.js:191-202 | only the item changes; it moves by the old velocity; `dx` is kept iff it is 0 or the item is still inside horizontally, and likewise `dy` |
| `Rules.HitIffDistance` | js/spongebob.js:92-96 | for the Euclidean distance `d` between the centres, the squared test holds iff `d < radius + 75`, so touching circles do not collide |
| `Rules.StartFlash` | js/spongebob.js:128-131 | `flashSpongebob` sets `flashing`, zeroes the counter and starts an interval under a fresh handle that becomes `flashInterval`; it keeps the invariant and replaces no running interval |
| `Rules.CheckCollision` | js/spongebob.js:90-112 | no hit changes nothing; a hit sets lives to `max(0, lives-1)` and score to `max(0, score-5)`; with lives left it resets the position and starts a flash ending in `EndFlash`, and the game is not over; on the last life it sets `gameOver` and schedules the game-over timeout, touching nothing else; lives and score stay at or above 0 |
| `Rules.ItemOverlap` | js/spongebob.js:116-121 | the box test never holds when SpongeBob's box exactly touches the item's box on any side |
| `Rules.Respawn` | js/spongebob.js:123-124 | for a draw in `[0, 1)` and a positive extent, the new coordinate lies in `[0, extent)` |
| `Rules.CheckItemCollection` | js/spongebob.js:114-126 | no overlap changes nothing; an overlap adds exactly 5 to the score and moves the item, keeping its velocity and everything else; for draws in `[0, 1)` the item lands in `[0, W-30) x [0, H-30)`; the invariant is kept |
| `Rules.Complete` | js/spongebob.js:101-108 | a completion always clears `flashing` and leaves the timers alone; `EndFlash` changes nothing else; `RestartGame` restores five lives, score 0 and `gameOver` false and changes nothing else (position, counter, `flashInterval`, obstacle, item, timers and timeouts stay) |
| `Rules.TickClearing` | js/spongebob.js:131-137 | a tick raises the counter by one; below six that is all; at six it cancels the given interval and runs the ticking interval's completion; the invariant is kept |
| `Rules.FlashTickAsWritten` | js/spongebob.js:131-137 | as written, a completing interval that is not the latest flash stays running |
| `Rules.FlashTick` | js/spongebob.js:131-137 | as intended, a tick cancels its own interval exactly when the counter reaches six, and leaves every other running interval and its completion in place |
| `Rules.LatestTicksAgree` | js/spongebob.js:131-137 | the ticks of the latest interval, `state.flashInterval`, are the same under the tick as written and the self-cancelling one |
| `Rules.SoleTimerTicks` | js/spongebob.js:128-138 | with the self-cancelling tick and one running interval, ticks raise the counter one at a time; the tick that reaches six cancels the interval and runs its completion, and later ticks change nothing |
| `Rules.FlashCompletesOnSixthTick` | js/spongebob.js:128-138 | with the tick as written, a new flash stays flashing with its interval running for ticks 1 to 5, and completes exactly once, on the sixth tick |
| `Rules.OwnTicksComplete` | js/spongebob.js:131-137 | with the self-cancelling tick, whatever else runs, `6 - count` ticks of an interval (at least one) cancel it; a restart interval has then restored five lives, score 0 and `gameOver` false |
| `Rules.GameOverDone` | js/spongebob.js:104-109 | the game-over timeout resets the position, consumes one pending timeout and starts the restart flash: the restart interval gets the fresh handle `nextTimer` and becomes `flashInterval`, `nextTimer` advances, and the obstacle, item and canvas stay; the timeout leaves lives, score and `gameOver` as they are (the restart flash's completion restores them); the invariant is kept |
| `Rules.GameLoop` | js/spongebob.js:204-220 | a frame changes nothing when the game is over and not flashing; every frame keeps the invariant (lives, score and counter at or above 0) and the canvas size; a frame sets `flashing` only by starting a new flash |
| `Rules.Visible` | js/spongebob.js:84-88 | SpongeBob is always drawn when not flashing; during a flash's six counts he is drawn at counts 0, 2 and 4 only |
| `Rules.VisibilityToggles` | js/spongebob.js:85 | while flashing, each counter step toggles whether SpongeBob is drawn |
| `Rules.LastLifeRestarts` | js/spongebob.js:96-109 | losing the last life sets lives 0 and `gameOver` and halts the frame loop; after the game-over timeout, six ticks of the restart flash as written give five lives, score 0, no flags and no running interval |
| `Spongebob.Obstacle.constructor` | js/spongebob.js:29-35 | the obstacle starts at the given centre with velocity (1, 1) |
| `Spongebob.Item.constructor` | js/spongebob.js:37-45 | the item starts at the given corner with velocity (1, 1) |
| `Spongebob.Game.constructor` | js/spongebob.js:11-45 | the records start as `Rules.Init` gives, with fresh obstacle and item objects |
| `Spongebob.Game.ResetSpongebobPosition` | js/spongebob.js:54-56 | only the position changes, to `(W/2, H/2+100)` |
| `Spongebob.Game.FlashSpongebob` | js/spongebob.js:128-138 | the fields change as `Rules.StartFlash` says |
| `Spongebob.Game.UpdatePosition` | js/spongebob.js:162-176 | the fields change as `Rules.UpdatePosition` says for the given arrow keys |
| `Spongebob.Game.MoveObstacle` | js/spongebob.js:178-189 | the fields change as `Rules.MoveObstacle` says |
| `Spongebob.Game.MoveItem` | js/spongebob.js:191-202 | the fields change as `Rules.MoveItem` says |
| `Spongebob.Game.CheckCollision` | js/spongebob.js:90-112 | the fields change as `Rules.CheckCollision` says; the method tests squared distances |
| `Spongebob.Game.CheckItemCollection` | js/spongebob.js:114-126 | the fields change as `Rules.CheckItemCollection` says for the given draws |
| `Spongebob.Game.FlashTick` | js/spongebob.js:131-137 | the fields change as the self-cancelling `Rules.FlashTick` says, and the invariant is kept |
| `Spongebob.Game.FlashTickAsWritten` | js/spongebob.js:131-137 | the fields change as `Rules.FlashTickAsWritten` says (a completing interval cancels `flashInterval`), and the invariant is kept |
| `Spongebob.Game.GameOverDone` | js/spongebob.js:156-159 | the fields change as `Rules.GameOverDone` says, and the invariant is kept |
| `Spongebob.Game.GameLoop` | js/spongebob.js:204-220 | the fields change as `Rules.GameLoop` says, and the invariant is kept |
| `StaleTimer.StuckIsPermanent` | js/spongebob.js:204-205 | in a stuck game (over, not flashing, no timeout pending, only `EndFlash` intervals) frames change nothing and as-written ticks keep it stuck |
| `StaleTimer.Before` | js/spongebob.js:18-45 | the run's starting state is a valid mid-game state: three lives, not over, not flashing, no timers |
| `StaleTimer.AlternateAsWritten` | js/spongebob.js:131-137 | as written, six ticks alternating between two intervals cancel `flashInterval` and run the completion of whichever ticked sixth |
| `StaleTimer.Alternate` | js/spongebob.js:131-137 | as intended, the same six ticks cancel only the interval that ticked sixth |
| `StaleTimer.TwoHitsOverlap` | js/spongebob.js:90-103 | two frames with the obstacle passing over the start point give two overlapping flashes, intervals 1 and 2 |
| `StaleTimer.DoubleFlashCompletes` | js/spongebob.js:131-137 | either tick completes that double flash on the sixth alternating tick, with interval 1 still running |
| `StaleTimer.ThirdHitEndsGame` | js/spongebob.js:96-104 | a frame that hits SpongeBob on his last life ends the game and schedules its timeout |
| `StaleTimer.LeakThenGameOver` | js/spongebob.js:131-137 | as written, interval 1's next tick runs its completion again and stays running; the third hit and the timeout then start the restart interval beside it |
| `StaleTimer.LeakedIntervalCancelsRestart` | js/spongebob.js:131-137 | as written, in the tick order 3,1,3,1,3,1, six alternating ticks of the restart interval and the leaked one cancel the restart and leave the game stuck |
| `StaleTimer.PeriodOrderRestarts` | js/spongebob.js:131-137 | as written, with one leaked interval ticking first (period order 1,3,1,3,1,3), the restart interval completes and the game restarts with five lives and score 0 |
| `StaleTimer.ThreeLeaksCancelRestart` | js/spongebob.js:131-137 | as written, with three leaked intervals ticking ahead of the restart interval (period order a,b,c,r,a,b), the sixth tick cancels the restart and the game is stuck |
| `StaleTimer.NoLeakThenGameOver` | js/spongebob.js:131-137 | with self-cancelling ticks, interval 1's next tick cancels it, so the restart interval runs alone |
| `StaleTimer.SelfCancellingTickRestarts` | js/spongebob.js:131-137 | with self-cancelling ticks, the restart interval's six ticks start a new game with five lives and score 0 |

## Left out

- Drawing is left out: `loadImage`, `renderBackground`, `renderObstacle`, `renderItem`, `drawText`, the drawing call in `renderSpongebob`, and the item's colour. They only paint the canvas. The visibility test of `renderSpongebob` is modelled (`Rules.Visible`).
- The keyboard listeners are left out. The four flags they set are the `Keys` parameter of a frame.
- The blinking message of `displayGameOver` is left out, because it only redraws. Its timeout is `GameOverDone`.
- The wall-clock periods (200 ms flash ticks, 500 ms blinks, 3000 ms game-over timeout) and `requestAnimationFrame` scheduling are left out. Frames and timer firings are separate operations, and any interleaving is allowed.
- `Math.random` and `Math.sqrt` are left out as library calls. They become parameters and a squared-distance comparison.
- Floating-point rounding of JS numbers is left out. Positions are exact reals, and lives, score and the counter are unbounded integers.
- `Spongebob.Game.FlashTick` models the corrected tick from Findings, not the tick as written. The as-written tick is `Rules.FlashTickAsWritten`, run in place by `Spongebob.Game.FlashTickAsWritten`; for the latest interval the two agree (`Rules.LatestTicksAgree`).
- `Rules.SoleTimerTicks`: stated for the self-cancelling tick. As written it holds when the interval is `state.flashInterval` (`Rules.LatestTicksAgree`), which is how `FlashCompletesOnSixthTick` and `LastLifeRestarts` use it.
- `Rules.OwnTicksComplete`: stated for the self-cancelling tick. As written it fails for an interval that is not `state.flashInterval`, which never cancels itself (`Rules.FlashTickAsWritten`, `StaleTimer.LeakThenGameOver`).

## Findings

| source | as written | input that shows it | evidently intended | confidence | as-written member | corrected member |
|---|---|---|---|---|---|---|
| js/spongebob.js:131-137 | A completing flash interval calls `clearInterval(state.flashInterval)`. That cancels the most recently started flash, not itself. Each new flash overwrites `flashInterval`, so when two flashes overlap the older interval is never cancelled. It then runs its completion on every later tick once the shared counter has reached 5. | Three lives; two hits within six ticks (flash intervals 1 and 2); ticks 1,2,1,2,1,2 complete through 2, and interval 1 leaks. The leak needs only two hits in quick succession, which consecutive frames give, since hits are not blocked while flashing. Stuck game: a third hit ends the game, and its timeout starts restart interval 3; ticks 3,1,3,1,3,1 let interval 1 reach six, cancel 3 and only clear `flashing`, and the game stays over with no restart left. That tick order and the stretch without frames are interleavings the model allows but that equal-period timers do not normally produce: with one leaked interval, period order 1,3,1,3,1,3 restarts the game (`StaleTimer.PeriodOrderRestarts`). With three leaked intervals ahead of the restart, period order a,b,c,3,a,b cancels the restart (`StaleTimer.ThreeLeaksCancelRestart`). | Each interval cancels itself and runs its completion once. The game-over restart always completes. | leak: high (not executed); stuck game: medium (not executed), it depends on the timers' order | `StaleTimer.LeakedIntervalCancelsRestart` | `Rules.FlashTick` |

The run in the row above starts from `StaleTimer.Before`. `TwoHitsOverlap`, `DoubleFlashCompletes` and `LeakThenGameOver` take it to the state where the restart interval and the leaked interval both run. `LeakedIntervalCancelsRestart` finishes it with the tick as written, in a tick order the timers' equal periods make unusual. `PeriodOrderRestarts` shows that in period order a single leaked interval does not stop the restart, and `ThreeLeaksCancelRestart` shows that three leaked intervals do. `NoLeakThenGameOver` and `SelfCancellingTickRestarts` replay it with the corrected tick, and the game restarts. `StuckIsPermanent` shows that the stuck state never changes again.
