/** What the flash interval does as written: on completion it cancels
    `state.flashInterval`, the handle of the most recently started flash, instead of its
    own. When two flashes overlap, the older interval is never cancelled and, once the
    shared counter has reached 5, runs its completion on every later tick; it can also
    cancel a newer interval before that one completes. This module shows a run of the game that ends stuck that
    way, and that the intended tick (`Rules.FlashTick`, which cancels itself) does not. */
module StaleTimer {
  import opened Rules

  /** Over, not flashing, no game-over timeout pending, and every running interval only
      clears `flashing`: nothing that can still happen restarts the game. */
  ghost predicate Stuck(w: World) {
    w.gameOver && !w.flashing && w.gameOverTimeouts == 0 &&
    forall h :: h in w.flashTimers ==> w.flashTimers[h] == EndFlash
  }

  /** Once stuck, frames change nothing and the remaining intervals keep the game stuck. */
  lemma StuckIsPermanent(w: World, k: Keys, rx: real, ry: real, h: nat)
    requires Stuck(w)
    ensures GameLoop(w, k, rx, ry) == w
    ensures h in w.flashTimers ==> Stuck(FlashTickAsWritten(w, h))
  {
  }

  /** The state before the run: three lives, SpongeBob at his start point and the
      obstacle's centre one frame away from his centre, on an 800 x 600 canvas. */
  function Before(): (w: World)
    ensures Valid(w) && !w.gameOver && !w.flashing && w.flashTimers == map[]
  {
    Init(800.0, 600.0).(lives := 3,
                        obstacle := Body(474.0, 474.0, 1.0, 1.0),
                        item := Body(10.0, 10.0, 1.0, 1.0))
  }

  const NoKeys := Keys(false, false, false, false)

  /** Six ticks of the as-written interval, alternating between two running intervals,
      `first` then `last`, from a zero counter: the first five only count, and the sixth
      (by `last`) cancels `state.flashInterval` and runs `last`'s completion. */
  function AlternateAsWritten(w: World, first: nat, last: nat): (v: World)
    requires first in w.flashTimers && last in w.flashTimers && w.flashCount == 0
    ensures v == Complete(w.(flashCount := FlashTicks, flashTimers := w.flashTimers - {w.flashInterval}),
                          w.flashTimers[last])
  {
    var w5 := FlashTickAsWritten(FlashTickAsWritten(FlashTickAsWritten(
                FlashTickAsWritten(FlashTickAsWritten(w, first), last), first), last), first);
    assert w5 == w.(flashCount := 5);
    FlashTickAsWritten(w5, last)
  }

  /** The same six ticks with the intended tick: `last` cancels itself only. */
  function Alternate(w: World, first: nat, last: nat): (v: World)
    requires first in w.flashTimers && last in w.flashTimers && w.flashCount == 0
    ensures v == Complete(w.(flashCount := FlashTicks, flashTimers := w.flashTimers - {last}),
                          w.flashTimers[last])
  {
    var w5 := FlashTick(FlashTick(FlashTick(FlashTick(FlashTick(w, first), last), first), last), first);
    assert w5 == w.(flashCount := 5);
    FlashTick(w5, last)
  }

  /** Two frames from `Before()`: the obstacle's centre passes over SpongeBob's while he
      stands at the start point, and each frame is a non-fatal hit starting a flash. */
  function TwoHits(): World {
    GameLoop(GameLoop(Before(), NoKeys, 0.5, 0.5), NoKeys, 0.5, 0.5)
  }

  /** The overlapping flashes of `TwoHits()`: intervals 1 and 2 run, 2 is the latest. */
  const TwoFlashes: World :=
    World(800.0, 600.0, Point(400.0, 400.0), 1, 0, false, true, 0, 2,
          Body(476.0, 476.0, 1.0, 1.0), Body(12.0, 12.0, 1.0, 1.0),
          map[1 := EndFlash, 2 := EndFlash], 3, 0)

  lemma TwoHitsOverlap()
    ensures TwoHits() == TwoFlashes
  {
    var w1 := GameLoop(Before(), NoKeys, 0.5, 0.5);
    assert w1 == TwoFlashes.(lives := 2, flashInterval := 1, obstacle := Body(475.0, 475.0, 1.0, 1.0),
                             item := Body(11.0, 11.0, 1.0, 1.0), flashTimers := map[1 := EndFlash],
                             nextTimer := 2);
  }

  /** Either tick completes the double flash through interval 2 on the sixth alternating
      tick, leaving interval 1 running and SpongeBob no longer flashing. */
  const DoubleFlashDone: World :=
    TwoFlashes.(flashing := false, flashCount := FlashTicks, flashTimers := map[1 := EndFlash])

  lemma DoubleFlashCompletes()
    ensures AlternateAsWritten(TwoFlashes, 1, 2) == DoubleFlashDone
    ensures Alternate(TwoFlashes, 1, 2) == DoubleFlashDone
  {
    assert TwoFlashes.flashTimers - {2} == map[1 := EndFlash];
  }

  /** A frame in which the obstacle's centre, one step away, passes over SpongeBob's centre
      while he is on his last life and not flashing: the game ends. */
  lemma ThirdHitEndsGame(b: World)
    requires b.width == 800.0 && b.height == 600.0 && b.spongebob == Point(400.0, 400.0)
    requires b.lives == 1 && b.score == 0 && !b.gameOver && !b.flashing
    requires b.obstacle == Body(476.0, 476.0, 1.0, 1.0) && b.item == Body(12.0, 12.0, 1.0, 1.0)
    ensures GameLoop(b, NoKeys, 0.5, 0.5) ==
      b.(lives := 0, gameOver := true, gameOverTimeouts := b.gameOverTimeouts + 1,
         obstacle := Body(477.0, 477.0, 1.0, 1.0), item := Body(13.0, 13.0, 1.0, 1.0))
  {
  }

  /** The restart flash started by the game-over timeout after the third hit, while
      interval 1 still runs. */
  const RestartStarted: World :=
    World(800.0, 600.0, Point(400.0, 400.0), 0, 0, true, true, 0, 3,
          Body(477.0, 477.0, 1.0, 1.0), Body(13.0, 13.0, 1.0, 1.0),
          map[1 := EndFlash, 3 := RestartGame], 4, 0)

  /** As written, interval 1's next tick runs its completion again and leaves it running;
      the third hit and the game-over timeout then start the restart flash beside it. */
  lemma LeakThenGameOver()
    ensures FlashTickAsWritten(DoubleFlashDone, 1) == DoubleFlashDone.(flashCount := FlashTicks + 1)
    ensures var c := GameLoop(DoubleFlashDone.(flashCount := FlashTicks + 1), NoKeys, 0.5, 0.5);
      c.gameOver && !Runs(c) && c.gameOverTimeouts == 1 && GameOverDone(c) == RestartStarted
  {
    ThirdHitEndsGame(DoubleFlashDone.(flashCount := FlashTicks + 1));
  }

  /** With the as-written tick, the run from `Before()` (two hits, six alternating ticks,
      one more tick of interval 1, a third hit, the game-over timeout) reaches
      `RestartStarted`: `TwoHitsOverlap`, `DoubleFlashCompletes` and `LeakThenGameOver`
      take it there. Six alternating ticks of intervals 3 and 1 then let interval 1 reach
      six, cancel interval 3 and only clear `flashing`: the game is stuck with no restart
      left. The model allows that order; equal-period timers would normally tick interval 1
      first (`PeriodOrderRestarts`, `ThreeLeaksCancelRestart`). */
  lemma LeakedIntervalCancelsRestart()
    ensures var e := AlternateAsWritten(RestartStarted, 3, 1);
      Stuck(e) && Valid(e) && e.flashTimers == map[1 := EndFlash]
  {
    assert RestartStarted.flashTimers - {3} == map[1 := EndFlash];
  }

  /** The restart flash as the only running interval. */
  const RestartAlone: World := RestartStarted.(flashTimers := map[3 := RestartGame])

  /** With the intended tick, interval 1's next tick completes it and cancels it, so after
      the third hit the game-over timeout starts the restart flash alone. */
  lemma NoLeakThenGameOver()
    ensures FlashTick(DoubleFlashDone, 1) == DoubleFlashDone.(flashCount := FlashTicks + 1, flashTimers := map[])
    ensures var c := GameLoop(FlashTick(DoubleFlashDone, 1), NoKeys, 0.5, 0.5);
      c.gameOver && !Runs(c) && c.gameOverTimeouts == 1 && GameOverDone(c) == RestartAlone
  {
    assert DoubleFlashDone.flashTimers - {1} == map[];
    ThirdHitEndsGame(DoubleFlashDone.(flashCount := FlashTicks + 1, flashTimers := map[]));
  }

  /** The same run with the intended tick leaks nothing (`DoubleFlashCompletes`,
      `NoLeakThenGameOver`): the restart flash is the only interval left, and its six
      ticks start a new game. */
  lemma SelfCancellingTickRestarts()
    ensures var e := Ticks(RestartAlone, 3, FlashTicks);
      !e.gameOver && e.lives == StartLives && e.score == 0 && Runs(e) && e.flashTimers == map[]
  {
    SoleTimerTicks(RestartAlone, 3, FlashTicks);
  }

  /** With one leaked interval the tick order matters. Both intervals repeat with the same
      period and the leaked one started earlier, so after the game-over timeout it fires
      first: in the order 1,3,1,3,1,3 the restart interval takes the sixth tick, is itself
      `state.flashInterval`, and restarts the game. */
  lemma PeriodOrderRestarts()
    ensures var e := AlternateAsWritten(RestartStarted, 1, 3);
      !e.gameOver && e.lives == StartLives && e.score == 0 && !e.flashing &&
      e.flashTimers == map[1 := EndFlash]
  {
    assert RestartStarted.flashTimers - {3} == map[1 := EndFlash];
  }

  /** With three leaked intervals `a`, `b`, `c` ticking ahead of the restart interval `r` in
      every period, period order is a,b,c,r,a,b: the sixth tick is `b`'s, which cancels
      `state.flashInterval`, the restart, and only clears `flashing`. The game is stuck. */
  lemma ThreeLeaksCancelRestart(w: World, a: nat, b: nat, c: nat, r: nat)
    requires a != r && b != r && c != r
    requires w.flashTimers == map[a := EndFlash, b := EndFlash, c := EndFlash, r := RestartGame]
    requires r == w.flashInterval && w.flashCount == 0
    requires w.gameOver && w.flashing && w.gameOverTimeouts == 0
    ensures var e := FlashTickAsWritten(FlashTickAsWritten(FlashTickAsWritten(FlashTickAsWritten(
                       FlashTickAsWritten(FlashTickAsWritten(w, a), b), c), r), a), b);
      Stuck(e) && e.flashTimers == map[a := EndFlash, b := EndFlash, c := EndFlash] && e.lives == w.lives
  {
    var w5 := FlashTickAsWritten(FlashTickAsWritten(FlashTickAsWritten(FlashTickAsWritten(
                FlashTickAsWritten(w, a), b), c), r), a);
    assert w5 == w.(flashCount := 5);
    assert w.flashTimers - {r} == map[a := EndFlash, b := EndFlash, c := EndFlash];
  }
}
