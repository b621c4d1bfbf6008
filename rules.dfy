/** The per-frame and per-tick rules of the SpongeBob canvas game, as pure functions on a
    snapshot of everything the game mutates: the `state` record, the `obstacle` and `item`
    records, and the host's pending timers. Each function here is what one operation of
    the game does to that snapshot; the classes in module Spongebob are proved to do
    exactly this to their fields. */
module Rules {

  /** Distance moved per frame by each pressed arrow key. */
  const Speed: real := 10.0
  /** SpongeBob is drawn as a square of this side; its centre is half of it inwards. */
  const SpongebobSize: real := 150.0
  const HalfSize: real := 75.0
  const ObstacleRadius: real := 50.0
  const ItemWidth: real := 30.0
  const ItemHeight: real := 30.0
  const StartLives: int := 5
  /** Points lost on hitting the obstacle, and won on collecting the item. */
  const HitPenalty: int := 5
  const ItemReward: int := 5
  /** A flash completes on the tick that brings the shared counter to this value. */
  const FlashTicks: int := 6
  /** The handle `null` that `state.flashInterval` holds before any flash has started. */
  const NoTimer: nat := 0

  datatype Point = Point(x: real, y: real)

  /** A moving thing with a position and a per-frame velocity (the obstacle, the item). */
  datatype Body = Body(x: real, y: real, dx: real, dy: real)

  /** The four arrow-key flags at the time of a frame. */
  datatype Keys = Keys(right: bool, left: bool, up: bool, down: bool)

  /** What a flash timer does when it completes: the callback given to `flashSpongebob`. */
  datatype Completion =
    | EndFlash      // after a non-fatal hit: clear `flashing`
    | RestartGame   // after the game-over display: restore lives, score and flags

  /** Everything the game mutates. `flashTimers` maps the handle of each running flash
      interval to its completion; `nextTimer` is the next fresh handle the host hands
      out; `gameOverTimeouts` counts the game-over displays whose timeout is pending. */
  datatype World = World(
    width: real, height: real,
    spongebob: Point,
    lives: int, score: int,
    gameOver: bool, flashing: bool, flashCount: int, flashInterval: nat,
    obstacle: Body, item: Body,
    flashTimers: map<nat, Completion>, nextTimer: nat,
    gameOverTimeouts: nat)

  function Abs(v: real): real { if v < 0.0 then -v else v }

  /** `Math.max(0, n)`. */
  function Max0(n: int): (r: int)
    ensures r >= 0 && r >= n
    ensures r == n || r == 0
  {
    if n < 0 then 0 else n
  }

  /** The invariant every reachable state keeps. */
  ghost predicate Valid(w: World) {
    w.width >= SpongebobSize && w.height >= SpongebobSize &&
    w.lives >= 0 && w.score >= 0 && w.flashCount >= 0 &&
    (w.gameOver ==> w.lives == 0) &&
    1 <= w.nextTimer && w.flashInterval < w.nextTimer &&
    (forall h :: h in w.flashTimers ==> NoTimer < h < w.nextTimer)
  }

  /** Where SpongeBob starts and where a hit puts him back: below the canvas centre. */
  function ResetPoint(w: World): Point {
    Point(w.width / 2.0, w.height / 2.0 + 100.0)
  }

  /** The state when the script is loaded on a canvas of the given size. */
  function Init(width: real, height: real): (w: World)
    requires width >= SpongebobSize && height >= SpongebobSize
    ensures Valid(w)
    ensures w.lives == StartLives && w.score == 0 && !w.gameOver && !w.flashing
    ensures w.spongebob == ResetPoint(w) && w.flashTimers == map[] && w.gameOverTimeouts == 0
  {
    World(width, height, Point(width / 2.0, height / 2.0 + 100.0),
      StartLives, 0, false, false, 0, NoTimer,
      Body(width / 2.0 - 100.0, height / 2.0 - 100.0, 1.0, 1.0),
      Body(200.0, 150.0, 1.0, 1.0),
      map[], 1, 0)
  }

  // ---------------------------------------------------------------------------
  // Player movement

  /** Net displacement along one axis when `plus` adds the speed and `minus` subtracts it. */
  function Shift(plus: bool, minus: bool): (d: real)
    ensures plus == minus ==> d == 0.0
    ensures plus && !minus ==> d == Speed
    ensures !plus && minus ==> d == -Speed
  {
    (if plus then Speed else 0.0) - (if minus then Speed else 0.0)
  }

  /** The two wrap-around tests on one coordinate: below 0 it jumps to the far edge
      `limit`, then beyond `limit` it jumps to 0. */
  function Wrap(p: real, limit: real): (r: real)
    ensures 0.0 <= limit ==> 0.0 <= r <= limit
    ensures 0.0 <= p <= limit ==> r == p
    ensures p < 0.0 <= limit ==> r == limit
    ensures 0.0 <= limit < p ==> r == 0.0
  {
    var q := if p < 0.0 then limit else p;
    if q > limit then 0.0 else q
  }

  /** `updatePosition`: move by the pressed arrows, then wrap, unless the game is over
      or SpongeBob is flashing. */
  function UpdatePosition(w: World, k: Keys): (v: World)
    ensures v == w.(spongebob := v.spongebob)
    ensures w.gameOver || w.flashing ==> v == w
    ensures !w.gameOver && !w.flashing && Valid(w) ==>
      0.0 <= v.spongebob.x <= w.width - SpongebobSize &&
      0.0 <= v.spongebob.y <= w.height - SpongebobSize
    ensures !w.gameOver && !w.flashing ==>
      var x := w.spongebob.x + Shift(k.right, k.left);
      var y := w.spongebob.y + Shift(k.down, k.up);
      (0.0 <= x <= w.width - SpongebobSize ==> v.spongebob.x == x) &&
      (0.0 <= y <= w.height - SpongebobSize ==> v.spongebob.y == y)
    ensures (!w.gameOver && !w.flashing && k.left == k.right &&
             0.0 <= w.spongebob.x <= w.width - SpongebobSize) ==> v.spongebob.x == w.spongebob.x
  {
    if !w.gameOver && !w.flashing then
      var x := w.spongebob.x + Shift(k.right, k.left);
      var y := w.spongebob.y + Shift(k.down, k.up);
      w.(spongebob := Point(Wrap(x, w.width - SpongebobSize), Wrap(y, w.height - SpongebobSize)))
    else
      w
  }

  // ---------------------------------------------------------------------------
  // Obstacle and item motion

  /** A velocity component after the edge test on the coordinate it just produced:
      negated when that coordinate is outside [lo, hi], kept otherwise. */
  function Bounce(v: real, p: real, lo: real, hi: real): (r: real)
    ensures Abs(r) == Abs(v)
    ensures r == v <==> v == 0.0 || lo <= p <= hi
  {
    if p < lo || p > hi then -v else v
  }

  /** One frame of a body: advance by the old velocity, then bounce each axis on its own. */
  function Move(b: Body, loX: real, hiX: real, loY: real, hiY: real): (n: Body)
    ensures n.x == b.x + b.dx && n.y == b.y + b.dy
    ensures Abs(n.dx) == Abs(b.dx) && Abs(n.dy) == Abs(b.dy)
    ensures n.dx == b.dx <==> b.dx == 0.0 || loX <= n.x <= hiX
    ensures n.dy == b.dy <==> b.dy == 0.0 || loY <= n.y <= hiY
  {
    var x := b.x + b.dx;
    var y := b.y + b.dy;
    Body(x, y, Bounce(b.dx, x, loX, hiX), Bounce(b.dy, y, loY, hiY))
  }

  /** `moveObstacle`: the obstacle's centre bounces when it comes within its radius of an edge. */
  function MoveObstacle(w: World): (v: World)
    ensures v == w.(obstacle := v.obstacle)
    ensures v.obstacle.x == w.obstacle.x + w.obstacle.dx && v.obstacle.y == w.obstacle.y + w.obstacle.dy
    ensures Abs(v.obstacle.dx) == Abs(w.obstacle.dx) && Abs(v.obstacle.dy) == Abs(w.obstacle.dy)
    ensures v.obstacle.dx == w.obstacle.dx <==>
      w.obstacle.dx == 0.0 || ObstacleRadius <= v.obstacle.x <= w.width - ObstacleRadius
    ensures v.obstacle.dy == w.obstacle.dy <==>
      w.obstacle.dy == 0.0 || ObstacleRadius <= v.obstacle.y <= w.height - ObstacleRadius
  {
    w.(obstacle := Move(w.obstacle, ObstacleRadius, w.width - ObstacleRadius,
                                    ObstacleRadius, w.height - ObstacleRadius))
  }

  /** `moveItem`: the item's top-left corner bounces when the item leaves the canvas. */
  function MoveItem(w: World): (v: World)
    ensures v == w.(item := v.item)
    ensures v.item.x == w.item.x + w.item.dx && v.item.y == w.item.y + w.item.dy
    ensures Abs(v.item.dx) == Abs(w.item.dx) && Abs(v.item.dy) == Abs(w.item.dy)
    ensures v.item.dx == w.item.dx <==> w.item.dx == 0.0 || 0.0 <= v.item.x <= w.width - ItemWidth
    ensures v.item.dy == w.item.dy <==> w.item.dy == 0.0 || 0.0 <= v.item.y <= w.height - ItemHeight
  {
    w.(item := Move(w.item, 0.0, w.width - ItemWidth, 0.0, w.height - ItemHeight))
  }

  // ---------------------------------------------------------------------------
  // Obstacle collision

  /** Square of the distance from SpongeBob's centre to the obstacle's centre. */
  function SquaredDistance(p: Point, o: Body): real {
    var dx := p.x + HalfSize - o.x;
    var dy := p.y + HalfSize - o.y;
    dx * dx + dy * dy
  }

  /** The circle test of `checkCollision`, on squared distances. */
  predicate ObstacleHit(p: Point, o: Body) {
    SquaredDistance(p, o) < (ObstacleRadius + HalfSize) * (ObstacleRadius + HalfSize)
  }

  /** The squared test agrees with the source's test on the Euclidean distance `d`:
      a hit iff `d` is strictly below the sum of the radii (a touching circle is no hit). */
  lemma HitIffDistance(p: Point, o: Body, d: real)
    requires 0.0 <= d && d * d == SquaredDistance(p, o)
    ensures ObstacleHit(p, o) <==> d < ObstacleRadius + HalfSize
  {
    var sq := SquaredDistance(p, o);
    if d < 125.0 {
      assert d * d <= d * 125.0;
      assert sq < 15625.0;
    } else {
      assert d * d >= d * 125.0;
      assert sq >= 15625.0;
    }
  }

  /** `flashSpongebob(done)`: reset the counter, set `flashing`, and start a new interval
      whose handle becomes `state.flashInterval`. */
  function StartFlash(w: World, done: Completion): (v: World)
    ensures v.flashing && v.flashCount == 0
    ensures v.flashInterval == w.nextTimer && v.flashInterval in v.flashTimers
    ensures v.flashTimers == w.flashTimers[w.nextTimer := done]
    ensures v == w.(flashing := true, flashCount := 0, flashInterval := v.flashInterval,
                    flashTimers := v.flashTimers, nextTimer := v.nextTimer)
    ensures Valid(w) ==> Valid(v) && w.nextTimer !in w.flashTimers
  {
    w.(flashing := true, flashCount := 0, flashInterval := w.nextTimer,
       flashTimers := w.flashTimers[w.nextTimer := done], nextTimer := w.nextTimer + 1)
  }

  /** `checkCollision`: on a hit, lose a life and the penalty (neither below 0); with lives
      left, go back to the start point and flash; otherwise the game is over and its
      display timeout is scheduled. */
  function CheckCollision(w: World): (v: World)
    ensures !ObstacleHit(w.spongebob, w.obstacle) ==> v == w
    ensures ObstacleHit(w.spongebob, w.obstacle) ==>
      v.lives == Max0(w.lives - 1) && v.score == Max0(w.score - HitPenalty)
    ensures ObstacleHit(w.spongebob, w.obstacle) && v.lives > 0 ==>
      v == StartFlash(w.(lives := v.lives, score := v.score, spongebob := ResetPoint(w)), EndFlash)
    ensures ObstacleHit(w.spongebob, w.obstacle) && v.lives == 0 ==>
      v == w.(lives := 0, score := v.score, gameOver := true,
              gameOverTimeouts := w.gameOverTimeouts + 1)
    ensures Valid(w) ==> Valid(v) && (v.lives > 0 ==> !v.gameOver)
  {
    if ObstacleHit(w.spongebob, w.obstacle) then
      var hit := w.(lives := Max0(w.lives - 1), score := Max0(w.score - HitPenalty));
      if hit.lives > 0 then
        StartFlash(hit.(spongebob := ResetPoint(w)), EndFlash)
      else
        hit.(gameOver := true, gameOverTimeouts := w.gameOverTimeouts + 1)
    else
      w
  }

  // ---------------------------------------------------------------------------
  // Item collection

  /** The box test of `checkItemCollection`: all four strict overlap inequalities. */
  function ItemOverlap(p: Point, i: Body): (hit: bool)
    ensures hit ==> p.x != i.x + ItemWidth && p.x + SpongebobSize != i.x
    ensures hit ==> p.y != i.y + ItemHeight && p.y + SpongebobSize != i.y
  {
    p.x < i.x + ItemWidth && p.x + SpongebobSize > i.x &&
    p.y < i.y + ItemHeight && p.y + SpongebobSize > i.y
  }

  /** `Math.random() * extent` with the random draw `r` passed in. */
  function Respawn(r: real, extent: real): (c: real)
    ensures 0.0 <= r < 1.0 && 0.0 < extent ==> 0.0 <= c < extent
  {
    r * extent
  }

  /** `checkItemCollection`, with the two random draws `rx`, `ry` as parameters. */
  function CheckItemCollection(w: World, rx: real, ry: real): (v: World)
    ensures !ItemOverlap(w.spongebob, w.item) ==> v == w
    ensures ItemOverlap(w.spongebob, w.item) ==>
      v == w.(score := w.score + ItemReward, item := v.item) &&
      v.item.dx == w.item.dx && v.item.dy == w.item.dy
    ensures ItemOverlap(w.spongebob, w.item) && Valid(w) && 0.0 <= rx < 1.0 && 0.0 <= ry < 1.0 ==>
      0.0 <= v.item.x < w.width - ItemWidth && 0.0 <= v.item.y < w.height - ItemHeight
    ensures Valid(w) ==> Valid(v)
  {
    if ItemOverlap(w.spongebob, w.item) then
      w.(score := w.score + ItemReward,
         item := w.item.(x := Respawn(rx, w.width - ItemWidth), y := Respawn(ry, w.height - ItemHeight)))
    else
      w
  }

  // ---------------------------------------------------------------------------
  // Flash timers

  /** Runs the completion callback of a flash. */
  function Complete(w: World, done: Completion): (v: World)
    ensures !v.flashing && v.flashTimers == w.flashTimers
    ensures done == RestartGame ==>
      v == w.(lives := StartLives, score := 0, gameOver := false, flashing := false)
    ensures done == EndFlash ==> v == w.(flashing := false)
  {
    match done
    case EndFlash => w.(flashing := false)
    case RestartGame => w.(lives := StartLives, score := 0, gameOver := false, flashing := false)
  }

  /** One tick of the flash interval `h`: the shared counter goes up; once it reaches
      `FlashTicks` the interval with handle `cleared` is cancelled and `h`'s completion runs. */
  function TickClearing(w: World, h: nat, cleared: nat): (v: World)
    requires h in w.flashTimers
    ensures v.flashCount == w.flashCount + 1 && v.flashInterval == w.flashInterval
    ensures w.flashCount + 1 < FlashTicks ==> v == w.(flashCount := w.flashCount + 1)
    ensures w.flashCount + 1 >= FlashTicks ==>
      v == Complete(w.(flashCount := w.flashCount + 1, flashTimers := w.flashTimers - {cleared}),
                    w.flashTimers[h])
    ensures Valid(w) ==> Valid(v)
  {
    var count := w.flashCount + 1;
    if count >= FlashTicks then
      Complete(w.(flashCount := count, flashTimers := w.flashTimers - {cleared}), w.flashTimers[h])
    else
      w.(flashCount := count)
  }

  /** A tick as the source writes it: the interval cancels `state.flashInterval`, the
      most recently started flash interval, which need not be itself. */
  function FlashTickAsWritten(w: World, h: nat): (v: World)
    requires h in w.flashTimers
    ensures h != w.flashInterval && w.flashCount + 1 >= FlashTicks ==> h in v.flashTimers
  {
    TickClearing(w, h, w.flashInterval)
  }

  /** A tick as intended: a completing interval cancels itself and only itself. */
  function FlashTick(w: World, h: nat): (v: World)
    requires h in w.flashTimers
    ensures h in v.flashTimers <==> w.flashCount + 1 < FlashTicks
    ensures forall g :: g in w.flashTimers && g != h ==>
      g in v.flashTimers && v.flashTimers[g] == w.flashTimers[g]
    ensures Valid(w) ==> Valid(v)
  {
    TickClearing(w, h, h)
  }

  /** `n` successive ticks of interval `h`, stopping once it has been cancelled. */
  function Ticks(w: World, h: nat, n: nat): World
    decreases n
  {
    if n == 0 || h !in w.flashTimers then w else Ticks(FlashTick(w, h), h, n - 1)
  }

  /** `n` successive ticks of interval `h` as the source writes them, stopping once it has
      been cancelled. */
  function TicksAsWritten(w: World, h: nat, n: nat): World
    decreases n
  {
    if n == 0 || h !in w.flashTimers then w else TicksAsWritten(FlashTickAsWritten(w, h), h, n - 1)
  }

  /** The ticks of the latest flash interval, `state.flashInterval`, are the same under the
      tick as written and the intended one: clearing `state.flashInterval` is clearing itself. */
  lemma {:induction false} LatestTicksAgree(w: World, h: nat, n: nat)
    requires h == w.flashInterval
    ensures TicksAsWritten(w, h, n) == Ticks(w, h, n)
    decreases n
  {
    if n > 0 && h in w.flashTimers {
      assert FlashTickAsWritten(w, h) == FlashTick(w, h);
      LatestTicksAgree(FlashTick(w, h), h, n - 1);
    }
  }

  /** With the intended tick and `h` the only running flash interval, its ticks raise the counter one at a time;
      the tick that reaches `FlashTicks` cancels it and runs its completion, and later
      ticks do nothing more. */
  lemma {:induction false} SoleTimerTicks(w: World, h: nat, n: nat)
    requires w.flashTimers.Keys == {h}
    requires 0 <= w.flashCount < FlashTicks
    ensures w.flashCount + n < FlashTicks ==> Ticks(w, h, n) == w.(flashCount := w.flashCount + n)
    ensures w.flashCount + n >= FlashTicks ==>
      Ticks(w, h, n) == Complete(w.(flashCount := FlashTicks, flashTimers := map[]), w.flashTimers[h])
    decreases n
  {
    if n > 0 {
      var v := FlashTick(w, h);
      if w.flashCount + 1 < FlashTicks {
        SoleTimerTicks(v, h, n - 1);
      } else {
        assert w.flashTimers - {h} == map[];
        assert h !in v.flashTimers;
      }
    }
  }

  /** A flash started on an otherwise idle timer system keeps SpongeBob flashing for five
      ticks of its interval as the source writes them, and completes on exactly the sixth,
      once. */
  lemma FlashCompletesOnSixthTick(w: World, done: Completion)
    requires Valid(w) && w.flashTimers == map[]
    ensures var f := StartFlash(w, done);
      (forall n :: 1 <= n < FlashTicks ==>
        TicksAsWritten(f, f.flashInterval, n).flashing &&
        f.flashInterval in TicksAsWritten(f, f.flashInterval, n).flashTimers) &&
      (forall n :: n >= FlashTicks ==>
        TicksAsWritten(f, f.flashInterval, n) == Complete(f.(flashCount := FlashTicks, flashTimers := map[]), done))
  {
    var f := StartFlash(w, done);
    forall n | 1 <= n < FlashTicks
      ensures TicksAsWritten(f, f.flashInterval, n).flashing &&
              f.flashInterval in TicksAsWritten(f, f.flashInterval, n).flashTimers
    {
      LatestTicksAgree(f, f.flashInterval, n);
      SoleTimerTicks(f, f.flashInterval, n);
    }
    forall n | n >= FlashTicks
      ensures TicksAsWritten(f, f.flashInterval, n) == Complete(f.(flashCount := FlashTicks, flashTimers := map[]), done)
    {
      LatestTicksAgree(f, f.flashInterval, n);
      SoleTimerTicks(f, f.flashInterval, n);
    }
  }

  /** With the intended, self-cancelling tick: whatever else is running, `FlashTicks` own
      ticks of interval `h` are enough for it to complete; it is then cancelled, and if it
      was the restart it has restored the game. (As written this holds only for the latest
      interval, by `LatestTicksAgree`; see `FlashTickAsWritten` for the others.) */
  lemma {:induction false} OwnTicksComplete(w: World, h: nat, n: nat)
    requires h in w.flashTimers && w.flashCount >= 0
    requires n >= 1 && n >= FlashTicks - w.flashCount
    ensures h !in Ticks(w, h, n).flashTimers
    ensures w.flashTimers[h] == RestartGame ==>
      Ticks(w, h, n).lives == StartLives && Ticks(w, h, n).score == 0 && !Ticks(w, h, n).gameOver
    decreases n
  {
    var v := FlashTick(w, h);
    if w.flashCount + 1 < FlashTicks {
      OwnTicksComplete(v, h, n - 1);
    } else {
      assert h !in v.flashTimers;
      assert Ticks(w, h, n) == v;
    }
  }

  /** The timeout of `displayGameOver`: put SpongeBob back and start the restart flash. */
  function GameOverDone(w: World): (v: World)
    requires w.gameOverTimeouts > 0
    ensures v.spongebob == ResetPoint(w) && v.gameOverTimeouts == w.gameOverTimeouts - 1
    ensures v.flashing && v.flashCount == 0 && v.flashTimers == w.flashTimers[w.nextTimer := RestartGame]
    ensures v.lives == w.lives && v.score == w.score && v.gameOver == w.gameOver
    ensures v == w.(spongebob := ResetPoint(w), gameOverTimeouts := w.gameOverTimeouts - 1,
                    flashing := true, flashCount := 0, flashInterval := w.nextTimer,
                    flashTimers := w.flashTimers[w.nextTimer := RestartGame],
                    nextTimer := w.nextTimer + 1)
    ensures Valid(w) ==> Valid(v)
  {
    StartFlash(w.(spongebob := ResetPoint(w), gameOverTimeouts := w.gameOverTimeouts - 1), RestartGame)
  }

  // ---------------------------------------------------------------------------
  // Frame loop and rendering decision

  /** The guard of `gameLoop`: frames update the game unless it is over and not flashing. */
  predicate Runs(w: World) {
    !w.gameOver || w.flashing
  }

  /** One animation frame of `gameLoop`, with the arrow keys and the random draws
      `checkItemCollection` would make. */
  function GameLoop(w: World, k: Keys, rx: real, ry: real): (v: World)
    ensures !Runs(w) ==> v == w
    ensures Valid(w) ==> Valid(v)
    ensures v.width == w.width && v.height == w.height
    ensures v.flashing == w.flashing || (v.flashing && v.flashCount == 0)
  {
    if Runs(w) then
      CheckItemCollection(CheckCollision(MoveItem(MoveObstacle(UpdatePosition(w, k)))), rx, ry)
    else
      w
  }

  /** The test in `renderSpongebob`: drawn unless flashing on an odd count. */
  function Visible(flashing: bool, flashCount: int): (shown: bool)
    ensures !flashing ==> shown
    ensures flashing && 0 <= flashCount < FlashTicks ==> (shown <==> flashCount in {0, 2, 4})
  {
    !flashing || (flashing && flashCount % 2 == 0)
  }

  /** While flashing, every tick of the counter toggles whether SpongeBob is drawn. */
  lemma VisibilityToggles(c: int)
    ensures Visible(true, c) != Visible(true, c + 1)
  {
  }

  /** The scenario of a last life lost: the hit ends the game and halts the frame loop,
      the display timeout starts the restart flash, and six ticks of it, as the source
      writes them, restore a new game with five lives and no score. */
  lemma LastLifeRestarts(w: World)
    requires Valid(w) && w.lives == 1 && !w.flashing
    requires w.flashTimers == map[] && w.gameOverTimeouts == 0
    requires ObstacleHit(w.spongebob, w.obstacle)
    ensures var a := CheckCollision(w);
      a.lives == 0 && a.gameOver && !Runs(a) && a.gameOverTimeouts == 1 &&
      var b := GameOverDone(a);
      var c := TicksAsWritten(b, b.flashInterval, FlashTicks);
      c.lives == StartLives && c.score == 0 && !c.gameOver && !c.flashing && Runs(c) &&
      c.flashTimers == map[]
  {
    var a := CheckCollision(w);
    var b := GameOverDone(a);
    assert b.flashTimers == map[a.nextTimer := RestartGame];
    LatestTicksAgree(b, b.flashInterval, FlashTicks);
    SoleTimerTicks(b, b.flashInterval, FlashTicks);
  }
}
