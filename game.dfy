/** The game's module-level records as objects whose fields the game's functions update in
    place. Each method is proved to leave those fields as the matching function of module
    Rules prescribes. Most follow the JS function of the same name; `FlashTick` and
    `GameOverDone` are the anonymous callbacks of the flash interval and the game-over
    timeout; `FlashTick` runs the corrected, self-cancelling tick and `FlashTickAsWritten`
    the tick as the source writes it. */
module Spongebob {
  import opened Rules

  /** The `obstacle` record: a disc of radius `ObstacleRadius` centred at (x, y). */
  class Obstacle {
    var x: real
    var y: real
    var dx: real
    var dy: real

    constructor (x0: real, y0: real)
      ensures x == x0 && y == y0 && dx == 1.0 && dy == 1.0
    {
      x, y, dx, dy := x0, y0, 1.0, 1.0;
    }
  }

  /** The `item` record: an `ItemWidth` by `ItemHeight` box with top-left corner (x, y). */
  class Item {
    var x: real
    var y: real
    var dx: real
    var dy: real

    constructor (x0: real, y0: real)
      ensures x == x0 && y == y0 && dx == 1.0 && dy == 1.0
    {
      x, y, dx, dy := x0, y0, 1.0, 1.0;
    }
  }

  /** The `state` record, the canvas size, the two other records, and the flash intervals
      and game-over timeouts the host has pending. */
  class Game {
    const width: real
    const height: real
    var spongebob: Point
    var lives: int
    var score: int
    var gameOver: bool
    var flashing: bool
    var flashCount: int
    var flashInterval: nat
    const obstacle: Obstacle
    const item: Item
    var flashTimers: map<nat, Completion>
    var nextTimer: nat
    var gameOverTimeouts: nat

    /** The value of every mutable field. */
    function Snapshot(): World
      reads this, obstacle, item
    {
      World(width, height, spongebob, lives, score, gameOver, flashing, flashCount, flashInterval,
        Body(obstacle.x, obstacle.y, obstacle.dx, obstacle.dy),
        Body(item.x, item.y, item.dx, item.dy),
        flashTimers, nextTimer, gameOverTimeouts)
    }

    ghost predicate Valid()
      reads this, obstacle, item
    {
      Rules.Valid(Snapshot())
    }

    constructor (canvasWidth: real, canvasHeight: real)
      requires canvasWidth >= SpongebobSize && canvasHeight >= SpongebobSize
      ensures Snapshot() == Init(canvasWidth, canvasHeight) && Valid()
      ensures fresh(obstacle) && fresh(item)
    {
      width, height := canvasWidth, canvasHeight;
      spongebob := Point(canvasWidth / 2.0, canvasHeight / 2.0 + 100.0);
      lives, score := StartLives, 0;
      gameOver, flashing, flashCount, flashInterval := false, false, 0, NoTimer;
      obstacle := new Obstacle(canvasWidth / 2.0 - 100.0, canvasHeight / 2.0 - 100.0);
      item := new Item(200.0, 150.0);
      flashTimers, nextTimer, gameOverTimeouts := map[], 1, 0;
    }

    method ResetSpongebobPosition()
      modifies this
      ensures Snapshot() == old(Snapshot()).(spongebob := ResetPoint(old(Snapshot())))
    {
      spongebob := Point(width / 2.0, height / 2.0 + 100.0);
    }

    method FlashSpongebob(done: Completion)
      modifies this
      ensures Snapshot() == StartFlash(old(Snapshot()), done)
    {
      flashCount := 0;
      flashing := true;
      flashTimers := flashTimers[nextTimer := done];
      flashInterval := nextTimer;
      nextTimer := nextTimer + 1;
    }

    method UpdatePosition(keys: Keys)
      modifies this
      ensures Snapshot() == Rules.UpdatePosition(old(Snapshot()), keys)
    {
      if !gameOver && !flashing {
        var x, y := spongebob.x, spongebob.y;
        if keys.right { x := x + Speed; }
        if keys.left { x := x - Speed; }
        if keys.up { y := y - Speed; }
        if keys.down { y := y + Speed; }

        if x < 0.0 { x := width - SpongebobSize; }
        if x > width - SpongebobSize { x := 0.0; }
        if y < 0.0 { y := height - SpongebobSize; }
        if y > height - SpongebobSize { y := 0.0; }
        spongebob := Point(x, y);
      }
    }

    method MoveObstacle()
      modifies obstacle
      ensures Snapshot() == Rules.MoveObstacle(old(Snapshot()))
    {
      obstacle.x := obstacle.x + obstacle.dx;
      obstacle.y := obstacle.y + obstacle.dy;

      if obstacle.x < ObstacleRadius || obstacle.x > width - ObstacleRadius {
        obstacle.dx := obstacle.dx * -1.0;
      }
      if obstacle.y < ObstacleRadius || obstacle.y > height - ObstacleRadius {
        obstacle.dy := obstacle.dy * -1.0;
      }
    }

    method MoveItem()
      modifies item
      ensures Snapshot() == Rules.MoveItem(old(Snapshot()))
    {
      item.x := item.x + item.dx;
      item.y := item.y + item.dy;

      if item.x < 0.0 || item.x > width - ItemWidth {
        item.dx := item.dx * -1.0;
      }
      if item.y < 0.0 || item.y > height - ItemHeight {
        item.dy := item.dy * -1.0;
      }
    }

    method CheckCollision()
      modifies this
      ensures Snapshot() == Rules.CheckCollision(old(Snapshot()))
    {
      ghost var w := Snapshot();
      var dx := spongebob.x + HalfSize - obstacle.x;
      var dy := spongebob.y + HalfSize - obstacle.y;
      assert dx * dx + dy * dy == SquaredDistance(w.spongebob, w.obstacle);
      if dx * dx + dy * dy < (ObstacleRadius + HalfSize) * (ObstacleRadius + HalfSize) {
        lives := Max0(lives - 1);
        score := Max0(score - HitPenalty);
        if lives > 0 {
          ResetSpongebobPosition();
          FlashSpongebob(EndFlash);
        } else {
          gameOver := true;
          gameOverTimeouts := gameOverTimeouts + 1;
        }
      }
    }

    /** `checkItemCollection`, with the two values `Math.random()` would return passed in. */
    method CheckItemCollection(rx: real, ry: real)
      modifies this, item
      ensures Snapshot() == Rules.CheckItemCollection(old(Snapshot()), rx, ry)
    {
      if spongebob.x < item.x + ItemWidth &&
         spongebob.x + SpongebobSize > item.x &&
         spongebob.y < item.y + ItemHeight &&
         spongebob.y + SpongebobSize > item.y
      {
        score := score + ItemReward;
        item.x := rx * (width - ItemWidth);
        item.y := ry * (height - ItemHeight);
      }
    }

    /** One firing of the running flash interval with handle `h`; a completing interval
        cancels itself. */
    method FlashTick(h: nat)
      requires h in flashTimers && Valid()
      modifies this
      ensures Snapshot() == Rules.FlashTick(old(Snapshot()), h)
      ensures Valid()
    {
      flashCount := flashCount + 1;
      if flashCount >= FlashTicks {
        var done := flashTimers[h];
        flashTimers := flashTimers - {h};
        match done {
          case EndFlash =>
            flashing := false;
          case RestartGame =>
            lives, score, gameOver, flashing := StartLives, 0, false, false;
        }
      }
    }

    /** One firing of the flash interval with handle `h` as the source writes it: a
        completing interval cancels `flashInterval`, the latest flash, not itself. */
    method FlashTickAsWritten(h: nat)
      requires h in flashTimers && Valid()
      modifies this
      ensures Snapshot() == Rules.FlashTickAsWritten(old(Snapshot()), h)
      ensures Valid()
    {
      flashCount := flashCount + 1;
      if flashCount >= FlashTicks {
        var done := flashTimers[h];
        flashTimers := flashTimers - {flashInterval};
        match done {
          case EndFlash =>
            flashing := false;
          case RestartGame =>
            lives, score, gameOver, flashing := StartLives, 0, false, false;
        }
      }
    }

    /** The pending timeout of a game-over display expires. */
    method GameOverDone()
      requires gameOverTimeouts > 0 && Valid()
      modifies this
      ensures Snapshot() == Rules.GameOverDone(old(Snapshot()))
      ensures Valid()
    {
      gameOverTimeouts := gameOverTimeouts - 1;
      ResetSpongebobPosition();
      FlashSpongebob(RestartGame);
    }

    /** One animation frame: the update and collision steps of `gameLoop`. */
    method GameLoop(keys: Keys, rx: real, ry: real)
      requires Valid()
      modifies this, obstacle, item
      ensures Snapshot() == Rules.GameLoop(old(Snapshot()), keys, rx, ry)
      ensures Valid()
    {
      if !gameOver || flashing {
        UpdatePosition(keys);
        MoveObstacle();
        MoveItem();
        CheckCollision();
        CheckItemCollection(rx, ry);
      }
    }
  }
}
