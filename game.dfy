/** The per-frame state machine of the game: the module-level state of the
    program gathered into one object, with one method per state-changing
    function. The browser supplies the clock reading (elapsed milliseconds since
    start), the two random draws of a spawn and the touch position as arguments. */
module GameState {
  import opened Field

  const InitialObstacleSpeed: real := 4.0
  const SpeedIncreaseAmount: real := 0.5
  /** length of a game in milliseconds */
  const GameDuration: int := 30000

  datatype Option<T> = None | Some(value: T)

  /** The remaining time in seconds that the timer readout shows. */
  function RemainingTime(elapsed: int): (r: real)
    ensures r >= 0.0
    ensures elapsed >= GameDuration ==> r == 0.0
    ensures elapsed < GameDuration ==> r * 1000.0 + elapsed as real == GameDuration as real
  {
    var t := (GameDuration - elapsed) as real / 1000.0;
    if t > 0.0 then t else 0.0
  }

  /** The time-based end and the timer agree: time is up exactly when the
      unrounded remaining time is zero, and it never goes up as time passes.
      The one-decimal text readout shows 0.0 slightly earlier, once the
      remaining time rounds to zero at one decimal. */
  lemma TimeUpIffTimerZero(elapsed: int, later: int)
    requires elapsed <= later
    ensures elapsed >= GameDuration <==> RemainingTime(elapsed) == 0.0
    ensures RemainingTime(later) <= RemainingTime(elapsed)
  {
  }

  class Game {
    const screen: Screen
    var obstacles: seq<Obstacle>
    var score: nat
    var gameOver: bool
    var speed: real
    /** `player.x` */
    var px: real
    /** `moveDirection` */
    var direction: Direction
    /** how many speed increases have happened */
    ghost var ramps: nat

    /** The speed is the initial speed plus one increment per ramp, every
        obstacle is in play, and the player is less than one step off screen. */
    ghost predicate Valid(): (r: bool)
      reads this
      ensures r ==> InitialObstacleSpeed <= speed
    {
      screen.Valid() &&
      speed == InitialObstacleSpeed + SpeedIncreaseAmount * ramps as real &&
      (forall o :: o in obstacles ==> screen.InPlay(o)) &&
      -PlayerSpeed < px < screen.RightLimit() + PlayerSpeed
    }

    /** Score and speed never go down, and a finished game stays finished. */
    twostate predicate Progress()
      reads this
    {
      old(score) <= score && (old(gameOver) ==> gameOver) && old(speed) <= speed
    }

    constructor (screen: Screen)
      requires screen.Valid()
      ensures Valid()
      ensures this.screen == screen && obstacles == [] && score == 0 && !gameOver
      ensures speed == InitialObstacleSpeed && ramps == 0
      ensures px == screen.InitialPlayerX() && direction == Still
    {
      this.screen := screen;
      obstacles := [];
      score := 0;
      gameOver := false;
      speed := InitialObstacleSpeed;
      px := screen.InitialPlayerX();
      direction := Still;
      ramps := 0;
    }

    /** The spawn timer's tick; u and v are the two `Math.random()` draws.
        It runs whether or not the game is over. */
    method CreateObstacle(u: real, v: real)
      requires Valid() && 0.0 <= u < 1.0 && 0.0 <= v < 1.0
      modifies this`obstacles
      ensures Valid() && Progress()
      ensures obstacles == old(obstacles) + [Spawned(screen, u, v)]
    {
      obstacles := obstacles + [Spawned(screen, u, v)];
    }

    /** Moves every obstacle down by the current speed, then drops those whose
        top is now below the bottom edge. */
    method UpdateObstacles()
      requires Valid()
      modifies this`obstacles
      ensures Valid() && Progress()
      ensures obstacles == OnScreen(screen, Fall(old(obstacles), speed))
    {
      ghost var before := obstacles;
      var i := 0;
      while i < |obstacles|
        invariant 0 <= i <= |obstacles| == |before|
        invariant forall k :: 0 <= k < i ==> obstacles[k] == before[k].(y := before[k].y + speed)
        invariant forall k :: i <= k < |obstacles| ==> obstacles[k] == before[k]
      {
        obstacles := obstacles[i := obstacles[i].(y := obstacles[i].y + speed)];
        i := i + 1;
      }
      var moved := obstacles;
      assert moved == Fall(before, speed);
      var kept: seq<Obstacle> := [];
      i := 0;
      while i < |moved|
        invariant 0 <= i <= |moved|
        invariant kept == OnScreen(screen, moved[..i])
      {
        assert moved[..i + 1][..i] == moved[..i];
        if moved[i].y <= screen.height {
          kept := kept + [moved[i]];
        }
        i := i + 1;
      }
      assert moved[..i] == moved;
      obstacles := kept;
      FallKeepsInPlay(screen, before, speed);
    }

    /** Checks every obstacle of the list as it stood on entry against the
        player; a hit scores or ends the game by type and removes that obstacle.
        Later obstacles are still checked after a hazard. */
    method DetectCollision()
      modifies this`obstacles, this`score, this`gameOver
      ensures Progress()
      ensures obstacles == Missed(screen, px, old(obstacles))
      ensures score == old(score) + Points(screen, px, old(obstacles))
      ensures gameOver == (old(gameOver) || HazardHit(screen, px, old(obstacles)))
    {
      var snapshot, p := obstacles, px;
      var i, j := 0, 0;
      while i < |snapshot|
        invariant 0 <= i <= |snapshot|
        invariant obstacles == Missed(screen, p, snapshot[..i]) + snapshot[i..]
        invariant j == |Missed(screen, p, snapshot[..i])|
        invariant score == old(score) + Points(screen, p, snapshot[..i])
        invariant gameOver == (old(gameOver) || HazardHit(screen, p, snapshot[..i]))
      {
        var o := snapshot[i];
        ghost var before := obstacles;
        assert before[j] == o;
        var hit := Collide(o, j);
        ResolveStep(screen, p, snapshot, i, before, j, hit);
        if !hit {
          j := j + 1;
        }
        i := i + 1;
      }
      assert snapshot[..i] == snapshot;
    }

    /** The body of the collision loop for the obstacle o, which sits at
        position j of the current list: on a hit, score or end the game by type
        and remove that obstacle. */
    method Collide(o: Obstacle, j: nat) returns (hit: bool)
      requires j < |obstacles| && obstacles[j] == o
      modifies this`obstacles, this`score, this`gameOver
      ensures Progress()
      ensures hit == screen.Hit(px, o)
      ensures obstacles == if hit then old(obstacles[..j] + obstacles[j + 1..]) else old(obstacles)
      ensures hit && o.kind == Scoring ==> score == old(score) + 1
      ensures !(hit && o.kind == Scoring) ==> score == old(score)
      ensures gameOver == (old(gameOver) || (hit && o.kind == Hazard))
    {
      hit := screen.Hit(px, o);
      if hit {
        if o.kind == Scoring {
          UpdateScore();
        } else {
          gameOver := true;
        }
        obstacles := obstacles[..j] + obstacles[j + 1..];
      }
    }

    method UpdateScore()
      modifies this`score
      ensures Progress()
      ensures score == old(score) + 1
    {
      score := score + 1;
    }

    /** The speed timer's tick. It runs whether or not the game is over. */
    method IncreaseObstacleSpeed()
      requires Valid()
      modifies this`speed, this`ramps
      ensures Valid() && Progress()
      ensures speed == old(speed) + SpeedIncreaseAmount && ramps == old(ramps) + 1
    {
      speed := speed + SpeedIncreaseAmount;
      ramps := ramps + 1;
    }

    method CheckGameOver(elapsed: int)
      requires Valid()
      modifies this`gameOver
      ensures Valid() && Progress()
      ensures gameOver == (old(gameOver) || elapsed >= GameDuration)
    {
      if elapsed >= GameDuration {
        gameOver := true;
      }
    }

    /** One animation frame. A finished game only draws its end screen;
        otherwise obstacles fall, collisions resolve against the player's
        position before this frame's input, the clock may end the game, the
        timer readout is produced, and the player moves. */
    method GameLoop(elapsed: int) returns (shownTime: Option<real>)
      requires Valid()
      modifies this`obstacles, this`score, this`gameOver, this`px
      ensures Valid() && Progress()
      ensures old(gameOver) ==>
        obstacles == old(obstacles) && score == old(score) && gameOver &&
        px == old(px) && shownTime == None
      ensures !old(gameOver) ==>
        obstacles == Missed(screen, old(px), OnScreen(screen, Fall(old(obstacles), speed))) &&
        score == old(score) + Points(screen, old(px), OnScreen(screen, Fall(old(obstacles), speed))) &&
        gameOver == (HazardHit(screen, old(px), OnScreen(screen, Fall(old(obstacles), speed))) ||
                     elapsed >= GameDuration) &&
        px == Moved(screen, old(px), direction) &&
        shownTime == Some(RemainingTime(elapsed))
    {
      if gameOver {
        shownTime := None;
        return;
      }
      UpdateObstacles();
      ghost var moved := obstacles;
      DetectCollision();
      MissedMembers(screen, px, moved);
      CheckGameOver(elapsed);
      shownTime := Some(RemainingTime(elapsed));
      if direction == Left && px > 0.0 {
        px := px - PlayerSpeed;
      } else if direction == Right && px < screen.width - screen.PlayerWidth() {
        px := px + PlayerSpeed;
      }
    }

    method HandleTouchStart(touchX: real)
      requires Valid()
      modifies this`direction
      ensures Valid() && Progress()
      ensures direction == TouchDirection(screen.width, touchX)
    {
      if touchX < screen.width / 2.0 {
        direction := Left;
      } else {
        direction := Right;
      }
    }

    method HandleTouchEnd()
      requires Valid()
      modifies this`direction
      ensures Valid() && Progress()
      ensures direction == Still
    {
      direction := Still;
    }

    method HandleTouchMove(touchX: real)
      requires Valid()
      modifies this`direction
      ensures Valid() && Progress()
      ensures direction == TouchDirection(screen.width, touchX)
    {
      if touchX < screen.width / 2.0 {
        direction := Left;
      } else {
        direction := Right;
      }
    }
  }
}

/** A client of the game: on a 1000 by 800 canvas, one spawn tick and one
    speed tick, then one frame; the new obstacle starts 80 above the top with
    its left edge in [0, 850] and falls by the ramped speed 4.5. */
module Scenario {
  import opened Field
  import opened GameState

  /** The first frame after a spawn on the 1000 by 800 canvas: the obstacle
      falls by 4.5, stays on screen, and misses the centred player. */
  lemma FirstFrame(c: Screen, o: Obstacle)
    requires c == Screen(1000.0, 800.0) && o.y == -80.0 && 0.0 <= o.x <= 850.0
    ensures OnScreen(c, Fall([o], 4.5)) == [o.(y := -75.5)]
    ensures Missed(c, c.InitialPlayerX(), [o.(y := -75.5)]) == [o.(y := -75.5)]
    ensures Points(c, c.InitialPlayerX(), [o.(y := -75.5)]) == 0
    ensures !HazardHit(c, c.InitialPlayerX(), [o.(y := -75.5)])
  {
    assert Fall([o], 4.5) == [o.(y := -75.5)];
    assert !c.Hit(c.InitialPlayerX(), o.(y := -75.5));
  }

  method SpawnRampFrame(u: real, v: real)
    requires 0.0 <= u < 1.0 && 0.0 <= v < 1.0
  {
    var g := new Game(Screen(1000.0, 800.0));
    g.CreateObstacle(u, v);
    var o := g.obstacles[0];
    assert o.y == -80.0 && 0.0 <= o.x <= 850.0;
    g.IncreaseObstacleSpeed();
    assert g.speed == 4.5;
    FirstFrame(g.screen, o);
    var shown := g.GameLoop(1000);
    assert g.obstacles == [o.(y := -75.5)];
    assert g.score == 0 && !g.gameOver && shown == Some(29.0);
  }
}
