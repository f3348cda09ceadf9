/** The playing field of the falling-obstacle game: canvas geometry, the
    rectangle overlap test, the player's horizontal step, the touch-to-direction
    rule, and the obstacle-list functions that specify one frame's update. */
module Field {

  /** player speed in pixels per frame (`playerSpeed`, never reassigned) */
  const PlayerSpeed: real := 8.0

  /** The two obstacle types: `type === 0` scores, `type === 1` ends the game. */
  datatype Kind = Scoring | Hazard

  /** A falling obstacle; all obstacles share one width and height. */
  datatype Obstacle = Obstacle(x: real, y: real, kind: Kind)

  /** An axis-aligned rectangle with its top-left corner at (x, y). */
  datatype Rect = Rect(x: real, y: real, w: real, h: real)

  /** `moveDirection`: null, 'left' or 'right'. */
  datatype Direction = Still | Left | Right

  /** The canvas, sized once at start-up; every other size derives from it. */
  datatype Screen = Screen(width: real, height: real) {

    predicate Valid() { 0.0 <= width && 0.0 <= height }

    function PlayerWidth(): real { width * 0.15 }
    function PlayerHeight(): real { height * 0.1 }
    function ObstacleWidth(): real { width * 0.15 }
    function ObstacleHeight(): real { height * 0.1 }

    /** `player.y`: ten pixels above the bottom edge; it is never changed. */
    function PlayerTop(): (top: real)
      ensures top + PlayerHeight() + 10.0 == height
    {
      height - PlayerHeight() - 10.0
    }

    /** The player moves right only while its left edge is below this bound. */
    function RightLimit(): real { width - PlayerWidth() }

    /** `player.x` at start-up: the player centred horizontally. */
    function InitialPlayerX(): (x: real)
      ensures x + PlayerWidth() / 2.0 == width / 2.0
      ensures Valid() ==> 0.0 <= x <= RightLimit()
    {
      width / 2.0 - PlayerWidth() / 2.0
    }

    function PlayerRect(px: real): Rect {
      Rect(px, PlayerTop(), PlayerWidth(), PlayerHeight())
    }

    function ObstacleRect(o: Obstacle): Rect {
      Rect(o.x, o.y, ObstacleWidth(), ObstacleHeight())
    }

    /** Whether the player, with its left edge at px, collides with o. */
    predicate Hit(px: real, o: Obstacle): (r: bool)
      ensures r <==> px - ObstacleWidth() < o.x < px + PlayerWidth() &&
                     PlayerTop() - ObstacleHeight() < o.y < PlayerTop() + PlayerHeight()
    {
      Overlaps(PlayerRect(px), ObstacleRect(o))
    }

    /** Where a live obstacle can be: it was spawned inside the spawn range,
        starts one obstacle height above the top and has not yet left the bottom. */
    predicate InPlay(o: Obstacle) {
      0.0 <= o.x <= width - ObstacleWidth() && -ObstacleHeight() <= o.y <= height
    }
  }

  // ---------------------------------------------------------------------------
  // Overlap test

  /** The collision test, with strict comparisons, a being the player. */
  predicate Overlaps(a: Rect, b: Rect): (r: bool)
    ensures r <==> b.x < a.x + a.w && b.x + b.w > a.x && b.y < a.y + a.h && b.y + b.h > a.y
    ensures r ==> a.w + b.w > 0.0 && a.h + b.h > 0.0
  {
    a.x < b.x + b.w && a.x + a.w > b.x && a.y < b.y + b.h && a.y + a.h > b.y
  }

  /** (qx, qy) lies strictly inside r. */
  ghost predicate Inside(r: Rect, qx: real, qy: real) {
    r.x < qx < r.x + r.w && r.y < qy < r.y + r.h
  }

  /** For rectangles of positive size, the strict test holds exactly when the
      two interiors share a point. */
  lemma OverlapsIffSharedPoint(a: Rect, b: Rect)
    requires a.w > 0.0 && a.h > 0.0 && b.w > 0.0 && b.h > 0.0
    ensures Overlaps(a, b) <==> exists qx, qy :: Inside(a, qx, qy) && Inside(b, qx, qy)
  {
    if Overlaps(a, b) {
      var left := if a.x < b.x then b.x else a.x;
      var right := if a.x + a.w < b.x + b.w then a.x + a.w else b.x + b.w;
      var top := if a.y < b.y then b.y else a.y;
      var bottom := if a.y + a.h < b.y + b.h then a.y + a.h else b.y + b.h;
      var qx, qy := (left + right) / 2.0, (top + bottom) / 2.0;
      assert Inside(a, qx, qy) && Inside(b, qx, qy);
    }
  }

  /** Rectangles that only touch along an edge do not collide. */
  lemma EdgeContactIsNoHit(a: Rect, b: Rect)
    requires b.x == a.x + a.w || b.x + b.w == a.x || b.y == a.y + a.h || b.y + b.h == a.y
    ensures !Overlaps(a, b)
  {
  }

  // ---------------------------------------------------------------------------
  // Spawning

  /** The obstacle `createObstacle` pushes, given the two `Math.random()`
      draws u (position) and v (type). */
  function Spawned(c: Screen, u: real, v: real): (o: Obstacle)
    requires c.Valid() && 0.0 <= u < 1.0 && 0.0 <= v < 1.0
    ensures c.InPlay(o) && o.y == -c.ObstacleHeight()
    ensures o.kind == Scoring <==> v > 0.5
  {
    var range := c.width - c.ObstacleWidth();
    assert 0.0 <= u * range <= range by {
      assert 0.0 <= range;
      assert u * range <= 1.0 * range;
    }
    Obstacle(u * range, -c.ObstacleHeight(), if v > 0.5 then Scoring else Hazard)
  }

  // ---------------------------------------------------------------------------
  // Advancing and culling

  /** Every obstacle moved down by speed; x and kind kept. */
  function Fall(s: seq<Obstacle>, speed: real): (r: seq<Obstacle>)
    ensures |r| == |s|
    ensures forall i :: 0 <= i < |s| ==>
              r[i].x == s[i].x && r[i].kind == s[i].kind && r[i].y == s[i].y + speed
  {
    seq(|s|, i requires 0 <= i < |s| => s[i].(y := s[i].y + speed))
  }

  /** The obstacles whose top is not below the bottom edge, in order. */
  function OnScreen(c: Screen, s: seq<Obstacle>): (r: seq<Obstacle>)
    ensures |r| <= |s|
    ensures forall i :: 0 <= i < |r| ==> r[i].y <= c.height
    decreases |s|
  {
    if s == [] then []
    else
      var o := s[|s| - 1];
      OnScreen(c, s[..|s| - 1]) + (if o.y <= c.height then [o] else [])
  }

  /** An obstacle survives the cull exactly when it was in the list and its
      top is at most the canvas height. */
  lemma {:induction false} OnScreenMembers(c: Screen, s: seq<Obstacle>)
    ensures |OnScreen(c, s)| <= |s|
    ensures forall o :: o in OnScreen(c, s) <==> o in s && o.y <= c.height
    decreases |s|
  {
    if s != [] {
      var init := s[..|s| - 1];
      OnScreenMembers(c, init);
      assert s == init + [s[|s| - 1]];
    }
  }

  /** Falling by a non-negative speed and then culling keeps every obstacle
      in play: none rises above its spawn height, and none below the bottom
      edge survives. */
  lemma FallKeepsInPlay(c: Screen, s: seq<Obstacle>, speed: real)
    requires forall o :: o in s ==> c.InPlay(o)
    requires 0.0 <= speed
    ensures forall o :: o in OnScreen(c, Fall(s, speed)) ==> c.InPlay(o)
  {
    var moved := Fall(s, speed);
    OnScreenMembers(c, moved);
    forall o | o in OnScreen(c, moved)
      ensures c.InPlay(o)
    {
      var k :| 0 <= k < |moved| && moved[k] == o;
      assert s[k] in s;
    }
  }

  /** Culling keeps the order: it works piecewise on any split of the list. */
  lemma {:induction false} OnScreenAppend(c: Screen, a: seq<Obstacle>, b: seq<Obstacle>)
    ensures OnScreen(c, a + b) == OnScreen(c, a) + OnScreen(c, b)
    decreases |b|
  {
    if b == [] {
      assert a + b == a;
    } else {
      var init := b[..|b| - 1];
      assert (a + b)[..|a + b| - 1] == a + init;
      OnScreenAppend(c, a, init);
    }
  }

  // ---------------------------------------------------------------------------
  // Collision resolution

  /** The obstacles the player at px does not hit, in order. */
  function Missed(c: Screen, px: real, s: seq<Obstacle>): (r: seq<Obstacle>)
    ensures |r| <= |s|
    ensures forall i :: 0 <= i < |r| ==> !c.Hit(px, r[i])
    decreases |s|
  {
    if s == [] then []
    else
      var o := s[|s| - 1];
      Missed(c, px, s[..|s| - 1]) + (if c.Hit(px, o) then [] else [o])
  }

  /** The number of scoring obstacles the player at px hits. */
  function Points(c: Screen, px: real, s: seq<Obstacle>): (n: nat)
    ensures n <= |s|
    decreases |s|
  {
    if s == [] then 0
    else
      var o := s[|s| - 1];
      Points(c, px, s[..|s| - 1]) + (if c.Hit(px, o) && o.kind == Scoring then 1 else 0)
  }

  /** Whether the player at px hits some hazard. */
  predicate HazardHit(c: Screen, px: real, s: seq<Obstacle>): (r: bool)
    ensures r ==> exists i :: 0 <= i < |s| && c.Hit(px, s[i]) && s[i].kind == Hazard
    decreases |s|
  {
    if s == [] then false
    else
      var o := s[|s| - 1];
      HazardHit(c, px, s[..|s| - 1]) || (c.Hit(px, o) && o.kind == Hazard)
  }

  /** Positions of the scoring obstacles the player at px hits. */
  ghost function ScoringHits(c: Screen, px: real, s: seq<Obstacle>): set<int> {
    set i | 0 <= i < |s| && c.Hit(px, s[i]) && s[i].kind == Scoring
  }

  /** Resolving one more obstacle extends each of the three collision outcomes. */
  lemma CollisionStep(c: Screen, px: real, s: seq<Obstacle>, i: int)
    requires 0 <= i < |s|
    ensures c.Hit(px, s[i]) ==> Missed(c, px, s[..i + 1]) == Missed(c, px, s[..i])
    ensures !c.Hit(px, s[i]) ==> Missed(c, px, s[..i + 1]) == Missed(c, px, s[..i]) + [s[i]]
    ensures c.Hit(px, s[i]) && s[i].kind == Scoring ==>
            Points(c, px, s[..i + 1]) == Points(c, px, s[..i]) + 1
    ensures !(c.Hit(px, s[i]) && s[i].kind == Scoring) ==>
            Points(c, px, s[..i + 1]) == Points(c, px, s[..i])
    ensures HazardHit(c, px, s[..i + 1]) ==
            (HazardHit(c, px, s[..i]) || (c.Hit(px, s[i]) && s[i].kind == Hazard))
  {
    assert s[..i + 1][..i] == s[..i];
  }

  /** One step of the collision pass over the snapshot s, with the current
      list cur: the kept prefix followed by the unchecked suffix, the next
      obstacle sitting at position j, and hit the outcome of its test.
      Removing it on a hit, or passing it, restores that shape one position
      further on, and the score and the flag follow the three outcomes. */
  lemma ResolveStep(c: Screen, px: real, s: seq<Obstacle>, i: int, cur: seq<Obstacle>, j: int, hit: bool)
    requires 0 <= i < |s| && hit == c.Hit(px, s[i])
    requires cur == Missed(c, px, s[..i]) + s[i..] && j == |Missed(c, px, s[..i])|
    ensures 0 <= j < |cur| && cur[j] == s[i]
    ensures hit ==>
            cur[..j] + cur[j + 1..] == Missed(c, px, s[..i + 1]) + s[i + 1..] &&
            j == |Missed(c, px, s[..i + 1])|
    ensures !hit ==>
            cur == Missed(c, px, s[..i + 1]) + s[i + 1..] &&
            j + 1 == |Missed(c, px, s[..i + 1])|
    ensures hit && s[i].kind == Scoring ==> Points(c, px, s[..i + 1]) == Points(c, px, s[..i]) + 1
    ensures !(hit && s[i].kind == Scoring) ==> Points(c, px, s[..i + 1]) == Points(c, px, s[..i])
    ensures HazardHit(c, px, s[..i + 1]) == (HazardHit(c, px, s[..i]) || (hit && s[i].kind == Hazard))
  {
    var done, rest := Missed(c, px, s[..i]), s[i + 1..];
    assert s[i..] == [s[i]] + rest;
    assert cur == done + ([s[i]] + rest);
    CollisionStep(c, px, s, i);
    assert cur[..j] == done;
    assert cur[j + 1..] == rest;
    if !hit {
      assert cur == (done + [s[i]]) + rest;
    }
  }

  /** An obstacle is left on the list exactly when it was there and is not hit. */
  lemma {:induction false} MissedMembers(c: Screen, px: real, s: seq<Obstacle>)
    ensures |Missed(c, px, s)| <= |s|
    ensures forall o :: o in Missed(c, px, s) <==> o in s && !c.Hit(px, o)
    decreases |s|
  {
    if s != [] {
      var init := s[..|s| - 1];
      MissedMembers(c, px, init);
      assert s == init + [s[|s| - 1]];
    }
  }

  /** Removing the hits keeps the order of the rest. */
  lemma {:induction false} MissedAppend(c: Screen, px: real, a: seq<Obstacle>, b: seq<Obstacle>)
    ensures Missed(c, px, a + b) == Missed(c, px, a) + Missed(c, px, b)
    decreases |b|
  {
    if b == [] {
      assert a + b == a;
    } else {
      var init := b[..|b| - 1];
      assert (a + b)[..|a + b| - 1] == a + init;
      MissedAppend(c, px, a, init);
    }
  }

  /** Points is the number of positions holding a scoring obstacle that is hit. */
  lemma {:induction false} PointsCountsScoringHits(c: Screen, px: real, s: seq<Obstacle>)
    ensures Points(c, px, s) == |ScoringHits(c, px, s)|
    decreases |s|
  {
    if s != [] {
      var n := |s| - 1;
      var init := s[..n];
      PointsCountsScoringHits(c, px, init);
      var before := ScoringHits(c, px, init);
      if c.Hit(px, s[n]) && s[n].kind == Scoring {
        assert ScoringHits(c, px, s) == before + {n};
        assert n !in before;
      } else {
        assert ScoringHits(c, px, s) == before;
      }
    }
  }

  /** HazardHit holds exactly when some position holds a hazard that is hit. */
  lemma {:induction false} HazardHitIffSome(c: Screen, px: real, s: seq<Obstacle>)
    ensures HazardHit(c, px, s) <==>
            exists i :: 0 <= i < |s| && c.Hit(px, s[i]) && s[i].kind == Hazard
    decreases |s|
  {
    if s != [] {
      var n := |s| - 1;
      var init := s[..n];
      HazardHitIffSome(c, px, init);
      if HazardHit(c, px, init) {
        var i :| 0 <= i < |init| && c.Hit(px, init[i]) && init[i].kind == Hazard;
        assert s[i] == init[i];
      }
      if exists i :: 0 <= i < |s| && c.Hit(px, s[i]) && s[i].kind == Hazard {
        var i :| 0 <= i < |s| && c.Hit(px, s[i]) && s[i].kind == Hazard;
        if i < n {
          assert init[i] == s[i];
        }
      }
    }
  }

  /** Without a hazard hit, every obstacle either stays or scores one point. */
  lemma {:induction false} CollisionPartition(c: Screen, px: real, s: seq<Obstacle>)
    requires !HazardHit(c, px, s)
    ensures |Missed(c, px, s)| + Points(c, px, s) == |s|
    decreases |s|
  {
    if s != [] {
      CollisionPartition(c, px, s[..|s| - 1]);
    }
  }

  // ---------------------------------------------------------------------------
  // Movement and input

  /** The player's left edge after one frame's input. */
  function Moved(c: Screen, x: real, d: Direction): (r: real)
    ensures r < x <==> d == Left && x > 0.0
    ensures r > x <==> d == Right && x < c.RightLimit()
    ensures r == x || r == x - PlayerSpeed || r == x + PlayerSpeed
  {
    if d == Left && x > 0.0 then x - PlayerSpeed
    else if d == Right && x < c.RightLimit() then x + PlayerSpeed
    else x
  }

  /** The guard keeps the player within less than one step of the edges. */
  lemma MoveStaysWithinOneStep(c: Screen, x: real, d: Direction)
    requires -PlayerSpeed < x < c.RightLimit() + PlayerSpeed
    ensures -PlayerSpeed < Moved(c, x, d) < c.RightLimit() + PlayerSpeed
  {
  }

  /** At an edge, pushing outwards does not move the player. */
  lemma BlockedAtEdges(c: Screen)
    ensures Moved(c, 0.0, Left) == 0.0
    ensures Moved(c, c.RightLimit(), Right) == c.RightLimit()
  {
  }

  /** The guard is not a clamp: a step that starts inside may end past the edge. */
  lemma GuardIsNotAClamp()
    ensures Moved(Screen(100.0, 100.0), 84.0, Right) > Screen(100.0, 100.0).RightLimit()
    ensures Moved(Screen(100.0, 100.0), 4.0, Left) < 0.0
  {
  }

  /** A touch on the left half of the canvas means left, anywhere else right. */
  function TouchDirection(width: real, touchX: real): (d: Direction)
    ensures d != Still
    ensures d == Left <==> touchX < width / 2.0
  {
    if touchX < width / 2.0 then Left else Right
  }
}
