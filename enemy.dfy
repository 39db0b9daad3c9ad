/**
 * enemy.py: the base enemy. It chases the nearest living player (nearest
 * by centre distance) one NPC_SPEED step per axis toward that player's
 * top-left corner, labels its direction and action, and advances its
 * animation frame on a fixed delay.
 */
module Enemies {
  import opened Wrappers
  import opened Config
  import opened Geometry
  import Players

  const EnemyHealth: int := 100
  const EnemyDamage: int := 10
  const EnemyScore: int := 25
  const EnemySize: nat := 32
  const EnemyFrameDelay: int := 100

  /**
   * `get_direction(dx, dy)`: horizontal when |dx| > |dy|, by the sign of dx;
   * otherwise "down" for dy > 0 and "up" for everything else, including (0, 0).
   */
  function GetDirection(dx: int, dy: int): (d: string)
    ensures d in {"right", "left", "down", "up"}
    ensures d == "right" <==> Abs(dx) > Abs(dy) && dx > 0
    ensures d == "left" <==> Abs(dx) > Abs(dy) && dx < 0
    ensures d == "down" <==> Abs(dx) <= Abs(dy) && dy > 0
    ensures d == "up" <==> Abs(dx) <= Abs(dy) && dy <= 0
  {
    if Abs(dx) > Abs(dy) then (if dx > 0 then "right" else "left")
    else (if dy > 0 then "down" else "up")
  }

  /** The fields of an enemy that `update` and `animate` change. */
  datatype EnemyState = EnemyState(
    rect: Rect, direction: string, action: string, frameIndex: int, frameTimer: int, image: Option<Frame>)

  /** Every animation list is non-empty, so the modulo in `animate` never divides by zero. */
  predicate AnimationsReady(animations: map<AnimKey, seq<Frame>>)
  {
    forall k :: k in animations ==> |animations[k]| > 0
  }

  /** The movement part of `update` toward `target` at the given speed. */
  function Chase(s: EnemyState, target: Rect, speed: int): EnemyState
  {
    var r := s.rect;
    var (dx, d1) :=
      if target.x > r.x then (speed, "right")
      else if target.x < r.x then (-speed, "left")
      else (0, s.direction);
    var (dy, d2) :=
      if target.y > r.y then (speed, "down")
      else if target.y < r.y then (-speed, "up")
      else (0, d1);
    s.(rect := r.(x := r.x + dx, y := r.y + dy),
       direction := d2,
       action := if dx != 0 || dy != 0 then "move" else "idle")
  }

  /**
   * Each axis steps by exactly the speed toward the target's coordinate, and
   * not at all when equal; a vertical step overrides the horizontal label;
   * with a positive speed the action is "move" exactly when the enemy is not
   * already on the target's corner.
   */
  lemma ChaseProperties(s: EnemyState, target: Rect, speed: nat)
    ensures var c := Chase(s, target, speed);
      && c.rect == s.rect.(x := ChaseStep(s.rect.x, target.x, speed), y := ChaseStep(s.rect.y, target.y, speed))
      && (s.rect.y != target.y ==> c.direction == (if target.y > s.rect.y then "down" else "up"))
      && (s.rect.y == target.y && s.rect.x != target.x ==> c.direction == (if target.x > s.rect.x then "right" else "left"))
      && (s.rect.x == target.x && s.rect.y == target.y ==> c.direction == s.direction && c.action == "idle")
      && (speed > 0 ==> (c.action == "move" <==> s.rect.x != target.x || s.rect.y != target.y))
      && c.frameIndex == s.frameIndex && c.frameTimer == s.frameTimer && c.image == s.image
  {
  }

  /** `animate` at time `now`. */
  function Animated(animations: map<AnimKey, seq<Frame>>, frameDelay: int, s: EnemyState, now: int): EnemyState
    requires AnimationsReady(animations)
  {
    var key := (s.direction, s.action);
    if key !in animations then s
    else if now - s.frameTimer >= frameDelay then
      var frames := animations[key];
      var index := (s.frameIndex + 1) % |frames|;
      s.(frameIndex := index, image := Some(frames[index]), frameTimer := now)
    else s
  }

  /**
   * `animate` changes nothing for a missing key or before the delay has
   * passed; otherwise it advances the index modulo the frame count, shows
   * that frame and restarts the timer at `now`.
   */
  lemma AnimatedProperties(animations: map<AnimKey, seq<Frame>>, frameDelay: int, s: EnemyState, now: int)
    requires AnimationsReady(animations)
    ensures var key := (s.direction, s.action);
      var a := Animated(animations, frameDelay, s, now);
      && (key !in animations || now - s.frameTimer < frameDelay ==> a == s)
      && (key in animations && now - s.frameTimer >= frameDelay ==>
            && 0 <= a.frameIndex < |animations[key]|
            && a.frameIndex == (s.frameIndex + 1) % |animations[key]|
            && a.image == Some(animations[key][a.frameIndex])
            && a.frameTimer == now
            && a.rect == s.rect && a.direction == s.direction && a.action == s.action)
  {
  }

  /**
   * `find_closest`: `min` over a non-empty list by centre distance, which
   * returns the first minimal player.
   */
  function FindClosest(from: Rect, players: seq<Players.Player>): (i: nat)
    reads players
    requires |players| > 0
    ensures i < |players|
    ensures forall k :: 0 <= k < |players| ==>
      CenterDistSq(from, players[i].rect) <= CenterDistSq(from, players[k].rect)
    ensures forall k :: 0 <= k < i ==>
      CenterDistSq(from, players[i].rect) < CenterDistSq(from, players[k].rect)
  {
    ClosestByCenter(from, Players.Rects(players)).value
  }

  /**
   * Player `i`, given the players' rects `rs` and healths `hs`, is alive, no
   * living player is nearer to `from` by centre distance, and every living
   * player before it is strictly farther: the player `min` returns from the
   * list of living players.
   */
  predicate FirstNearestLiving(from: Rect, rs: seq<Rect>, hs: seq<int>, i: nat)
    requires |rs| == |hs|
  {
    && i < |rs| && hs[i] > 0
    && (forall k :: 0 <= k < |rs| && hs[k] > 0 ==> CenterDistSq(from, rs[i]) <= CenterDistSq(from, rs[k]))
    && (forall k :: 0 <= k < i && hs[k] > 0 ==> CenterDistSq(from, rs[i]) < CenterDistSq(from, rs[k]))
  }

  /**
   * `get_shot_target`: None when no player is alive, else the living player
   * nearest to `from` by centre distance, the first one on a tie: the
   * living players are filtered out in order and the first minimum among
   * them is taken. `update` chases the same player.
   */
  function GetShotTarget(from: Rect, players: seq<Players.Player>): (target: Option<Players.Player>)
    reads players
    ensures target.None? <==> forall k :: 0 <= k < |players| ==> players[k].health <= 0
    ensures target.Some? ==> exists i :: (0 <= i < |players| && players[i] == target.value &&
      FirstNearestLiving(from, Players.Rects(players), Players.Healths(players), i))
  {
    var rs := Players.Rects(players);
    var hs := Players.Healths(players);
    var idx := Players.LivingIndices(hs);
    if |idx| == 0 then None
    else
      var c := ClosestByCenter(from, Players.Pick(rs, idx)).value;
      FirstLivingMinimum(from, rs, hs, c);
      Some(players[idx[c]])
  }

  /** The first minimum among the living players' rects is the first nearest living player of the whole list. */
  lemma FirstLivingMinimum(from: Rect, rs: seq<Rect>, hs: seq<int>, c: nat)
    requires |rs| == |hs|
    requires var live := Players.Pick(rs, Players.LivingIndices(hs));
      && c < |live|
      && (forall m :: 0 <= m < |live| ==> CenterDistSq(from, live[c]) <= CenterDistSq(from, live[m]))
      && (forall m :: 0 <= m < c ==> CenterDistSq(from, live[c]) < CenterDistSq(from, live[m]))
    ensures FirstNearestLiving(from, rs, hs, Players.LivingIndices(hs)[c])
  {
    var idx := Players.LivingIndices(hs);
    var live := Players.Pick(rs, idx);
    var i := idx[c];
    forall k | 0 <= k < |rs| && hs[k] > 0
      ensures CenterDistSq(from, rs[i]) <= CenterDistSq(from, rs[k])
      ensures k < i ==> CenterDistSq(from, rs[i]) < CenterDistSq(from, rs[k])
    {
      var m :| 0 <= m < |idx| && idx[m] == k;
      assert live[m] == rs[k];
      if k < i {
        Players.IncreasingIndices(idx, m, c);
      }
    }
  }

  class Enemy {
    const x: int
    const y: int
    var health: int
    const maxHealth: int
    const damage: int
    const speed: int
    const score: int
    var rect: Rect
    var animations: map<AnimKey, seq<Frame>>
    var direction: string
    var action: string
    var frameIndex: int
    var frameTimer: int
    const frameDelay: int
    var image: Option<Frame>

    predicate Valid()
      reads this
    {
      AnimationsReady(animations)
    }

    function State(): EnemyState
      reads this
    {
      EnemyState(rect, direction, action, frameIndex, frameTimer, image)
    }

    constructor (x: int, y: int)
      ensures Valid() && this.x == x && this.y == y
      ensures health == maxHealth == EnemyHealth && damage == EnemyDamage
      ensures speed == NpcSpeed && score == EnemyScore && frameDelay == EnemyFrameDelay
      ensures animations == map[]
      ensures State() == EnemyState(Rect(x, y, EnemySize, EnemySize), "down", "idle", 0, 0, None)
    {
      this.x := x;
      this.y := y;
      health := EnemyHealth;
      maxHealth := EnemyHealth;
      damage := EnemyDamage;
      speed := NpcSpeed;
      score := EnemyScore;
      rect := Rect(x, y, EnemySize, EnemySize);
      animations := map[];
      direction := "down";
      action := "idle";
      frameIndex := 0;
      frameTimer := 0;
      frameDelay := EnemyFrameDelay;
      image := None;
    }

    /**
     * `update(players)`: with no living player nothing changes; otherwise
     * one chase step toward the nearest living player, then `animate`.
     */
    method Update(players: seq<Players.Player>, now: int)
      requires Valid()
      modifies this
      ensures animations == old(animations) && health == old(health)
      ensures Valid()
      ensures State() == match old(GetShotTarget(rect, players))
        case None => old(State())
        case Some(target) => Animated(animations, frameDelay, Chase(old(State()), old(target.rect), speed), now)
    {
      var nearest := GetShotTarget(rect, players);
      if nearest.None? {
        return;
      }
      ChaseToward(nearest.value.rect);
      ghost var chased := State();
      Animate(now);
      assert State() == Animated(animations, frameDelay, chased, now);
    }

    /** The movement part of `update`: one step per axis toward `target`. */
    method ChaseToward(target: Rect)
      modifies this
      ensures animations == old(animations) && health == old(health)
      ensures Valid() == old(Valid())
      ensures State() == Chase(old(State()), target, speed)
    {
      var dx, dy, dir := 0, 0, direction;
      if target.x > rect.x {
        dx, dir := speed, "right";
      } else if target.x < rect.x {
        dx, dir := -speed, "left";
      }
      if target.y > rect.y {
        dy, dir := speed, "down";
      } else if target.y < rect.y {
        dy, dir := -speed, "up";
      }
      direction, action := dir, if dx != 0 || dy != 0 then "move" else "idle";
      rect := rect.(x := rect.x + dx, y := rect.y + dy);
    }

    method Animate(now: int)
      requires Valid()
      modifies this
      ensures animations == old(animations) && health == old(health)
      ensures Valid()
      ensures State() == Animated(animations, frameDelay, old(State()), now)
    {
      var key := (direction, action);
      if key !in animations {
        return;
      }
      if now - frameTimer >= frameDelay {
        frameIndex := (frameIndex + 1) % |animations[key]|;
        image := Some(animations[key][frameIndex]);
        frameTimer := now;
      }
    }
  }
}
