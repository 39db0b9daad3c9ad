/**
 * player.py: a keyboard-driven avatar that moves by whole steps, faces the
 * last direction it moved in, fires at the nearest NPC on a cooldown, and
 * picks its animation frame from a (direction, action) table.
 */
module Players {
  import opened Wrappers
  import opened Config
  import opened Geometry
  import opened Bullets

  const StartHealth: int := 100
  const ShootCooldown: int := 250
  const FrameDelay: int := 150
  const ShootAnimTime: int := 300
  /** The period of the two-frame shooting animation (a literal 150 in `animate`). */
  const ShootFramePeriod: int := 150
  /** The aim point is this far above the target's centre. */
  const AimLift: int := 8
  const PlayerColor: Color := Color(0, 255, 0)
  const FallbackKey: AnimKey := ("down", "walk1")

  /** Every frame list is non-empty, so `animate`'s `[0]` never fails (the asset loader stores one frame per key). */
  predicate FramesReady(frames: map<AnimKey, seq<Frame>>)
  {
    forall k :: k in frames ==> |frames[k]| > 0
  }

  /** The fields of a player that `update`, `animate` and `shoot` change. */
  datatype PlayerState = PlayerState(
    rect: Rect, facing: Facing, isMoving: bool, image: Option<Frame>,
    shooting: bool, lastShootAnim: int, lastShotTime: int, health: int)

  /**
   * A new player: a 40×40 rect at `pos`, facing down, idle, with no image,
   * full health, and the clock reading `now` as its last shot time.
   */
  function Initial(pos: (int, int), now: int): (s: PlayerState)
    ensures s.rect == Rect(pos.0, pos.1, PlayerWidth, PlayerHeight)
    ensures s.facing == Facing.Down && !s.isMoving && s.image.None? && !s.shooting
    ensures s.lastShootAnim == 0 && s.lastShotTime == now && s.health == StartHealth
  {
    PlayerState(Rect(pos.0, pos.1, PlayerWidth, PlayerHeight), Facing.Down, false, None, false, 0, now, StartHealth)
  }

  /** `any(key in inp for key in movement_keys)`. */
  predicate HasMovement(inp: seq<KeyType>)
  {
    KeyType.Up in inp || KeyType.Down in inp || KeyType.Left in inp || KeyType.Right in inp
  }

  /** A player is moving exactly when some token of the tick is not SHOOT. */
  lemma MovingIffNotOnlyShoot(inp: seq<KeyType>)
    ensures HasMovement(inp) <==> exists i :: 0 <= i < |inp| && inp[i] != KeyType.Shoot
  {
    if i :| 0 <= i < |inp| && inp[i] != KeyType.Shoot {
      assert inp[i] in inp;
    }
  }

  /** The movement part of `update`: vertical branch, then horizontal branch. */
  function Move(r: Rect, facing: Facing, inp: seq<KeyType>, speed: int): (Rect, Facing)
  {
    var (y, f1) :=
      if KeyType.Up in inp then (r.y - speed, Facing.Up)
      else if KeyType.Down in inp then (r.y + speed, Facing.Down)
      else (r.y, facing);
    var (x, f2) :=
      if KeyType.Left in inp then (r.x - speed, Facing.Left)
      else if KeyType.Right in inp then (r.x + speed, Facing.Right)
      else (r.x, f1);
    (r.(x := x, y := y), f2)
  }

  /**
   * UP wins over DOWN and LEFT over RIGHT (opposites never cancel), each axis
   * moves by at most one step, and the facing is that of the last axis that
   * moved: horizontal overrides vertical.
   */
  lemma MovePriorities(r: Rect, facing: Facing, inp: seq<KeyType>, speed: int)
    ensures var (m, f) := Move(r, facing, inp, speed);
      && m.width == r.width && m.height == r.height
      && m.y == (if KeyType.Up in inp then r.y - speed else if KeyType.Down in inp then r.y + speed else r.y)
      && m.x == (if KeyType.Left in inp then r.x - speed else if KeyType.Right in inp then r.x + speed else r.x)
      && f == (if KeyType.Left in inp then Facing.Left
               else if KeyType.Right in inp then Facing.Right
               else if KeyType.Up in inp then Facing.Up
               else if KeyType.Down in inp then Facing.Down
               else facing)
  {
  }

  /** Only which tokens are present matters: not their order, repetition, or SHOOT tokens. */
  lemma MoveIgnoresOrderAndRepeats(r: Rect, facing: Facing, a: seq<KeyType>, b: seq<KeyType>, speed: int)
    requires forall k :: k != KeyType.Shoot ==> (k in a <==> k in b)
    ensures Move(r, facing, a, speed) == Move(r, facing, b, speed)
    ensures HasMovement(a) == HasMovement(b)
  {
  }

  function Max(a: int, b: int): int { if a < b then b else a }
  function Min(a: int, b: int): int { if a < b then a else b }

  /** The screen clamp of `update`. */
  function Clamp(r: Rect, sw: int, sh: int): Rect
  {
    r.(x := Max(0, Min(r.x, sw - r.width)), y := Max(0, Min(r.y, sh - r.height)))
  }

  /** A clamped rect lies inside the screen when it fits, and a rect already inside is left alone. */
  lemma ClampInArena(r: Rect, sw: int, sh: int)
    requires r.width <= sw && r.height <= sh
    ensures var c := Clamp(r, sw, sh);
      0 <= c.x <= sw - c.width && 0 <= c.y <= sh - c.height && c.width == r.width && c.height == r.height
    ensures 0 <= r.x <= sw - r.width && 0 <= r.y <= sh - r.height ==> Clamp(r, sw, sh) == r
  {
  }

  /** The frame for `key`, else the ("down", "walk1") frame, else no image. */
  function Lookup(frames: map<AnimKey, seq<Frame>>, key: AnimKey): Option<Frame>
    requires FramesReady(frames)
  {
    if key in frames then Some(frames[key][0])
    else if FallbackKey in frames then Some(frames[FallbackKey][0])
    else None
  }

  /** With an image, the rect takes the image's size around the same centre. */
  function Recentered(r: Rect, image: Option<Frame>): Rect
  {
    if image.Some? then CenteredAt(r.CenterX(), r.CenterY(), image.value.width, image.value.height) else r
  }

  /** The shooting frame label: alternates every 150 ms. */
  function ShootFrame(now: int): string
  {
    if (now / ShootFramePeriod) % 2 == 0 then "shoot1" else "shoot2"
  }

  /** The walking frame label: cycles walk1..walk3 every frame delay while moving, walk1 when idle. */
  function WalkFrame(isMoving: bool, now: int): string
  {
    if isMoving then ["walk1", "walk2", "walk3"][(now / FrameDelay) % 3] else "walk1"
  }

  /** `animate` at time `now`. */
  function Animated(frames: map<AnimKey, seq<Frame>>, s: PlayerState, now: int): PlayerState
    requires FramesReady(frames)
  {
    var direction := FacingName(s.facing);
    if s.shooting && now - s.lastShootAnim <= ShootAnimTime then
      var image := Lookup(frames, (direction, ShootFrame(now)));
      s.(image := image, rect := Recentered(s.rect, image))
    else
      var image := Lookup(frames, (direction, WalkFrame(s.isMoving, now)));
      s.(shooting := false, image := image, rect := Recentered(s.rect, image))
  }

  /**
   * `animate` keeps the centre of the rect; it clears `shooting` exactly when
   * more than 300 ms have passed since the shot; a missing key falls back to
   * ("down", "walk1"); and it changes nothing but image, rect and shooting.
   */
  lemma AnimatedProperties(frames: map<AnimKey, seq<Frame>>, s: PlayerState, now: int)
    requires FramesReady(frames)
    ensures var a := Animated(frames, s, now);
      && a.rect.CenterX() == s.rect.CenterX() && a.rect.CenterY() == s.rect.CenterY()
      && (a.shooting <==> s.shooting && now - s.lastShootAnim <= ShootAnimTime)
      && a == s.(image := a.image, rect := a.rect, shooting := a.shooting)
    ensures var a := Animated(frames, s, now);
      var key := (FacingName(s.facing), if a.shooting then ShootFrame(now) else WalkFrame(s.isMoving, now));
      && (key in frames ==> a.image == Some(frames[key][0]))
      && (key !in frames && FallbackKey in frames ==> a.image == Some(frames[FallbackKey][0]))
      && (key !in frames && FallbackKey !in frames ==> a.image.None? && a.rect == s.rect)
  {
  }

  /** The walking frame is walk1 when idle and otherwise indexed by (now // frame_delay) % 3. */
  lemma WalkFrameIndex(isMoving: bool, now: int)
    ensures !isMoving ==> WalkFrame(isMoving, now) == "walk1"
    ensures isMoving && (now / FrameDelay) % 3 == 0 ==> WalkFrame(isMoving, now) == "walk1"
    ensures isMoving && (now / FrameDelay) % 3 == 1 ==> WalkFrame(isMoving, now) == "walk2"
    ensures isMoving && (now / FrameDelay) % 3 == 2 ==> WalkFrame(isMoving, now) == "walk3"
    ensures WalkFrame(isMoving, now) in {"walk1", "walk2", "walk3"}
  {
  }

  /** The movement part of `update`: step, then clamp when a screen is given. */
  function Stepped(s: PlayerState, inp: seq<KeyType>, speed: int, screen: Option<(int, int)>): PlayerState
  {
    var (moved, facing) := Move(s.rect, s.facing, inp, speed);
    var placed := if screen.Some? then Clamp(moved, screen.value.0, screen.value.1) else moved;
    s.(rect := placed, facing := facing, isMoving := HasMovement(inp))
  }

  /** `update(inputs, screen)` at time `now`: move, clamp when a screen is given, animate. */
  function Updated(frames: map<AnimKey, seq<Frame>>, speed: int, s: PlayerState,
                   inp: seq<KeyType>, now: int, screen: Option<(int, int)>): PlayerState
    requires FramesReady(frames)
  {
    Animated(frames, Stepped(s, inp, speed, screen), now)
  }

  /**
   * Without a screen the clamp never runs: for any player and any frame
   * table the update keeps the centre of the rect exactly where the move put
   * it, so without images a LEFT step takes every player 4 px left, off the
   * arena from its left edge. Given a screen, the same step never ends left
   * of 0.
   */
  lemma NoScreenNoClamp(frames: map<AnimKey, seq<Frame>>, s: PlayerState, inp: seq<KeyType>, now: int)
    requires FramesReady(frames)
    ensures var moved := Move(s.rect, s.facing, inp, PlayerSpeed).0;
      var u := Updated(frames, PlayerSpeed, s, inp, now, None);
      u.rect.CenterX() == moved.CenterX() && u.rect.CenterY() == moved.CenterY()
    ensures Updated(map[], PlayerSpeed, s, [KeyType.Left], now, None).rect.x == s.rect.x - PlayerSpeed
    ensures forall sw, sh :: Updated(map[], PlayerSpeed, s, [KeyType.Left], now, Some((sw, sh))).rect.x >= 0
  {
    AnimatedProperties(frames, Stepped(s, inp, PlayerSpeed, None), now);
  }

  /** `shoot` fires when the cooldown has elapsed and some NPC exists. */
  predicate CanShoot(s: PlayerState, npcRects: seq<Rect>, now: int)
  {
    now - s.lastShotTime >= ShootCooldown && |npcRects| > 0
  }

  /** The timers after a successful shot. */
  function AfterShot(s: PlayerState, now: int): PlayerState
  {
    s.(lastShotTime := now, shooting := true, lastShootAnim := now)
  }

  /** A shot starts the shooting animation, which lasts exactly 300 ms from `now`. */
  lemma ShotAnimationWindow(frames: map<AnimKey, seq<Frame>>, s: PlayerState, now: int, later: int)
    requires FramesReady(frames) && now <= later
    ensures Animated(frames, AfterShot(s, now), later).shooting <==> later - now <= ShootAnimTime
  {
  }

  /**
   * The positions whose health in `hs` is above zero, in increasing order:
   * the players `[p for p in players if p.health > 0]` keeps, in the order
   * it keeps them.
   */
  function LivingIndices(hs: seq<int>): (idx: seq<nat>)
    ensures |idx| <= |hs|
    ensures forall i :: 0 <= i < |idx| ==> idx[i] < |hs| && hs[idx[i]] > 0
    ensures forall i, j :: 0 <= i < j < |idx| ==> idx[i] < idx[j]
    ensures forall k :: 0 <= k < |hs| && hs[k] > 0 ==> k in idx
  {
    if |hs| == 0 then []
    else
      var last := |hs| - 1;
      var rest := LivingIndices(hs[..last]);
      assert forall i :: 0 <= i < last ==> hs[i] == hs[..last][i];
      if hs[last] > 0 then rest + [last] else rest
  }

  /** One more health adds its position exactly when it is above zero. */
  lemma LivingIndicesStep(hs: seq<int>)
    requires |hs| > 0
    ensures |LivingIndices(hs)| == |LivingIndices(hs[..|hs| - 1])| + (if hs[|hs| - 1] > 0 then 1 else 0)
  {
  }

  /** In an increasing index list, a smaller index sits at an earlier position. */
  lemma IncreasingIndices(idx: seq<nat>, m: nat, c: nat)
    requires forall i, j :: 0 <= i < j < |idx| ==> idx[i] < idx[j]
    requires m < |idx| && c < |idx| && idx[m] < idx[c]
    ensures m < c
  {
  }

  /** The elements of `xs` at the positions `idx`, in that order. */
  function Pick<T>(xs: seq<T>, idx: seq<nat>): (ys: seq<T>)
    requires forall i :: 0 <= i < |idx| ==> idx[i] < |xs|
    ensures |ys| == |idx| && forall i :: 0 <= i < |idx| ==> ys[i] == xs[idx[i]]
  {
    seq(|idx|, i requires 0 <= i < |idx| => xs[idx[i]])
  }

  /** The healths of `ps`, in order. */
  function Healths(ps: seq<Player>): (hs: seq<int>)
    reads ps
    ensures |hs| == |ps| && forall k :: 0 <= k < |ps| ==> hs[k] == ps[k].health
  {
    seq(|ps|, k reads ps requires 0 <= k < |ps| => ps[k].health)
  }

  /** The rects of `ps`, in order. */
  function Rects(ps: seq<Player>): (rs: seq<Rect>)
    reads ps
    ensures |rs| == |ps| && forall k :: 0 <= k < |ps| ==> rs[k] == ps[k].rect
  {
    seq(|ps|, k reads ps requires 0 <= k < |ps| => ps[k].rect)
  }

  class Player {
    const uid: string
    const frames: map<AnimKey, seq<Frame>>
    const speed: int
    const maxHealth: int
    const color: Color
    var name: string
    var image: Option<Frame>
    var rect: Rect
    var isMoving: bool
    var facing: Facing
    var health: int
    var lastShotTime: int
    var lastShootAnim: int
    var shooting: bool

    predicate Valid()
    {
      FramesReady(frames)
    }

    function State(): PlayerState
      reads this
    {
      PlayerState(rect, facing, isMoving, image, shooting, lastShootAnim, lastShotTime, health)
    }

    /** `Player(uid, assets, pos)`, with the clock reading `now` as the last shot time. */
    constructor (uid: string, frames: map<AnimKey, seq<Frame>>, pos: (int, int), now: int)
      requires FramesReady(frames)
      ensures Valid() && this.uid == uid && this.frames == frames && name == uid
      ensures speed == PlayerSpeed && maxHealth == StartHealth && color == PlayerColor
      ensures State() == Initial(pos, now)
    {
      this.uid := uid;
      this.frames := frames;
      image := None;
      rect := Rect(pos.0, pos.1, PlayerWidth, PlayerHeight);
      name := uid;
      speed := PlayerSpeed;
      isMoving := false;
      facing := Facing.Down;
      health := StartHealth;
      maxHealth := StartHealth;
      color := PlayerColor;
      lastShotTime := now;
      lastShootAnim := 0;
      shooting := false;
    }

    method SetCoords(x: int, y: int)
      modifies this
      ensures State() == old(State()).(rect := old(rect).(x := x, y := y)) && name == old(name)
    {
      rect := rect.(x := x, y := y);
    }

    method Update(inputs: seq<KeyType>, now: int, screen: Option<(int, int)>)
      requires Valid()
      modifies this
      ensures State() == Updated(frames, speed, old(State()), inputs, now, screen) && name == old(name)
    {
      var r, f := rect, facing;
      if KeyType.Up in inputs {
        r, f := r.(y := r.y - speed), Facing.Up;
      } else if KeyType.Down in inputs {
        r, f := r.(y := r.y + speed), Facing.Down;
      }
      if KeyType.Left in inputs {
        r, f := r.(x := r.x - speed), Facing.Left;
      } else if KeyType.Right in inputs {
        r, f := r.(x := r.x + speed), Facing.Right;
      }
      if screen.Some? {
        var (sw, sh) := screen.value;
        r := r.(x := Max(0, Min(r.x, sw - r.width)));
        r := r.(y := Max(0, Min(r.y, sh - r.height)));
      }
      isMoving, rect, facing := HasMovement(inputs), r, f;
      assert State() == Stepped(old(State()), inputs, speed, screen);
      Animate(now);
    }

    method Animate(now: int)
      requires Valid()
      modifies this
      ensures State() == Animated(frames, old(State()), now) && name == old(name)
    {
      var direction := FacingName(facing);
      if shooting {
        if now - lastShootAnim > ShootAnimTime {
          shooting := false;
        } else {
          image := Lookup(frames, (direction, ShootFrame(now)));
          if image.Some? {
            rect := CenteredAt(rect.CenterX(), rect.CenterY(), image.value.width, image.value.height);
          }
          return;
        }
      }
      var action := WalkFrame(isMoving, now);
      image := Lookup(frames, (direction, action));
      if image.Some? {
        rect := CenteredAt(rect.CenterX(), rect.CenterY(), image.value.width, image.value.height);
      }
    }

    /** `find_closest_npc`: None exactly for no NPCs, else the first NPC at minimal centre distance. */
    function FindClosestNpc(npcRects: seq<Rect>): (c: Option<nat>)
      reads this
      ensures c.None? <==> |npcRects| == 0
      ensures c.Some? ==> c.value < |npcRects|
      ensures c.Some? ==> forall k :: 0 <= k < |npcRects| ==>
        CenterDistSq(rect, npcRects[c.value]) <= CenterDistSq(rect, npcRects[k])
      ensures c.Some? ==> forall k :: 0 <= k < c.value ==>
        CenterDistSq(rect, npcRects[c.value]) < CenterDistSq(rect, npcRects[k])
    {
      ClosestByCenter(rect, npcRects)
    }

    /**
     * `shoot(npcs)`, the NPCs given by their rects: on success a bullet from
     * the player's centre aimed 8 pixels above the nearest NPC's centre.
     */
    method Shoot(npcRects: seq<Rect>, now: int, aim: Aim) returns (bullet: Bullet?)
      modifies this
      ensures bullet == null <==> !CanShoot(old(State()), npcRects, now)
      ensures bullet == null ==> State() == old(State())
      ensures bullet != null ==> State() == AfterShot(old(State()), now)
      ensures bullet != null ==>
        var t := npcRects[ClosestByCenter(rect, npcRects).value];
        && fresh(bullet)
        && bullet.Value() == Fired(rect.CenterX(), rect.CenterY(), t.CenterX(), t.CenterY() - AimLift, aim, color, None)
      ensures name == old(name)
    {
      bullet := null;
      if now - lastShotTime >= ShootCooldown {
        var target := FindClosestNpc(npcRects);
        if target.None? {
          return;
        }
        var t := npcRects[target.value];
        bullet := new Bullet(rect.CenterX(), rect.CenterY(), t.CenterX(), t.CenterY() - AimLift, aim, color, None);
        lastShotTime := now;
        shooting := true;
        lastShootAnim := now;
      }
    }
  }
}
