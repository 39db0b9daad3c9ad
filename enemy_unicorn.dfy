/**
 * enemy_unicorn.py: an enemy whose sprite sheet is a 4 x 5 grid (rows are
 * directions, columns actions). It steers toward the centre of the nearest
 * living player at 1.5 pixels per axis per update. The rect keeps integer
 * coordinates, so each 1.5-pixel step is truncated toward zero (the model
 * counts in half pixels to say so exactly).
 */
module Unicorns {
  import opened Wrappers
  import opened Geometry
  import Players
  import Enemies

  const UnicornHealth: int := 60
  const UnicornDamage: int := 8
  const UnicornScore: int := 15
  const UnicornFrameDelay: int := 120
  /** 1.5 pixels, counted in half pixels. */
  const UnicornSpeedHalves: int := 3
  /** `int(32 * 0.3)`: the rect side after scaling the 32-pixel frame. */
  const UnicornSize: nat := 9
  /** Below or at this centre distance on both axes the unicorn idles. */
  const StopDistance: int := 2

  const DirectionOrder: seq<string> := ["down", "left", "right", "up"]
  const ActionOrder: seq<string> := ["idle", "idle2", "move", "move2", "shoot"]
  /** The key `animate` falls back on when the current one is missing. */
  const FallbackKey: AnimKey := ("down", "idle")

  /** The frames `load_animations` stores for grid cell (row, col): one frame, or none when the cell is missing. */
  function Cell(grid: seq<seq<Frame>>, row: nat, col: nat): (frames: seq<Frame>)
    ensures |frames| <= 1
    ensures |frames| == 1 <==> row < |grid| && col < |grid[row]|
    ensures |frames| == 1 ==> frames[0] == grid[row][col]
  {
    if row < |grid| && col < |grid[row]| then [grid[row][col]] else []
  }

  /**
   * `load_animations`: key (direction, action) holds the cell at the
   * direction's row and the action's column of the sheet.
   */
  function LoadAnimations(grid: seq<seq<Frame>>): (animations: map<AnimKey, seq<Frame>>)
    ensures forall r, c :: 0 <= r < |DirectionOrder| && 0 <= c < |ActionOrder| ==>
      (DirectionOrder[r], ActionOrder[c]) in animations &&
      animations[(DirectionOrder[r], ActionOrder[c])] == Cell(grid, r, c)
    ensures forall k :: k in animations ==> k.0 in DirectionOrder && k.1 in ActionOrder
  {
    map r, c | 0 <= r < |DirectionOrder| && 0 <= c < |ActionOrder| ::
      (DirectionOrder[r], ActionOrder[c]) := Cell(grid, r, c)
  }

  /** Every cell of the 4 x 5 sheet is present. */
  predicate FullGrid(grid: seq<seq<Frame>>)
  {
    |grid| >= |DirectionOrder| && forall r :: 0 <= r < |DirectionOrder| ==> |grid[r]| >= |ActionOrder|
  }

  /**
   * A full sheet gives every one of the 20 keys exactly its own frame, and
   * the fallback key is among them.
   */
  lemma FullGridAnimations(grid: seq<seq<Frame>>)
    requires FullGrid(grid)
    ensures FallbackKey in LoadAnimations(grid)
    ensures forall k :: k in LoadAnimations(grid) ==> |LoadAnimations(grid)[k]| == 1
  {
    var animations := LoadAnimations(grid);
    assert FallbackKey == (DirectionOrder[0], ActionOrder[0]);
    forall k | k in animations
      ensures |animations[k]| == 1
    {
      var r, c :| 0 <= r < |DirectionOrder| && 0 <= c < |ActionOrder| && k == (DirectionOrder[r], ActionOrder[c]);
      assert r < |grid| && c < |grid[r]|;
      assert animations[k] == Cell(grid, r, c);
    }
  }

  /** `animation_state`. */
  datatype AnimationState = AnimationState(direction: string, action: string, frameIndex: int, lastUpdate: int)

  /** The fields `update` and `animate` change. */
  datatype UnicornState = UnicornState(rect: Rect, anim: AnimationState, image: Option<Frame>)

  /**
   * The fallback key is present, every animation has the same positive
   * number of frames, and the frame index is in range for all of them.
   */
  predicate AnimationsAgree(animations: map<AnimKey, seq<Frame>>, frameIndex: int)
  {
    && FallbackKey in animations
    && 0 <= frameIndex < |animations[FallbackKey]|
    && forall k :: k in animations ==> |animations[k]| == |animations[FallbackKey]|
  }

  /** The key `animate` draws from: the current one, or the fallback when missing. */
  function AnimationKey(animations: map<AnimKey, seq<Frame>>, a: AnimationState): (key: AnimKey)
    ensures key in animations || key == FallbackKey
    ensures (a.direction, a.action) in animations ==> key == (a.direction, a.action)
    ensures (a.direction, a.action) !in animations ==> key == FallbackKey
  {
    if (a.direction, a.action) in animations then (a.direction, a.action) else FallbackKey
  }

  /** `animate` at time `now`. */
  function Animated(animations: map<AnimKey, seq<Frame>>, frameDelay: int, s: UnicornState, now: int): UnicornState
    requires AnimationsAgree(animations, s.anim.frameIndex)
  {
    var frames := animations[AnimationKey(animations, s.anim)];
    var anim :=
      if now - s.anim.lastUpdate > frameDelay
      then s.anim.(frameIndex := (s.anim.frameIndex + 1) % |frames|, lastUpdate := now)
      else s.anim;
    s.(anim := anim, image := Some(frames[anim.frameIndex]))
  }

  /**
   * `animate` keeps the index in range, advances it (modulo the frame count)
   * and restarts the clock only when strictly more than the delay has passed,
   * and always shows the indexed frame of the current key or of the fallback.
   */
  lemma AnimatedProperties(animations: map<AnimKey, seq<Frame>>, frameDelay: int, s: UnicornState, now: int)
    requires AnimationsAgree(animations, s.anim.frameIndex)
    ensures var a := Animated(animations, frameDelay, s, now);
      var frames := animations[AnimationKey(animations, s.anim)];
      && AnimationsAgree(animations, a.anim.frameIndex)
      && a.image == Some(frames[a.anim.frameIndex])
      && a.rect == s.rect && a.anim.direction == s.anim.direction && a.anim.action == s.anim.action
      && (now - s.anim.lastUpdate > frameDelay ==>
            a.anim.frameIndex == (s.anim.frameIndex + 1) % |frames| && a.anim.lastUpdate == now)
      && (now - s.anim.lastUpdate <= frameDelay ==>
            a.anim.frameIndex == s.anim.frameIndex && a.anim.lastUpdate == s.anim.lastUpdate)
  {
  }

  /** Python's `int()` of `h / 2`: halves truncated toward zero. */
  function TruncHalves(h: int): (p: int)
    ensures h >= 0 ==> 0 <= 2 * p <= h < 2 * p + 2
    ensures h < 0 ==> 2 * p - 2 < h <= 2 * p <= 0
  {
    if h >= 0 then h / 2 else -((-h) / 2)
  }

  /** One coordinate after `+= 1.5` (when `forward`) or `-= 1.5`, stored back as an integer. */
  function HalfStep(p: int, forward: bool): int
  {
    TruncHalves(2 * p + (if forward then UnicornSpeedHalves else -UnicornSpeedHalves))
  }

  /**
   * A 1.5-pixel step always moves the coordinate the intended way, by one or
   * two pixels; away from the origin on the positive side a forward step is
   * one pixel and a backward step two, and the other way round on the
   * negative side.
   */
  lemma HalfStepDistance(p: int)
    ensures 1 <= HalfStep(p, true) - p <= 2 && 1 <= p - HalfStep(p, false) <= 2
    ensures p >= 2 ==> HalfStep(p, true) == p + 1 && HalfStep(p, false) == p - 2
    ensures p <= -2 ==> HalfStep(p, true) == p + 2 && HalfStep(p, false) == p - 1
  {
  }

  /** The steering part of `update` toward `target`. */
  function Steered(s: UnicornState, target: Rect): UnicornState
  {
    var dx := target.CenterX() - s.rect.CenterX();
    var dy := target.CenterY() - s.rect.CenterY();
    var anim := s.anim.(direction := Enemies.GetDirection(dx, dy));
    if Abs(dx) > StopDistance || Abs(dy) > StopDistance then
      s.(rect := s.rect.(x := HalfStep(s.rect.x, dx > 0), y := HalfStep(s.rect.y, dy > 0)),
         anim := anim.(action := "move"))
    else
      s.(anim := anim.(action := "idle"))
  }

  /**
   * Within two pixels of the target's centre on both axes the unicorn idles
   * in place; otherwise it moves on BOTH axes, each toward the target's side
   * when the centre delta is positive and the other way when it is zero or
   * negative. So a unicorn level with its target still steps up (or left).
   */
  lemma SteeredProperties(s: UnicornState, target: Rect)
    ensures var dx := target.CenterX() - s.rect.CenterX();
      var dy := target.CenterY() - s.rect.CenterY();
      var t := Steered(s, target);
      && t.anim.direction == Enemies.GetDirection(dx, dy)
      && t.anim.frameIndex == s.anim.frameIndex && t.anim.lastUpdate == s.anim.lastUpdate
      && t.image == s.image
      && t.rect.width == s.rect.width && t.rect.height == s.rect.height
      && (Abs(dx) <= StopDistance && Abs(dy) <= StopDistance ==> t.rect == s.rect && t.anim.action == "idle")
      && (Abs(dx) > StopDistance || Abs(dy) > StopDistance ==>
            && t.anim.action == "move"
            && (dx > 0 ==> s.rect.x < t.rect.x) && (dx <= 0 ==> t.rect.x < s.rect.x)
            && (dy > 0 ==> s.rect.y < t.rect.y) && (dy <= 0 ==> t.rect.y < s.rect.y))
  {
    HalfStepDistance(s.rect.x);
    HalfStepDistance(s.rect.y);
  }

  class Unicorn {
    const x: int
    const y: int
    var health: int
    const maxHealth: int
    const damage: int
    const score: int
    const frameDelay: int
    var rect: Rect
    const animations: map<AnimKey, seq<Frame>>
    var animationState: AnimationState
    var image: Option<Frame>

    predicate Valid()
      reads this
    {
      AnimationsAgree(animations, animationState.frameIndex)
    }

    function State(): UnicornState
      reads this
    {
      UnicornState(rect, animationState, image)
    }

    /**
     * The unicorn's stats, a 9 x 9 rect at (x, y), the animations of a full
     * sheet, the idle-down state started at `now`, and the first `animate`.
     */
    constructor (x: int, y: int, grid: seq<seq<Frame>>, now: int)
      requires FullGrid(grid)
      ensures Valid() && this.x == x && this.y == y
      ensures health == maxHealth == UnicornHealth && damage == UnicornDamage
      ensures score == UnicornScore && frameDelay == UnicornFrameDelay
      ensures animations == LoadAnimations(grid)
      ensures State() == UnicornState(Rect(x, y, UnicornSize, UnicornSize),
        AnimationState("down", "idle", 0, now), Some(grid[0][0]))
    {
      this.x := x;
      this.y := y;
      health := UnicornHealth;
      maxHealth := UnicornHealth;
      damage := UnicornDamage;
      score := UnicornScore;
      frameDelay := UnicornFrameDelay;
      rect := Rect(x, y, UnicornSize, UnicornSize);
      FullGridAnimations(grid);
      animations := LoadAnimations(grid);
      animationState := AnimationState("down", "idle", 0, now);
      image := None;
      new;
      assert animations[FallbackKey] == Cell(grid, 0, 0);
      Animate(now);
    }

    /**
     * `update(players)`: with no living player nothing changes; otherwise
     * steer toward the nearest living player, then `animate`.
     */
    method Update(players: seq<Players.Player>, now: int)
      requires Valid()
      modifies this
      ensures Valid() && health == old(health)
      ensures State() == match old(Enemies.GetShotTarget(rect, players))
        case None => old(State())
        case Some(target) => Animated(animations, frameDelay, Steered(old(State()), old(target.rect)), now)
    {
      var target := Enemies.GetShotTarget(rect, players);
      if target.None? {
        return;
      }
      SteerToward(target.value.rect);
      ghost var steered := State();
      Animate(now);
      assert State() == Animated(animations, frameDelay, steered, now);
    }

    /** The steering part of `update`. */
    method SteerToward(target: Rect)
      modifies this
      ensures health == old(health)
      ensures State() == Steered(old(State()), target)
    {
      var dx := target.CenterX() - rect.CenterX();
      var dy := target.CenterY() - rect.CenterY();
      animationState := animationState.(direction := Enemies.GetDirection(dx, dy));
      if Abs(dx) > StopDistance || Abs(dy) > StopDistance {
        rect := rect.(x := HalfStep(rect.x, dx > 0), y := HalfStep(rect.y, dy > 0));
        animationState := animationState.(action := "move");
      } else {
        animationState := animationState.(action := "idle");
      }
    }

    /** `animate` at time `now`. */
    method Animate(now: int)
      requires Valid()
      modifies this
      ensures Valid() && health == old(health)
      ensures State() == Animated(animations, frameDelay, old(State()), now)
    {
      AnimatedProperties(animations, frameDelay, State(), now);
      var key := (animationState.direction, animationState.action);
      if key !in animations {
        key := FallbackKey;
      }
      var frames := animations[key];
      if now - animationState.lastUpdate > frameDelay {
        animationState := animationState.(frameIndex := (animationState.frameIndex + 1) % |frames|, lastUpdate := now);
      }
      image := Some(frames[animationState.frameIndex]);
    }
  }
}
