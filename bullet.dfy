/**
 * bullet.py: a 5×5 projectile that moves by a constant velocity every tick
 * and is culled once outside the 800×600 arena.
 */
module Bullets {
  import opened Config
  import opened Wrappers
  import opened Geometry

  const BulletSpeed: int := 5
  const BulletSize: nat := 5

  /**
   * The velocity the constructor derives from the aim angle,
   * BULLET_SPEED·(cos, sin) of atan2(target - start), as an integer pair.
   * The trigonometry is not modelled: the caller supplies this function.
   */
  type Aim = (int, int, int, int) -> (int, int)

  /** `is_off_screen`, on the bullet's rect. */
  predicate OffScreen(r: Rect)
  {
    r.x < 0 || r.x > ScreenWidth || r.y < 0 || r.y > ScreenHeight
  }

  /** The bounds are inclusive: the corner may sit on any edge of the arena and stay. */
  lemma OnScreenIsClosedBox(r: Rect)
    ensures !OffScreen(r) <==> 0 <= r.x <= 800 && 0 <= r.y <= 600
  {
  }

  /** Where a rect ends after `n` updates with velocity (dx, dy). */
  function Drift(r: Rect, dx: int, dy: int, n: nat): Rect
  {
    if n == 0 then r else
      var p := Drift(r, dx, dy, n - 1);
      p.(x := p.x + dx, y := p.y + dy)
  }

  lemma {:induction false} DriftClosedForm(r: Rect, dx: int, dy: int, n: nat)
    ensures Drift(r, dx, dy, n) == r.(x := r.x + n * dx, y := r.y + n * dy)
  {
    if n > 0 {
      DriftClosedForm(r, dx, dy, n - 1);
      assert (n - 1) * dx + dx == n * dx;
      assert (n - 1) * dy + dy == n * dy;
    }
  }

  /** |c| ≥ 1 and n ≥ |start| + 801 give a coordinate outside [0, 800]. */
  lemma FarEnough(start: int, c: int, n: nat)
    requires c != 0 && n >= Abs(start) + 801
    ensures start + n * c < 0 || start + n * c > 800
  {
    if c > 0 {
      assert n * c >= n;
    } else {
      assert n * c <= -(n as int);
    }
  }

  /** Every bullet with a nonzero velocity is eventually off-screen, so culling removes it. */
  lemma EventuallyOffScreen(r: Rect, dx: int, dy: int)
    requires dx != 0 || dy != 0
    ensures exists n: nat :: OffScreen(Drift(r, dx, dy, n))
  {
    var n: nat := Abs(r.x) + Abs(r.y) + 801;
    DriftClosedForm(r, dx, dy, n);
    if dx != 0 {
      FarEnough(r.x, dx, n);
    } else {
      FarEnough(r.y, dy, n);
    }
    assert OffScreen(Drift(r, dx, dy, n));
  }

  /**
   * A bullet as a value: rect, velocity, colour, and the id of the NPC that
   * fired it (None for a player's bullet).
   */
  datatype Shot = Shot(rect: Rect, dx: int, dy: int, color: Color, shooter: Option<nat>)

  /**
   * A new bullet: a 5×5 rect at (x, y) moving by `aim(x, y, target_x, target_y)`.
   */
  function Fired(x: int, y: int, targetX: int, targetY: int, aim: Aim, color: Color, shooter: Option<nat>): (b: Shot)
    ensures b.rect == Rect(x, y, BulletSize, BulletSize)
    ensures (b.dx, b.dy) == aim(x, y, targetX, targetY)
    ensures b.color == color && b.shooter == shooter
  {
    var v := aim(x, y, targetX, targetY);
    Shot(Rect(x, y, BulletSize, BulletSize), v.0, v.1, color, shooter)
  }

  /** `update`: one step of the velocity. */
  function Advanced(b: Shot): Shot
  {
    b.(rect := Drift(b.rect, b.dx, b.dy, 1))
  }

  /** `update` moves the rect by (dx, dy) and changes nothing else; n updates move it n times as far. */
  lemma AdvancedMoves(b: Shot)
    ensures Advanced(b).rect == b.rect.(x := b.rect.x + b.dx, y := b.rect.y + b.dy)
    ensures Advanced(b) == b.(rect := Advanced(b).rect)
  {
    assert Drift(b.rect, b.dx, b.dy, 0) == b.rect;
  }

  class Bullet {
    var rect: Rect
    const dx: int
    const dy: int
    const color: Color
    /** The id of the NPC that fired it, or None for a player's bullet. */
    const shooter: Option<nat>

    /** The bullet as a value. */
    function Value(): Shot
      reads this
    {
      Shot(rect, dx, dy, color, shooter)
    }

    /**
     * `Bullet(x, y, target_x, target_y, color)` with the session's extra
     * `shooter`.
     */
    constructor (x: int, y: int, targetX: int, targetY: int, aim: Aim, color: Color, shooter: Option<nat>)
      ensures Value() == Fired(x, y, targetX, targetY, aim, color, shooter)
    {
      rect := Rect(x, y, BulletSize, BulletSize);
      var v := aim(x, y, targetX, targetY);
      dx, dy := v.0, v.1;
      this.color := color;
      this.shooter := shooter;
    }

    /** Moves by the velocity; nothing else changes. */
    method Update()
      modifies this
      ensures Value() == Advanced(old(Value()))
    {
      AdvancedMoves(Value());
      rect := rect.(x := rect.x + dx, y := rect.y + dy);
    }

    predicate IsOffScreen()
      reads this
    {
      OffScreen(rect)
    }
  }
}
