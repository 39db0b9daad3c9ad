/**
 * The parts of pygame the entities rely on: integer rectangles, their
 * centres and overlap test, squared distances (standing in for
 * `math.hypot`, whose order they preserve), the "first minimum" scan used
 * by every nearest-target search, and the sign-based chase step.
 */
module Geometry {
  import opened Wrappers

  /** A pygame `Rect`: integer top-left corner and a non-negative size. */
  datatype Rect = Rect(x: int, y: int, width: nat, height: nat) {
    /** pygame's `centerx`: the left edge plus half the width, rounded down. */
    function CenterX(): int { x + width / 2 }

    /** pygame's `centery`. */
    function CenterY(): int { y + height / 2 }
  }

  /** A renderable frame (a pygame Surface); only its size matters here. */
  datatype Frame = Frame(id: nat, width: nat, height: nat)

  /** A (direction, action) key of an animation table, e.g. ("down", "walk1"). */
  type AnimKey = (string, string)

  /** pygame's `image.get_rect(center=(cx, cy))`: a rect of the given size centred on (cx, cy). */
  function CenteredAt(cx: int, cy: int, w: nat, h: nat): (r: Rect)
    ensures r.CenterX() == cx && r.CenterY() == cy
    ensures r.width == w && r.height == h
  {
    Rect(cx - w / 2, cy - h / 2, w, h)
  }

  /**
   * pygame's `colliderect`: the interiors overlap. Touching edges do not
   * count, and a rect of zero width or height collides with nothing.
   */
  predicate Collide(a: Rect, b: Rect)
  {
    a.width > 0 && a.height > 0 && b.width > 0 && b.height > 0 &&
    a.x < b.x + b.width && b.x < a.x + a.width &&
    a.y < b.y + b.height && b.y < a.y + a.height
  }

  /** Overlap does not depend on which rect asks. */
  lemma CollideSymmetric(a: Rect, b: Rect)
    ensures Collide(a, b) <==> Collide(b, a)
  {
  }

  /** The index of the first rect in `rs` that collides with `r`. */
  function FirstHit(r: Rect, rs: seq<Rect>): (j: Option<nat>)
    ensures j.Some? ==> j.value < |rs| && Collide(r, rs[j.value])
    ensures j.Some? ==> forall k :: 0 <= k < j.value ==> !Collide(r, rs[k])
    ensures j.None? <==> forall k :: 0 <= k < |rs| ==> !Collide(r, rs[k])
  {
    if |rs| == 0 then None
    else if Collide(r, rs[0]) then Some(0)
    else match FirstHit(r, rs[1..])
      case None => None
      case Some(k) => Some(k + 1)
  }

  function Abs(n: int): nat { if n < 0 then -n else n }

  function Sq(n: int): nat { Abs(n) * Abs(n) }

  /** Squared distance between the centres (player.py and enemy.py `distance`). */
  function CenterDistSq(a: Rect, b: Rect): nat
  {
    Sq(a.CenterX() - b.CenterX()) + Sq(a.CenterY() - b.CenterY())
  }

  /** Squared distance between the top-left corners (npc.py `distance`). */
  function CornerDistSq(a: Rect, b: Rect): nat
  {
    Sq(a.x - b.x) + Sq(a.y - b.y)
  }

  /** The squared distances from `from` to each of `rs`, by centre. */
  function CenterDists(from: Rect, rs: seq<Rect>): (ds: seq<nat>)
    ensures |ds| == |rs|
    ensures forall k :: 0 <= k < |rs| ==> ds[k] == CenterDistSq(from, rs[k])
  {
    seq(|rs|, k requires 0 <= k < |rs| => CenterDistSq(from, rs[k]))
  }

  /** The squared distances from `from` to each of `rs`, by top-left corner. */
  function CornerDists(from: Rect, rs: seq<Rect>): (ds: seq<nat>)
    ensures |ds| == |rs|
    ensures forall k :: 0 <= k < |rs| ==> ds[k] == CornerDistSq(from, rs[k])
  {
    seq(|rs|, k requires 0 <= k < |rs| => CornerDistSq(from, rs[k]))
  }

  /**
   * The min-tracking scan `for x in xs: if d(x) < best: best, found = d(x), x`
   * starting from infinity: the index of the first minimal distance, or None
   * for no candidates. Python's `min(xs, key=d)` picks the same element.
   */
  function FirstMin(ds: seq<nat>): (r: Option<nat>)
    ensures r.None? <==> |ds| == 0
    ensures r.Some? ==> r.value < |ds|
    ensures r.Some? ==> forall k :: 0 <= k < |ds| ==> ds[r.value] <= ds[k]
    ensures r.Some? ==> forall k :: 0 <= k < r.value ==> ds[r.value] < ds[k]
  {
    if |ds| == 0 then None
    else
      var last := |ds| - 1;
      match FirstMin(ds[..last])
      case None => Some(last)
      case Some(i) =>
        if ds[last] < ds[i] then Some(last) else Some(i)
  }

  /** The first minimum is the only index that is minimal with no smaller or equal value before it. */
  lemma FirstMinUnique(ds: seq<nat>, i: nat)
    requires i < |ds|
    requires forall k :: 0 <= k < |ds| ==> ds[i] <= ds[k]
    requires forall k :: 0 <= k < i ==> ds[i] < ds[k]
    ensures FirstMin(ds) == Some(i)
  {
  }

  /** The index of the rect nearest to `from` by centre distance: the first on a tie, None for none. */
  function ClosestByCenter(from: Rect, rs: seq<Rect>): (c: Option<nat>)
    ensures c.None? <==> |rs| == 0
    ensures c.Some? ==> c.value < |rs|
    ensures c.Some? ==> forall k :: 0 <= k < |rs| ==> CenterDistSq(from, rs[c.value]) <= CenterDistSq(from, rs[k])
    ensures c.Some? ==> forall k :: 0 <= k < c.value ==> CenterDistSq(from, rs[c.value]) < CenterDistSq(from, rs[k])
  {
    FirstMin(CenterDists(from, rs))
  }

  /** The index of the rect nearest to `from` by top-left corner: the first on a tie, None for none. */
  function ClosestByCorner(from: Rect, rs: seq<Rect>): (c: Option<nat>)
    ensures c.None? <==> |rs| == 0
    ensures c.Some? ==> c.value < |rs|
    ensures c.Some? ==> forall k :: 0 <= k < |rs| ==> CornerDistSq(from, rs[c.value]) <= CornerDistSq(from, rs[k])
    ensures c.Some? ==> forall k :: 0 <= k < c.value ==> CornerDistSq(from, rs[c.value]) < CornerDistSq(from, rs[k])
  {
    FirstMin(CornerDists(from, rs))
  }

  /** The corner distance ignores the sizes of both rects. */
  lemma CornerDistIgnoresSize(a: Rect, b: Rect, w1: nat, h1: nat, w2: nat, h2: nat)
    ensures CornerDistSq(a, b) == CornerDistSq(a.(width := w1, height := h1), b.(width := w2, height := h2))
  {
  }

  /**
   * One chase step along an axis: `speed` toward `to`, `speed` away from it
   * in the other direction, nothing when already equal.
   */
  function ChaseStep(from: int, to: int, speed: int): int
  {
    if from < to then from + speed
    else if from > to then from - speed
    else from
  }

  /**
   * A chase step moves by exactly `speed` toward the target, so the gap
   * along the axis becomes |gap - speed|: it overshoots when the gap is
   * smaller than the speed, and is unchanged only when already zero.
   */
  lemma ChaseStepGap(from: int, to: int, speed: nat)
    ensures Abs(ChaseStep(from, to, speed) - from) == if from == to then 0 else speed
    ensures from != to ==> Abs(to - ChaseStep(from, to, speed)) == Abs(Abs(to - from) - speed)
    ensures from == to ==> ChaseStep(from, to, speed) == from
  {
  }
}
