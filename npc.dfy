/**
 * npc.py: a 20×20 chaser that steps NPC_SPEED per axis toward the top-left
 * corner of the nearest player, and aims at the same nearest player. The
 * session gives NPCs health, damage and a score value, which npc.py does
 * not declare; they are fields here.
 */
module Npcs {
  import opened Wrappers
  import opened Config
  import opened Geometry
  import opened Players

  const NpcSize: nat := 20

  /** One `update` step toward `target`: each axis by NPC_SPEED toward its top-left coordinate. */
  function Chased(r: Rect, target: Rect): Rect
  {
    r.(x := ChaseStep(r.x, target.x, NpcSpeed), y := ChaseStep(r.y, target.y, NpcSpeed))
  }

  /**
   * Each axis moves by exactly NPC_SPEED, or stays when already equal to the
   * target's; the gap becomes |gap - 2|, so an odd gap is never closed.
   */
  lemma ChasedSteps(r: Rect, target: Rect)
    ensures var c := Chased(r, target);
      && c.width == r.width && c.height == r.height
      && Abs(c.x - r.x) == (if r.x == target.x then 0 else NpcSpeed)
      && Abs(c.y - r.y) == (if r.y == target.y then 0 else NpcSpeed)
      && (r.x != target.x ==> Abs(target.x - c.x) == Abs(Abs(target.x - r.x) - NpcSpeed))
      && (r.y != target.y ==> Abs(target.y - c.y) == Abs(Abs(target.y - r.y) - NpcSpeed))
  {
    ChaseStepGap(r.x, target.x, NpcSpeed);
    ChaseStepGap(r.y, target.y, NpcSpeed);
  }

  class Npc {
    var rect: Rect
    var health: int
    const damage: int
    const score: int

    /** `NPC(x, y)` with the stats the session reads. */
    constructor (x: int, y: int, health: int, damage: int, score: int)
      ensures rect == Rect(x, y, NpcSize, NpcSize)
      ensures this.health == health && this.damage == damage && this.score == score
    {
      rect := Rect(x, y, NpcSize, NpcSize);
      this.health := health;
      this.damage := damage;
      this.score := score;
    }

    /**
     * `find_closest_player`: None exactly for no players, otherwise the first
     * player at strictly minimal top-left distance. Dead players count.
     */
    function FindClosestPlayer(players: seq<Player>): (c: Option<nat>)
      reads this, players
      ensures c.None? <==> |players| == 0
      ensures c.Some? ==> c.value < |players|
      ensures c.Some? ==> forall k :: 0 <= k < |players| ==>
        CornerDistSq(rect, players[c.value].rect) <= CornerDistSq(rect, players[k].rect)
      ensures c.Some? ==> forall k :: 0 <= k < c.value ==>
        CornerDistSq(rect, players[c.value].rect) < CornerDistSq(rect, players[k].rect)
    {
      ClosestByCorner(rect, Rects(players))
    }

    /** `get_shot_target`: the closest of the given players, by the same rule. */
    function GetShotTarget(players: seq<Player>): (c: Option<nat>)
      reads this, players
      ensures c == FindClosestPlayer(players)
    {
      FindClosestPlayer(players)
    }

    /**
     * `update(players)`: one chase step toward the nearest player, dead or
     * alive. With no players the source fails on `None.rect`, so a player
     * must exist.
     */
    method Update(players: seq<Player>)
      requires |players| > 0
      modifies this
      ensures rect == Chased(old(rect), players[old(FindClosestPlayer(players)).value].rect)
      ensures health == old(health)
    {
      var nearest := FindClosestPlayer(players).value;
      var target := players[nearest].rect;
      if rect.x < target.x {
        rect := rect.(x := rect.x + NpcSpeed);
      } else if rect.x > target.x {
        rect := rect.(x := rect.x - NpcSpeed);
      }
      if rect.y < target.y {
        rect := rect.(y := rect.y + NpcSpeed);
      } else if rect.y > target.y {
        rect := rect.(y := rect.y - NpcSpeed);
      }
    }
  }
}
