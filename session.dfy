/**
 * The rules of a game session (game.py, `AbstractGame`) on values. Players,
 * NPCs and bullets are records holding the fields the session reads and
 * writes; an NPC is known by an id (the session keys its shot times by
 * `id(npc)`, and a bullet remembers its shooter). Each function below is one
 * step of the session; the `AbstractGame` class performs the same steps in
 * place and is proved equal to them.
 */
module Sessions {
  import opened Wrappers
  import opened Config
  import opened Geometry
  import opened Bullets
  import opened Players
  import Npcs

  /** Spawned NPCs keep this far from every edge of the screen. */
  const SpawnMargin: int := 50
  const MinSpawnInterval: int := 3000
  const MaxSpawnInterval: int := 5000
  const NpcShootCooldown: int := 500
  /** Health a player's bullet takes from the NPC it hits. */
  const PlayerBulletDamage: int := 10
  /** Contact with a player costs that player twice the NPC's damage. */
  const ContactFactor: int := 2
  /** The score at which a finished game counts as won. */
  const WinScore: int := 200
  const NpcBulletColor: Color := Color(255, 0, 0)

  /** A player as the session holds it: identity, constants and changing state. */
  datatype PlayerEntry = PlayerEntry(
    uid: string, frames: map<AnimKey, seq<Frame>>, speed: int, color: Color, state: PlayerState)

  /** An NPC with the stats the session reads. */
  datatype NpcEntry = NpcEntry(id: nat, rect: Rect, health: int, damage: int, score: int)

  datatype GameResult = Win | Lost

  /** Everything a session tick reads and writes, apart from the input buffers. */
  datatype Session = Session(
    players: seq<PlayerEntry>,
    npcs: seq<NpcEntry>,
    playerBullets: seq<Shot>,
    npcBullets: seq<Shot>,
    npcLastShotTimes: map<nat, int>,
    score: int,
    lastSpawnTime: int,
    nextSpawnInterval: int,
    running: bool,
    gameResult: Option<GameResult>,
    nextNpcId: nat)

  /** Every player's frame table can be animated. */
  predicate PlayersReady(ps: seq<PlayerEntry>)
  {
    forall k :: 0 <= k < |ps| ==> FramesReady(ps[k].frames)
  }

  /** `qs` holds the same players as `ps`, in the same order: uids and frame tables agree. */
  predicate SameRoster(ps: seq<PlayerEntry>, qs: seq<PlayerEntry>)
  {
    |qs| == |ps| && forall k :: 0 <= k < |ps| ==> qs[k].uid == ps[k].uid && qs[k].frames == ps[k].frames
  }

  lemma SameRosterTrans(a: seq<PlayerEntry>, b: seq<PlayerEntry>, c: seq<PlayerEntry>)
    requires SameRoster(a, b) && SameRoster(b, c)
    ensures SameRoster(a, c)
  {
  }

  /** Players with the frame tables of ready players are ready. */
  lemma SameRosterReady(a: seq<PlayerEntry>, b: seq<PlayerEntry>)
    requires SameRoster(a, b) && PlayersReady(a)
    ensures PlayersReady(b)
  {
    assert forall k :: 0 <= k < |b| ==> b[k].frames == a[k].frames;
  }

  /** The rects of the players, in order. */
  function PlayerRects(ps: seq<PlayerEntry>): (rs: seq<Rect>)
    ensures |rs| == |ps| && forall k :: 0 <= k < |ps| ==> rs[k] == ps[k].state.rect
  {
    seq(|ps|, k requires 0 <= k < |ps| => ps[k].state.rect)
  }

  /** The rects of the NPCs, in order. */
  function NpcRects(ns: seq<NpcEntry>): (rs: seq<Rect>)
    ensures |rs| == |ns| && forall k :: 0 <= k < |ns| ==> rs[k] == ns[k].rect
  {
    seq(|ns|, k requires 0 <= k < |ns| => ns[k].rect)
  }

  predicate Alive(p: PlayerEntry)
  {
    p.state.health > 0
  }

  /** The healths of the players, in order. */
  function PlayerHealths(ps: seq<PlayerEntry>): (hs: seq<int>)
    ensures |hs| == |ps| && forall k :: 0 <= k < |ps| ==> hs[k] == ps[k].state.health
  {
    seq(|ps|, k requires 0 <= k < |ps| => ps[k].state.health)
  }

  /**
   * The rects of the living players, in order (`[p for p in players if
   * p.health > 0]`): the i-th is the rect of the i-th living player.
   */
  function LivingRects(ps: seq<PlayerEntry>): (rs: seq<Rect>)
    ensures |rs| == |LivingIndices(PlayerHealths(ps))| <= |ps|
    ensures |rs| == 0 <==> forall k :: 0 <= k < |ps| ==> !Alive(ps[k])
    ensures forall i :: 0 <= i < |rs| ==> rs[i] == ps[LivingIndices(PlayerHealths(ps))[i]].state.rect
  {
    var idx := LivingIndices(PlayerHealths(ps));
    assert |idx| > 0 ==> Alive(ps[idx[0]]);
    Pick(PlayerRects(ps), idx)
  }

  /**
   * Player `k`, given the players' rects `rs` and healths `hs`, is alive, no
   * living player's top-left corner is nearer to `from`, and every living
   * player before it is strictly farther: the player npc.py's
   * `find_closest_player` returns from the living players.
   */
  predicate FirstNearestLivingByCorner(from: Rect, rs: seq<Rect>, hs: seq<int>, k: nat)
    requires |rs| == |hs|
  {
    && k < |rs| && hs[k] > 0
    && (forall j :: 0 <= j < |rs| && hs[j] > 0 ==> CornerDistSq(from, rs[k]) <= CornerDistSq(from, rs[j]))
    && (forall j :: 0 <= j < k && hs[j] > 0 ==> CornerDistSq(from, rs[k]) < CornerDistSq(from, rs[j]))
  }

  /** The first minimum among the living players' rects is the first nearest living player of the whole list. */
  lemma FirstLivingByCorner(from: Rect, rs: seq<Rect>, hs: seq<int>, c: nat)
    requires |rs| == |hs|
    requires var live := Pick(rs, LivingIndices(hs));
      && c < |live|
      && (forall m :: 0 <= m < |live| ==> CornerDistSq(from, live[c]) <= CornerDistSq(from, live[m]))
      && (forall m :: 0 <= m < c ==> CornerDistSq(from, live[c]) < CornerDistSq(from, live[m]))
    ensures FirstNearestLivingByCorner(from, rs, hs, LivingIndices(hs)[c])
  {
    var idx := LivingIndices(hs);
    var live := Pick(rs, idx);
    var i := idx[c];
    forall j | 0 <= j < |rs| && hs[j] > 0
      ensures CornerDistSq(from, rs[i]) <= CornerDistSq(from, rs[j])
      ensures j < i ==> CornerDistSq(from, rs[i]) < CornerDistSq(from, rs[j])
    {
      var m :| 0 <= m < |idx| && idx[m] == j;
      assert live[m] == rs[j];
      if j < i {
        IncreasingIndices(idx, m, c);
      }
    }
  }

  /** The NPC's target among the living rects is the first nearest living player of the whole list. */
  lemma NpcTargetFirstNearest(from: Rect, ps: seq<PlayerEntry>)
    requires |LivingRects(ps)| > 0
    ensures var c := ClosestByCorner(from, LivingRects(ps)).value;
      var idx := LivingIndices(PlayerHealths(ps));
      && c < |idx|
      && LivingRects(ps)[c] == ps[idx[c]].state.rect
      && FirstNearestLivingByCorner(from, PlayerRects(ps), PlayerHealths(ps), idx[c])
  {
    var rs, hs := PlayerRects(ps), PlayerHealths(ps);
    var live := LivingRects(ps);
    assert live == Pick(rs, LivingIndices(hs));
    FirstLivingByCorner(from, rs, hs, ClosestByCorner(from, live).value);
  }

  /** The number of living players. */
  function LivingCount(ps: seq<PlayerEntry>): nat
  {
    if |ps| == 0 then 0
    else LivingCount(ps[..|ps| - 1]) + (if Alive(ps[|ps| - 1]) then 1 else 0)
  }

  /** There is one living rect per living player. */
  lemma {:induction false} LivingCountRects(ps: seq<PlayerEntry>)
    ensures LivingCount(ps) == |LivingRects(ps)|
  {
    if |ps| > 0 {
      var last := |ps| - 1;
      LivingCountRects(ps[..last]);
      var hs := PlayerHealths(ps);
      assert PlayerHealths(ps[..last]) == hs[..last];
      LivingIndicesStep(hs);
    }
  }

  /** The player with `p`'s health lowered by `d`. */
  function Hurt(p: PlayerEntry, d: int): PlayerEntry
  {
    p.(state := p.state.(health := p.state.health - d))
  }

  // ----- try_spawn_npc -----

  /** The random choices of one spawn are within the ranges the session draws from. */
  predicate SpawnChoice(x: int, y: int, interval: int)
  {
    && SpawnMargin <= x <= ScreenWidth - SpawnMargin
    && SpawnMargin <= y <= ScreenHeight - SpawnMargin
    && MinSpawnInterval <= interval <= MaxSpawnInterval
  }

  /** Whether `try_spawn_npc` at `now` spawns: strictly more than the interval has passed. */
  predicate SpawnDue(s: Session, now: int)
  {
    now - s.lastSpawnTime > s.nextSpawnInterval
  }

  /** The NPC ids rise along the list, so no two NPCs share one. */
  predicate IdsRising(ns: seq<NpcEntry>)
  {
    forall j, k :: 0 <= j < k < |ns| ==> ns[j].id < ns[k].id
  }

  /** Every NPC id is below `bound`. */
  predicate IdsBelow(ns: seq<NpcEntry>, bound: nat)
  {
    forall k :: 0 <= k < |ns| ==> ns[k].id < bound
  }

  /**
   * The NPC identities stay apart: the ids rise in spawn order and the id
   * the next spawn hands out is above all of them.
   */
  predicate NpcIdsFresh(s: Session)
  {
    IdsRising(s.npcs) && IdsBelow(s.npcs, s.nextNpcId)
  }

  /**
   * `try_spawn_npc` at `now`, the random choices given: a new NPC of the
   * given stats at (x, y), and the next interval.
   */
  function Spawned(s: Session, now: int, x: int, y: int, health: int, damage: int, score: int, interval: int): Session
  {
    if SpawnDue(s, now) then
      s.(npcs := s.npcs + [NpcEntry(s.nextNpcId, Rect(x, y, Npcs.NpcSize, Npcs.NpcSize), health, damage, score)],
         lastSpawnTime := now, nextSpawnInterval := interval, nextNpcId := s.nextNpcId + 1)
    else s
  }

  /**
   * A spawn adds exactly one NPC, with an id no other NPC has, inside the
   * margins, and restarts the clock with an interval in [3000, 5000];
   * otherwise nothing changes. Another spawn then needs more than 3000 ms.
   * Either way the NPC ids stay apart.
   */
  lemma SpawnedProperties(s: Session, now: int, x: int, y: int, health: int, damage: int, score: int, interval: int)
    requires SpawnChoice(x, y, interval) && NpcIdsFresh(s)
    ensures var t := Spawned(s, now, x, y, health, damage, score, interval);
      && NpcIdsFresh(t)
      && (SpawnDue(s, now) ==> forall k :: 0 <= k < |s.npcs| ==> t.npcs[|s.npcs|].id != s.npcs[k].id)
    ensures var t := Spawned(s, now, x, y, health, damage, score, interval);
      && (!SpawnDue(s, now) ==> t == s)
      && (SpawnDue(s, now) ==>
            && |t.npcs| == |s.npcs| + 1 && t.npcs[..|s.npcs|] == s.npcs
            && t.npcs[|s.npcs|].id == s.nextNpcId < t.nextNpcId
            && SpawnMargin <= t.npcs[|s.npcs|].rect.x <= ScreenWidth - SpawnMargin
            && SpawnMargin <= t.npcs[|s.npcs|].rect.y <= ScreenHeight - SpawnMargin
            && t.lastSpawnTime == now
            && MinSpawnInterval <= t.nextSpawnInterval <= MaxSpawnInterval
            && t.players == s.players && t.score == s.score)
    ensures forall later, x2, y2, h2, d2, s2, i2 ::
      SpawnDue(s, now) && later - now <= MinSpawnInterval ==>
      Spawned(Spawned(s, now, x, y, health, damage, score, interval), later, x2, y2, h2, d2, s2, i2)
        == Spawned(s, now, x, y, health, damage, score, interval)
  {
    assert (s.npcs + [NpcEntry(s.nextNpcId, Rect(x, y, Npcs.NpcSize, Npcs.NpcSize), health, damage, score)])[..|s.npcs|] == s.npcs;
  }

  // ----- try_npc_shoot -----

  /** `npc_last_shot_times.get(id(npc), 0)`. */
  function LastShot(times: map<nat, int>, id: nat): int
  {
    if id in times then times[id] else 0
  }

  /** Whether `try_npc_shoot` fires: the cooldown has passed and some player is alive. */
  predicate NpcCanShoot(s: Session, n: NpcEntry, now: int)
  {
    now - LastShot(s.npcLastShotTimes, n.id) >= NpcShootCooldown && |LivingRects(s.players)| > 0
  }

  /**
   * `try_npc_shoot(npc)` at `now`: a red bullet from the NPC's centre toward
   * the centre of the living player nearest by top-left distance (npc.py's
   * `get_shot_target`), recorded as fired at `now`.
   */
  function NpcShot(s: Session, n: NpcEntry, now: int, aim: Aim): Session
  {
    if !NpcCanShoot(s, n, now) then s
    else
      var live := LivingRects(s.players);
      var t := live[ClosestByCorner(n.rect, live).value];
      s.(npcBullets := s.npcBullets + [Fired(n.rect.CenterX(), n.rect.CenterY(), t.CenterX(), t.CenterY(), aim, NpcBulletColor, Some(n.id))],
         npcLastShotTimes := s.npcLastShotTimes[n.id := now])
  }

  /** Shooting leaves the NPC list, the players, the score, the player bullets and the game's outcome as they were. */
  lemma NpcShotKeeps(s: Session, n: NpcEntry, now: int, aim: Aim)
    ensures var t := NpcShot(s, n, now, aim);
      t.npcs == s.npcs && t.players == s.players && t.score == s.score && t.playerBullets == s.playerBullets
      && t.running == s.running && t.gameResult == s.gameResult
  {
  }

  /** Shooting reads and writes neither the NPC list nor the players. */
  lemma NpcShotIgnoresNpcs(s: Session, ns: seq<NpcEntry>, n: NpcEntry, now: int, aim: Aim)
    ensures NpcShot(s.(npcs := ns), n, now, aim) == NpcShot(s, n, now, aim).(npcs := ns)
    ensures NpcShot(s, n, now, aim).players == s.players
  {
  }

  /**
   * An NPC adds nothing before 500 ms since its last shot (0 when it never
   * shot) or with no living player; otherwise exactly one bullet, fired by
   * it from its centre at the living player nearest by top-left distance
   * (the first on a tie), and its shot time becomes `now`.
   * Only the NPC bullets and the shot times change, and the NPC cannot fire
   * again until 500 ms later.
   */
  lemma NpcShotProperties(s: Session, n: NpcEntry, now: int, aim: Aim)
    ensures var t := NpcShot(s, n, now, aim);
      && (!NpcCanShoot(s, n, now) ==> t == s)
      && (NpcCanShoot(s, n, now) ==>
            && |t.npcBullets| == |s.npcBullets| + 1 && t.npcBullets[..|s.npcBullets|] == s.npcBullets
            && t.npcLastShotTimes == s.npcLastShotTimes[n.id := now]
            && t == s.(npcBullets := t.npcBullets, npcLastShotTimes := t.npcLastShotTimes))
    ensures NpcCanShoot(s, n, now) ==>
      var b := NpcShot(s, n, now, aim).npcBullets[|s.npcBullets|];
      && b.shooter == Some(n.id) && b.color == NpcBulletColor
      && b.rect == Rect(n.rect.CenterX(), n.rect.CenterY(), BulletSize, BulletSize)
      && exists k: nat :: (FirstNearestLivingByCorner(n.rect, PlayerRects(s.players), PlayerHealths(s.players), k) &&
           (b.dx, b.dy) == aim(n.rect.CenterX(), n.rect.CenterY(), s.players[k].state.rect.CenterX(), s.players[k].state.rect.CenterY()))
    ensures forall later :: NpcCanShoot(s, n, now) && later - now < NpcShootCooldown ==>
      !NpcCanShoot(NpcShot(s, n, now, aim), n, later)
  {
    if NpcCanShoot(s, n, now) {
      var t := NpcShot(s, n, now, aim);
      var live := LivingRects(s.players);
      assert (s.npcBullets + [t.npcBullets[|s.npcBullets|]])[..|s.npcBullets|] == s.npcBullets;
      NpcTargetFirstNearest(n.rect, s.players);
      var k := LivingIndices(PlayerHealths(s.players))[ClosestByCorner(n.rect, live).value];
      assert FirstNearestLivingByCorner(n.rect, PlayerRects(s.players), PlayerHealths(s.players), k);
    }
  }

  // ----- check_bullet_collisions, first pass: NPC bullets on players -----

  /** The index of the first NPC whose id is `shooter` (the loop over `npcs` testing `bullet.shooter == npc`). */
  function ShooterIndex(ns: seq<NpcEntry>, shooter: Option<nat>): (i: Option<nat>)
    ensures i.None? <==> shooter.None? || forall k :: 0 <= k < |ns| ==> ns[k].id != shooter.value
    ensures i.Some? ==> i.value < |ns| && Some(ns[i.value].id) == shooter
    ensures i.Some? ==> forall k :: 0 <= k < i.value ==> Some(ns[k].id) != shooter
  {
    if shooter.None? || |ns| == 0 then None
    else if ns[0].id == shooter.value then Some(0)
    else match ShooterIndex(ns[1..], shooter)
      case None => None
      case Some(k) => Some(k + 1)
  }

  /** While the ids stay apart, a bullet's shooter is the one NPC carrying its id. */
  lemma ShooterIndexUnique(ns: seq<NpcEntry>, i: nat)
    requires IdsRising(ns) && i < |ns|
    ensures ShooterIndex(ns, Some(ns[i].id)) == Some(i)
  {
  }

  /**
   * The player a NPC bullet lands on and the damage it does: the first
   * player (dead or alive) it overlaps, with its shooter's damage, provided
   * the shooter is still among the NPCs.
   */
  function NpcBulletTarget(b: Shot, ns: seq<NpcEntry>, prs: seq<Rect>): (hit: Option<(nat, int)>)
    ensures hit.None? <==> ShooterIndex(ns, b.shooter).None? || FirstHit(b.rect, prs).None?
    ensures hit.Some? ==> hit.value.0 < |prs| && Collide(b.rect, prs[hit.value.0])
    ensures hit.Some? ==> forall k :: 0 <= k < hit.value.0 ==> !Collide(b.rect, prs[k])
    ensures hit.Some? ==> exists i :: 0 <= i < |ns| && Some(ns[i].id) == b.shooter && hit.value.1 == ns[i].damage
  {
    match ShooterIndex(ns, b.shooter)
    case None => None
    case Some(i) =>
      match FirstHit(b.rect, prs)
      case None => None
      case Some(j) => Some((j, ns[i].damage))
  }

  /** The NPC bullets that land on no player, in order: those the first pass keeps. */
  function KeepUnhit(bs: seq<Shot>, ns: seq<NpcEntry>, prs: seq<Rect>): (kept: seq<Shot>)
    ensures |kept| <= |bs|
  {
    if |bs| == 0 then []
    else
      var last := |bs| - 1;
      var rest := KeepUnhit(bs[..last], ns, prs);
      if NpcBulletTarget(bs[last], ns, prs).None? then rest + [bs[last]] else rest
  }

  /** The bullets kept are exactly those of `bs` that land on nobody. */
  lemma {:induction false} KeepUnhitProperties(bs: seq<Shot>, ns: seq<NpcEntry>, prs: seq<Rect>)
    ensures forall i :: 0 <= i < |KeepUnhit(bs, ns, prs)| ==>
      KeepUnhit(bs, ns, prs)[i] in bs && NpcBulletTarget(KeepUnhit(bs, ns, prs)[i], ns, prs).None?
    ensures forall k :: 0 <= k < |bs| && NpcBulletTarget(bs[k], ns, prs).None? ==> bs[k] in KeepUnhit(bs, ns, prs)
  {
    if |bs| > 0 {
      var last := |bs| - 1;
      KeepUnhitProperties(bs[..last], ns, prs);
      assert forall k :: 0 <= k < last ==> bs[..last][k] == bs[k];
      assert bs == bs[..last] + [bs[last]];
    }
  }

  /** The total damage the bullets `bs` do to player `j`. */
  function DamageTo(bs: seq<Shot>, ns: seq<NpcEntry>, prs: seq<Rect>, j: nat): int
  {
    if |bs| == 0 then 0
    else
      var last := |bs| - 1;
      var hit := NpcBulletTarget(bs[last], ns, prs);
      DamageTo(bs[..last], ns, prs, j) + (if hit.Some? && hit.value.0 == j then hit.value.1 else 0)
  }

  /** One more bullet: kept exactly when it lands on nobody. */
  lemma KeepUnhitStep(bs: seq<Shot>, b: Shot, ns: seq<NpcEntry>, prs: seq<Rect>)
    ensures KeepUnhit(bs + [b], ns, prs) ==
      KeepUnhit(bs, ns, prs) + (if NpcBulletTarget(b, ns, prs).None? then [b] else [])
  {
    assert (bs + [b])[..|bs|] == bs;
  }

  /** One more bullet adds its damage to the player it lands on only. */
  lemma DamageToStep(bs: seq<Shot>, b: Shot, ns: seq<NpcEntry>, prs: seq<Rect>, j: nat)
    ensures var hit := NpcBulletTarget(b, ns, prs);
      DamageTo(bs + [b], ns, prs, j) ==
        DamageTo(bs, ns, prs, j) + (if hit.Some? && hit.value.0 == j then hit.value.1 else 0)
  {
    assert (bs + [b])[..|bs|] == bs;
  }

  /** Each of the players `ps` is the player of `ps0` with the damage the bullets `bs` do to it. */
  predicate DamagedBy(ps: seq<PlayerEntry>, ps0: seq<PlayerEntry>, bs: seq<Shot>, ns: seq<NpcEntry>, prs: seq<Rect>)
  {
    |ps| == |ps0| && forall k :: 0 <= k < |ps| ==> ps[k] == Hurt(ps0[k], DamageTo(bs, ns, prs, k))
  }

  /**
   * One more bullet, applied to players that have taken the damage of `bs`:
   * hurting the player it lands on by its shooter's damage leaves every
   * player with the damage of `bs + [b]`.
   */
  lemma DamageToStepAll(bs: seq<Shot>, b: Shot, ns: seq<NpcEntry>, prs: seq<Rect>,
                        ps0: seq<PlayerEntry>, ps: seq<PlayerEntry>)
    requires |ps0| == |prs| && DamagedBy(ps, ps0, bs, ns, prs)
    ensures var hit := NpcBulletTarget(b, ns, prs);
      DamagedBy(if hit.Some? then ps[hit.value.0 := Hurt(ps[hit.value.0], hit.value.1)] else ps, ps0, bs + [b], ns, prs)
  {
    forall k | 0 <= k < |ps|
    {
      DamageToStep(bs, b, ns, prs, k);
    }
  }

  /** A player no bullet overlaps takes no damage. */
  lemma {:induction false} UnhitPlayerUnharmed(bs: seq<Shot>, ns: seq<NpcEntry>, prs: seq<Rect>, j: nat)
    requires j < |prs|
    requires forall k :: 0 <= k < |bs| ==> !Collide(bs[k].rect, prs[j])
    ensures DamageTo(bs, ns, prs, j) == 0
  {
    if |bs| > 0 {
      var last := |bs| - 1;
      assert forall k :: 0 <= k < last ==> bs[..last][k] == bs[k];
      UnhitPlayerUnharmed(bs[..last], ns, prs, j);
    }
  }

  /** A bullet whose shooter is no longer among the NPCs stays, whatever it overlaps. */
  lemma OrphanBulletKept(bs: seq<Shot>, ns: seq<NpcEntry>, prs: seq<Rect>, k: nat)
    requires k < |bs|
    requires forall i :: 0 <= i < |ns| ==> Some(ns[i].id) != bs[k].shooter
    ensures bs[k] in KeepUnhit(bs, ns, prs)
  {
    KeepUnhitProperties(bs, ns, prs);
  }

  /** The first pass: every NPC bullet that lands is removed and hurts the player it lands on. */
  function NpcBulletsLanded(s: Session): (t: Session)
    ensures |t.players| == |s.players|
  {
    var prs := PlayerRects(s.players);
    s.(npcBullets := KeepUnhit(s.npcBullets, s.npcs, prs),
       players := seq(|s.players|, j requires 0 <= j < |s.players| => Hurt(s.players[j], DamageTo(s.npcBullets, s.npcs, prs, j))))
  }

  // ----- check_bullet_collisions, second pass: player bullets on NPCs -----

  /** The NPCs without the one at `j`. */
  function Without(ns: seq<NpcEntry>, j: nat): seq<NpcEntry>
    requires j < |ns|
  {
    ns[..j] + ns[j + 1..]
  }

  /**
   * One player bullet: whether it hit, the NPCs after it and the score. It
   * hits the first NPC it overlaps, which loses 10 health and, at 0 or
   * below, leaves the list and adds its score.
   */
  function PlayerBulletHit(b: Shot, ns: seq<NpcEntry>, score: int): (bool, seq<NpcEntry>, int)
  {
    match FirstHit(b.rect, NpcRects(ns))
    case None => (false, ns, score)
    case Some(j) =>
      var n := ns[j].(health := ns[j].health - PlayerBulletDamage);
      if n.health <= 0 then (true, Without(ns, j), score + n.score)
      else (true, ns[j := n], score)
  }

  /**
   * A player bullet hits exactly when it overlaps some NPC; one that overlaps
   * none changes nothing, and one that hits removes at most one NPC.
   */
  lemma PlayerBulletHitProperties(b: Shot, ns: seq<NpcEntry>, score: int)
    ensures var r := PlayerBulletHit(b, ns, score);
      && (r.0 <==> exists k :: 0 <= k < |ns| && Collide(b.rect, ns[k].rect))
      && (!r.0 ==> r.1 == ns && r.2 == score)
      && |ns| - 1 <= |r.1| <= |ns|
  {
    FirstNpcHit(b.rect, ns);
  }

  /**
   * Only the first NPC `j` a player bullet overlaps is affected: its health
   * drops by exactly 10, and it is removed, its score added, exactly when
   * that health is at most 0.
   */
  lemma PlayerBulletHitFirst(b: Shot, ns: seq<NpcEntry>, score: int, j: nat)
    requires j < |ns| && Collide(b.rect, ns[j].rect)
    requires forall k :: 0 <= k < j ==> !Collide(b.rect, ns[k].rect)
    ensures var r := PlayerBulletHit(b, ns, score);
      var n := ns[j].(health := ns[j].health - PlayerBulletDamage);
      && r.0
      && (n.health <= 0 ==> r.1 == Without(ns, j) && r.2 == score + ns[j].score)
      && (n.health > 0 ==> r.1 == ns[j := n] && r.2 == score)
  {
    FirstNpcHit(b.rect, ns);
    var h := FirstHit(b.rect, NpcRects(ns));
    assert h.Some?;
    assert h.value == j;
  }

  /** The first NPC rect a bullet overlaps, stated on the NPCs themselves. */
  lemma FirstNpcHit(r: Rect, ns: seq<NpcEntry>)
    ensures var j := FirstHit(r, NpcRects(ns));
      && (j.None? <==> forall k :: 0 <= k < |ns| ==> !Collide(r, ns[k].rect))
      && (j.Some? ==> j.value < |ns| && Collide(r, ns[j.value].rect))
      && (j.Some? ==> forall k :: 0 <= k < j.value ==> !Collide(r, ns[k].rect))
  {
    var rs := NpcRects(ns);
    assert forall k :: 0 <= k < |ns| ==> rs[k] == ns[k].rect;
  }

  /**
   * The second pass over the bullets `bs`, in order: the bullets kept, the
   * NPCs and the score after it.
   */
  function PlayerBulletsLanded(bs: seq<Shot>, ns: seq<NpcEntry>, score: int): (seq<Shot>, seq<NpcEntry>, int)
  {
    if |bs| == 0 then ([], ns, score)
    else
      var last := |bs| - 1;
      var (kept, ns1, score1) := PlayerBulletsLanded(bs[..last], ns, score);
      var (hit, ns2, score2) := PlayerBulletHit(bs[last], ns1, score1);
      (if hit then kept else kept + [bs[last]], ns2, score2)
  }

  /** One more player bullet continues the pass from where it stood. */
  lemma PlayerBulletsLandedStep(bs: seq<Shot>, b: Shot, ns: seq<NpcEntry>, score: int)
    ensures var (kept, ns1, score1) := PlayerBulletsLanded(bs, ns, score);
      var (hit, ns2, score2) := PlayerBulletHit(b, ns1, score1);
      PlayerBulletsLanded(bs + [b], ns, score) == (if hit then kept else kept + [b], ns2, score2)
  {
    assert (bs + [b])[..|bs|] == bs;
  }

  predicate ScoresNonNegative(ns: seq<NpcEntry>)
  {
    forall k :: 0 <= k < |ns| ==> ns[k].score >= 0
  }

  /** Hitting NPCs never lowers the score while every NPC is worth at least 0, and keeps that so. */
  lemma {:induction false} ScoreNeverDecreases(bs: seq<Shot>, ns: seq<NpcEntry>, score: int)
    requires ScoresNonNegative(ns)
    ensures PlayerBulletsLanded(bs, ns, score).2 >= score
    ensures ScoresNonNegative(PlayerBulletsLanded(bs, ns, score).1)
  {
    if |bs| > 0 {
      var last := |bs| - 1;
      ScoreNeverDecreases(bs[..last], ns, score);
      var r := PlayerBulletsLanded(bs[..last], ns, score);
      PlayerBulletHitScores(bs[last], r.1, r.2);
      var h := PlayerBulletHit(bs[last], r.1, r.2);
      assert PlayerBulletsLanded(bs, ns, score).1 == h.1 && PlayerBulletsLanded(bs, ns, score).2 == h.2;
    }
  }

  /** One player bullet never lowers the score while every NPC is worth at least 0, and keeps that so. */
  lemma PlayerBulletHitScores(b: Shot, ns: seq<NpcEntry>, score: int)
    requires ScoresNonNegative(ns)
    ensures PlayerBulletHit(b, ns, score).2 >= score
    ensures ScoresNonNegative(PlayerBulletHit(b, ns, score).1)
  {
    match FirstHit(b.rect, NpcRects(ns))
    case None =>
    case Some(j) =>
      assert j < |ns|;
      var w := Without(ns, j);
      forall k | 0 <= k < |w|
        ensures w[k].score >= 0
      {
        assert w[k] == if k < j then ns[k] else ns[k + 1];
      }
  }

  /** One player bullet removes an NPC or lowers its health, so the ids keep rising and stay below `bound`. */
  lemma PlayerBulletHitIds(b: Shot, ns: seq<NpcEntry>, score: int, bound: nat)
    requires IdsRising(ns) && IdsBelow(ns, bound)
    ensures IdsRising(PlayerBulletHit(b, ns, score).1) && IdsBelow(PlayerBulletHit(b, ns, score).1, bound)
  {
    match FirstHit(b.rect, NpcRects(ns))
    case None =>
    case Some(j) =>
      assert j < |ns|;
      WithoutIds(ns, j, bound);
  }

  /** Removing one NPC keeps the ids rising and below `bound`. */
  lemma WithoutIds(ns: seq<NpcEntry>, j: nat, bound: nat)
    requires IdsRising(ns) && IdsBelow(ns, bound) && j < |ns|
    ensures IdsRising(Without(ns, j)) && IdsBelow(Without(ns, j), bound)
  {
    var w := Without(ns, j);
    assert forall k :: 0 <= k < |w| ==> w[k] == if k < j then ns[k] else ns[k + 1];
  }

  /** The second pass of `check_bullet_collisions` keeps the NPC ids rising and below `bound`. */
  lemma {:induction false} PlayerBulletsLandedIds(bs: seq<Shot>, ns: seq<NpcEntry>, score: int, bound: nat)
    requires IdsRising(ns) && IdsBelow(ns, bound)
    ensures IdsRising(PlayerBulletsLanded(bs, ns, score).1) && IdsBelow(PlayerBulletsLanded(bs, ns, score).1, bound)
  {
    if |bs| > 0 {
      var last := |bs| - 1;
      PlayerBulletsLandedIds(bs[..last], ns, score, bound);
      var r := PlayerBulletsLanded(bs[..last], ns, score);
      PlayerBulletHitIds(bs[last], r.1, r.2, bound);
      assert PlayerBulletsLanded(bs, ns, score).1 == PlayerBulletHit(bs[last], r.1, r.2).1;
    }
  }

  /**
   * The bullets the second pass keeps are some of the bullets it was given,
   * in order, and it removes at most one NPC per bullet.
   */
  lemma {:induction false} PlayerBulletsLandedBounds(bs: seq<Shot>, ns: seq<NpcEntry>, score: int)
    ensures var (kept, ns2, _) := PlayerBulletsLanded(bs, ns, score);
      && |kept| <= |bs|
      && (forall i :: 0 <= i < |kept| ==> kept[i] in bs)
      && |ns| - |bs| + |kept| <= |ns2| <= |ns|
  {
    if |bs| > 0 {
      var last := |bs| - 1;
      PlayerBulletsLandedBounds(bs[..last], ns, score);
      var (kept, ns1, score1) := PlayerBulletsLanded(bs[..last], ns, score);
      PlayerBulletHitProperties(bs[last], ns1, score1);
      assert forall i :: 0 <= i < |kept| ==> kept[i] in bs[..last];
    }
  }

  /** `check_bullet_collisions`: the NPC bullets first, then the player bullets. */
  function BulletCollisions(s: Session): Session
  {
    var t := NpcBulletsLanded(s);
    var (kept, ns, score) := PlayerBulletsLanded(t.playerBullets, t.npcs, t.score);
    t.(playerBullets := kept, npcs := ns, score := score)
  }

  // ----- update_players -----

  /** `input_manager.get_inputs(uid)` on a snapshot of the buffers. */
  function PendingOf(pending: map<string, seq<KeyType>>, uid: string): seq<KeyType>
  {
    if uid in pending then pending[uid] else []
  }

  /**
   * One player's turn: a dead player is skipped; otherwise `update` with no
   * screen, then `shoot` when SHOOT is among the inputs. Returns the player
   * and the bullets it fired.
   */
  function PlayerTurn(p: PlayerEntry, inp: seq<KeyType>, npcRects: seq<Rect>, now: int, aim: Aim): (PlayerEntry, seq<Shot>)
    requires FramesReady(p.frames)
  {
    if !Alive(p) then (p, [])
    else
      var st := Updated(p.frames, p.speed, p.state, inp, now, None);
      if KeyType.Shoot in inp && CanShoot(st, npcRects, now) then
        var t := npcRects[ClosestByCenter(st.rect, npcRects).value];
        (p.(state := AfterShot(st, now)),
         [Fired(st.rect.CenterX(), st.rect.CenterY(), t.CenterX(), t.CenterY() - AimLift, aim, p.color, None)])
      else (p.(state := st), [])
  }

  /**
   * A dead player neither moves nor fires. A living one fires at most one
   * bullet, only with SHOOT among its inputs, only when NPCs exist, and its
   * own (player's) bullet. Identity, constants and health never change, and
   * the arena clamp never applies.
   */
  lemma PlayerTurnProperties(p: PlayerEntry, inp: seq<KeyType>, npcRects: seq<Rect>, now: int, aim: Aim)
    requires FramesReady(p.frames)
    ensures var (q, shots) := PlayerTurn(p, inp, npcRects, now, aim);
      && (!Alive(p) ==> q == p && shots == [])
      && |shots| <= 1
      && (|shots| == 1 ==> KeyType.Shoot in inp && |npcRects| > 0 && shots[0].shooter.None? && shots[0].color == p.color)
      && q.uid == p.uid && q.frames == p.frames && q.speed == p.speed && q.color == p.color
      && q.state.health == p.state.health
      && (Alive(p) ==> q.state.facing == Move(p.state.rect, p.state.facing, inp, p.speed).1)
  {
  }

  /** Every player's turn, in order: the players after it and the bullets fired, in firing order. */
  function PlayerTurns(ps: seq<PlayerEntry>, pending: map<string, seq<KeyType>>, npcRects: seq<Rect>, now: int, aim: Aim): (r: (seq<PlayerEntry>, seq<Shot>))
    requires PlayersReady(ps)
    ensures |r.0| == |ps|
  {
    if |ps| == 0 then ([], [])
    else
      var last := |ps| - 1;
      var (qs, shots) := PlayerTurns(ps[..last], pending, npcRects, now, aim);
      var (q, fired) := PlayerTurn(ps[last], PendingOf(pending, ps[last].uid), npcRects, now, aim);
      (qs + [q], shots + fired)
  }

  /** Each player's entry after the turns is its own turn's result, whatever the others did. */
  lemma {:induction false} PlayerTurnsElementwise(ps: seq<PlayerEntry>, pending: map<string, seq<KeyType>>, npcRects: seq<Rect>, now: int, aim: Aim)
    requires PlayersReady(ps)
    ensures forall k :: 0 <= k < |ps| ==>
      PlayerTurns(ps, pending, npcRects, now, aim).0[k] == PlayerTurn(ps[k], PendingOf(pending, ps[k].uid), npcRects, now, aim).0
  {
    if |ps| > 0 {
      var last := |ps| - 1;
      PlayerTurnsStep(ps, last, pending, npcRects, now, aim);
      assert ps[..last + 1] == ps;
      PlayerTurnsElementwise(ps[..last], pending, npcRects, now, aim);
      var prev := PlayerTurns(ps[..last], pending, npcRects, now, aim).0;
      var qs := PlayerTurns(ps, pending, npcRects, now, aim).0;
      forall k | 0 <= k < |ps|
        ensures qs[k] == PlayerTurn(ps[k], PendingOf(pending, ps[k].uid), npcRects, now, aim).0
      {
        if k < last {
          assert ps[..last][k] == ps[k];
          assert qs[k] == prev[k];
        }
      }
    }
  }

  /** One more player continues the turns from where they stood. */
  lemma PlayerTurnsStep(ps: seq<PlayerEntry>, i: nat, pending: map<string, seq<KeyType>>, npcRects: seq<Rect>, now: int, aim: Aim)
    requires PlayersReady(ps) && i < |ps|
    ensures PlayersReady(ps[..i]) && PlayersReady(ps[..i + 1]) && FramesReady(ps[i].frames)
    ensures var r := PlayerTurns(ps[..i], pending, npcRects, now, aim);
      var t := PlayerTurn(ps[i], PendingOf(pending, ps[i].uid), npcRects, now, aim);
      PlayerTurns(ps[..i + 1], pending, npcRects, now, aim) == (r.0 + [t.0], r.1 + t.1)
  {
    assert ps[..i + 1][..i] == ps[..i];
  }

  /** One turn fires at most one bullet, none for a dead player and none without NPCs. */
  lemma PlayerTurnShots(p: PlayerEntry, inp: seq<KeyType>, npcRects: seq<Rect>, now: int, aim: Aim)
    requires FramesReady(p.frames)
    ensures |PlayerTurn(p, inp, npcRects, now, aim).1| <= (if Alive(p) then 1 else 0)
    ensures |npcRects| == 0 ==> PlayerTurn(p, inp, npcRects, now, aim).1 == []
  {
  }

  /** Each living player fires at most one bullet a tick, and the dead fire none. */
  lemma {:induction false} PlayerTurnsShots(ps: seq<PlayerEntry>, pending: map<string, seq<KeyType>>, npcRects: seq<Rect>, now: int, aim: Aim)
    requires PlayersReady(ps)
    ensures |PlayerTurns(ps, pending, npcRects, now, aim).1| <= LivingCount(ps)
  {
    if |ps| > 0 {
      var last := |ps| - 1;
      assert ps[..last + 1] == ps;
      PlayerTurnsStep(ps, last, pending, npcRects, now, aim);
      PlayerTurnsShots(ps[..last], pending, npcRects, now, aim);
      PlayerTurnShots(ps[last], PendingOf(pending, ps[last].uid), npcRects, now, aim);
    }
  }

  /** With no NPCs to aim at, no player fires. */
  lemma {:induction false} PlayerTurnsNoTargets(ps: seq<PlayerEntry>, pending: map<string, seq<KeyType>>, npcRects: seq<Rect>, now: int, aim: Aim)
    requires PlayersReady(ps) && |npcRects| == 0
    ensures PlayerTurns(ps, pending, npcRects, now, aim).1 == []
  {
    if |ps| > 0 {
      var last := |ps| - 1;
      assert ps[..last + 1] == ps;
      PlayerTurnsStep(ps, last, pending, npcRects, now, aim);
      PlayerTurnsNoTargets(ps[..last], pending, npcRects, now, aim);
      PlayerTurnShots(ps[last], PendingOf(pending, ps[last].uid), npcRects, now, aim);
    }
  }

  /** Whether one of `ps` is a living player with uid `u`. */
  predicate Clears(ps: seq<PlayerEntry>, u: string)
  {
    exists k :: 0 <= k < |ps| && ps[k].uid == u && Alive(ps[k])
  }

  /** The buffers after `update_players`: every living player's buffer is emptied. */
  function ClearedFor(pending: map<string, seq<KeyType>>, ps: seq<PlayerEntry>): (r: map<string, seq<KeyType>>)
    ensures r.Keys == pending.Keys
  {
    map u | u in pending :: if Clears(ps, u) then [] else pending[u]
  }

  /** A buffer is emptied exactly when one of `ps` is a living player owning it; the rest keep their tokens. */
  lemma ClearedForMeaning(pending: map<string, seq<KeyType>>, ps: seq<PlayerEntry>)
    ensures forall u :: u in ClearedFor(pending, ps) ==>
      ClearedFor(pending, ps)[u] == (if Clears(ps, u) then [] else pending[u])
  {
  }

  /** The turns change no player's uid or frame table. */
  lemma PlayersKeepIdentity(ps: seq<PlayerEntry>, pending: map<string, seq<KeyType>>, npcRects: seq<Rect>, now: int, aim: Aim)
    requires PlayersReady(ps)
    ensures var qs := PlayerTurns(ps, pending, npcRects, now, aim).0;
      forall k :: 0 <= k < |ps| ==> qs[k].uid == ps[k].uid && qs[k].frames == ps[k].frames
  {
    PlayerTurnsElementwise(ps, pending, npcRects, now, aim);
    forall k | 0 <= k < |ps|
      ensures PlayerTurns(ps, pending, npcRects, now, aim).0[k].uid == ps[k].uid
      ensures PlayerTurns(ps, pending, npcRects, now, aim).0[k].frames == ps[k].frames
    {
      PlayerTurnProperties(ps[k], PendingOf(pending, ps[k].uid), npcRects, now, aim);
    }
  }

  /** One more player clears its buffer exactly when it is alive and has one. */
  lemma ClearedForStep(pending: map<string, seq<KeyType>>, ps: seq<PlayerEntry>, p: PlayerEntry)
    ensures ClearedFor(pending, ps + [p]) ==
      if Alive(p) && p.uid in pending then ClearedFor(pending, ps)[p.uid := []] else ClearedFor(pending, ps)
  {
    ClearedForMeaning(pending, ps);
    ClearedForMeaning(pending, ps + [p]);
    forall u | u in pending {
      ClearsStep(ps, p, u);
    }
  }

  /** One more player clears `u` exactly when some earlier one does or it is itself living with uid `u`. */
  lemma ClearsStep(ps: seq<PlayerEntry>, p: PlayerEntry, u: string)
    ensures Clears(ps + [p], u) <==> Clears(ps, u) || (p.uid == u && Alive(p))
  {
    var qs := ps + [p];
    if Clears(qs, u) {
      var k :| 0 <= k < |qs| && qs[k].uid == u && Alive(qs[k]);
      if k < |ps| {
        assert ps[k] == qs[k];
      }
    }
    if Clears(ps, u) {
      var k :| 0 <= k < |ps| && ps[k].uid == u && Alive(ps[k]);
      assert qs[k] == ps[k];
    }
    if p.uid == u && Alive(p) {
      assert qs[|ps|] == p;
    }
  }

  /** `update_players` changes no player's uid or frame table. */
  lemma PlayersUpdatedRoster(s: Session, pending: map<string, seq<KeyType>>, now: int, aim: Aim)
    requires PlayersReady(s.players)
    ensures SameRoster(s.players, PlayersUpdated(s, pending, now, aim).players)
  {
    PlayersKeepIdentity(s.players, pending, NpcRects(s.npcs), now, aim);
  }

  /** A uid none of the players `ps` has keeps its buffer. */
  lemma ClearedForOther(pending: map<string, seq<KeyType>>, ps: seq<PlayerEntry>, u: string)
    requires forall k :: 0 <= k < |ps| ==> ps[k].uid != u
    ensures PendingOf(ClearedFor(pending, ps), u) == PendingOf(pending, u)
  {
    ClearedForMeaning(pending, ps);
  }

  /** `update_players`. */
  function PlayersUpdated(s: Session, pending: map<string, seq<KeyType>>, now: int, aim: Aim): Session
    requires PlayersReady(s.players)
  {
    var (ps, shots) := PlayerTurns(s.players, pending, NpcRects(s.npcs), now, aim);
    s.(players := ps, playerBullets := s.playerBullets + shots)
  }

  // ----- update_npcs -----

  /** The index of the first living player whose rect `r` overlaps. */
  function FirstLivingHit(r: Rect, ps: seq<PlayerEntry>): (j: Option<nat>)
    ensures j.None? <==> forall k :: 0 <= k < |ps| && Alive(ps[k]) ==> !Collide(r, ps[k].state.rect)
    ensures j.Some? ==> j.value < |ps| && Alive(ps[j.value]) && Collide(r, ps[j.value].state.rect)
    ensures j.Some? ==> forall k :: 0 <= k < j.value && Alive(ps[k]) ==> !Collide(r, ps[k].state.rect)
  {
    if |ps| == 0 then None
    else if Alive(ps[0]) && Collide(r, ps[0].state.rect) then Some(0)
    else match FirstLivingHit(r, ps[1..])
      case None => None
      case Some(k) => Some(k + 1)
  }

  /** npc.py's `update`: one chase step toward the player nearest by top-left distance, dead or alive. */
  function NpcMoved(n: NpcEntry, ps: seq<PlayerEntry>): NpcEntry
    requires |ps| > 0
  {
    var prs := PlayerRects(ps);
    n.(rect := Npcs.Chased(n.rect, prs[ClosestByCorner(n.rect, prs).value]))
  }

  /**
   * One NPC's turn of `update_npcs`, `s.npcs` holding the NPCs kept so far:
   * move, try to shoot, then on contact with a living player hurt that
   * player by twice its damage and drop out; otherwise stay.
   */
  function NpcTurn(s: Session, n: NpcEntry, now: int, aim: Aim): (t: Session)
    requires |s.players| > 0
    ensures |t.players| == |s.players|
  {
    var moved := NpcMoved(n, s.players);
    var s1 := NpcShot(s, moved, now, aim);
    match FirstLivingHit(moved.rect, s1.players)
    case None => s1.(npcs := s1.npcs + [moved])
    case Some(j) => s1.(players := s1.players[j := Hurt(s1.players[j], ContactFactor * moved.damage)])
  }

  /**
   * After moving, an NPC that overlaps a living player is removed and hurts
   * exactly one player, the first such, by twice its damage; dead players are
   * never hurt. Otherwise it stays, moved, and no player is hurt. The score
   * and the player bullets never change.
   */
  lemma NpcTurnProperties(s: Session, n: NpcEntry, now: int, aim: Aim)
    requires |s.players| > 0
    ensures var moved := NpcMoved(n, s.players);
      var t := NpcTurn(s, n, now, aim);
      && t.score == s.score && t.playerBullets == s.playerBullets
      && moved.id == n.id && moved.health == n.health && moved.damage == n.damage && moved.score == n.score
      && (FirstLivingHit(moved.rect, s.players).None? ==> t.npcs == s.npcs + [moved] && t.players == s.players)
    ensures var moved := NpcMoved(n, s.players);
      var t := NpcTurn(s, n, now, aim);
      forall j :: FirstLivingHit(moved.rect, s.players) == Some(j) ==>
        t.npcs == s.npcs && t.players == s.players[j := Hurt(s.players[j], ContactFactor * n.damage)]
  {
    var moved := NpcMoved(n, s.players);
    NpcShotProperties(s, moved, now, aim);
  }

  /** `update_npcs` over the NPCs `todo`, in order, appending the survivors to `s.npcs`. */
  function NpcTurns(s: Session, todo: seq<NpcEntry>, now: int, aim: Aim): (t: Session)
    requires |s.players| > 0
    ensures |t.players| == |s.players|
  {
    if |todo| == 0 then s
    else
      var last := |todo| - 1;
      NpcTurn(NpcTurns(s, todo[..last], now, aim), todo[last], now, aim)
  }

  /** One more NPC continues the turns from where they stood. */
  lemma NpcTurnsStep(s: Session, todo: seq<NpcEntry>, i: nat, now: int, aim: Aim)
    requires |s.players| > 0 && i < |todo|
    ensures NpcTurns(s, todo[..i + 1], now, aim) == NpcTurn(NpcTurns(s, todo[..i], now, aim), todo[i], now, aim)
  {
    assert todo[..i + 1][..i] == todo[..i];
  }

  /** One NPC's turn adds at most itself to the survivors and leaves the score, the player bullets, and every player's identity, frames and rect alone. */
  lemma NpcTurnKeeps(s: Session, n: NpcEntry, now: int, aim: Aim)
    requires |s.players| > 0
    ensures var t := NpcTurn(s, n, now, aim);
      && (t.npcs == s.npcs || t.npcs == s.npcs + [NpcMoved(n, s.players)])
      && t.score == s.score && t.playerBullets == s.playerBullets && t.nextNpcId == s.nextNpcId
      && t.running == s.running && t.gameResult == s.gameResult
      && forall k :: 0 <= k < |s.players| ==> t.players[k].uid == s.players[k].uid && t.players[k].frames == s.players[k].frames && t.players[k].state.rect == s.players[k].state.rect
  {
    var moved := NpcMoved(n, s.players);
    NpcShotKeeps(s, moved, now, aim);
    var s1 := NpcShot(s, moved, now, aim);
    match FirstLivingHit(moved.rect, s1.players)
    case None =>
    case Some(j) =>
      var t := s1.(players := s1.players[j := Hurt(s1.players[j], ContactFactor * moved.damage)]);
      assert forall k :: 0 <= k < |s.players| ==> t.players[k].uid == s.players[k].uid && t.players[k].frames == s.players[k].frames && t.players[k].state.rect == s.players[k].state.rect;
  }

  /**
   * `update_npcs` keeps at most the NPCs it started with, never touches the
   * score or the player bullets, and changes no player's identity or rect.
   */
  lemma {:induction false} NpcTurnsBounds(s: Session, todo: seq<NpcEntry>, now: int, aim: Aim)
    requires |s.players| > 0
    ensures var t := NpcTurns(s, todo, now, aim);
      && |s.npcs| <= |t.npcs| <= |s.npcs| + |todo|
      && t.score == s.score && t.playerBullets == s.playerBullets
      && t.running == s.running && t.gameResult == s.gameResult
      && forall k :: 0 <= k < |s.players| ==> t.players[k].uid == s.players[k].uid && t.players[k].frames == s.players[k].frames && t.players[k].state.rect == s.players[k].state.rect
  {
    if |todo| > 0 {
      var last := |todo| - 1;
      NpcTurnsBounds(s, todo[..last], now, aim);
      NpcTurnKeeps(NpcTurns(s, todo[..last], now, aim), todo[last], now, aim);
    }
  }

  /** `update_npcs`: the turns of all NPCs, starting from an empty list of survivors. */
  function NpcsUpdated(s: Session, now: int, aim: Aim): Session
    requires |s.npcs| > 0 ==> |s.players| > 0
  {
    if |s.npcs| == 0 then s else NpcTurns(s.(npcs := []), s.npcs, now, aim)
  }

  /** `update_npcs` changes no player's uid or frame table. */
  lemma NpcsUpdatedRoster(s: Session, now: int, aim: Aim)
    requires |s.npcs| > 0 ==> |s.players| > 0
    ensures SameRoster(s.players, NpcsUpdated(s, now, aim).players)
  {
    if |s.npcs| > 0 {
      NpcTurnsBounds(s.(npcs := []), s.npcs, now, aim);
    }
  }

  /** Every NPC of a turn keeps its score, so non-negative NPC scores stay non-negative. */
  lemma {:induction false} NpcTurnsScores(s: Session, todo: seq<NpcEntry>, now: int, aim: Aim)
    requires |s.players| > 0 && ScoresNonNegative(s.npcs) && ScoresNonNegative(todo)
    ensures ScoresNonNegative(NpcTurns(s, todo, now, aim).npcs)
  {
    if |todo| > 0 {
      var last := |todo| - 1;
      assert ScoresNonNegative(todo[..last]) by {
        assert forall k :: 0 <= k < last ==> todo[..last][k] == todo[k];
      }
      NpcTurnsScores(s, todo[..last], now, aim);
      var m := NpcTurns(s, todo[..last], now, aim);
      NpcTurnKeeps(m, todo[last], now, aim);
      var moved := NpcMoved(todo[last], m.players);
      assert ScoresNonNegative(m.npcs + [moved]) by {
        assert forall k :: 0 <= k < |m.npcs| ==> (m.npcs + [moved])[k] == m.npcs[k];
      }
    }
  }

  /**
   * Starting from no survivors, the turns of NPCs whose ids rise and stay
   * below `bound` leave survivors whose ids rise and stay below `bound`:
   * every survivor keeps its id and is appended after those that came
   * before it. The next id is untouched.
   */
  lemma {:induction false} NpcTurnsIds(s: Session, todo: seq<NpcEntry>, now: int, aim: Aim, bound: nat)
    requires |s.players| > 0 && s.npcs == [] && IdsRising(todo) && IdsBelow(todo, bound)
    ensures var t := NpcTurns(s, todo, now, aim);
      IdsRising(t.npcs) && IdsBelow(t.npcs, bound) && t.nextNpcId == s.nextNpcId
  {
    if |todo| > 0 {
      var last := |todo| - 1;
      var n := todo[last];
      assert IdsRising(todo[..last]) && IdsBelow(todo[..last], n.id) by {
        assert forall k :: 0 <= k < last ==> todo[..last][k] == todo[k];
      }
      NpcTurnsIds(s, todo[..last], now, aim, n.id);
      var m := NpcTurns(s, todo[..last], now, aim);
      NpcTurnKeeps(m, n, now, aim);
      var moved := NpcMoved(n, m.players);
      assert moved.id == n.id;
      AppendIds(m.npcs, moved, bound);
    }
  }

  /** Appending an NPC whose id is above all the others keeps the ids rising. */
  lemma AppendIds(ns: seq<NpcEntry>, n: NpcEntry, bound: nat)
    requires IdsRising(ns) && IdsBelow(ns, n.id) && n.id < bound
    ensures IdsRising(ns + [n]) && IdsBelow(ns + [n], bound)
  {
    assert forall k :: 0 <= k < |ns| ==> (ns + [n])[k] == ns[k];
  }

  // ----- update_bullets -----

  /** One list of `update_bullets`: every bullet moves, and those now off-screen are dropped. */
  function Survivors(bs: seq<Shot>): (r: seq<Shot>)
    ensures |r| <= |bs|
    ensures forall i :: 0 <= i < |r| ==> !OffScreen(r[i].rect)
    ensures forall i :: 0 <= i < |r| ==> exists k :: 0 <= k < |bs| && r[i] == Advanced(bs[k])
    ensures forall k :: 0 <= k < |bs| && !OffScreen(Advanced(bs[k]).rect) ==> Advanced(bs[k]) in r
  {
    if |bs| == 0 then []
    else
      var rest := Survivors(bs[1..]);
      assert forall k :: 1 <= k < |bs| ==> bs[1..][k - 1] == bs[k];
      var b := Advanced(bs[0]);
      if OffScreen(b.rect) then rest else [b] + rest
  }

  /** Culling keeps the relative order: it works on each part of a list separately. */
  lemma {:induction false} SurvivorsAppend(a: seq<Shot>, b: seq<Shot>)
    ensures Survivors(a + b) == Survivors(a) + Survivors(b)
  {
    if |a| == 0 {
      assert a + b == b;
    } else {
      assert (a + b)[1..] == a[1..] + b;
      assert (a + b)[0] == a[0];
      SurvivorsAppend(a[1..], b);
    }
  }

  /** One more bullet of a list: it survives, moved, exactly when it is then on screen. */
  lemma SurvivorsStep(bs: seq<Shot>, i: nat)
    requires i < |bs|
    ensures Survivors(bs[..i + 1]) ==
      Survivors(bs[..i]) + (if OffScreen(Advanced(bs[i]).rect) then [] else [Advanced(bs[i])])
  {
    assert bs[..i + 1] == bs[..i] + [bs[i]];
    SurvivorsAppend(bs[..i], [bs[i]]);
    assert [bs[i]][1..] == [];
  }

  /** `update_bullets`. */
  function BulletsUpdated(s: Session): Session
  {
    s.(playerBullets := Survivors(s.playerBullets), npcBullets := Survivors(s.npcBullets))
  }

  // ----- check_game_end -----

  predicate AllDead(ps: seq<PlayerEntry>)
  {
    forall k :: 0 <= k < |ps| ==> !Alive(ps[k])
  }

  /** No player is alive exactly when the count of living players is zero. */
  lemma {:induction false} LivingCountZero(ps: seq<PlayerEntry>)
    ensures LivingCount(ps) == 0 <==> AllDead(ps)
  {
    if |ps| > 0 {
      var last := |ps| - 1;
      LivingCountZero(ps[..last]);
      assert forall k :: 0 <= k < last ==> ps[..last][k] == ps[k];
    }
  }

  /** `check_game_end`: the game ends when the list of living players is empty. */
  function EndChecked(s: Session): Session
  {
    if LivingCount(s.players) == 0 then
      s.(gameResult := Some(if s.score >= WinScore then Win else Lost), running := false)
    else s
  }

  /**
   * While someone lives nothing changes; once everyone is dead (also when
   * there are no players) the session stops, won exactly when the score is
   * at least 200.
   */
  lemma EndCheckedProperties(s: Session)
    ensures !AllDead(s.players) ==> EndChecked(s) == s
    ensures AllDead(s.players) ==>
      var t := EndChecked(s);
      && !t.running && t.gameResult.Some?
      && (t.gameResult == Some(Win) <==> s.score >= WinScore)
      && t == s.(running := false, gameResult := t.gameResult)
  {
    LivingCountZero(s.players);
  }

  // ----- the tick of `run` -----

  /**
   * One pass of `run`'s loop without the display and the clock: spawn,
   * players, NPCs, bullets, collisions, end check. `pending` holds the
   * buffered inputs of every player.
   */
  function Ticked(s: Session, pending: map<string, seq<KeyType>>, now: int,
                  x: int, y: int, health: int, damage: int, score: int, interval: int, aim: Aim): (t: Session)
    requires PlayersReady(s.players) && |s.players| > 0
    ensures |t.players| == |s.players|
  {
    AfterSpawn(Spawned(s, now, x, y, health, damage, score, interval), pending, now, aim)
  }

  /** The part of a tick after the spawn: players, NPCs, bullets, collisions, end check. */
  function AfterSpawn(s: Session, pending: map<string, seq<KeyType>>, now: int, aim: Aim): (t: Session)
    requires PlayersReady(s.players) && |s.players| > 0
    ensures |t.players| == |s.players|
  {
    var s2 := PlayersUpdated(s, pending, now, aim);
    var s3 := NpcsUpdated(s2, now, aim);
    EndChecked(BulletCollisions(BulletsUpdated(s3)))
  }

  /** The phases after the spawn change no player's uid or frame table. */
  lemma AfterSpawnRoster(s: Session, pending: map<string, seq<KeyType>>, now: int, aim: Aim)
    requires PlayersReady(s.players) && |s.players| > 0
    ensures SameRoster(s.players, AfterSpawn(s, pending, now, aim).players)
    ensures PlayersReady(AfterSpawn(s, pending, now, aim).players)
  {
    var s2 := PlayersUpdated(s, pending, now, aim);
    PlayersUpdatedRoster(s, pending, now, aim);
    var s3 := NpcsUpdated(s2, now, aim);
    NpcsUpdatedRoster(s2, now, aim);
    CollisionsRoster(s3);
    var t := AfterSpawn(s, pending, now, aim);
    SameRosterTrans(s.players, s2.players, s3.players);
    SameRosterTrans(s.players, s3.players, t.players);
    SameRosterReady(s.players, t.players);
  }

  /**
   * While every NPC, including the one a tick may spawn, is worth at least 0,
   * no tick lowers the score.
   */
  lemma TickScoreNeverDecreases(s: Session, pending: map<string, seq<KeyType>>, now: int,
                                x: int, y: int, health: int, damage: int, score: int, interval: int, aim: Aim)
    requires PlayersReady(s.players) && |s.players| > 0
    requires ScoresNonNegative(s.npcs) && score >= 0
    ensures Ticked(s, pending, now, x, y, health, damage, score, interval, aim).score >= s.score
    ensures ScoresNonNegative(Ticked(s, pending, now, x, y, health, damage, score, interval, aim).npcs)
  {
    var s1 := Spawned(s, now, x, y, health, damage, score, interval);
    assert s1.score == s.score && ScoresNonNegative(s1.npcs);
    var s2 := PlayersUpdated(s1, pending, now, aim);
    assert s2.score == s1.score && s2.npcs == s1.npcs;
    NpcsUpdatedScores(s2, now, aim);
    CollisionsScores(NpcsUpdated(s2, now, aim));
  }

  /** Moving bullets, the collisions and the end check change no player's uid or frame table. */
  lemma CollisionsRoster(s: Session)
    ensures SameRoster(s.players, EndChecked(BulletCollisions(BulletsUpdated(s))).players)
  {
  }

  /** The NPC turns keep the score and non-negative NPC scores. */
  lemma NpcsUpdatedScores(s: Session, now: int, aim: Aim)
    requires |s.npcs| > 0 ==> |s.players| > 0
    requires ScoresNonNegative(s.npcs)
    ensures NpcsUpdated(s, now, aim).score == s.score
    ensures ScoresNonNegative(NpcsUpdated(s, now, aim).npcs)
  {
    if |s.npcs| > 0 {
      NpcTurnsScores(s.(npcs := []), s.npcs, now, aim);
      NpcTurnsBounds(s.(npcs := []), s.npcs, now, aim);
    }
  }

  /** `update_npcs` keeps the NPC ids apart. */
  lemma NpcsUpdatedIds(s: Session, now: int, aim: Aim)
    requires |s.npcs| > 0 ==> |s.players| > 0
    requires NpcIdsFresh(s)
    ensures NpcIdsFresh(NpcsUpdated(s, now, aim))
  {
    if |s.npcs| > 0 {
      NpcTurnsIds(s.(npcs := []), s.npcs, now, aim, s.nextNpcId);
    }
  }

  /** Moving bullets, the collisions and the end check keep the NPC ids apart. */
  lemma CollisionsIds(s: Session)
    requires NpcIdsFresh(s)
    ensures NpcIdsFresh(EndChecked(BulletCollisions(BulletsUpdated(s))))
  {
    var t := NpcBulletsLanded(BulletsUpdated(s));
    assert t.npcs == s.npcs && t.nextNpcId == s.nextNpcId;
    PlayerBulletsLandedIds(t.playerBullets, t.npcs, t.score, t.nextNpcId);
  }

  /** Moving bullets, the collisions and the end check never lower the score, and keep NPC scores non-negative. */
  lemma CollisionsScores(s: Session)
    requires ScoresNonNegative(s.npcs)
    ensures EndChecked(BulletCollisions(BulletsUpdated(s))).score >= s.score
    ensures ScoresNonNegative(EndChecked(BulletCollisions(BulletsUpdated(s))).npcs)
  {
    var t := NpcBulletsLanded(BulletsUpdated(s));
    assert t.score == s.score && t.npcs == s.npcs;
    ScoreNeverDecreases(t.playerBullets, t.npcs, t.score);
  }
}
