/**
 * game.py: `AbstractGame`, the session object. It owns the input manager,
 * the players (a dict by uid, kept here as a list in insertion order), the
 * NPCs, the two bullet lists, the NPC shot times, the score, the spawn clock
 * and the running flag, and updates all of them in place once per tick.
 * Every method is proved to leave the session in the state the matching
 * rule of module `Sessions` computes.
 */
module Game {
  import opened Wrappers
  import opened Config
  import opened Geometry
  import opened Bullets
  import opened Players
  import opened Inputs
  import opened Sessions
  import opened Runs
  import Npcs

  /** No two players share a uid (the players are a dict keyed by uid). */
  predicate UidsDistinct(ps: seq<PlayerEntry>)
  {
    forall a, b :: 0 <= a < b < |ps| ==> ps[a].uid != ps[b].uid
  }

  /** Players with the same uids in the same order have distinct uids when the originals do. */
  lemma RosterKeepsUidsDistinct(ps: seq<PlayerEntry>, qs: seq<PlayerEntry>)
    requires SameRoster(ps, qs) && UidsDistinct(ps)
    ensures UidsDistinct(qs)
  {
    forall a, b | 0 <= a < b < |qs|
      ensures qs[a].uid != qs[b].uid
    {
      assert qs[a].uid == ps[a].uid && qs[b].uid == ps[b].uid;
    }
  }

  /**
   * `players[p.uid] = p` on the player table kept as a list in insertion
   * order: the entry with that uid is replaced where it stands, and a new
   * uid is appended at the end.
   */
  function PlayerSet(ps: seq<PlayerEntry>, p: PlayerEntry): seq<PlayerEntry>
  {
    if |ps| == 0 then [p]
    else if ps[0].uid == p.uid then [p] + ps[1..]
    else [ps[0]] + PlayerSet(ps[1..], p)
  }

  /** Setting a uid already in the table replaces exactly that entry and keeps the others and their order. */
  lemma {:induction false} PlayerSetReplaces(ps: seq<PlayerEntry>, p: PlayerEntry, j: nat)
    requires UidsDistinct(ps) && j < |ps| && ps[j].uid == p.uid
    ensures |PlayerSet(ps, p)| == |ps|
    ensures forall k :: 0 <= k < |ps| ==> PlayerSet(ps, p)[k] == (if ps[k].uid == p.uid then p else ps[k])
  {
    assert forall k :: 1 <= k < |ps| ==> ps[1..][k - 1] == ps[k];
    if ps[0].uid != p.uid {
      PlayerSetReplaces(ps[1..], p, j - 1);
    }
  }

  /** Setting a new uid appends it. */
  lemma {:induction false} PlayerSetAppends(ps: seq<PlayerEntry>, p: PlayerEntry)
    requires forall k :: 0 <= k < |ps| ==> ps[k].uid != p.uid
    ensures PlayerSet(ps, p) == ps + [p]
  {
    if |ps| > 0 {
      assert forall k :: 0 <= k < |ps[1..]| ==> ps[1..][k] == ps[k + 1];
      PlayerSetAppends(ps[1..], p);
      assert ps == [ps[0]] + ps[1..];
    }
  }

  /** Setting keeps the uids distinct. */
  lemma PlayerSetDistinct(ps: seq<PlayerEntry>, p: PlayerEntry)
    requires UidsDistinct(ps)
    ensures UidsDistinct(PlayerSet(ps, p))
  {
    var r := PlayerSet(ps, p);
    if j :| 0 <= j < |ps| && ps[j].uid == p.uid {
      PlayerSetReplaces(ps, p, j);
      forall a, b | 0 <= a < b < |r|
        ensures r[a].uid != r[b].uid
      {
        assert r[a].uid == ps[a].uid && r[b].uid == ps[b].uid;
      }
    } else {
      PlayerSetAppends(ps, p);
      forall a, b | 0 <= a < b < |r|
        ensures r[a].uid != r[b].uid
      {
        assert r[a] == ps[a];
      }
    }
  }

  /** Setting a player whose frame tables are ready keeps every entry's frame tables ready. */
  lemma PlayerSetReady(ps: seq<PlayerEntry>, p: PlayerEntry)
    requires UidsDistinct(ps) && PlayersReady(ps) && FramesReady(p.frames)
    ensures PlayersReady(PlayerSet(ps, p))
  {
    var r := PlayerSet(ps, p);
    if j :| 0 <= j < |ps| && ps[j].uid == p.uid {
      PlayerSetReplaces(ps, p, j);
      forall k | 0 <= k < |r|
        ensures FramesReady(r[k].frames)
      {
        assert r[k] == p || r[k] == ps[k];
      }
    } else {
      PlayerSetAppends(ps, p);
      forall k | 0 <= k < |r|
        ensures FramesReady(r[k].frames)
      {
        assert k < |ps| ==> r[k] == ps[k];
      }
    }
  }

  /** A list with the same uids and frame tables as a ready list of distinct players is one too. */
  lemma SameIdentity(ps: seq<PlayerEntry>, qs: seq<PlayerEntry>)
    requires PlayersReady(ps) && UidsDistinct(ps) && |qs| == |ps|
    requires forall k :: 0 <= k < |ps| ==> qs[k].uid == ps[k].uid && qs[k].frames == ps[k].frames
    ensures PlayersReady(qs) && UidsDistinct(qs)
  {
  }

  /** The uid of the player at `i` is none of the uids before it. */
  lemma UidUnseen(ps: seq<PlayerEntry>, i: nat)
    requires UidsDistinct(ps) && i < |ps|
    ensures forall k :: 0 <= k < |ps[..i]| ==> ps[..i][k].uid != ps[i].uid
  {
  }

  /**
   * Walking a copy `todo` of the NPC list: with the turns so far in `cur` and
   * the untouched NPCs after them, the current NPC sits right after the
   * survivors, and the session without it and the rest is `cur`.
   */
  lemma SplitNpcs(t: Session, cur: Session, todo: seq<NpcEntry>, i: nat)
    requires i < |todo| && t == cur.(npcs := cur.npcs + todo[i..])
    ensures |cur.npcs| < |t.npcs| && t.npcs[|cur.npcs|] == todo[i]
    ensures t.npcs[..|cur.npcs|] == cur.npcs && t.npcs[|cur.npcs| + 1..] == todo[i + 1..]
    ensures t.(npcs := t.npcs[..|cur.npcs|]) == cur
  {
    assert t.npcs[..|cur.npcs|] == cur.npcs;
  }

  /**
   * Walking a copy `bullets` of a list `remaining` whose first `kept` entries
   * stay: removing the entry at `kept` (the current bullet) leaves the kept
   * part as it was and the rest of the copy after it.
   */
  lemma RemoveCurrent(remaining: seq<Shot>, kept: nat, bullets: seq<Shot>, i: nat)
    requires kept <= |remaining| && i < |bullets| && remaining[kept..] == bullets[i..]
    ensures var r := remaining[..kept] + remaining[kept + 1..];
      kept <= |r| && r[..kept] == remaining[..kept] && r[kept..] == bullets[i + 1..]
  {
    assert remaining[kept + 1..] == bullets[i..][1..];
  }

  /** Keeping the current bullet instead moves it into the kept part. */
  lemma KeepCurrent(remaining: seq<Shot>, kept: nat, bullets: seq<Shot>, i: nat)
    requires kept <= |remaining| && i < |bullets| && remaining[kept..] == bullets[i..]
    ensures kept + 1 <= |remaining| && remaining[..kept + 1] == remaining[..kept] + [bullets[i]]
    ensures remaining[kept + 1..] == bullets[i + 1..]
  {
    assert remaining[kept] == bullets[i..][0];
    assert remaining[kept + 1..] == bullets[i..][1..];
  }

  /** Putting `b` in place of the current bullet moves it into the kept part. */
  lemma ReplaceCurrent(remaining: seq<Shot>, kept: nat, bullets: seq<Shot>, i: nat, b: Shot)
    requires kept <= |remaining| && i < |bullets| && remaining[kept..] == bullets[i..]
    ensures var r := remaining[..kept] + [b] + remaining[kept + 1..];
      kept + 1 <= |r| && r[..kept + 1] == remaining[..kept] + [b] && r[kept + 1..] == bullets[i + 1..]
  {
    assert remaining[kept + 1..] == bullets[i..][1..];
  }

  /**
   * The first loop of `check_bullet_collisions` over the NPC bullets `bullets`:
   * walking a copy of the list, a bullet whose shooter is still among `ns`
   * and that overlaps a player is removed from the list and hurts the first
   * player it overlaps by its shooter's damage.
   */
  method NpcBulletsPass(bullets: seq<Shot>, ns: seq<NpcEntry>, ps0: seq<PlayerEntry>)
    returns (remaining: seq<Shot>, ps: seq<PlayerEntry>)
    ensures remaining == KeepUnhit(bullets, ns, PlayerRects(ps0))
    ensures DamagedBy(ps, ps0, bullets, ns, PlayerRects(ps0))
  {
    var prs := PlayerRects(ps0);
    remaining, ps := bullets, ps0;
    var kept := 0;
    var i := 0;
    while i < |bullets|
      invariant 0 <= i <= |bullets|
      invariant kept <= |remaining|
      invariant KeepUnhit(bullets[..i], ns, prs) == remaining[..kept]
      invariant remaining[kept..] == bullets[i..]
      invariant DamagedBy(ps, ps0, bullets[..i], ns, prs)
    {
      var b := bullets[i];
      ghost var done := bullets[..i];
      assert bullets[..i + 1] == done + [b];
      KeepUnhitStep(done, b, ns, prs);
      DamageToStepAll(done, b, ns, prs, ps0, ps);
      var target := NpcBulletTarget(b, ns, prs);
      if target.Some? {
        var (j, damage) := target.value;
        ps := ps[j := Hurt(ps[j], damage)];
        RemoveCurrent(remaining, kept, bullets, i);
        remaining := remaining[..kept] + remaining[kept + 1..];
      } else {
        KeepCurrent(remaining, kept, bullets, i);
        kept := kept + 1;
      }
      i := i + 1;
    }
    assert bullets[..i] == bullets;
    assert remaining[..kept] == remaining;
  }

  /**
   * The second loop of `check_bullet_collisions` over the player bullets
   * `bullets`: each bullet that overlaps a NPC is removed and takes 10 health
   * from the first NPC it overlaps, which is removed, its score added to
   * `score0`, once its health is 0 or less.
   */
  method PlayerBulletsPass(bullets: seq<Shot>, ns0: seq<NpcEntry>, score0: int)
    returns (remaining: seq<Shot>, ns: seq<NpcEntry>, score: int)
    ensures (remaining, ns, score) == PlayerBulletsLanded(bullets, ns0, score0)
  {
    remaining, ns, score := bullets, ns0, score0;
    var kept := 0;
    var i := 0;
    while i < |bullets|
      invariant 0 <= i <= |bullets|
      invariant kept <= |remaining|
      invariant PlayerBulletsLanded(bullets[..i], ns0, score0) == (remaining[..kept], ns, score)
      invariant remaining[kept..] == bullets[i..]
    {
      var b := bullets[i];
      ghost var done := bullets[..i];
      assert bullets[..i + 1] == done + [b];
      PlayerBulletsLandedStep(done, b, ns0, score0);
      var step := PlayerBulletHit(b, ns, score);
      ns, score := step.1, step.2;
      if step.0 {
        RemoveCurrent(remaining, kept, bullets, i);
        remaining := remaining[..kept] + remaining[kept + 1..];
      } else {
        KeepCurrent(remaining, kept, bullets, i);
        kept := kept + 1;
      }
      i := i + 1;
    }
    assert bullets[..i] == bullets;
    assert remaining[..kept] == remaining;
  }

  /**
   * One list of `update_bullets`: walking a copy, every bullet moves and is
   * removed from the list once off-screen.
   */
  method CullBullets(bullets: seq<Shot>) returns (remaining: seq<Shot>)
    ensures remaining == Survivors(bullets)
  {
    remaining := bullets;
    var kept := 0;
    var i := 0;
    while i < |bullets|
      invariant 0 <= i <= |bullets| && kept <= |remaining|
      invariant remaining[..kept] == Survivors(bullets[..i])
      invariant remaining[kept..] == bullets[i..]
    {
      SurvivorsStep(bullets, i);
      var b := Advanced(remaining[kept]);
      if OffScreen(b.rect) {
        RemoveCurrent(remaining, kept, bullets, i);
        remaining := remaining[..kept] + remaining[kept + 1..];
      } else {
        ReplaceCurrent(remaining, kept, bullets, i, b);
        remaining := remaining[..kept] + [b] + remaining[kept + 1..];
        kept := kept + 1;
      }
      i := i + 1;
    }
    assert bullets[..i] == bullets;
    assert remaining[..kept] == remaining;
  }

  class AbstractGame {
    const inputManager: InputManager
    var running: bool
    var players: seq<PlayerEntry>
    var npcs: seq<NpcEntry>
    var playerBullets: seq<Shot>
    var npcBullets: seq<Shot>
    var npcLastShotTimes: map<nat, int>
    var score: int
    var lastSpawnTime: int
    var nextSpawnInterval: int
    var gameResult: Option<GameResult>
    /** The id the next spawned NPC receives (standing in for `id(npc)`). */
    var nextNpcId: nat

    ghost predicate Valid()
      reads this, inputManager, inputManager.playerInputs.Values
    {
      inputManager.Valid() && PlayersReady(players) && UidsDistinct(players) && NpcIdsFresh(State())
    }

    function State(): Session
      reads this
    {
      Session(players, npcs, playerBullets, npcBullets, npcLastShotTimes, score,
              lastSpawnTime, nextSpawnInterval, running, gameResult, nextNpcId)
    }

    /**
     * A running session with no players, NPCs or bullets, a score of 0 and
     * the spawn clock started at `now`. The spawn interval is first drawn by
     * `Run`.
     */
    constructor (now: int)
      ensures Valid() && fresh(inputManager) && inputManager.playerInputs == map[]
      ensures State() == Session([], [], [], [], map[], 0, now, 0, true, None, 0)
    {
      inputManager := new InputManager(map[]);
      running := true;
      players := [];
      npcs := [];
      playerBullets := [];
      npcBullets := [];
      npcLastShotTimes := map[];
      score := 0;
      lastSpawnTime := now;
      nextSpawnInterval := 0;
      gameResult := None;
      nextNpcId := 0;
    }

    /**
     * The player set-up of the single and co-op sessions: a new player at
     * `pos` stored under its uid (replacing one with the same uid in place,
     * as a dict assignment does) and its keymap registered.
     */
    method AddPlayer(uid: Uid, frames: map<AnimKey, seq<Frame>>, pos: (int, int), color: Color,
                     keymap: map<Key, KeyType>, now: int)
      requires Valid() && FramesReady(frames)
      modifies this, inputManager
      ensures Valid()
      ensures State() == old(State()).(players := PlayerSet(old(players), PlayerEntry(uid, frames, PlayerSpeed, color, Initial(pos, now))))
      ensures inputManager.keymaps == old(inputManager.keymaps)[uid := keymap]
      ensures inputManager.Inputs() == old(inputManager.Inputs())
    {
      var p := PlayerEntry(uid, frames, PlayerSpeed, color, Initial(pos, now));
      PlayerSetDistinct(players, p);
      PlayerSetReady(players, p);
      players := PlayerSet(players, p);
      inputManager.AddKeymap(uid, keymap);
    }

    /** `try_spawn_npc` at `now`, with the random position, stats and next interval given. */
    method TrySpawnNpc(now: int, x: int, y: int, health: int, damage: int, score: int, interval: int)
      requires SpawnChoice(x, y, interval)
      modifies this
      ensures State() == Spawned(old(State()), now, x, y, health, damage, score, interval)
    {
      if now - lastSpawnTime > nextSpawnInterval {
        npcs := npcs + [NpcEntry(nextNpcId, Rect(x, y, Npcs.NpcSize, Npcs.NpcSize), health, damage, score)];
        nextNpcId := nextNpcId + 1;
        lastSpawnTime := now;
        nextSpawnInterval := interval;
      }
    }

    /** `try_npc_shoot(npc)` at `now`. */
    method TryNpcShoot(n: NpcEntry, now: int, aim: Aim)
      modifies this
      ensures State() == NpcShot(old(State()), n, now, aim)
    {
      var last := if n.id in npcLastShotTimes then npcLastShotTimes[n.id] else 0;
      if now - last < NpcShootCooldown {
        return;
      }
      var live := LivingRects(players);
      if |live| == 0 {
        return;
      }
      var t := live[ClosestByCorner(n.rect, live).value];
      var bullet := Fired(n.rect.CenterX(), n.rect.CenterY(), t.CenterX(), t.CenterY(), aim, NpcBulletColor, Some(n.id));
      npcBullets := npcBullets + [bullet];
      npcLastShotTimes := npcLastShotTimes[n.id := now];
    }

    /**
     * `check_bullet_collisions`: first every NPC bullet against the players,
     * then every player bullet against the NPCs, each over a copy of its list
     * while removing from the list itself.
     */
    method CheckBulletCollisions()
      modifies this
      ensures State() == BulletCollisions(old(State()))
    {
      NpcBulletsOnPlayers();
      PlayerBulletsOnNpcs();
    }

    /** The first loop of `check_bullet_collisions`. */
    method NpcBulletsOnPlayers()
      modifies this
      ensures State() == NpcBulletsLanded(old(State()))
    {
      npcBullets, players := NpcBulletsPass(npcBullets, npcs, players);
    }

    /** The second loop of `check_bullet_collisions`. */
    method PlayerBulletsOnNpcs()
      modifies this
      ensures State() == old(State()).(playerBullets := PlayerBulletsLanded(old(playerBullets), old(npcs), old(score)).0,
                                       npcs := PlayerBulletsLanded(old(playerBullets), old(npcs), old(score)).1,
                                       score := PlayerBulletsLanded(old(playerBullets), old(npcs), old(score)).2)
    {
      playerBullets, npcs, score := PlayerBulletsPass(playerBullets, npcs, score);
    }

    /**
     * One pass of `update_players`' loop: a dead player is skipped; a living
     * one takes its buffered inputs, updates, shoots when SHOOT is among
     * them, and has its buffer cleared.
     */
    method PlayerTurnOf(p: PlayerEntry, ghost pending: map<Uid, seq<KeyType>>, ghost done: seq<PlayerEntry>,
                        npcRects: seq<Rect>, now: int, aim: Aim) returns (q: PlayerEntry, fired: seq<Shot>)
      requires inputManager.Valid() && FramesReady(p.frames)
      requires inputManager.Inputs() == ClearedFor(pending, done)
      requires forall k :: 0 <= k < |done| ==> done[k].uid != p.uid
      modifies inputManager.playerInputs.Values
      ensures inputManager.Valid()
      ensures (q, fired) == PlayerTurn(p, PendingOf(pending, p.uid), npcRects, now, aim)
      ensures inputManager.Inputs() == ClearedFor(pending, done + [p])
    {
      ClearedForOther(pending, done, p.uid);
      ClearedForStep(pending, done, p);
      if !Alive(p) {
        return p, [];
      }
      var inputs := inputManager.GetInputs(p.uid);
      var turn := PlayerTurn(p, inputs, npcRects, now, aim);
      q, fired := turn.0, turn.1;
      ghost var cleared := ClearedFor(pending, done);
      assert cleared.Keys == pending.Keys;
      inputManager.ClearInputs(p.uid);
      assert inputManager.Inputs() == if p.uid in pending then cleared[p.uid := []] else cleared;
    }

    /**
     * The loop of `update_players` over the players `ps0`, in order; `ps`
     * collects each player as its turn leaves it.
     */
    method PlayerTurnsInOrder(ps0: seq<PlayerEntry>, npcRects: seq<Rect>, now: int, aim: Aim) returns (ps: seq<PlayerEntry>, shots: seq<Shot>)
      requires inputManager.Valid() && PlayersReady(ps0) && UidsDistinct(ps0)
      modifies inputManager.playerInputs.Values
      ensures inputManager.Valid()
      ensures (ps, shots) == PlayerTurns(ps0, old(inputManager.Inputs()), npcRects, now, aim)
      ensures inputManager.Inputs() == ClearedFor(old(inputManager.Inputs()), ps0)
    {
      ghost var pending := inputManager.Inputs();
      ps, shots := [], [];
      var i := 0;
      while i < |ps0|
        invariant 0 <= i <= |ps0|
        invariant (ps, shots) == PlayerTurns(ps0[..i], pending, npcRects, now, aim)
        invariant inputManager.Valid()
        invariant inputManager.Inputs() == ClearedFor(pending, ps0[..i])
      {
        var p := ps0[i];
        PlayerTurnsStep(ps0, i, pending, npcRects, now, aim);
        UidUnseen(ps0, i);
        var turn, fired := PlayerTurnOf(p, pending, ps0[..i], npcRects, now, aim);
        assert ps0[..i] + [p] == ps0[..i + 1];
        ps, shots := ps + [turn], shots + fired;
        i := i + 1;
      }
      assert ps0[..i] == ps0;
    }

    /**
     * `update_players`: every living player, in order, takes its buffered
     * inputs, updates without a screen, shoots when SHOOT is among them, and
     * has its buffer cleared; dead players are skipped, buffer and all.
     */
    method UpdatePlayers(now: int, aim: Aim)
      requires Valid()
      modifies this, inputManager.playerInputs.Values
      ensures Valid()
      ensures State() == PlayersUpdated(old(State()), old(inputManager.Inputs()), now, aim)
      ensures inputManager.Inputs() == ClearedFor(old(inputManager.Inputs()), old(players))
    {
      ghost var s0 := State();
      ghost var pending := inputManager.Inputs();
      var ps, shots := PlayerTurnsInOrder(players, NpcRects(npcs), now, aim);
      PlayersKeepIdentity(s0.players, pending, NpcRects(s0.npcs), now, aim);
      SameIdentity(s0.players, ps);
      label turned:
      players, playerBullets := ps, playerBullets + shots;
      inputManager.InputsKept@turned();
      assert State() == s0.(players := ps, playerBullets := s0.playerBullets + shots);
    }

    /**
     * One pass of `update_npcs`' loop on the NPC at `kept` of the live
     * list: it moves toward the nearest player and may shoot; if it then
     * overlaps a living player, the first such loses twice the NPC's
     * damage and the NPC is removed from the list.
     */
    method NpcTurnAt(kept: nat, now: int, aim: Aim) returns (stays: bool)
      requires kept < |npcs| && |players| > 0
      modifies this
      ensures var s := old(State());
        var t := NpcTurn(s.(npcs := s.npcs[..kept]), s.npcs[kept], now, aim);
        && State() == t.(npcs := t.npcs + s.npcs[kept + 1..])
        && |t.npcs| == (if stays then kept + 1 else kept)
    {
      ghost var s0 := State();
      ghost var head := s0.(npcs := s0.npcs[..kept]);
      var moved := NpcMoved(npcs[kept], players);
      npcs := npcs[kept := moved];
      TryNpcShoot(moved, now, aim);
      NpcShotIgnoresNpcs(head, s0.npcs[kept := moved], moved, now, aim);
      NpcShotKeeps(head, moved, now, aim);
      ghost var t := NpcTurn(head, s0.npcs[kept], now, aim);
      var hit := FirstLivingHit(moved.rect, players);
      if hit.Some? {
        players := players[hit.value := Hurt(players[hit.value], ContactFactor * moved.damage)];
        npcs := npcs[..kept] + npcs[kept + 1..];
        assert npcs == s0.npcs[..kept] + s0.npcs[kept + 1..];
      } else {
        assert s0.npcs[kept := moved] == s0.npcs[..kept] + [moved] + s0.npcs[kept + 1..];
      }
      stays := hit.None?;
    }

    /**
     * `update_npcs`: every NPC of a copy of the list takes its turn in
     * order, removals applying to the list itself.
     */
    method UpdateNpcs(now: int, aim: Aim)
      requires |npcs| > 0 ==> |players| > 0
      modifies this
      ensures State() == NpcsUpdated(old(State()), now, aim)
    {
      if |npcs| == 0 {
        return;
      }
      ghost var base := State().(npcs := []);
      ghost var cur := base;
      var todo := npcs;
      var i, kept := 0, 0;
      while i < |todo|
        invariant 0 <= i <= |todo| && |base.players| > 0
        invariant cur == NpcTurns(base, todo[..i], now, aim)
        invariant kept == |cur.npcs| && State() == cur.(npcs := cur.npcs + todo[i..])
      {
        ghost var s := State();
        SplitNpcs(s, cur, todo, i);
        var stays := NpcTurnAt(kept, now, aim);
        NpcTurnsStep(base, todo, i, now, aim);
        cur := NpcTurn(cur, todo[i], now, aim);
        assert State() == cur.(npcs := cur.npcs + todo[i + 1..]);
        if stays {
          kept := kept + 1;
        }
        i := i + 1;
      }
      assert todo[..i] == todo;
    }

    /** `update_bullets`: both bullet lists move and lose their off-screen bullets. */
    method UpdateBullets()
      modifies this
      ensures State() == BulletsUpdated(old(State()))
    {
      playerBullets := CullBullets(playerBullets);
      npcBullets := CullBullets(npcBullets);
    }

    /**
     * The key buffering of `handle_key_events`: every (uid, key) pair among
     * the keys held down this pass goes through `add_input`, in order.
     */
    method HandleKeyEvents(pressed: seq<(Uid, Key)>)
      requires inputManager.Valid()
      modifies inputManager, inputManager.playerInputs.Values
      ensures inputManager.Valid() && inputManager.keymaps == old(inputManager.keymaps)
      ensures inputManager.Inputs() == PressedAll(old(inputManager.Inputs()), inputManager.keymaps, pressed)
      ensures fresh(inputManager.playerInputs.Values - old(inputManager.playerInputs.Values))
    {
      var i := 0;
      while i < |pressed|
        invariant 0 <= i <= |pressed|
        invariant inputManager.Valid() && inputManager.keymaps == old(inputManager.keymaps)
        invariant inputManager.Inputs() == PressedAll(old(inputManager.Inputs()), inputManager.keymaps, pressed[..i])
        invariant fresh(inputManager.playerInputs.Values - old(inputManager.playerInputs.Values))
      {
        inputManager.AddInput(pressed[i].0, pressed[i].1);
        assert pressed[..i + 1][..i] == pressed[..i];
        i := i + 1;
      }
      assert pressed[..i] == pressed;
    }

    /** `check_game_end`. */
    method CheckGameEnd()
      modifies this
      ensures State() == EndChecked(old(State()))
    {
      if LivingCount(players) == 0 {
        gameResult := Some(if score >= WinScore then Win else Lost);
        running := false;
      }
    }

    /** The players take their turns, then the NPCs. */
    method Move(now: int, aim: Aim)
      requires Valid() && |players| > 0
      modifies this, inputManager.playerInputs.Values
      ensures Valid()
      ensures State() == NpcsUpdated(PlayersUpdated(old(State()), old(inputManager.Inputs()), now, aim), now, aim)
      ensures inputManager.Inputs() == ClearedFor(old(inputManager.Inputs()), old(players))
    {
      UpdatePlayers(now, aim);
      ghost var s1 := State();
      label playersDone:
      UpdateNpcs(now, aim);
      inputManager.InputsKept@playersDone();
      NpcsUpdatedRoster(s1, now, aim);
      NpcsUpdatedIds(s1, now, aim);
      SameRosterReady(s1.players, players);
      RosterKeepsUidsDistinct(s1.players, players);
    }

    /** The end of a pass: bullets move and are culled, collisions are resolved, and the end is checked. */
    method Resolve()
      requires Valid()
      modifies this
      ensures Valid()
      ensures State() == EndChecked(BulletCollisions(BulletsUpdated(old(State()))))
    {
      ghost var s0 := State();
      label start:
      UpdateBullets();
      CheckBulletCollisions();
      CheckGameEnd();
      inputManager.InputsKept@start();
      CollisionsRoster(s0);
      CollisionsIds(s0);
      SameRosterReady(s0.players, players);
      RosterKeepsUidsDistinct(s0.players, players);
    }

    /**
     * The part of a pass after the spawn: players, NPCs, bullets,
     * collisions and the end check, in that order, each player's buffered
     * inputs consumed by its turn.
     */
    method Advance(now: int, aim: Aim)
      requires Valid() && |players| > 0
      modifies this, inputManager.playerInputs.Values
      ensures Valid()
      ensures State() == AfterSpawn(old(State()), old(inputManager.Inputs()), now, aim)
      ensures inputManager.Inputs() == ClearedFor(old(inputManager.Inputs()), old(players))
    {
      Move(now, aim);
      label moved:
      Resolve();
      inputManager.InputsKept@moved();
    }

    /**
     * The start of a pass of `run`'s loop: a closed window clears
     * `running` (the pass still completes), the held keys are buffered and
     * an NPC may spawn.
     */
    method Prepare(t: TickInput)
      requires Valid() && SpawnChoice(t.spawnX, t.spawnY, t.interval)
      modifies this, inputManager, inputManager.playerInputs.Values
      ensures Valid() && inputManager.keymaps == old(inputManager.keymaps)
      ensures State() == Spawned(old(State()).(running := old(running) && !t.quit),
                                 t.now, t.spawnX, t.spawnY, t.spawnHealth, t.spawnDamage, t.spawnScore, t.interval)
      ensures inputManager.Inputs() == PressedAll(old(inputManager.Inputs()), inputManager.keymaps, t.pressed)
      ensures fresh(inputManager.playerInputs.Values - old(inputManager.playerInputs.Values))
    {
      if t.quit {
        running := false;
      }
      HandleKeyEvents(t.pressed);
      label keyed:
      ghost var s1 := State();
      TrySpawnNpc(t.now, t.spawnX, t.spawnY, t.spawnHealth, t.spawnDamage, t.spawnScore, t.interval);
      inputManager.InputsKept@keyed();
      SpawnedProperties(s1, t.now, t.spawnX, t.spawnY, t.spawnHealth, t.spawnDamage, t.spawnScore, t.interval);
    }

    /**
     * One pass of `run`'s loop without the drawing and the clock: the
     * start of the pass, then players, NPCs, bullets, collisions and the
     * end check, in that order.
     */
    method Tick(t: TickInput, aim: Aim)
      requires Valid() && |players| > 0 && SpawnChoice(t.spawnX, t.spawnY, t.interval)
      modifies this, inputManager, inputManager.playerInputs.Values
      ensures Valid() && inputManager.keymaps == old(inputManager.keymaps)
      ensures State() == Ticked(old(State()).(running := old(running) && !t.quit),
                                PressedAll(old(inputManager.Inputs()), inputManager.keymaps, t.pressed),
                                t.now, t.spawnX, t.spawnY, t.spawnHealth, t.spawnDamage, t.spawnScore, t.interval, aim)
      ensures inputManager.Inputs() == ClearedFor(PressedAll(old(inputManager.Inputs()), inputManager.keymaps, t.pressed), old(players))
      ensures fresh(inputManager.playerInputs.Values - old(inputManager.playerInputs.Values))
    {
      Prepare(t);
      label prepared:
      Advance(t.now, aim);
      assert inputManager.playerInputs == old@prepared(inputManager.playerInputs);
    }

    /** A pass of the running session is the first step of `run` over the passes from here on. */
    method PlayStep(passes: seq<TickInput>, aim: Aim)
      requires Valid() && |players| > 0 && running && |passes| > 0
      requires SpawnChoice(passes[0].spawnX, passes[0].spawnY, passes[0].interval)
      modifies this, inputManager, inputManager.playerInputs.Values
      ensures Valid() && |players| > 0 && inputManager.keymaps == old(inputManager.keymaps)
      ensures Played(State(), inputManager.Inputs(), inputManager.keymaps, passes[1..], aim)
        == Played(old(State()), old(inputManager.Inputs()), inputManager.keymaps, passes, aim)
      ensures fresh(inputManager.playerInputs.Values - old(inputManager.playerInputs.Values))
    {
      PassTicks(State(), inputManager.Inputs(), inputManager.keymaps, passes[0], aim);
      Tick(passes[0], aim);
    }

    /** `run`'s loop: passes run while the session is running and passes remain. */
    method PlayAll(schedule: seq<TickInput>, aim: Aim)
      requires Valid() && |players| > 0
      requires forall k :: 0 <= k < |schedule| ==> SpawnChoice(schedule[k].spawnX, schedule[k].spawnY, schedule[k].interval)
      modifies this, inputManager, inputManager.playerInputs.Values
      ensures Valid()
      ensures (State(), inputManager.Inputs()) == Played(old(State()), old(inputManager.Inputs()), inputManager.keymaps, schedule, aim)
    {
      ghost var target := Played(State(), inputManager.Inputs(), inputManager.keymaps, schedule, aim);
      var rest := schedule;
      while running && |rest| > 0
        invariant Valid() && |players| > 0 && inputManager.keymaps == old(inputManager.keymaps)
        invariant forall k :: 0 <= k < |rest| ==> SpawnChoice(rest[k].spawnX, rest[k].spawnY, rest[k].interval)
        invariant Played(State(), inputManager.Inputs(), inputManager.keymaps, rest, aim) == target
        invariant fresh(inputManager.playerInputs.Values - old(inputManager.playerInputs.Values))
        decreases |rest|
      {
        PlayStep(rest, aim);
        rest := rest[1..];
      }
    }

    /**
     * `run`: the spawn interval is drawn once, then passes run while the
     * session is running; the result is returned. The passes are the
     * finite `schedule`; the loop also stops when it runs out of passes.
     */
    method Run(firstInterval: int, schedule: seq<TickInput>, aim: Aim) returns (result: Option<GameResult>)
      requires Valid() && |players| > 0 && MinSpawnInterval <= firstInterval <= MaxSpawnInterval
      requires forall k :: 0 <= k < |schedule| ==> SpawnChoice(schedule[k].spawnX, schedule[k].spawnY, schedule[k].interval)
      modifies this, inputManager, inputManager.playerInputs.Values
      ensures Valid()
      ensures (State(), inputManager.Inputs())
        == Played(old(State()).(nextSpawnInterval := firstInterval), old(inputManager.Inputs()), inputManager.keymaps, schedule, aim)
      ensures result == gameResult
    {
      nextSpawnInterval := firstInterval;
      PlayAll(schedule, aim);
      result := gameResult;
    }
  }
}
