/**
 * game.py's `run` loop on values: each pass polls the window and the keys,
 * then performs one session tick, until the session stops running.
 */
module Runs {
  import opened Wrappers
  import opened Config
  import opened Inputs
  import opened Bullets
  import opened Sessions

  /**
   * What one pass of `run`'s loop receives from outside: the clock, whether
   * the window was closed, the keys held (as (uid, key) pairs, in the order
   * the subclasses poll them) and the random draws of a spawn.
   */
  datatype TickInput = TickInput(
    now: int, quit: bool, pressed: seq<(Uid, Key)>,
    spawnX: int, spawnY: int, spawnHealth: int, spawnDamage: int, spawnScore: int, interval: int)

  /** A tick changes no player's uid or frame table, so its players stay ready. */
  lemma TickedRoster(s: Session, pending: map<string, seq<KeyType>>, now: int,
                     x: int, y: int, health: int, damage: int, score: int, interval: int, aim: Aim)
    requires PlayersReady(s.players) && |s.players| > 0
    ensures SameRoster(s.players, Ticked(s, pending, now, x, y, health, damage, score, interval, aim).players)
    ensures PlayersReady(Ticked(s, pending, now, x, y, health, damage, score, interval, aim).players)
  {
    var s1 := Spawned(s, now, x, y, health, damage, score, interval);
    AfterSpawnRoster(s1, pending, now, aim);
    assert s1.players == s.players;
  }

  /**
   * A tick of a session without a result ends it exactly when no player is
   * left alive: it then stops with a win exactly when the score reached 200.
   * Otherwise it keeps running as it was and still has no result.
   */
  lemma TickedOutcome(s: Session, pending: map<string, seq<KeyType>>, now: int,
                      x: int, y: int, health: int, damage: int, score: int, interval: int, aim: Aim)
    requires PlayersReady(s.players) && |s.players| > 0 && s.gameResult.None?
    ensures var t := Ticked(s, pending, now, x, y, health, damage, score, interval, aim);
      && (t.gameResult.Some? <==> AllDead(t.players))
      && (t.gameResult.Some? ==> !t.running && (t.gameResult == Some(Win) <==> t.score >= WinScore))
      && (t.gameResult.None? ==> t.running == s.running)
  {
    var s1 := Spawned(s, now, x, y, health, damage, score, interval);
    var s2 := PlayersUpdated(s1, pending, now, aim);
    assert s2.running == s.running && s2.gameResult.None?;
    var s3 := NpcsUpdated(s2, now, aim);
    if |s2.npcs| > 0 {
      NpcTurnsBounds(s2.(npcs := []), s2.npcs, now, aim);
    }
    assert s3.running == s.running && s3.gameResult.None?;
    EndCheckedProperties(BulletCollisions(BulletsUpdated(s3)));
  }

  /**
   * One pass of `run`'s loop on the session `s` and the buffered inputs
   * `pending`: the pass's keys are buffered, a closed window stops the
   * session after this pass, and the tick runs; the buffers of the players
   * that took their turn are then empty.
   */
  function Pass(s: Session, pending: map<Uid, seq<KeyType>>, keymaps: map<Uid, map<Key, KeyType>>,
                t: TickInput, aim: Aim): (r: (Session, map<Uid, seq<KeyType>>))
    requires PlayersReady(s.players) && |s.players| > 0
    ensures SameRoster(s.players, r.0.players) && PlayersReady(r.0.players) && |r.0.players| > 0
  {
    var keyed := PressedAll(pending, keymaps, t.pressed);
    var s1 := s.(running := s.running && !t.quit);
    TickedRoster(s1, keyed, t.now, t.spawnX, t.spawnY, t.spawnHealth, t.spawnDamage, t.spawnScore, t.interval, aim);
    (Ticked(s1, keyed, t.now, t.spawnX, t.spawnY, t.spawnHealth, t.spawnDamage, t.spawnScore, t.interval, aim),
     ClearedFor(keyed, s1.players))
  }

  /**
   * A pass is the tick on the session stopped by a closed window and on the
   * keys of the pass added to the buffers. Afterwards a buffer is empty
   * exactly when a living player owns it; every other buffer holds its
   * tokens with this pass's keys added, and no buffer appears or vanishes.
   */
  lemma PassTicks(s: Session, pending: map<Uid, seq<KeyType>>, keymaps: map<Uid, map<Key, KeyType>>, t: TickInput, aim: Aim)
    requires PlayersReady(s.players) && |s.players| > 0
    ensures var keyed := PressedAll(pending, keymaps, t.pressed);
      var s1 := s.(running := s.running && !t.quit);
      Pass(s, pending, keymaps, t, aim).0
        == Ticked(s1, keyed, t.now, t.spawnX, t.spawnY, t.spawnHealth, t.spawnDamage, t.spawnScore, t.interval, aim)
    ensures var keyed := PressedAll(pending, keymaps, t.pressed);
      var r := Pass(s, pending, keymaps, t, aim).1;
      && r == ClearedFor(keyed, s.players)
      && r.Keys == keyed.Keys
      && forall u :: u in r ==> r[u] == (if Clears(s.players, u) then [] else keyed[u])
  {
    var keyed := PressedAll(pending, keymaps, t.pressed);
    var s1 := s.(running := s.running && !t.quit);
    assert s1.players == s.players;
    ClearedForMeaning(keyed, s.players);
  }

  /**
   * A pass over a session without a result ends it exactly when no player
   * is left alive, with a win exactly when the score reached 200; otherwise
   * it runs on unless the window was closed, still without a result.
   */
  lemma PassOutcome(s: Session, pending: map<Uid, seq<KeyType>>, keymaps: map<Uid, map<Key, KeyType>>, t: TickInput, aim: Aim)
    requires PlayersReady(s.players) && |s.players| > 0 && s.gameResult.None?
    ensures var r := Pass(s, pending, keymaps, t, aim).0;
      && (r.gameResult.Some? <==> AllDead(r.players))
      && (r.gameResult.Some? ==> !r.running && (r.gameResult == Some(Win) <==> r.score >= WinScore))
      && (r.gameResult.None? ==> r.running == (s.running && !t.quit))
  {
    var keyed := PressedAll(pending, keymaps, t.pressed);
    TickedOutcome(s.(running := s.running && !t.quit), keyed, t.now, t.spawnX, t.spawnY, t.spawnHealth, t.spawnDamage, t.spawnScore, t.interval, aim);
  }

  /** While every NPC and the spawn are worth at least 0, a pass never lowers the score and keeps NPC scores non-negative. */
  lemma PassScore(s: Session, pending: map<Uid, seq<KeyType>>, keymaps: map<Uid, map<Key, KeyType>>, t: TickInput, aim: Aim)
    requires PlayersReady(s.players) && |s.players| > 0
    requires ScoresNonNegative(s.npcs) && t.spawnScore >= 0
    ensures Pass(s, pending, keymaps, t, aim).0.score >= s.score
    ensures ScoresNonNegative(Pass(s, pending, keymaps, t, aim).0.npcs)
  {
    var keyed := PressedAll(pending, keymaps, t.pressed);
    TickScoreNeverDecreases(s.(running := s.running && !t.quit), keyed, t.now, t.spawnX, t.spawnY, t.spawnHealth, t.spawnDamage, t.spawnScore, t.interval, aim);
  }

  /** `run` over the passes `schedule`, while the session runs and passes remain. */
  function Played(s: Session, pending: map<Uid, seq<KeyType>>, keymaps: map<Uid, map<Key, KeyType>>,
                  schedule: seq<TickInput>, aim: Aim): (Session, map<Uid, seq<KeyType>>)
    requires PlayersReady(s.players) && |s.players| > 0
    decreases |schedule|
  {
    if !s.running || |schedule| == 0 then (s, pending)
    else
      var r := Pass(s, pending, keymaps, schedule[0], aim);
      Played(r.0, r.1, keymaps, schedule[1..], aim)
  }

  /** A result is only ever set together with stopping, and it is a win exactly when the score reached 200. */
  predicate Settled(s: Session)
  {
    s.gameResult.Some? ==> !s.running && (s.gameResult == Some(Win) <==> s.score >= WinScore)
  }

  /**
   * From a session without a result, `run` either is still running with no
   * result, or has stopped; a result, once there, matches the final score,
   * and it is there only when no player is left alive.
   */
  lemma {:induction false} PlayedSettles(s: Session, pending: map<Uid, seq<KeyType>>, keymaps: map<Uid, map<Key, KeyType>>,
                                         schedule: seq<TickInput>, aim: Aim)
    requires PlayersReady(s.players) && |s.players| > 0 && s.gameResult.None?
    ensures var r := Played(s, pending, keymaps, schedule, aim).0;
      && Settled(r)
      && (r.running ==> r.gameResult.None?)
      && (r.gameResult.Some? ==> AllDead(r.players))
    decreases |schedule|
  {
    if s.running && |schedule| > 0 {
      var r := Pass(s, pending, keymaps, schedule[0], aim);
      PassOutcome(s, pending, keymaps, schedule[0], aim);
      if r.0.gameResult.None? {
        PlayedSettles(r.0, r.1, keymaps, schedule[1..], aim);
      }
    }
  }

  /** The spawns of every pass are worth at least 0. */
  predicate SpawnScoresNonNegative(schedule: seq<TickInput>)
  {
    forall k :: 0 <= k < |schedule| ==> schedule[k].spawnScore >= 0
  }

  /** While every NPC and every spawn is worth at least 0, `run` never lowers the score. */
  lemma {:induction false} PlayedScoreNeverDecreases(s: Session, pending: map<Uid, seq<KeyType>>, keymaps: map<Uid, map<Key, KeyType>>,
                                                     schedule: seq<TickInput>, aim: Aim)
    requires PlayersReady(s.players) && |s.players| > 0
    requires ScoresNonNegative(s.npcs) && SpawnScoresNonNegative(schedule)
    ensures Played(s, pending, keymaps, schedule, aim).0.score >= s.score
    decreases |schedule|
  {
    if s.running && |schedule| > 0 {
      var r := Pass(s, pending, keymaps, schedule[0], aim);
      PassScore(s, pending, keymaps, schedule[0], aim);
      assert forall k :: 0 <= k < |schedule| - 1 ==> schedule[1..][k] == schedule[k + 1];
      PlayedScoreNeverDecreases(r.0, r.1, keymaps, schedule[1..], aim);
    }
  }
}
