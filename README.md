# uuPyGame arena shooter: a Dafny model of the session core

This project models the deterministic core of the uuPyGame arena shooter:

- **players** move by whole steps from buffered action tokens, face the last direction they moved in, fire at the nearest NPC on a 250 ms cooldown and pick an animation frame from a (direction, action) table;
- **NPCs** chase the nearest player, fire at the nearest living player on a 500 ms cooldown, and sacrifice themselves on contact for twice their damage;
- **bullets** fly at a constant velocity and are culled off-screen;
- **the session** (`AbstractGame`) runs one fixed-order tick per pass of `run`:
  1. quit;
  2. keys into input buffers;
  3. spawn;
  4. players;
  5. NPCs;
  6. bullets;
  7. collisions;
  8. end check.

  A finished game is won when the score reached 200.

Modules follow the source files:

- `Config` holds config.py and enums.py;
- `Geometry` holds the pygame `Rect` operations the entities use;
- `Inputs`, `Bullets`, `Players`, `Npcs`, `Enemies` and `Unicorns` model inputs.py, bullet.py, player.py, npc.py, enemy.py and enemy_unicorn.py;
- `Sessions` states each step of `AbstractGame` on values;
- `Runs` states `run`'s loop on values;
- `Game` holds `AbstractGame` as a class whose methods update its fields in place.

Every method of `Game` is proved to leave the object in the state computed by the matching function of `Sessions` or `Runs`. The properties of the game are proved as lemmas about those functions.

Positions are integers. The two distance functions (`math.hypot`) are replaced by squared integer distances, which rank candidates in the same order. A bullet's velocity is the result of a caller-supplied `aim` function, because the trigonometry is not modelled. The clock (`pygame.time.get_ticks()`) is a parameter `now`. Random draws are parameters constrained to the ranges the source draws from.

Behaviours of the code a reader might not expect:

- An NPC bullet lands on the first player it overlaps, dead or alive. game.py:98 does not test health.
- NPCs chase the nearest player, dead or alive. npc.py:17 passes all players.
- A bullet is culled once its top-left corner leaves the closed box [0, 800] x [0, 600], not when the whole bullet is outside.
- `update_players` passes no screen. So the arena clamp of player.py:67-70 never runs in a session, and any player can walk off the arena (`Players.NoScreenNoClamp`).

## Model

| member | source | states |
|---|---|---|
| Config.FacingName | player.py:76 | the direction part of an animation key is one of "up", "down", "left", "right" |
| Geometry.CenteredAt | player.py:100-102 | the new rect has the image's size and keeps the old centre exactly |
| Geometry.CollideSymmetric | game.py:108 | `colliderect` gives the same answer whichever rect asks |
| Geometry.FirstHit | game.py:107-108 | None exactly when no rect overlaps; otherwise an overlapping index with no overlapping index before it |
| Geometry.FirstMin | player.py:107-115 | the strict-less scan from infinity returns None only for no candidates, else an index of minimal distance with every earlier distance strictly larger |
| Geometry.FirstMinUnique | player.py:107-115 | the first minimum is the only index meeting that description |
| Geometry.ClosestByCenter | player.py:104-115 | the nearest rect by centre distance, the first on a tie, None exactly for none |
| Geometry.ClosestByCorner | npc.py:43-58 | the nearest rect by top-left distance, the first on a tie, None exactly for none |
| Geometry.CornerDistIgnoresSize | npc.py:43-45 | NPC distance does not depend on either rect's size |
| Geometry.ChaseStepGap | npc.py:20-27 | a chase step moves exactly `speed` toward the target, so the gap becomes abs(gap - speed) (overshoot included), and nothing happens when already level |
| Bullets.OnScreenIsClosedBox | bullet.py:24-26 | a bullet is on screen exactly when its corner is in the closed box [0, 800] x [0, 600] |
| Bullets.DriftClosedForm | bullet.py:17-19 | n updates move a bullet by n times its velocity |
| Bullets.EventuallyOffScreen | bullet.py:17-26 | every bullet with a nonzero velocity is eventually off-screen |
| Bullets.Fired | bullet.py:10-15 | a new bullet is a 5 x 5 rect at its start, with the aimed velocity and the given colour and shooter |
| Bullets.AdvancedMoves | bullet.py:17-19 | `update` shifts the rect by (dx, dy) and changes nothing else |
| Bullets.Bullet.constructor | bullet.py:10-15 | the object's value is the `Fired` bullet |
| Bullets.Bullet.Update | bullet.py:17-19 | the object's value becomes the advanced bullet |
| Players.Initial | player.py:13-39 | a new player is a 40 x 40 rect at its position, facing down, idle, not shooting, at 100 health, with its last shot at creation time |
| Players.MovingIffNotOnlyShoot | player.py:51 | a player is moving exactly when some token of the tick is not SHOOT |
| Players.MovePriorities | player.py:53-65 | UP beats DOWN and LEFT beats RIGHT, each axis moves by at most one step, and horizontal movement decides the facing over vertical |
| Players.MoveIgnoresOrderAndRepeats | player.py:51-65 | only which direction tokens are present matters, not their order, repetition or SHOOT tokens |
| Players.ClampInArena | player.py:67-70 | a clamped rect lies inside the screen, and a rect already inside is unchanged |
| Players.AnimatedProperties | player.py:74-102 | animating keeps the rect's centre; it ends the shooting state exactly after 300 ms; it shows the keyed frame, else the ("down", "walk1") frame, else no image; it changes nothing else |
| Players.WalkFrameIndex | player.py:90-95 | idle shows walk1; moving shows walk1, walk2 or walk3 as (now // 150) % 3 is 0, 1 or 2 |
| Players.NoScreenNoClamp | player.py:47-72 | for every player and frame table, without a screen the rect keeps the centre the move gave it, so a LEFT step moves any player 4 px left and off the arena from its edge; with a screen that step never ends left of 0 |
| Players.ShotAnimationWindow | player.py:78-88 | after a shot the shooting animation lasts exactly 300 ms |
| Players.LivingIndices | enemy.py:81 | the filter `[p for p in players if p.health > 0]` as positions: strictly increasing, each one living, and every living position listed, so the living players in their original order |
| Players.Player.constructor | player.py:13-39 | the object starts in the `Initial` state with its uid as name, speed 4 and green colour |
| Players.Player.SetCoords | player.py:41-42 | only the rect's corner changes |
| Players.Player.Update | player.py:47-72 | the new state is the step by the inputs, the clamp when a screen is given, then the animation |
| Players.Player.Animate | player.py:74-102 | the new state is the animated state (its properties in `Players.AnimatedProperties`) |
| Players.Player.FindClosestNpc | player.py:107-115 | None exactly for no NPCs, else the first NPC at minimal centre distance |
| Players.Player.Shoot | player.py:117-130 | a bullet exactly when the cooldown passed and an NPC exists; it is aimed 8 px above the nearest NPC's centre from the player's centre, and the shot timers restart; with no bullet nothing changes |
| Enemies.GetDirection | enemy.py:71-76 | horizontal exactly when abs(dx) > abs(dy), by the sign of dx; otherwise down for dy > 0 and up otherwise, (0, 0) included |
| Enemies.ChaseProperties | enemy.py:34-55 | each axis steps by the speed toward the target's corner; a vertical step decides the label; the action is "move" exactly when not already on the corner |
| Enemies.AnimatedProperties | enemy.py:59-69 | nothing changes for a missing key or before the delay; otherwise the index advances modulo the frame count, its frame is shown and the timer restarts |
| Enemies.FindClosest | enemy.py:110-112 | `min` by centre distance returns a first minimal player |
| Enemies.GetShotTarget | enemy.py:79-82 | None exactly when nobody is alive, else the player at the first living position whose centre distance is minimal among the living, as `min` over the filtered list picks it (enemy.py:111) |
| Enemies.FirstLivingMinimum | enemy.py:79-82 | the first minimum of the filtered list is, back in the full list, the first living player at minimal centre distance |
| Enemies.Enemy.constructor | enemy.py:9-24 | 100 health, 10 damage, speed 2, score 25, a 32 x 32 rect, idle facing down, no animations |
| Enemies.Enemy.Update | enemy.py:26-57 | no change without a living player; otherwise a chase step toward the `Enemies.GetShotTarget` player (the first nearest living one), then the animation |
| Enemies.Enemy.ChaseToward | enemy.py:34-55 | the new state is the chase step (its properties in `Enemies.ChaseProperties`) |
| Enemies.Enemy.Animate | enemy.py:59-69 | the new state is the animated state (its properties in `Enemies.AnimatedProperties`) |
| Unicorns.Cell | enemy_unicorn.py:50-55 | one frame, the grid's own, exactly when the cell exists; none otherwise |
| Unicorns.LoadAnimations | enemy_unicorn.py:39-57 | key (direction, action) holds the cell at that direction's row and that action's column, and there are no other keys |
| Unicorns.FullGridAnimations | enemy_unicorn.py:39-57 | a full 4 x 5 sheet gives each of the 20 keys exactly one frame, fallback included |
| Unicorns.AnimationKey | enemy_unicorn.py:85-89 | the current key when present, else ("down", "idle") |
| Unicorns.AnimatedProperties | enemy_unicorn.py:82-96 | the index stays in range, advancing only when strictly more than the delay has passed; the indexed frame of the current or fallback key is always shown |
| Unicorns.TruncHalves | enemy_unicorn.py:74-75 | converting a half-pixel count to int truncates toward zero |
| Unicorns.HalfStepDistance | enemy_unicorn.py:74-75 | a 1.5 px step always moves the intended way by 1 or 2 px, its size depending on the side of the origin |
| Unicorns.SteeredProperties | enemy_unicorn.py:60-78 | within 2 px of the target's centre on both axes the unicorn idles in place; otherwise it moves on both axes, a zero delta moving up or left |
| Unicorns.Unicorn.constructor | enemy_unicorn.py:7-37 | stats 60/8/15, a 9 x 9 rect, the loaded animations, idle facing down, and the first frame shown |
| Unicorns.Unicorn.Update | enemy_unicorn.py:60-80 | no change without a living player; otherwise steering toward the `Enemies.GetShotTarget` player (the first nearest living one), then the animation |
| Unicorns.Unicorn.SteerToward | enemy_unicorn.py:66-78 | the new state is the steered state (its properties in `Unicorns.SteeredProperties`) |
| Unicorns.Unicorn.Animate | enemy_unicorn.py:82-96 | the new state is the animated state (its properties in `Unicorns.AnimatedProperties`) |
| Npcs.ChasedSteps | npc.py:15-27 | each axis moves by exactly 2 or not at all, and the gap becomes abs(gap - 2), so an odd gap is never closed |
| Npcs.Npc.constructor | npc.py:12-13 | a 20 x 20 rect at (x, y) |
| Npcs.Npc.FindClosestPlayer | npc.py:47-58 | None exactly for no players, else the first player at minimal top-left distance |
| Npcs.Npc.GetShotTarget | npc.py:29-30 | the shot target is the player that `find_closest_player` picks |
| Npcs.Npc.Update | npc.py:15-27 | one chase step toward the nearest player, dead or alive |
| Inputs.WasdHasNoShoot | inputs.py:5-19 | the "wasd" keymap binds no SHOOT token; "arrows" binds RETURN to SHOOT |
| Inputs.LastN | inputs.py:26-32 | at most n elements: all of them when there are few, otherwise exactly the newest n |
| Inputs.LastNAppend | inputs.py:26-32 | trimming after every append equals trimming once at the end |
| Inputs.PressedAllProperties | inputs.py:50-56 | keys create buffers only for players with a keymap, keep every buffer within 20 tokens, and never touch a player without a keymap |
| Inputs.PressedAppends | inputs.py:50-56 | a bound key puts its action last, growing the buffer by one up to 20 |
| Inputs.InputBuffer.constructor | inputs.py:22-24 | an empty buffer of the given capacity |
| Inputs.InputBuffer.Add | inputs.py:26-32 | the buffer holds the newest `max_size` tokens of old + [action]; below capacity this is a plain append, at capacity the head drops |
| Inputs.InputBuffer.GetAll | inputs.py:34-35 | the buffered tokens |
| Inputs.InputBuffer.Clear | inputs.py:37-38 | the buffer is empty |
| Inputs.InputManager.constructor | inputs.py:42-44 | no buffers and the given keymaps |
| Inputs.InputManager.AddKeymap | inputs.py:47-48 | the keymap is registered, or replaced, and no buffer changes |
| Inputs.InputManager.EnsureBuffer | inputs.py:54-55 | a player's buffer exists afterwards, with the same tokens as before, and no other buffer changes |
| Inputs.InputManager.AddInput | inputs.py:50-56 | the pending tokens become `Pressed` of the old ones (properties in `Inputs.PressedAllProperties` and `Inputs.PressedAppends`) |
| Inputs.InputManager.AddInputs | inputs.py:58-62 | the player's buffer holds the newest 20 of its old tokens followed by `inputs`, even when `inputs` is empty; the other buffers are unchanged |
| Inputs.InputManager.GetInputs | inputs.py:64-65 | the player's pending tokens; empty without a buffer |
| Inputs.InputManager.ClearInputs | inputs.py:67-69 | the player's buffer, if any, is emptied and no other changes |
| Sessions.LivingRects | game.py:76-78 | the rects of the filtered player list: empty exactly when no player is alive, and the i-th rect is that of the i-th living player in order |
| Sessions.LivingCountRects | game.py:205 | counting the living players one by one gives the length of the filtered list |
| Sessions.LivingCountZero | game.py:205-206 | the filtered list is empty exactly when every player is dead |
| Sessions.FirstLivingByCorner | npc.py:47-58 | the first minimum by top-left distance over the filtered list is, back in the full list, the first living player at minimal top-left distance |
| Sessions.NpcTargetFirstNearest | game.py:76-78 | `find_closest_player` over the filtered list (npc.py:29-30, 47-58) picks the first living player at minimal top-left distance |
| Sessions.SpawnedProperties | game.py:50-67 | a due spawn adds exactly one NPC inside the 50 px margins, with an id no other NPC has, and draws an interval in [3000, 5000]; otherwise nothing changes; no second spawn within 3000 ms; the NPC ids stay apart either way |
| Sessions.NpcShotKeeps | game.py:69-90 | an NPC's shot changes neither the NPCs, the players, the score, the player bullets nor the outcome |
| Sessions.NpcShotProperties | game.py:69-90 | no bullet within 500 ms of the last shot or with nobody alive; otherwise exactly one red bullet from the NPC's centre aimed at the first living player at minimal top-left distance, and the NPC cannot fire again for 500 ms |
| Sessions.ShooterIndex | game.py:96-97 | the first NPC that fired the bullet; None exactly when its shooter is gone |
| Sessions.ShooterIndexUnique | game.py:96-97 | while the NPC ids stay apart, a bullet's shooter is the one NPC with its id |
| Sessions.NpcBulletTarget | game.py:95-103 | an NPC bullet lands exactly when its shooter is present and it overlaps a player; it lands on the first such player with its shooter's damage |
| Sessions.KeepUnhitProperties | game.py:95-103 | the kept NPC bullets are exactly those that land on nobody |
| Sessions.DamageToStepAll | game.py:98-102 | each bullet adds its damage to the one player it lands on and to nobody else |
| Sessions.UnhitPlayerUnharmed | game.py:98-100 | a player no bullet overlaps takes no damage |
| Sessions.OrphanBulletKept | game.py:95-103 | a bullet whose shooter has died stays, whatever it overlaps |
| Sessions.PlayerBulletHitProperties | game.py:107-114 | a player bullet hits exactly when it overlaps some NPC; one that overlaps none changes nothing, and a hit removes at most one NPC |
| Sessions.PlayerBulletHitFirst | game.py:107-114 | given the first NPC the bullet overlaps, only that NPC is affected: it loses 10 health, and it is removed and its score added exactly when its health drops to 0 or below |
| Sessions.FirstNpcHit | game.py:107-108 | the first NPC a bullet overlaps, stated on the NPCs themselves |
| Sessions.PlayerBulletHitScores | game.py:107-114 | with non-negative NPC scores, one player bullet never lowers the score and leaves every remaining NPC score non-negative |
| Sessions.ScoreNeverDecreases | game.py:106-114 | with non-negative NPC scores, the player-bullet pass never lowers the score |
| Sessions.WithoutIds | game.py:108-110 | removing a killed NPC keeps the ids rising |
| Sessions.PlayerBulletHitIds | game.py:107-114 | one player bullet keeps the NPC ids rising and below the next id |
| Sessions.PlayerBulletsLandedIds | game.py:106-114 | the player-bullet pass keeps the NPC ids rising and below the next id |
| Sessions.PlayerBulletsLandedBounds | game.py:106-114 | kept bullets come from the given ones, and each bullet removes at most one NPC |
| Sessions.PlayerTurnProperties | game.py:135-149 | a dead player neither moves nor fires; a living one fires at most one bullet of its own colour, only with SHOOT and only when NPCs exist; identity and health never change |
| Sessions.PlayerTurnsElementwise | game.py:135-149 | each player's result depends only on its own turn |
| Sessions.PlayerTurnShots | game.py:136-146 | one turn fires at most one bullet, none when dead, none without NPCs |
| Sessions.PlayerTurnsShots | game.py:143-146 | a tick's player bullets are at most the number of living players (`Sessions.LivingCount`) |
| Sessions.PlayerTurnsNoTargets | game.py:143-146 | with no NPCs, no player bullet is fired in a tick |
| Sessions.ClearedForMeaning | game.py:136-149 | a buffer is emptied exactly when a living player owns it; the others keep their tokens |
| Sessions.PlayersKeepIdentity | game.py:135-149 | no player's uid or frame table changes |
| Sessions.PlayersUpdatedRoster | game.py:132-149 | `update_players` keeps the same players in the same order |
| Sessions.FirstLivingHit | game.py:158-165 | the first living player an NPC overlaps; None exactly when it overlaps no living player |
| Sessions.NpcTurnProperties | game.py:154-165 | an NPC that ends its move on a living player is removed and hurts exactly the first such player by twice its damage; otherwise it stays, moved, and nobody is hurt; score and player bullets are unchanged |
| Sessions.NpcTurnKeeps | game.py:154-165 | one NPC's turn adds at most itself and leaves the score, the player bullets, the next NPC id, the outcome and every player's identity and position alone |
| Sessions.NpcTurnsBounds | game.py:151-165 | `update_npcs` keeps at most the NPCs it had, and never touches the score, the player bullets or any player's identity or position |
| Sessions.NpcsUpdatedRoster | game.py:151-165 | `update_npcs` keeps the same players in the same order |
| Sessions.NpcTurnsScores | game.py:151-165 | surviving NPCs keep their scores |
| Sessions.NpcTurnsIds | game.py:151-165 | survivors keep their ids and their relative order, so the ids keep rising and stay below the next id, which is untouched |
| Sessions.AppendIds | game.py:160-165 | appending a survivor whose id is above the others keeps the ids rising |
| Sessions.NpcsUpdatedIds | game.py:151-165 | `update_npcs` keeps the NPC ids apart |
| Sessions.CollisionsIds | game.py:93-114 | bullets, collisions and the end check keep the NPC ids apart |
| Sessions.Survivors | game.py:196-202 | every survivor is a moved bullet that is on screen, and every moved bullet on screen survives |
| Sessions.SurvivorsAppend | game.py:198-202 | culling keeps the relative order of the bullets |
| Sessions.EndCheckedProperties | game.py:204-211 | while someone lives nothing changes; once all are dead (or there are no players) the game stops, won exactly at score >= 200 |
| Sessions.AfterSpawnRoster | game.py:224-233 | the steps after the spawn keep the same players in the same order |
| Sessions.SurvivorsStep | game.py:198-202 | culling one more bullet appends it, moved, exactly when it stays on screen |
| Sessions.TickScoreNeverDecreases | game.py:216-233 | with non-negative NPC scores a tick never lowers the score |
| Sessions.CollisionsRoster | game.py:93-114 | resolving collisions, like moving bullets (game.py:196-202) and the end check (game.py:204-211), keeps the same players |
| Sessions.NpcsUpdatedScores | game.py:151-165 | `update_npcs` keeps the score and non-negative NPC scores |
| Sessions.CollisionsScores | game.py:93-114 | bullets, collisions and the end check never lower the score |
| Runs.TickedRoster | game.py:216-233 | a tick keeps the same players in the same order |
| Runs.TickedOutcome | game.py:216-233 | a tick of an undecided game decides it exactly when nobody is left alive, stopping it with a win exactly at score >= 200; otherwise it runs on undecided |
| Runs.Pass | game.py:216-233 | a pass keeps the same non-empty list of players |
| Runs.PassTicks | game.py:217-233 | a pass is the tick on the session (stopped after this pass when the window closed) with the pass's keys buffered; afterwards a buffer is empty exactly when a living player owns it, every other buffer keeps its tokens plus this pass's keys, and no buffer appears or vanishes |
| Runs.PassOutcome | game.py:216-233 | a pass decides the game exactly when nobody is left alive, with a win exactly at score >= 200; otherwise it runs on unless the window was closed |
| Runs.PassScore | game.py:216-233 | with non-negative NPC and spawn scores a pass never lowers the score |
| Runs.PlayedSettles | game.py:213-237 | `run` either goes on undecided or stops, and a result appears only when all players are dead, matching the final score |
| Runs.PlayedScoreNeverDecreases | game.py:213-237 | with non-negative NPC and spawn scores the score never falls over a whole run |
| Game.PlayerSetReplaces | game.py:253-255 | assigning an existing uid replaces exactly that entry and keeps the order |
| Game.PlayerSetAppends | game.py:290-301 | assigning a new uid appends it at the end |
| Game.PlayerSetDistinct | game.py:290-301 | the player table never holds the same uid twice |
| Game.PlayerSetReady | game.py:290-301 | every stored player can be animated |
| Game.NpcBulletsPass | game.py:95-103 | the loop over a copy of the NPC bullets keeps exactly those that land on nobody and hurts each player by exactly the damage of the bullets that land on it |
| Game.PlayerBulletsPass | game.py:106-114 | the loop over a copy of the player bullets computes the second pass (its properties in `Sessions.PlayerBulletHitProperties`, `Sessions.PlayerBulletHitFirst`, `Sessions.ScoreNeverDecreases` and `Sessions.PlayerBulletsLandedBounds`) |
| Game.CullBullets | game.py:198-202 | removing from the list while walking a copy leaves exactly the moved bullets still on screen, in order |
| Game.AbstractGame.constructor | game.py:24-47 | a running session with no players, NPCs or bullets, score 0, and the spawn clock at creation time |
| Game.AbstractGame.AddPlayer | game.py:253-258 | the player is stored under its uid, its keymap is registered, and no buffer changes |
| Game.AbstractGame.TrySpawnNpc | game.py:61-67 | the session becomes the `Spawned` state (properties in `Sessions.SpawnedProperties`) |
| Game.AbstractGame.TryNpcShoot | game.py:69-90 | the session becomes the `NpcShot` state (properties in `Sessions.NpcShotProperties`) |
| Game.AbstractGame.CheckBulletCollisions | game.py:93-114 | NPC bullets are resolved, then player bullets |
| Game.AbstractGame.NpcBulletsOnPlayers | game.py:95-103 | the first collision pass, as `Game.NpcBulletsPass` |
| Game.AbstractGame.PlayerBulletsOnNpcs | game.py:106-114 | the second collision pass, as `Game.PlayerBulletsPass` |
| Game.AbstractGame.PlayerTurnOf | game.py:136-149 | one player's turn on its own buffered tokens; its buffer is cleared exactly when it is alive |
| Game.AbstractGame.PlayerTurnsInOrder | game.py:135-149 | all turns in order, the bullets in firing order, each living player's buffer cleared |
| Game.AbstractGame.UpdatePlayers | game.py:132-149 | `update_players` in place (properties in the `Sessions.PlayerTurn*` lemmas), the buffers of living players emptied |
| Game.AbstractGame.NpcTurnAt | game.py:155-165 | one NPC's turn on the live list: it stays, moved, exactly when it overlaps no living player |
| Game.SplitNpcs | game.py:151-155 | the live list is the survivors so far followed by the NPCs still to move |
| Game.AbstractGame.UpdateNpcs | game.py:151-165 | `update_npcs` over a copy of the list with removals from the list itself (properties in the `Sessions.NpcTurn*` lemmas) |
| Game.AbstractGame.UpdateBullets | game.py:196-202 | both bullet lists are moved and culled, as `Game.CullBullets` |
| Game.AbstractGame.HandleKeyEvents | game.py:312-326 | every held (player, key) pair goes through `add_input` in order; keymaps are unchanged |
| Game.AbstractGame.CheckGameEnd | game.py:204-211 | the end check (properties in `Sessions.EndCheckedProperties`) |
| Game.AbstractGame.Move | game.py:224-225 | players' turns, then NPCs' turns |
| Game.AbstractGame.Resolve | game.py:226-233 | bullets, then collisions, then the end check |
| Game.AbstractGame.Advance | game.py:224-233 | everything after the spawn; players stay ready and distinct, NPC ids stay apart; living players' buffers end up empty |
| Game.AbstractGame.Prepare | game.py:217-221 | a closed window stops the session after this pass, the held keys are buffered, and an NPC may spawn with an id no other NPC has |
| Game.AbstractGame.Tick | game.py:216-233 | one pass of the loop in the source's order, as `Runs.Pass` |
| Game.AbstractGame.PlayStep | game.py:216-233 | one pass leaves exactly the rest of the run to go |
| Game.AbstractGame.PlayAll | game.py:216-233 | the loop ends in the state of `Runs.Played` (properties in `Runs.PlayedSettles` and `Runs.PlayedScoreNeverDecreases`) |
| Game.AbstractGame.Run | game.py:213-237 | the first interval is drawn, the passes run while the session runs, and the result returned is the session's |

## Left out

- Rendering is not modelled: `draw`, `render_all`, the score text, the life bars and `pygame.display.flip`.
- The frame clock (`clock.tick`) is not modelled.
- Event polling is not modelled. A closed window is the `quit` flag of a pass.
- The keys held down are given as a sequence of (player, key) pairs. They are in the order the single and co-op sessions poll their keymaps.
- The clock is not modelled. `pygame.time.get_ticks()` is a parameter `now`.
- Randomness is not modelled: the spawn position, the NPC's stats and the next interval are parameters, constrained to the drawn ranges by `SpawnChoice`.
- The "easy/medium/hard" archetype choice of `spawn_random_npc` is not modelled, because game.py:58 passes an `npc_type` argument that npc.py's constructor does not accept. The stats an archetype would give are parameters.
- NPC health, damage and score are fields of `Npcs.Npc`, because npc.py does not declare them while the session reads them.
- Bullet shooter: game.py:87 passes `shooter=npc`, which bullet.py's constructor does not accept. The model keeps the shooter as an NPC id, as the session evidently intends.
- SHOOT token: enums.py:11-16 lacks `SHOOT`, which inputs.py and game.py use. It is a member of `Config.KeyType`.
- NPC identity: `id(npc)` is a counter `nextNpcId` handed out at spawn. `Sessions.NpcIdsFresh`, part of `Game.AbstractGame.Valid`, keeps these ids apart as the ids of live objects are.
- `Sessions.Spawned`: never reuses an id, which leaves out one behaviour of the source. game.py never prunes `npc_last_shot_times` (game.py:41, 73, 90). So once an NPC is removed (game.py:110, 163), the interpreter may give its `id()` to a later spawn (game.py:58). That NPC then inherits the dead NPC's last shot time, and the 500 ms cooldown (game.py:73) can hold back its first shot. This depends on the memory allocator and lasts at most one cooldown window. In the model every spawn takes an id that no earlier NPC has had.
- Bullet velocity: the floating-point velocity `BULLET_SPEED * (cos, sin)` of the aim angle is an integer pair from a caller-supplied `aim` function. The truncation of fractional movement by pygame's integer rects is not modelled.
- Unicorn speed: the 1.5 px step of the unicorn is modelled exactly, in half pixels. Other non-integer speeds are not modelled.
- Distances are compared as squared integers, not as `math.hypot` floats. They give the same order.
- `Game.AbstractGame.Run`: runs a finite `schedule` of passes. The source loops until the game ends, so the loop also stops when the schedule runs out.
- `Game.AbstractGame.Run`: requires at least one player, as does `Game.AbstractGame.Tick`. The single and co-op sessions always have one.
- `Game.AbstractGame.constructor`: leaves `nextSpawnInterval` at 0 until `Run` draws it. game.py sets it only in `run`.
- `Game.AbstractGame.AddPlayer`: covers only the player set-up of the single and co-op sessions. Two things are left out:
  - the initial NPC of game.py:261 and game.py:307;
  - the player's missing `assets` argument at game.py:253. Its frame table is a parameter.
- The players dict is a list in insertion order (`Game.PlayerSet`).
- `Sessions.NpcsUpdated`: requires a player whenever NPCs exist. With none, `npc.update` fails on `None.rect` (npc.py:20).
- `Npcs.Npc.Update`: requires a player, for the same reason as `Sessions.NpcsUpdated`.
- `Unicorns.Unicorn.constructor`: requires a full 4 x 5 sprite sheet. With a missing cell the source stores an empty list, and its `animate` divides by zero on it.
- `Players.Player.Animate`: an image is reduced to its width and height. The frame table is the `assets.player_frames` dictionary, and asset loading (assets.py, spritesheet.py) is not part of this model.
- Networking is not part of this model: main.py, ui.py, connectionTest.py, s.py and decorators.py.
- The "network roster" player creation is also left out.
- Network input: `add_inputs` is modelled, but nothing that calls it is.
