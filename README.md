# Space Swordsman: a verified model of one game frame

Space Swordsman is a small pygame shooter. The player is a swordsman near the
bottom of the screen. They move left and right, swing to throw a blade beam
upward, and parry to send an enemy beam back. Waves of green, yellow and red
enemies drift down from above the screen. Each enemy throws bursts of one,
two or three beams, and costs the player a point of health if it gets past
the bottom. Ten waves make a campaign. Clearing wave 10 restores the player's
health and starts again at wave 1. Losing all health restarts the game
before wave 1.

This project models, in Dafny, what one pass of the game loop does to the
game's state, and proves properties of it:

- `Geometry` holds the screen size, the images' sizes, hitboxes and beams.
- `PlayerRules` holds the player's movement, shot and parry counters, and
  being hit.
- `EnemyRules` holds an enemy's drift and its burst machine, and one tick
  of a whole wave.
- `BeamRules` holds the beam handler's two passes: player beams against
  enemies, and enemy beams against the player.
- `RoundRules` holds the wave rosters, what `nextRound` spawns, and the
  round bookkeeping at the start of a frame.
- `InputRules` holds the event queue and the held keys.
- `Game` holds the objects the program updates in place: `BeamHandler`,
  `Player`, `Enemy`, and a `Session` for the game loop's locals. The
  methods are proved to change those objects as the rule functions say.
  A frame's steps from line 380 on are stated on a `World` value, the
  session read as values: each step's new world is a rule function of the
  old one, so their composition is too. `Session.Frame`, the whole pass,
  promises less (see "Left out").

The program's own quirks are kept as written:

- The player's shot counter starts at 15.
- An enemy's hitbox is created at (x+53, y+60), and its first tick moves it
  to (x+54, y+40).
- Wave 10's roster has the tag "greenyellow". Python joins the two adjacent
  string literals into it, and that tag spawns nothing.
- The game loop starts at round 9.
- A player beam that touches a second enemy after a hit that did not kill
  makes `list.remove` raise `ValueError`. The model reports this as a crash.

Inputs the program takes from pygame and `random` are parameters of the
model:

- the event queue and the pressed keys;
- the title, win and lose screens' answers;
- a collision test;
- the random draws for each spawned enemy;
- the sizes of the images.

## Model

| member | source | states |
|---|---|---|
| Geometry.Hitbox.MovedTo | SpaceSwordsman/main.py:52-54 | the hitbox is at the new position and keeps its size |
| Geometry.Beam.Moved | SpaceSwordsman/main.py:78-79 | a move lowers y by the velocity and changes nothing else |
| Geometry.MovedNShift | SpaceSwordsman/main.py:78-79 | n moves shift the beam by n times its velocity |
| Geometry.PlayerBeamLeaves | SpaceSwordsman/main.py:82-83 | an upward beam is offscreen once it has moved past its own height above the top |
| Geometry.EnemyBeamLeaves | SpaceSwordsman/main.py:82-83 | a downward beam is offscreen once it has moved past the bottom edge |
| Geometry.PlayerBeamStaysOn | SpaceSwordsman/main.py:82-83 | converse of PlayerBeamLeaves: an upward beam starting on screen is still on screen while it has moved no more than its start height plus its own height |
| Geometry.EnemyBeamStaysOn | SpaceSwordsman/main.py:82-83 | converse of EnemyBeamLeaves: a downward beam starting on screen is still on screen while it has moved no more than its distance to the bottom edge |
| Geometry.Beam.Offscreen | SpaceSwordsman/main.py:82-83 | a beam whose top is between the top and bottom edges is on screen; an offscreen one lies above the top or below the bottom |
| Geometry.OffscreenStaysOffscreen | SpaceSwordsman/main.py:82-83 | a beam past the edge it moves toward stays offscreen |
| PlayerRules.HitboxAt | SpaceSwordsman/main.py:185 | the player's hitbox is the 21x21 box at (x+54, y+40) |
| PlayerRules.Move | SpaceSwordsman/main.py:188-194 | the player steps by 5 exactly when not parrying and the step keeps them strictly inside the screen; the hitbox follows; nothing else changes |
| PlayerRules.Shoot | SpaceSwordsman/main.py:197-202 | with both counters at 0, one beam leaves from (x, y-10) at speed 10, the sprite swings and the shot counter starts; otherwise nothing happens; counters stay in range |
| PlayerRules.Parry | SpaceSwordsman/main.py:205-208 | a parry starts only from counter 0, shows the first parry sprite and opens the reflecting window |
| PlayerRules.TickShot | SpaceSwordsman/main.py:213-217 | the shot counter stays at 0, counts up to 31, then returns to 0 |
| PlayerRules.TickParry | SpaceSwordsman/main.py:220-227 | the parry counter stays at 0, counts up to 51, then returns to 0 |
| PlayerRules.Tick | SpaceSwordsman/main.py:211-227 | both counters advance; the sprite is the locked parry pose at 11, idle at the parry's end, and otherwise follows the shot counter; counters stay in range |
| PlayerRules.Hit | SpaceSwordsman/main.py:230-239 | inside the parry window the beam is sent back up from the hit's x and both counters reset at no health cost; outside it the player loses exactly one point; position and hitbox never move |
| PlayerRules.ShotCountdown | SpaceSwordsman/main.py:213-217 | n ticks after a shot the counter is its start plus n, or 0 once past 31 |
| PlayerRules.ShotInterval | SpaceSwordsman/main.py:197-217 | after a shot the player can shoot again exactly 31 ticks later and not before |
| PlayerRules.ParryCountdown | SpaceSwordsman/main.py:220-227 | n ticks into a parry the counter is its start plus n, or 0 once past 51 |
| PlayerRules.ParryTimeline | SpaceSwordsman/main.py:205-231 | a parry reflects for its first 10 ticks, and the player stays locked for 51 ticks; since the player ticks (line 385) before the enemy beams are checked (line 386), the reflect window covers 9 frames of play: the parry frame and the 8 after it |
| PlayerRules.TickNCounters | SpaceSwordsman/main.py:211-227 | n ticks move the two counters independently and change nothing but counters and sprite |
| PlayerRules.ParryPoseTimeline | SpaceSwordsman/main.py:205-227 | the sprite during a parry started at rest: the first parry pose for ticks 0 to 10, the second for ticks 11 to 50, idle at tick 51, when the counter is back at 0 |
| EnemyRules.ShotNum | SpaceSwordsman/main.py:313-317 | every tier's burst has between 1 and 3 shots |
| EnemyRules.MaxHealth | SpaceSwordsman/main.py:313-317 | each tier's health equals its burst size |
| EnemyRules.BurstGap | SpaceSwordsman/main.py:283-285 | the largest whole gap with gap times burst size at most 60 |
| EnemyRules.GapComparison | SpaceSwordsman/main.py:283-285 | comparing a counter with the float 60/shotNum is the same as comparing with the whole gap |
| EnemyRules.Cooldown | SpaceSwordsman/main.py:282-298 | mid-burst the counter resets past the gap; after a burst it resets past 120 together with the shot count; otherwise a running counter counts up and 0 stays 0 |
| EnemyRules.Advance | SpaceSwordsman/main.py:282-301 | the cooldown step, then a shot exactly when the counter is 0, which restarts it at 1 and adds one to the burst |
| EnemyRules.Tick | SpaceSwordsman/main.py:277-301 | drift down 1.5 with the hitbox reseated at (x+54, y+40); the counters follow Advance and a beam is thrown exactly when it fires: at most one, from (x, y-10) at speed -9, with the swing sprite; without a shot the sprite turns idle once the counter passes 15 mid-burst or 30 in the cooldown, and otherwise stays; health unchanged; counters stay in range |
| EnemyRules.AdvanceNAdd | SpaceSwordsman/main.py:277-301 | m+n ticks of the burst machine are m ticks then n, and their shots add up |
| EnemyRules.QuietInBurst | SpaceSwordsman/main.py:282-286 | between two shots of a burst the counter only counts up, and nothing is fired |
| EnemyRules.QuietInCooldown | SpaceSwordsman/main.py:291-296 | during the cooldown after a burst the counter only counts up, and nothing is fired |
| EnemyRules.BurstSpacing | SpaceSwordsman/main.py:268-286 | shots inside a burst come exactly gap+1 ticks apart |
| EnemyRules.CooldownSpacing | SpaceSwordsman/main.py:268-296 | the first shot of the next burst comes exactly 121 ticks after the last one |
| EnemyRules.CycleLengthIs | SpaceSwordsman/main.py:277-301 | the ticks from a burst's k-th shot to the next burst's first |
| EnemyRules.BurstCycle | SpaceSwordsman/main.py:255-301 | from its k-th shot an enemy returns to its first shot after CycleLength ticks, having fired the rest of the burst |
| EnemyRules.TierPeriods | SpaceSwordsman/main.py:255-317 | green fires once per 121 ticks, yellow twice per 152, red three times per 163 |
| EnemyRules.ExtraShotAtSpawn | SpaceSwordsman/main.py:257-274 | a spawn draw of a full burst with counter 0 still fires, making a burst of shotNum+1 |
| EnemyRules.DriftAfter | SpaceSwordsman/main.py:258-265 | n ticks move an enemy down by 1.5n and leave its x and health alone |
| EnemyRules.EscapedStays | SpaceSwordsman/main.py:263-265 | an enemy past the bottom edge, the test of line 382, stays past it however many ticks follow |
| EnemyRules.EscapeWindow | SpaceSwordsman/main.py:313-317 | an enemy spawned between y=-2000 and y=-50 is still on the field after 566 ticks and past the bottom after 1867 |
| EnemyRules.TickAll | SpaceSwordsman/main.py:380-381 | each enemy of the wave takes its own tick |
| EnemyRules.EscapeCount | SpaceSwordsman/main.py:382-384 | the escapees number at most the wave |
| EnemyRules.FieldIndices | SpaceSwordsman/main.py:380-384 | the positions of the enemies not past the bottom: ascending, every such position once, as many as the wave minus the escapees |
| EnemyRules.KeepOnField | SpaceSwordsman/main.py:380-384 | the kept enemies number the wave minus the escapees; each one not past the bottom is kept, each kept one comes from the wave, and distinct enemies stay distinct |
| EnemyRules.KeepOnFieldOrder | SpaceSwordsman/main.py:380-384 | the kept list is the wave read at FieldIndices' positions, so the enemies keep their order |
| EnemyRules.Volley | SpaceSwordsman/main.py:380-381 | a wave's tick throws at most one beam per enemy, every one moving down at speed 9 |
| BeamRules.ScanFrom | SpaceSwordsman/main.py:111-117 | a scan that finishes has removed the beam if it already was, and has dropped at most one enemy; a scan that leaves the beam in place leaves the enemies as they were |
| BeamRules.Strike | SpaceSwordsman/main.py:111-117 | only a beam that touches someone can crash the pass, and a finished scan removes the beam exactly when it touched someone |
| BeamRules.FirstHit | SpaceSwordsman/main.py:111-112 | the first enemy the beam touches, or none |
| BeamRules.ScanAfterRemoval | SpaceSwordsman/main.py:111-117 | once the beam has been removed, the scan crashes exactly when it touches another enemy |
| BeamRules.ScanIsStrike | SpaceSwordsman/main.py:111-117 | the scan of the enemies equals Strike: the first enemy touched loses a point and leaves at 0; the pass crashes exactly when that enemy survives and another is touched later |
| BeamRules.DoubleTouchCrashes | SpaceSwordsman/main.py:111-117 | two overlapping enemies, the first at health 2, crash the game with ValueError |
| BeamRules.StrikeCost | SpaceSwordsman/main.py:111-117 | a beam is removed if and only if it touched someone, and then total enemy health falls by exactly one; the living stay alive and in order; at most one enemy leaves |
| BeamRules.RemoveCost | SpaceSwordsman/main.py:115-116 | removing a killed enemy takes its health off the total and keeps the others alive and in order |
| BeamRules.TotalHealthRemove | SpaceSwordsman/main.py:115-116 | dropping an enemy removes exactly its health from the total |
| BeamRules.TotalHealthUpdate | SpaceSwordsman/main.py:114 | changing one enemy's health changes the total by the difference |
| BeamRules.AscendingRemove | SpaceSwordsman/main.py:116 | removing an enemy keeps the rest in list order |
| BeamRules.HealthOfRemove | SpaceSwordsman/main.py:116 | after a removal the removed enemy counts as 0 and the others are unchanged |
| BeamRules.PlayerPassFrom | SpaceSwordsman/main.py:103-117 | a finished pass from the i-th beam keeps the beams already kept and adds at most the beams left; no enemy is added |
| BeamRules.PlayerPass | SpaceSwordsman/main.py:103-117 | a finished pass keeps at most the beams it started with and at most the enemies |
| BeamRules.PlayerPassAccounting | SpaceSwordsman/main.py:103-117 | every player beam is kept, leaves offscreen, or is spent on one point of enemy health; the kept beams extend those already kept and are all on screen |
| BeamRules.PlayerPassCost | SpaceSwordsman/main.py:103-117 | over the whole list, enemy health falls by the beams spent; survivors are alive and in order; every kept beam is on screen |
| BeamRules.OnScreen | SpaceSwordsman/main.py:104-109 | the moved beams still on screen number the beams minus those offscreen |
| BeamRules.PlayerPassUntouched | SpaceSwordsman/main.py:103-117 | with no enemy touched, the pass only moves the beams and drops the offscreen ones, keeping order |
| BeamRules.EnemyPassFrom | SpaceSwordsman/main.py:120-130 | the pass from the i-th beam keeps the beams already kept and adds at most the beams left |
| BeamRules.EnemyPass | SpaceSwordsman/main.py:120-130 | the pass keeps at most the enemy beams it started with |
| BeamRules.EnemyPassAccounting | SpaceSwordsman/main.py:120-130 | the kept enemy beams are exactly those, moved, that neither touch the player nor are offscreen; each touch either costs one health or is reflected |
| BeamRules.EnemyPassPlayer | SpaceSwordsman/main.py:120-130 | the player never moves during the pass; a pass reflects at most one beam, and only from inside the parry window; counters stay in range |
| BeamRules.EnemyPassCost | SpaceSwordsman/main.py:120-130 | over the whole list: kept beams, health lost equals touches minus reflections, at most one reflection, the player stays put |
| BeamRules.StruckOutsideParry | SpaceSwordsman/main.py:230-239 | a full-health player outside a parry hit by the only enemy beam is left at 4 health and the beam is gone |
| RoundRules.Roster | SpaceSwordsman/main.py:330-339 | every wave lists 4 to 11 tags, and in waves 1 to 9 every tag names a tier |
| RoundRules.TierOf | SpaceSwordsman/main.py:311-317 | "green", "yellow" and "red" build their tiers, each if and only if the tag is that word; any other tag builds nothing |
| RoundRules.RecruitOf | SpaceSwordsman/main.py:311-317 | a tag gives one recruit, of its tier and with its own draw, exactly when it names a tier, and none otherwise |
| RoundRules.Recruits | SpaceSwordsman/main.py:310-317 | a roster gives at most one recruit per tag |
| RoundRules.Spawned | SpaceSwordsman/main.py:251-261 | a spawned enemy starts alive, with as much health as shots in its burst |
| RoundRules.RecruitsStep | SpaceSwordsman/main.py:311-317 | one more tag of the roster appends that tag's recruit |
| RoundRules.SpawnedSound | SpaceSwordsman/main.py:251-261 | a spawn within the random ranges is alive, above the screen, inside it horizontally, with the burst counters in range and the hitbox at (x+53, y+60), moved to (x+54, y+40) by the first tick |
| RoundRules.RecruitsAppend | SpaceSwordsman/main.py:311-317 | a roster split in two spawns its halves one after the other |
| RoundRules.RecruitsFollowTiers | SpaceSwordsman/main.py:310-317 | nextRound spawns exactly the roster's recognised tiers, in roster order |
| RoundRules.WaveTenRoster | SpaceSwordsman/main.py:339 | wave 10's roster as Python reads it, with the joined tag "greenyellow" fourth |
| RoundRules.TagsOfWaveTen | SpaceSwordsman/main.py:339 | the tags of wave 10 and their tiers; "greenyellow" has none |
| RoundRules.WaveTenTiers | SpaceSwordsman/main.py:339 | wave 10 lists 11 tags, the fourth is "greenyellow", and it asks for 3 green, 3 yellow and 4 red |
| RoundRules.WaveTenLosesAnEnemy | SpaceSwordsman/main.py:339 | wave 10 lists eleven tags but spawns ten enemies |
| RoundRules.StartOfFrame | SpaceSwordsman/main.py:346-354 | play on if and only if enemies remain; the next wave if and only if the field is empty before wave 10; the win reset if and only if it is empty at wave 10 or later |
| RoundRules.WaveAfter | SpaceSwordsman/main.py:346-352 | the wave an empty field spawns: the next one, or 1 after the last; always an existing wave |
| RoundRules.RoundStaysInRange | SpaceSwordsman/main.py:341-354 | rounds stay in 0..10, and an empty field always spawns the wave the round now names |
| RoundRules.CampaignOrder | SpaceSwordsman/main.py:346-352 | after a loss the waves come in order 1 to 10, and after wave 10 the campaign restarts at 1 |
| RoundRules.FirstFrameSpawnsLastWave | SpaceSwordsman/main.py:341-348 | the first frame of a game spawns wave 10 |
| InputRules.PollFrom | SpaceSwordsman/main.py:357-365 | the queue leaves the player as it was or parried, and reports a quit exactly when one of the events left is a quit |
| InputRules.FirstQuit | SpaceSwordsman/main.py:357-360 | the position of the first quit event, or the end of the queue |
| InputRules.PollMeaning | SpaceSwordsman/main.py:357-365 | the player parries if and only if left shift was pressed before the first quit, however often; later presses are never seen; the quit flag is set if and only if the queue holds a quit |
| InputRules.Steer | SpaceSwordsman/main.py:368-374 | left wins over right: with left held the player steps 5 left exactly when not parrying and the step stays inside the screen, otherwise with right held 5 right on the same terms, and with neither it stays; the new state is the stepped state (x and the hitbox move), and on a shot additionally the swing sprite and a shot counter of 1; y and health never change; a beam leaves, at most one, exactly when space is held and the player can shoot |
| Game.BeamHandler.constructor | SpaceSwordsman/main.py:98-100 | both beam lists start empty |
| Game.BeamHandler.AddPlayerBeam | SpaceSwordsman/main.py:137-138 | the beam is appended to the player beams |
| Game.BeamHandler.AddEnemyBeam | SpaceSwordsman/main.py:140-141 | the beam is appended to the enemy beams |
| Game.BeamHandler.Reset | SpaceSwordsman/main.py:143-145 | both lists are emptied |
| Game.BeamHandler.UpdatePlayerBeams | SpaceSwordsman/main.py:103-117 | the loop over the copy crashes if and only if PlayerPass does; otherwise the beam list and each enemy's health are PlayerPass's, and the survivors are the enemies it keeps, in order |
| Game.BeamHandler.PassBeam | SpaceSwordsman/main.py:104-117 | one beam of the copy: the beam list, the enemies and the crash flag move one step of PlayerPassFrom |
| Game.BeamHandler.ScanEnemies | SpaceSwordsman/main.py:111-117 | the inner loop crashes if and only if ScanFrom does; otherwise beams and enemies are what ScanFrom leaves |
| Game.BeamHandler.UpdateEnemyBeams | SpaceSwordsman/main.py:120-130 | the beam list, the player and the reflected player beams are exactly EnemyPass's |
| Game.BeamHandler.Tick | SpaceSwordsman/main.py:133-135 | the player-beam pass, then, unless it crashed, the enemy-beam pass, with the reflected beams after the surviving player beams |
| Game.HitEnemy | SpaceSwordsman/main.py:163-164 | the hit enemy loses one point and the pass's view of the enemies follows |
| Game.RemoveEnemy | SpaceSwordsman/main.py:115-116 | removing an enemy at 0 health keeps the pass's view consistent |
| Game.Player.constructor | SpaceSwordsman/main.py:176-185 | full health 5, the idle sprite, shot counter 15, parry counter 0, hitbox at (x+54, y+40) |
| Game.Player.Move | SpaceSwordsman/main.py:188-194 | the new state is PlayerRules.Move's, and the hitbox stays at its offset with the counters in range |
| Game.Player.Shoot | SpaceSwordsman/main.py:197-202 | the new state is PlayerRules.Shoot's, and its beam is appended to the handler's player beams |
| Game.Player.Parry | SpaceSwordsman/main.py:205-208 | the new state is PlayerRules.Parry's |
| Game.Player.Tick | SpaceSwordsman/main.py:211-227 | the new state is PlayerRules.Tick's |
| Game.Player.Hit | SpaceSwordsman/main.py:230-239 | the new state is PlayerRules.Hit's, and a reflected beam is appended to the player beams |
| Game.Player.SetHealth | SpaceSwordsman/main.py:241-242 | health becomes the given value |
| Game.Player.ResetHealth | SpaceSwordsman/main.py:244-245 | health returns to the maximum |
| Game.Enemy.constructor | SpaceSwordsman/main.py:251-261 | the enemy starts at its given maximum health with the idle sprite, the drawn counters, the given burst size and images, and the hitbox at (x+53, y+60) |
| Game.Enemy.Hit | SpaceSwordsman/main.py:163-164 | health falls by one |
| Game.Enemy.Move | SpaceSwordsman/main.py:263-265 | y grows by 1.5 and the hitbox is reseated at (x+54, y+40) |
| Game.Enemy.Shoot | SpaceSwordsman/main.py:268-274 | with the counter at 0 a beam is appended to the enemy beams, the sprite swings, the counter restarts and the burst grows; otherwise nothing changes |
| Game.Enemy.Tick | SpaceSwordsman/main.py:277-301 | the new state is EnemyRules.Tick's, with its beam appended to the handler's enemy beams |
| Game.Recruit | SpaceSwordsman/main.py:311-317 | builds the one enemy a tag asks for, fresh and linked to the handler, or none |
| Game.FieldedAppend | SpaceSwordsman/main.py:311-317 | enemies built for two parts of a roster together match the whole roster |
| Game.NextRound | SpaceSwordsman/main.py:310-317 | the list keeps its old enemies and gains fresh distinct ones spawned exactly as RoundRules.Recruits says |
| Game.SurvivorsFit | SpaceSwordsman/main.py:111-117 | the enemies a pass keeps are distinct, alive and linked to the handler |
| Game.PassBeams | SpaceSwordsman/main.py:133-135 | the handler's tick, with the wave invariant and the player's invariant kept when it does not crash |
| Game.TickAt | SpaceSwordsman/main.py:381 | one enemy ticks as EnemyRules.Tick says and its beam joins the volley |
| Game.Leave | SpaceSwordsman/main.py:382-384 | an enemy past the bottom leaves the list and costs the player one point, any other stays; nothing else of the player changes |
| Game.TickStep | SpaceSwordsman/main.py:380-384 | one step of the enemy loop keeps the loop's invariant |
| Game.TickLoop | SpaceSwordsman/main.py:380-384 | after the loop every enemy has its ticked state, kept holds those still on the field, the volley is appended and health has fallen by the escapees; the rest of the player is untouched |
| Game.TickWave | SpaceSwordsman/main.py:380-384 | every enemy takes EnemyRules.Tick; the list becomes KeepOnField; the volley is appended to the enemy beams; health falls by the escapees; the rest of the player is untouched |
| Game.StatesKept | SpaceSwordsman/main.py:380-384 | reading the states of the kept enemies gives the kept states |
| Game.KeptFit | SpaceSwordsman/main.py:382-383 | the kept enemies are still distinct and sound |
| Game.Session.constructor | SpaceSwordsman/main.py:323-342 | round 9, no enemies, empty beam lists, the player centred at y=650 with full health, running as the title screen says |
| Game.Session.StartFrame | SpaceSwordsman/main.py:346-354 | with enemies left nothing changes; with none before wave 10 the round advances and its roster is spawned; with none at wave 10 the round is 1, health is full, beams are cleared, wave 1 is spawned and running follows the win screen |
| Game.Session.FillWave | SpaceSwordsman/main.py:346-354 | the empty field is filled with the current round's roster |
| Game.Session.PollEvents | SpaceSwordsman/main.py:357-365 | the player and the running flag become what InputRules.PollFrom says |
| Game.Session.ApplyKeys | SpaceSwordsman/main.py:368-374 | the player and the handler's player beams become what InputRules.Steer says |
| Game.EnemiesTickedParts | SpaceSwordsman/main.py:380-384 | a world matching the enemy loop part by part is EnemiesTicked's world |
| Game.Session.TickEnemies | SpaceSwordsman/main.py:380-384 | the new world is EnemiesTicked's: every enemy takes EnemyRules.Tick, the list becomes KeepOnField, the volley joins the enemy beams, health falls by the escapees; round and running stay |
| Game.Session.TickPlayer | SpaceSwordsman/main.py:385 | the new world is PlayerTicked's: the player takes PlayerRules.Tick |
| Game.Session.TickBeams | SpaceSwordsman/main.py:386 | crashes if and only if PlayerPass does; otherwise the enemies, beams and player are exactly what the two passes give from the old world |
| Game.Session.Restart | SpaceSwordsman/main.py:399-403 | round 0, no enemies, no beams, full health with the rest of the player kept, running as the lose screen says; the session is settled |
| Game.Session.TakeInput | SpaceSwordsman/main.py:346-374 | the round and wave from StartOfFrame, the player from PollFrom and then Steer, the running flag from the win screen and the quit event, the beams cleared on a win and then the shot appended |
| Game.Session.Prepare | SpaceSwordsman/main.py:380-385 | the new world is the enemies' and then the player's tick of the old one |
| Game.Session.Advance | SpaceSwordsman/main.py:380-386 | the beam handler's tick from the world after the enemies' and the player's ticks |
| Game.Session.Conclude | SpaceSwordsman/main.py:398-403 | when the beam tick did not crash and left the player without health, Restart's state with the rest of the player from the enemy-beam pass; otherwise the beam tick's state; a session that did not crash is settled |
| Game.Session.Update | SpaceSwordsman/main.py:380-403 | Conclude after Advance: the whole pass from line 380 as a function of the old world, the crash exactly when PlayerPass crashes |
| Game.Session.Frame | SpaceSwordsman/main.py:343-403 | one pass of the loop leaves the session settled whenever it does not crash |

## Left out

- Drawing, the background, the round and health text, fonts, the display
  update and `pygame.quit` are not modelled. They change no game state.
- The title, win and lose screens are their own loops. Here they are the
  booleans that say whether the game goes on.
- `clock.tick(60)` is left out: the model counts frames, not time.
- `pygame.event.get` and `pygame.key.get_pressed` are not modelled. Each
  frame is given an event sequence and a record of held keys instead.
- `pygame.mask` collision is not modelled. Every collision test is the
  parameter `collide`, which the proofs treat as an arbitrary predicate on a
  beam and a hitbox.
- `random.randint` is not modelled. Each enemy's draws are given as a
  `Spawn` value, and the model requires them to lie in the ranges of
  `randint`.
- Loading and scaling the images are not modelled. Only their widths and
  heights matter, and they are given as `Assets`.
- Floating-point positions are modelled as exact reals. The enemy's
  `60 / shotNum` comparison is proved equal to a whole-number gap.
- Beams and hitboxes are values here, not shared objects. Each is owned by
  exactly one list or swordsman, so no aliasing is lost.
- Removing an enemy or a beam from a Python list is modelled as rebuilding
  the list without that element. The order of the rest is kept.
- Game.Session.Update: after the crash of the player-beam pass only the
  crash itself is promised, not the state. The program raises `ValueError`
  and stops.
- Game.Session.Frame: promises only that a pass that did not crash leaves
  the session settled, not the new state. Its two halves state it:
  TakeInput up to line 374 and Update from line 380. The composition is
  not stated because a wave spawned at lines 346-354 consists of new
  objects, which the end state no longer describes in the old state's
  terms.
