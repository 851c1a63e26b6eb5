# PlanSpace game rules in Dafny

PlanSpace is a browser flight game with a small score server. The player
flies a plane down a corridor of ring gates. Ten enemy fighters chase the
plane, fire at it and ram it. The player shoots back with a gun or with
missiles that need a lock-on. A run is complete once every enemy is down
and at least two gates have been passed. The finishing time can then be
posted to an express/MySQL server, which keeps a leaderboard.

This project models the rule layer that runs every animation frame, plus the
server's request handling:

- `Utils` holds `clamp`, `randomRange` with the random draw passed in, and `Math.round`.
- `Events` holds the three callbacks components report through (`onPass`,
  `onHit`, `onDisable`). Each is an event value, and `Game.Dispatch` folds
  them into the mission state.
- `Pools` models the active/free record lists that bullets, missiles and
  enemy bullets recycle through.
- `Gates`: the gate row, the pass test and the row recycle.
- `Enemies`: difficulty, the active window, enemy steering, fire and ramming, and enemy bullets.
- `Bullets` and `Missiles`: the player's two weapons, with their reverse-order hit loops.
- `Projectiles`: what the reverse-order hit loops do to each bullet or missile, stated projectile by projectile: its fate and the enemies it meets.
- `Lock`: lock candidates, lock progress, the HUD readout and target cycling.
- `Game`: the callbacks, `checkCompletion`, the timer, speed, weapon switching,
  one `animate` tick and `resetGame`.
- `I18n`: the `{name}` template formatter, language choice and the string tables.
- `Server`: `GET /api/score` (limit parsing and top-N query) and
  `POST /api/score` (payload validation and normalisation). It includes a
  model of JavaScript's `Number(string)` and `String.prototype.trim`.

Geometry is abstracted. Positions and vectors are not modelled. Each frame
supplies the distances the code computes (gate to player, enemy to player,
projectile to enemy) as a `Frame`: sequences for the fixed gate and enemy
arrays, and functions of (projectile index, enemy index) for the projectile
lists. Headings are symbolic. `Steering.Blend(h, aim, factor)` records one
`lerp(...).normalize()` step, so a proof can count homing and turning steps.
Every `Math.random()` value is a parameter in [0, 1).

## Model

| member | source | states |
|---|---|---|
| Utils.Clamp | src/game/utils.js:1-3 | The result is never below the lower bound, stays within the bounds when they are ordered, is the value itself inside them and is the nearer bound outside them. With inverted bounds it is the lower bound. |
| Utils.ClampIdempotent | src/game/utils.js:1-3 | Clamping an already clamped value changes nothing. |
| Utils.RandomRange | src/game/utils.js:5-7 | With a draw in [0, 1), the result lies in [min, max) when min < max, and equals min when the bounds coincide. |
| Utils.Round | server/index.js:53 | `Math.round` returns the integer within half a unit of its input, with halves going up: x - 0.5 < n <= x + 0.5. |
| Utils.RoundOfSmallPositiveIsZero | server/index.js:46-53 | Every positive input below one half rounds to 0. |
| Sorting.SortBy | src/game.js:304 | The stable sort used for lock candidates and the leaderboard returns a permutation of its input (same multiset) ordered by the key. |
| Pools.Spawn | src/game/bullets.js:20-33 | A spawned record goes to the end of the active list. A free record is reused when one exists, keeping the pool size; otherwise exactly one record is created. |
| Pools.Recycle | src/game/bullets.js:35-40 | Recycling active record i removes it from the active list, keeping the order of the others, and pushes it onto the free list. No record is created or lost. |
| Pools.KeepDropSplit | src/game/bullets.js:49-69 | Splitting a list by per-record flags into the unflagged records and the flagged ones loses none and duplicates none: together they hold the whole list, as a multiset and by count. |
| Pools.RecycleDown | src/game/bullets.js:35-40 | Recycling at every flagged index, from the top index down, never changes the number of records in the pool. |
| Pools.RecycleDownSplits | src/game/bullets.js:35-69 | Recycling at every flagged index below n, highest first, leaves the unflagged records among the first n in their order, followed by the untouched rest of the list, and pushes the flagged ones onto the free list highest index first. |
| Pools.Clear | src/game/bullets.js:14-18 | Reset leaves a pool with no records at all. |
| Gates.ResetGate | src/game/gates.js:22-29 | A reset gate is unmarked, with x in [-18, 18), y in [3, 14) and z in (-85 - 50i, -60 - 50i] for gate i. |
| Gates.ResetAll | src/game/gates.js:31-33 | Every gate is reset at its own index, so none is counted as passed. |
| Gates.MarkPassed | src/game/gates.js:36-47 | A gate ends up marked if and only if it was already marked or is within 85% of its radius. The marked count rises by exactly the number of newly marked gates. |
| Gates.Update | src/game/gates.js:35-54 | The pass counter keeps agreeing with the gate flags. It stays below the gate count, except for an empty row. Every callback is an `onPass`. When the last gate is passed, the row is recycled: every gate i is reset with its own draw to new random positions and no flag set, and the counter is 0. Otherwise only the pass flags change. |
| Gates.FullCountAllMarked | src/game/gates.js:49-53 | A marked count equal to the row length means every single gate is marked. |
| Gates.CountNewIsCard | src/game/gates.js:36-47 | The number of newly marked gates is the size of the set of unmarked gates within range. |
| Gates.OnePassPerNewGate | src/game/gates.js:36-47 | One update makes exactly as many `onPass` callbacks as there are gates that were not passed before and are crossed now. |
| Gates.CountedAtMostOnce | src/game/gates.js:36-47 | Unless the row was recycled, a gate newly passed in one update cannot be newly passed in the next, so no gate is counted twice. |
| Enemies.Merge | src/game/enemies.js:48 | Every difficulty field supplied in the patch replaces the current one. Every field left out keeps its value. |
| Enemies.SetDifficulty | src/game/enemies.js:47-52 | The difficulty becomes the merged one. Every enemy gets a new speed drawn from the merged range, in [speedMin, speedMax) when that range is proper. Nothing else changes. |
| Enemies.SetActiveCount | src/game/enemies.js:54-67 | The window is clamped to [0, number of enemies]. Exactly the enemies below the window are active, and no other field changes. |
| Enemies.ResetEnemy | src/game/enemies.js:69-80 | A reset enemy is active, keeps its speed and heading, and gets a first fire cooldown in [0.4, 1.4). |
| Enemies.ResetAll | src/game/enemies.js:82-87 | Every enemy is reset and active, and the enemy bullet pool is emptied. |
| Enemies.Disable | src/game/enemies.js:89-97 | Disabling an inactive enemy changes nothing and reports nothing. Disabling an active one clears only its flag and reports exactly one `onDisable`. |
| Enemies.DisableIdempotent | src/game/enemies.js:89-97 | A second disable of the same enemy is silent and changes nothing, so an enemy is never reported twice. |
| Enemies.FirstActiveWithin | src/game/bullets.js:59-68 | The hit scan returns the first active enemy, in array order, within the radius. It returns none exactly when no active enemy is within it. |
| Enemies.TurnFactor | src/game/enemies.js:149 | The turn factor never exceeds 1. It is not negative for non-negative rates and times, and equals rate times dt until it reaches 1. |
| Enemies.StepEnemy | src/game/enemies.js:143-161 | An enemy turns toward the player within tracking range, and otherwise against the player's flight direction. It fires exactly when the player is within 0.9 of the tracking range and its cooldown has run out, and the cooldown then restarts at the fire interval. It rams, and is switched off, exactly when it is within 2.2 of the player. |
| Enemies.Advance | src/game/enemies.js:139-162 | After the loop has handled the first k enemies, those are moved one step and the rest are untouched. |
| Enemies.AdvanceShots | src/game/enemies.js:139-162 | The loop adds one enemy bullet, with 2.2 s of life, per firing enemy, in enemy order. Free records are reused before new ones are made, taken from the end of the free list. |
| Enemies.AdvanceEvents | src/game/enemies.js:158-161 | The loop reports one `onHit` and one `onDisable` per ramming enemy and no gate pass. Every reported enemy is one that rammed. |
| Enemies.CooldownHoldsFire | src/game/enemies.js:152-156 | While an enemy's cooldown exceeds the total elapsed time it fires no shot, wherever the player is, and the cooldown drops by exactly that time. |
| Enemies.FireSpacing | src/game/enemies.js:152-156 | After a shot, an enemy fires again only once at least one fire interval has passed: while less time has elapsed it does not fire. |
| Enemies.SpawnShot | src/game/enemies.js:99-110 | A new enemy bullet with 2.2 s of life is appended, reusing a free record when there is one. |
| Enemies.SweepShots | src/game/enemies.js:119-134 | Every enemy bullet, after aging, is either kept (alive) or recycled, with none lost or duplicated. Hits on the player never outnumber recycled bullets. |
| Enemies.SweepShotsFates | src/game/enemies.js:119-134 | As many bullets are kept as are still flying. Each live bullet within 2.2 of the player hits it once. The number recycled is the expired ones plus the hits. |
| Enemies.SweepShotsByFates | src/game/enemies.js:119-134 | Bullet by bullet: the kept list is the aged bullets that neither expired nor reached the player, in their order. The recycled list is every other aged bullet, last index first. |
| Enemies.SweepShotsRecycles | src/game/enemies.js:112-134 | The pool after the loop is exactly the one that `recycleBullet` at each spent bullet's index, from the last index down, produces. |
| Enemies.SettleShots | src/game/enemies.js:112-134 | `updateBullets` keeps the pool's size. Only live bullets stay active: the aged ones still flying, in order. The pool is `recycleBullet` applied at every spent bullet's index, highest first. |
| Enemies.Update | src/game/enemies.js:136-165 | Enemies outside the active window or already down are untouched, and the rest move one step. The bullets fired this tick are appended, reusing free records first. The resulting bullet list is the aged bullets, old and new, that neither expired nor reached the player, in order. The free list is the reused-from list with the spent bullets pushed, last index first. Every surviving enemy bullet is alive. The callbacks are one `onHit` per ramming enemy and per bullet that reaches the player, one `onDisable` per ramming enemy, and no gate pass. |
| Projectiles.Strike | src/game/bullets.js:54-68 | A projectile is Expired exactly when its life after the decrement is at most 0. A live one strikes enemy j only if j is active and in range and no active enemy before j is in range. It flies on exactly when it is live and no active enemy is in range. |
| Projectiles.Left | src/game/bullets.js:59-68 | After one turn only the struck enemy's active flag is cleared. Every other enemy, and every other field, is unchanged. |
| Projectiles.TurnDisables | src/game/bullets.js:63-66 | A turn that strikes an active enemy, followed by any run of disables, is itself a run of disables, and the turn adds at most one `onDisable` of its own. |
| Projectiles.SeenBelow | src/game/bullets.js:49-68 | An enemy that is active when projectile i has its turn was active before the loop: the projectiles after i never switch an enemy back on. |
| Projectiles.OutcomeAbove | src/game/bullets.js:49-68 | An enemy still active after the loop was active after the turn of every single projectile. |
| Projectiles.StruckIsDisabled | src/game/bullets.js:49-68 | Projectile i strikes enemy j exactly when j is the first active enemy in range among those the later projectiles left active. Such a j was active before the loop and is off after it. |
| Bullets.Reset | src/game/bullets.js:14-18 | Reset empties both bullet lists and keeps the cooldown. |
| Bullets.Sweep | src/game/bullets.js:49-69 | Every bullet, after aging, is either kept (alive) or recycled, with none lost or duplicated. The enemy list keeps its length. |
| Bullets.SweepDisables | src/game/bullets.js:49-69 | The gun's loop only switches enemies off. It reports exactly one `onDisable` per enemy switched off, and at most one per recycled bullet. |
| Bullets.SweepByFates | src/game/bullets.js:49-69 | Read bullet by bullet, the loop leaves the enemies as the bullets' fates leave them, taken from the last bullet down. It keeps the flying bullets in their order and recycles the others, highest index first. |
| Bullets.SweepRecycles | src/game/bullets.js:35-69 | The pool after the loop is exactly the one that `recycleBullet` at each spent bullet's index, from the last index down, produces. |
| Bullets.Arm | src/game/bullets.js:43-46 | With the trigger held and the cooldown run out, exactly one bullet with 1.4 s of life joins the end of the active list and the cooldown restarts at 0.18 s. Otherwise nothing changes. |
| Bullets.Update | src/game/bullets.js:42-70 | Firing needs the trigger and an expired cooldown. The cooldown then restarts at 0.18 s less the tick, and never goes negative. A shot grows the pool only when no free record is left. Only live bullets stay active, and enemies are only ever switched off, one callback each. Every bullet record, after aging, ends up either in flight or in the free list, with none lost or duplicated. The final pool is `recycleBullet` applied at every spent bullet's index, highest first, and the enemies are those the bullets' fates leave. |
| Bullets.Settle | src/game/bullets.js:47-69 | After the fire step, the cooldown runs down to no less than 0, the pool keeps its size, only live bullets stay active, enemies are only switched off with one callback each, and exactly the spent bullets are recycled. |
| Bullets.ExpiredBulletHitsNothing | src/game/bullets.js:54-57 | A bullet at any index whose life runs out is Expired. It leaves the enemies it meets untouched, even one right on it, and is recycled. |
| Bullets.LiveBulletHitsFirst | src/game/bullets.js:59-68 | A live bullet at any index disables exactly the first active enemy in range among those the later bullets left active. That enemy was active before the loop, is off after it and is reported, and the bullet is recycled. |
| Bullets.MissingBulletFlies | src/game/bullets.js:59-69 | A live bullet with no active enemy in range at its turn stays active. |
| Missiles.Reset | src/game/missiles.js:40-44 | Reset empties both missile lists and keeps the cooldown. |
| Missiles.Launch | src/game/missiles.js:15-31 | A launched missile has 3.2 s of life, the locked target and a fresh heading. A free record is reused when there is one. |
| Missiles.Steer | src/game/missiles.js:55-60 | A missile loses dt of life and keeps its target. It makes one homing turn toward its target exactly when that target is still active; otherwise it flies straight on. |
| Missiles.Arm | src/game/missiles.js:47-50 | With the trigger held, a locked target and the cooldown run out, exactly one missile with 3.2 s of life at that target joins the end of the active list and the cooldown restarts at 0.6 s. Otherwise nothing changes. |
| Missiles.Sweep | src/game/missiles.js:53-80 | Every missile is either kept (alive) or recycled. Each gets one steering step and one recorded fate, and the enemy list keeps its length. |
| Missiles.SweepConserves | src/game/missiles.js:53-80 | Every steered missile is either kept in flight or recycled, with none lost or duplicated. |
| Missiles.SweepDisables | src/game/missiles.js:70-79 | The missile loop only switches enemies off. It reports exactly one `onDisable` per enemy switched off, and at most one per recycled missile. |
| Missiles.SweepMonotone | src/game/missiles.js:53-80 | No enemy is switched back on by the missile loop. |
| Missiles.SweepSteers | src/game/missiles.js:53-60 | A missile whose target was down before the loop flies straight. One whose target is still up after the loop made a homing turn toward it. |
| Missiles.SweepByFates | src/game/missiles.js:53-80 | The recorded fates are the missile-by-missile fates. Each missile is steered against the enemies it meets at its turn, and the enemies end as the fates leave them. The flying missiles are kept in order and the others recycled, highest index first. |
| Missiles.SweepRecycles | src/game/missiles.js:33-80 | The pool after the loop is exactly the one that `recycleMissile` at each spent missile's index, from the last index down, produces. |
| Missiles.Update | src/game/missiles.js:46-81 | A launch needs the request, a target and an expired cooldown. The cooldown then restarts at 0.6 s less the tick, and never goes negative. Only live missiles stay active, and enemies are only ever switched off, one callback each. Every missile record, after steering, ends up either in flight or in the free list. The final pool is `recycleMissile` applied at every spent missile's index, highest first, and the enemies are those the missiles' fates leave. |
| Missiles.Settle | src/game/missiles.js:51-80 | After the launch step, the cooldown runs down to no less than 0, the pool keeps its size, only live missiles stay active, enemies are only switched off with one callback each, and exactly the spent missiles are recycled. |
| Missiles.StrikesFirstInRange | src/game/missiles.js:70-79 | A live missile at any index strikes the first active enemy within 2.0 among those the later missiles left active, whichever enemy it was launched at. That enemy is off after the loop and is reported. |
| Missiles.MissingMissileFlies | src/game/missiles.js:70-80 | A live missile with no active enemy in range at its turn flies on. |
| Missiles.ExpiredMissileHitsNothing | src/game/missiles.js:65-68 | A missile whose life runs out is recycled without a hit test. |
| Lock.Scan | src/game.js:294-303 | The scan collects exactly the active enemies within 120 units and inside the cone, in increasing index order. |
| Lock.Candidates | src/game.js:291-306 | The candidates are exactly the eligible enemies, each once, nearest first. Enemies at equal distance keep their array order. |
| Lock.Advance | src/game.js:247-256 | With no candidate the lock is lost and progress drains at 1.5 per second, not below 0. A kept target gains dt, up to 1.3 s. A new target starts at 0 on the nearest candidate. |
| Lock.AdvanceKeepsInv | src/game.js:247-256 | Lock progress always stays within [0, 1.3]. |
| Lock.Read | src/game.js:258-268 | The HUD reads "ready" (100%) exactly at full progress. It reads "none" exactly when there is no target and no full lock. Otherwise it shows the progress percentage, rounded down, between 0 and 99. |
| Lock.Update | src/game.js:240-270 | With the gun selected the lock state is untouched and the HUD reads "none". With missiles it advances over the current candidates. A newly taken target is always eligible. |
| Lock.ReadyHasTarget | src/game.js:247-268 | After an update with time passing, a "ready" readout always has a target. |
| Lock.HoldProgress | src/game.js:251-252 | Holding an eligible target for n ticks keeps it and adds n times dt, capped at the lock time. |
| Lock.LockCompletes | src/game.js:251-260 | A target held from zero for at least 1.3 s reads "ready". |
| Lock.IndexOf | src/game.js:285 | `indexOf` returns the first position of the target, and none exactly when it is not a candidate. |
| Lock.SelectNext | src/game.js:272-289 | With the gun selected nothing changes. With missiles, progress restarts at 0 whatever it was, and the target is lost exactly when there are no candidates. A missing target, or one that is no longer a candidate, moves to the nearest candidate. A candidate target moves to the candidate after its first occurrence, wrapping round. |
| Lock.SelectNextSteps | src/game.js:285-288 | From candidate k, at any lock progress, one press moves to candidate k + 1, wrapping to the first after the last, with progress back at 0. |
| Lock.CycleVisitsInOrder | src/game.js:272-289 | Starting from the nearest candidate, n presses lock candidate n mod (number of candidates), so repeated presses visit every candidate in turn. |
| Game.CheckCompletion | src/game.js:395-406 | A completed run stays completed and unchanged. Otherwise the run completes, and the timer stops, exactly when no enemy remains and at least two gates have been passed. No other field changes. |
| Game.CheckCompletionIdempotent | src/game.js:395-406 | A second completion check changes nothing. |
| Game.OnPass | src/game.js:77-80 | A gate pass adds one to the run's gate total and leaves hp, remaining enemies and the over flag alone. |
| Game.OnHit | src/game.js:91-97 | A hit costs one hit point, and the run is over once hp is 0 or less. Nothing else changes. |
| Game.OnDisable | src/game.js:98-101 | A disable lowers the remaining-enemy count by one, but not below 0. |
| Game.Dispatch | src/game.js:77-101 | The callbacks, applied in order, add up by kind: hp drops by the number of hits, and the gate total rises by the number of passes. The remaining count falls by the number of disables, stopping at zero. The run is over exactly when it was before or a hit left no hit points. The weapon, the speed and the timer value are never touched. |
| Game.DispatchSound | src/game.js:77-101 | Callbacks keep the bookkeeping sound: the remaining count stays non-negative, no hp means the run is over, and a completed run has met its goals and stopped its timer. A completed run stays completed, and a stopped timer stays stopped. |
| Game.CompletionReached | src/game.js:395-406 | Once a pass or a disable leaves no enemy remaining with at least two gates passed, the run is complete. |
| Game.HpNotFloored | src/game.js:91-97 | Hit points are not floored: two hits at hp 1 leave hp at -1 (and the run over). |
| Game.UpdateTimer | src/game.js:213-217 | A running timer gains dt in milliseconds. A stopped timer leaves the state unchanged. |
| Game.ClampDt | src/game.js:157 | The tick never exceeds 50 ms. A shorter frame time is used as is and is never made negative. |
| Game.UpdateSpeed | src/game.js:198-199 | Speed stays within [8, 40]. Inside the bounds it changes by throttle times 18 times dt. |
| Game.HandleWeaponSwitch | src/game.js:219-238 | A switch request toggles the weapon and drops the lock. A next-target request then cycles the lock over the current candidates. With no request nothing changes. |
| Game.ToggleTwice | src/game.js:222 | Switching weapons always changes the weapon, and switching twice restores it. |
| Game.TriggerMeansReady | src/game.js:167-173 | A missile fire request only reaches the launcher when the HUD reads "ready" at 100%. |
| Game.FireWeapons | src/game.js:166-173 | The weapon that is not selected fires nothing: it only cools down and settles the projectiles already in flight, exactly as its own `update` with the trigger released does, so its active list never grows. The same holds for the launcher without a full lock. Both cooldowns stay non-negative. |
| Game.Fly | src/game.js:159-163 | The first half of a frame leaves the weapons, the lock and the selected weapon alone, and keeps every array its size. |
| Game.Fight | src/game.js:164-173 | The second half of a frame leaves the gate row alone and keeps every array its size. |
| Game.Tick | src/game.js:156-174 | While the run is over a frame changes nothing. Otherwise a frame keeps every array its size. |
| Game.SelectNextKeepsInv | src/game.js:272-289 | Target cycling keeps lock progress within range. |
| Game.FlyKeepsInv | src/game.js:159-163 | The first half of a frame preserves the world invariant: sound bookkeeping, gate counter matching flags, lock in range and cleared under the gun, speed in bounds, no negative cooldown. |
| Game.FightKeepsInv | src/game.js:164-173 | The second half of a frame preserves the world invariant. |
| Game.TickKeepsInv | src/game.js:156-174 | Every `animate` frame preserves the world invariant. |
| Game.ResetGame | src/game.js:134-154 | A restart gives 3 hp, no passes, every enemy remaining and active, a running timer at 0, speed 22 and empty projectile pools. It unlocks and keeps the selected weapon. |
| Game.ResetGameInv | src/game.js:134-154 | A restart reaches the world invariant. |
| I18n.WordRun | src/i18n.js:87 | The run of `\w` characters at the start of a string is maximal. |
| I18n.HoleAt | src/i18n.js:87 | A placeholder match is `{`, one or more word characters, then `}`, at the very start of the text. |
| I18n.ParseUnparse | src/i18n.js:86-90 | Splitting a template into text and placeholders loses nothing: joining the pieces gives the template back. |
| I18n.Format | src/i18n.js:86-90 | `format` is the piecewise rendering of the template's parse, and with `ParseUnparse` that parse is lossless. Each placeholder becomes its value, or nothing when the value is missing. A value is inserted as is and never scanned again, and all other text is copied. |
| I18n.NoBraceUnchanged | src/i18n.js:86-90 | A template without `{` comes out unchanged. |
| I18n.PlaceholderThen | src/i18n.js:87-89 | A leading `{name}` is replaced by the value of name, which is inserted as is and never expanded again. The rest is formatted after it. |
| I18n.EmptyBracesKept | src/i18n.js:87 | `{}` is not a placeholder and is kept. |
| I18n.SetLanguage | src/i18n.js:149-152 | The language is always one with a table. A known language is taken, and anything else falls back to English. |
| I18n.T | src/i18n.js:154-157 | A key in the current language's table translates to that entry rendered with the values. A key missing from the table translates to the empty string. |
| I18n.SameKeys | src/i18n.js:2-83 | The English and Chinese tables define the same keys. |
| I18n.HudKeysTranslated | src/i18n.js:2-83 | Every HUD key the lock and weapon readouts use is present in both tables. |
| I18n.LockProgressText | src/i18n.js:15 | The lock progress label is the percentage followed by `%` in both languages. |
| Server.Trim | server/index.js:44 | Trimming leaves no JavaScript white space or line terminator at either end and never lengthens the string. |
| Server.TrimUnpadded | server/index.js:44 | A string without white space at its ends trims to itself. |
| Server.TrimOfPadded | server/index.js:44 | White space added at either end is removed again: trim(p + s + q) = trim(s). |
| Server.TrimIdempotent | server/index.js:44 | Trimming twice is trimming once. |
| Server.StringToNumber | server/index.js:29 | `Number(text)` of an empty or all-blank string is 0. |
| Server.NumberOfDigits | server/index.js:29 | A string of decimal digits reads as its decimal value. |
| Server.NumberOfShowNat | server/index.js:29 | Round trip: the decimal numeral of n reads back as n. |
| Server.PointedDecimal | server/index.js:29 | `w.f` with digit strings w and f reads as w + f / 10^len(f). |
| Server.LimitNumber | server/index.js:29 | A missing or empty limit becomes 15 before conversion. Any other query value is converted from its text. |
| Server.EffectiveLimit | server/index.js:29-30 | The limit used always lies in [1, 50]. A non-numeric limit gives 15, and a numeric one inside [1, 50] is taken unchanged. |
| Server.LimitDefaults | server/index.js:29-30 | A missing, empty or non-numeric limit gives 15, while "0" gives 1 (it is falsy only as a number, not as text). |
| Server.LimitOfNat | server/index.js:29-30 | A whole-number limit n gives clamp(n, 1, 50). |
| Server.NonNumericLimitIsDefault | server/index.js:29-30 | Text that cannot start a number (its first character is not a digit, sign, point, blank or `I`) gives the default 15. |
| Server.PointedLimitPassesThrough | server/index.js:29-30 | A decimal limit with a point whose value lies in [1, 50] is used exactly as given. |
| Server.FractionalLimitPassesThrough | server/index.js:29-35 | As written, `limit=2.5` reaches the query as 2.5, which is not a whole row count. |
| Server.QueryLimit | server/index.js:29-35 | The corrected row count is a whole number in [1, 50] within one below the effective limit, and equals it whenever that is whole. |
| Server.TopScores | server/index.js:32-35 | The query returns min(limit, stored) rows, ordered by time and then creation. They are a sub-multiset of the store, and no row left out ranks before a row returned. |
| Server.Leaderboard | server/index.js:28-35 | `GET /api/score` returns exactly min(row count, stored) rows, where the row count is the corrected limit and is 15 when no limit is given. The rows are in leaderboard order and come from the store, and no row left out ranks before a returned one. |
| Server.DefaultQueryLimit | server/index.js:29 | With no `limit` parameter the row count is 15. |
| Server.TimeNumber | server/index.js:45 | A missing time is NaN, null is 0, and a number within double range is itself. |
| Server.NormalizeName | server/index.js:44 | The stored name is the first 50 characters of the trimmed name: a prefix of it, at most 50 long, and not starting with white space. |
| Server.Submit | server/index.js:43-54 | A submission is rejected exactly when the trimmed name is empty or the time is not a finite positive number. An accepted one stores the normalised name (1 to 50 characters) and the time rounded to the nearest integer, which is never negative. |
| Server.TinyTimeStoredAsZero | server/index.js:45-53 | A positive time below 0.5 ms is accepted and stored as 0. |
| Server.StoredNameCanEndInSpace | server/index.js:44 | Cutting at 50 after trimming can leave a stored name that ends in a space. |

## Left out

- Rendering, vector maths and positions: plane movement and its height floor (src/game.js:189-211), thrusters, the chase camera and minimaps. Each frame's distances and lock sights are inputs, and headings are symbolic.
- The DOM and the HUD text updates (`uiController`, `updateLockUI`, `showToast`, `formatTimeMs`, `renderStatic`): they only display state the model already holds.
- Input capture: the keyboard handlers are not modelled, and the controls of one frame are a parameter.
- Game.HandleWeaponSwitch: `handleWeaponSwitch` consumes both one-shot requests by clearing `input.switchWeapon` and `input.nextTarget` (src/game.js:223, 230). The model does not return the cleared controls. It takes fresh controls each frame, so a request is never seen twice.
- `Math.random`: every draw is a parameter in [0, 1).
- `prompt`, `submitScore`, `loadLeaderboard` and `fetch` on the client. The server side of a submission is modelled by `Server.Submit`.
- MySQL and express: the store is a sequence of rows. The 500 `db_error` answers, `insertId` and the creation timestamp source are not modelled.
- Floating point: all reals are exact, so rounding of products and sums of doubles is not modelled.
- Server.StringToNumber: reads exact decimal values, not the nearest double. Only overflow to infinity is modelled (`Rounded`), and -0 is not distinguished from 0.
- Server.NormalizeName: lengths and slices count characters, not UTF-16 code units, so names with astral characters are cut at a different place.
- Server.TimeNumber: arrays and objects as `timeMs` are not modelled, and names that are not strings are passed in as their `String()` text.
- I18n.SetLanguage: only the two table names are known languages. Inherited property names such as `constructor` are not modelled, and likewise for the keys of `vars`.
- Server.TopScores: rows with equal time and creation keys come back in store order, where the database leaves their order open.
- `Enemies.SetDifficulty` and `Enemies.SetActiveCount` are modelled, but nothing in the game calls them, so the game always runs with all ten enemies and the base difficulty.
- Enemies.SetActiveCount: the new count is a whole number. `setActiveCount` accepts any number, and a fractional one such as 2.5 activates enemies 0 to 2 while `activeCount` itself stays 2.5. Nothing calls it, so the fractional case is not modelled.

## Where the code and the game's design document differ

The model follows the code in each case.

- The design document describes a menu, three levels and a side objective with a countdown. The code has none of these: the level names exist only as strings in src/i18n.js, and the only timer counts the run time up.
- The design document calls a run complete when every enemy is destroyed. `checkCompletion` also asks for at least two gates passed over the run (src/game.js:398), and it runs inside the callback, so completion happens in the same tick.
- The design document says a missile's hit radius is smaller than a bullet's. The code uses 2.0 for missiles and 1.6 for bullets.
- The design document says hit points go down to zero. The code never floors them (`Game.HpNotFloored`).
- The design document says the leaderboard limit is a whole number from 1 to 50 and stored times are positive integers. The code passes fractional limits through (see Findings), and it stores times below 0.5 ms as 0 (`Server.TinyTimeStoredAsZero`).
- The design document says a reset leaves every pool fully free. `reset()` in the bullet and missile modules empties both lists instead (`Pools.Clear`).

## Findings

| source | as written | input that shows it | evidently intended | confidence | as-written member | corrected member |
|---|---|---|---|---|---|---|
| server/index.js:29-35 | The limit is clamped to [1, 50] but not rounded, so a fractional value goes to `LIMIT ?` as it is. | `GET /api/score?limit=2.5` gives an effective limit of 2.5. | A whole row count in [1, 50] (here 2). | medium, not executed | Server.FractionalLimitPassesThrough (with Server.EffectiveLimit) | Server.QueryLimit, which Server.Leaderboard uses |
