# ParticleGame core, modelled in Dafny

ParticleGame is a gesture-controlled particle swarm game. A hand-tracking
service reports 21 hand landmarks per frame. A classifier turns them into a
gesture, and the gesture selects the swarm's mode. The swarm's particles hit
monsters, and a game manager keeps score, combo, waves and screen shake.
There are two variants: a desktop one (`particle_game.py`) and a browser one
(`web/game.js`).

This project models the discrete logic of both variants as pure functions
over immutable datatypes and proves properties about it:

- `Numeric`, `Bounds`, `Wrappers`: the float-to-int conversion (truncation
  toward zero), vectors and the toroidal wrap rule, and `Option`.
- `Lifetimes`: pools of short-lived effect particles (monster debris, hit
  sparks), reduced to their remaining lifetimes.
- `Particles`: the end of a particle's frame. It damps the velocity, moves
  the particle, wraps it at the screen edges and clears the acceleration.
- `SwarmMode`: the particle system's mode, previous mode, and the
  transition-effect pulse with its timer.
- `Hand`, `Gestures`: the landmark snapshot and the desktop gesture
  classifier (pointing / open / gather / none).
- `Monsters`: the desktop monster. This covers its stats table, damage and
  death, hit flash, per-particle hit cooldowns, the collision count and the
  death animation's debris.
- `GameManager`: the desktop score, combo, kill scoring, screen shake, wave
  composition, the wave-completion and intermission gate, and reset.
- `WebGame`: the browser variant. This covers its gesture rule, bouncing
  monsters, unclamped damage, and the monster loop's kill, score and wave
  bookkeeping.

Randomness becomes parameters:
- debris and spark lifetimes, with the counts and ranges the source draws (`DeathBurst`, `SparkLives`)
- the shake draws, as fractions in [0, 1) of their interval
- the wave type draws, as any reals; the wave contracts hold for every draw
- the web monsters' placement (`place`), as any positions and velocities; the loop's contracts hold for every placement

Float arithmetic is modelled on exact reals. Euclidean distance tests are
modelled as the equivalent squared-distance comparisons.

`reset_game` (particle_game.py:1271-1283):
- sets the wave number to 0, not to its construction value 1. The caller
  starts wave 1 straight after.
- keeps the high score and the shake intensity.
- does not reset the particle system. The main loop rebuilds it
  right after the reset (particle_game.py:1546), so the model's mode state
  starts again from `SwarmMode.Init`.

## Model

| member | source | states |
|---|---|---|
| Numeric.Trunc | particle_game.py:1133 | `int(x)` truncates toward zero: the result is within one of x on the side of zero and never larger in magnitude |
| Bounds.WrapAxis | particle_game.py:142-150 | a coordinate below the interval re-enters at the upper edge, one above it re-enters at the lower edge, one inside is untouched; the result always lies in the interval |
| Bounds.WrapBox | particle_game.py:142-150 | per axis, a coordinate below 0 comes back at the far edge (width or height) and one beyond the far edge comes back at 0; the result is in the screen box, and a point already inside is unchanged |
| Bounds.WrapBoxIdempotent | particle_game.py:142-150 | wrapping a wrapped point changes nothing |
| Particles.DampingSlows | particle_game.py:129-130 | damping by 0.97 never increases the speed |
| Particles.Integrate | particle_game.py:129-153 | the velocity is the speed-limited one damped by exactly 0.97, so never faster; the position is the old one plus that velocity, re-entering at the opposite edge (WrapBox) when it leaves the screen and unchanged when it stays inside; the acceleration is cleared |
| Particles.Run | particle_game.py:113-153 | over any run of frames, whatever the force laws produce, a particle that starts on screen stays on screen |
| WebGame.ParticleUpdate | web/game.js:53-82 | the browser particle damps the limited velocity by exactly 0.97, moves by it and re-enters at the opposite canvas edge when it leaves (WrapBox), ending inside the canvas with its acceleration cleared |
| Lifetimes.Longest | particle_game.py:668-672 | the longest remaining lifetime of a pool bounds every entry and is attained |
| Lifetimes.Tick | particle_game.py:668-672 | one frame of decay: survivors are all positive, the pool empties iff no lifetime exceeds one, otherwise the longest lifetime shrinks by exactly one |
| Lifetimes.TickCount | particle_game.py:668-672 | for any value v > 0, a frame leaves exactly as many entries with lifetime v as there were with v + 1, and none at or below zero (by induction over the pool) |
| Lifetimes.TickContents | particle_game.py:668-672 | value by value, a lifetime v > 0 occurs after a frame exactly as often as v + 1 did before, and nothing at or below zero remains: every entry loses one frame and exactly the entries at one or below are removed |
| Lifetimes.AllAtMostIffLongest | particle_game.py:668-672 | every lifetime is at most k iff the longest is at most k |
| Lifetimes.EmptyAfterIffAllAtMost | particle_game.py:668-672 | after n >= 1 frames a pool is empty iff every lifetime was at most n |
| Lifetimes.TickNOfEmpty | particle_game.py:1109-1114 | an empty pool stays empty |
| SwarmMode.EffectFor | particle_game.py:239-251 | gather and pointing start a gather pulse, scatter a scatter burst, free a release |
| SwarmMode.TriggerEffect | particle_game.py:239-251 | the pulse timer is set to 30 frames and the pulse type follows the new mode; nothing else changes |
| SwarmMode.SetMode | particle_game.py:231-237 | selecting the current mode changes nothing; a real change remembers the old mode and restarts the pulse for the new mode |
| SwarmMode.Update | particle_game.py:260-266 | the clock advances and the pulse timer counts down while positive; mode and pulse type are untouched |
| SwarmMode.InitValid | particle_game.py:201-207 | a fresh system satisfies the mode/pulse invariant |
| SwarmMode.ValidPreserved | particle_game.py:231-266 | mode changes and frames keep the timer in [0, 30], keep "a pulse has fired iff the previous mode differs", and keep the pulse type matched to the current mode |
| SwarmMode.SetModeIdempotent | particle_game.py:231-237 | selecting the same mode twice fires the effect at most once |
| SwarmMode.EffectRunsOut | particle_game.py:265-266 | after n frames the timer is t - n while positive and then stays 0 |
| SwarmMode.TransitionPulseLength | particle_game.py:231-266 | after a real mode change the pulse is active for exactly 30 frames |
| Hand.Pip | particle_game.py:1011-1014 | every finger's PIP joint is two landmarks before its tip |
| Hand.ExtendedCount | particle_game.py:1010-1017 | the count of extended fingers equals the number of tips 8, 12, 16, 20 lying above the landmark two before them (the browser's own filter); 4 iff all are extended, 0 iff none |
| Gestures.Midpoint | particle_game.py:999-1000 | the floor-division midpoint lies between the two points on each axis |
| Gestures.Classify | particle_game.py:1024-1038 | pointing iff the tips are together with only index and middle extended; open iff at least three fingers are extended; gather iff at most one is |
| Gestures.PriorityOrderIrrelevant | particle_game.py:1024-1038 | the top-down rule agrees with a count-first reference rule on every input |
| Gestures.Analyze | particle_game.py:950-1038 | no hand gives an empty result; with a hand the state is the decision rule applied to the pixel tip distance and the extension flags, a target and palm are always reported, a direction exactly for pointing and gather, and the target lies between the two fingertips |
| Gestures.PointingSnapshot | particle_game.py:1024-1029 | a snapshot with the tips together and only index and middle extended is pointing and carries a direction |
| Monsters.KindFromName | particle_game.py:608-643 | "tank", "fast" and "boss" pick their kind; any other name is a normal monster |
| Monsters.StatsFor | particle_game.py:608-643 | every kind's radius is a positive multiple of the particle radius, its score is at least 100, and for non-negative difficulty its health is at least 5 |
| Monsters.StatsRanking | particle_game.py:608-643 | at any non-negative difficulty, boss > tank > normal > fast in health and size, and boss > tank > fast > normal in score |
| Monsters.New | particle_game.py:645-659 | a new monster takes its maximum health, radius and score value from the stats table for its kind and difficulty; it starts at full health, not dying, with no debris or cooldowns and both flash and death timers at zero, and satisfies the monster invariant |
| Monsters.TriggerDeath | particle_game.py:774-787 | the monster is dying, no longer alive, and not yet done; the old debris is kept as a prefix and 30 new debris follow, each with a lifetime in [20, 40); no other field changes |
| Monsters.TakeDamage | particle_game.py:763-772 | health drops by the damage but not below zero, the flash restarts at 8 frames, the monster is dying iff it was or its health reached zero; on the killing hit the old debris is kept and a burst with lifetimes in [20, 40) is appended, otherwise the debris is untouched; every other field, the stats included, is unchanged |
| Monsters.TickCooldowns | particle_game.py:687-690 | every cooldown counts down by one and the expired ones are removed |
| Monsters.CooldownLasts | particle_game.py:687-690 | a particle on cooldown v stays ignored after n frames iff n < v, with v - n frames left |
| Monsters.NotInStaysOut | particle_game.py:687-690 | a particle not on cooldown does not gain one from frames alone |
| Monsters.Update | particle_game.py:661-690 | a dying monster only ages its debris and advances its death timer, keeping its flash timer and cooldowns; a living one takes exactly one frame off a positive flash timer and counts down its cooldowns; health, the dying flag, the kind and the stats are untouched |
| Monsters.IsAlive | particle_game.py:789-791 | alive means positive health and not dying; under the monster invariant that is just "not dying" (Monsters.KillTestNeverFires) |
| Monsters.IsDeadAnimationDone | particle_game.py:793-795 | done means dying with no debris left; Monsters.DeathAnimationEnds gives its exact timing |
| Monsters.ValidPreservedByTakeDamage | particle_game.py:763-772 | damage keeps health >= 0, keeps "health is zero iff dying", and keeps debris only while dying |
| Monsters.ValidPreservedByUpdate | particle_game.py:661-690 | frames keep the monster invariant |
| Monsters.DyingIsPermanent | particle_game.py:663-673 | once dying, a monster is dying and not alive after any number of frames |
| Monsters.DebrisAfter | particle_game.py:663-673 | after n frames a dying monster's debris is its pool decayed n times |
| Monsters.DeathAnimationEnds | particle_game.py:793-795 | the death animation is done after n >= 1 frames iff every debris lifetime was at most n |
| Monsters.FreshDebrisExpiresInTime | particle_game.py:774-795 | a freshly killed monster's animation is done after 39 frames |
| Monsters.HitsBelow | particle_game.py:738-761 | the hits among the first particles are all candidates: non-leader and not on cooldown |
| Monsters.HitsBelowStep | particle_game.py:738-761 | scanning one more particle adds it to the hits exactly when it is a touching candidate |
| Monsters.CheckCollision | particle_game.py:738-761 | the count equals the number of touching non-leader particles not on cooldown, and is at most the number of candidates; exactly those particles get a 30-frame cooldown; existing cooldowns and everything else are unchanged |
| Monsters.CandidatesBound | particle_game.py:738-761 | there are never more hits than candidates |
| Monsters.KillTestNeverFires | particle_game.py:1429 | under the monster invariant the loop's "not alive and not dying" test is never true |
| Monsters.KillTestMissesAKill | particle_game.py:1419-1430 | a living normal monster killed by one hit fails that test |
| Monsters.JustDiedOnce | particle_game.py:763-772 | a hit kills iff it empties the health of a living monster, and a dying monster is never killed again after any frames and hits |
| Monsters.WrapCoordinate | particle_game.py:727-736 | a living monster's coordinate below -radius comes back at extent + radius, one beyond extent + radius comes back at -radius, and one inside is unchanged; the result lies in [-radius, extent + radius] |
| GameManager.Update | particle_game.py:1099-1120 | the combo keeps its value until its timer runs out and then drops to zero at once; the timer runs only while there is a combo; sparks decay; the shake timer and the intermission count down while positive; every other field (max combo, shake intensity, score, wave state) is untouched |
| GameManager.OnHit | particle_game.py:1122-1127 | the combo grows by the damage, its timer restarts at 120, and the max combo is a running maximum; no other field changes |
| GameManager.OnHitAccumulates | particle_game.py:1122-1127 | hits inside the window accumulate additively |
| GameManager.KillScore | particle_game.py:1131-1133 | the kill score is `int(base * (1 + combo / 10))` on exact reals, and never below the base for a non-negative base and combo |
| GameManager.ComboCountdown | particle_game.py:1101-1104 | a combo with timer t keeps its value for t - 1 frames and is zero from frame t on |
| GameManager.ComboStaysZero | particle_game.py:1101-1104 | a zero combo stays zero while no hit arrives |
| GameManager.ComboWindowAfterHit | particle_game.py:1099-1127 | after a hit the combo survives 119 idle frames and is zero from frame 120 |
| GameManager.KillScoreIsIntegerFormula | particle_game.py:1131-1133 | for non-negative base and combo the kill score is floor(base * (10 + combo) / 10), never below the base |
| GameManager.KillShake | particle_game.py:1140-1144 | a kill shakes at least (10, 5); a boss kill, and only a boss kill, shakes harder |
| GameManager.SpawnHitEffect | particle_game.py:1151-1161 | the old sparks are kept as a prefix and one spark per lifetime drawn follows, each living 15 to 29 frames; nothing else changes |
| GameManager.HitSparksExpire | particle_game.py:1151-1161 | after a hit effect the spark pool is empty n >= 1 frames later iff every old and every new spark lives at most n frames (sparks decay as at particle_game.py:1107-1111) |
| GameManager.HitSparksExpireInTime | particle_game.py:1151-1161 | sparks drawn from [15, 30) are all gone 29 frames after the hit, when the old ones are no older |
| GameManager.OnMonsterKilled | particle_game.py:1129-1149 | the score grows by the kill score, the high score is a running maximum, the defeated count grows by one, the shake follows the kind, and 50 sparks living 15 to 29 frames are appended to the old ones; the combo, its timer, the max combo and the wave state are unchanged |
| GameManager.ShakeStrengthNonNegative | particle_game.py:1172 | the shake amplitude is never negative |
| GameManager.ShakeAxis | particle_game.py:1173-1174 | a truncated draw from [-s, s) is at most s in magnitude |
| GameManager.ShakeOffset | particle_game.py:1168-1175 | no shake once the timer has run out; otherwise both offsets are bounded by the amplitude |
| GameManager.FractionBelow | particle_game.py:1173-1174 | a fraction of a non-negative amplitude stays within it |
| GameManager.NormalWaveSize | particle_game.py:1193 | a normal wave has min(2 + n // 2, 8) entries, never more than 8 |
| GameManager.PickKind | particle_game.py:1194-1202 | fast iff the wave is 3 or later and the draw is below 0.3; otherwise tank iff the wave is 2 or later and the draw is below 0.6; otherwise normal; never a boss |
| GameManager.WaveList | particle_game.py:1183-1208 | every fifth wave is a single boss of difficulty n // 5; any other wave is its sized list of drawn kinds at difficulty max(1, n // 2) |
| GameManager.StartWave | particle_game.py:1177-1211 | the spawn list is WaveList for the wave and is stored as the wave's list; the wave counters reset and nothing else changes; a boss appears iff the wave is a multiple of 5; a wave from 1 on has 1 to 8 entries; fast and tank monsters appear only from waves 3 and 2 |
| GameManager.EarlyWaves | particle_game.py:1177-1211 | wave 1 is all normal monsters; waves 5 and 10 are a lone boss of difficulty 1 and 2 |
| GameManager.CheckWaveComplete | particle_game.py:1213-1220 | complete iff no monster is active and the whole list is defeated; only the first completion starts the 180-frame intermission |
| GameManager.CanSpawnNextWave | particle_game.py:1222-1224 | the next wave may start iff the wave is complete and the intermission has run out; GameManager.IntermissionCountdown and GameManager.WaveGate give its timing |
| GameManager.CheckWaveCompleteStable | particle_game.py:1213-1220 | checks after completion leave the state and its timer alone |
| GameManager.IntermissionCountdown | particle_game.py:1119-1224 | with t frames of intermission left, the next wave may start after n frames iff n >= t |
| GameManager.WaveGate | particle_game.py:1213-1224 | from the first completion the next wave may start after exactly 180 frames |
| GameManager.Reset | particle_game.py:1271-1283 | score, combo, wave list and sparks are cleared, the wave number is 0, and the high score and shake intensity are kept |
| GameManager.ResetIsFreshExceptKept | particle_game.py:1271-1283 | a reset state equals a fresh manager except for wave 0 and the kept high score and shake intensity |
| GameManager.ResetThenFirstWave | particle_game.py:1542-1544 | reset followed by starting wave 1 gives a fresh manager's first wave, keeping only the high score and shake intensity |
| GameManager.InitValid | particle_game.py:1075-1097 | a fresh manager satisfies the manager invariant |
| GameManager.ValidPreserved | particle_game.py:1099-1283 | Update, OnHit, SpawnHitEffect, OnMonsterKilled, StartWave, CheckWaveComplete and Reset each keep 0 <= score <= high score, 0 <= combo <= max combo, a running combo has a live timer, and the timers within their ranges |
| GameManager.ResolveHit | particle_game.py:1419-1430 | a dying monster or a zero hit count changes nothing; otherwise the monster takes the damage, the combo grows, its timer restarts at 120 and the max combo follows, the old sparks are kept and the new ones live 15 to 29 frames, and the wave state is untouched; the kill is credited iff the monster started dying on this hit: then the defeated count grows by one, the score grows by the kill score at the combo including this hit, the high score follows, and the shake follows the kind; without a kill the score, high score and shake are unchanged |
| GameManager.ValidPreservedByResolveHit | particle_game.py:1419-1430 | the whole hit step, kill included, keeps the manager invariant for any hit count and any monster with a non-negative score value |
| GameManager.KillCreditedOnce | particle_game.py:1419-1430 | a hit adds one to the defeated count iff it empties a living monster's health, so each monster is credited once |
| WebGame.AnalyzeGesture | web/game.js:278-325 | no hand is free with no target; tips closer than 50 pixels is gather whatever the fingers; otherwise three or more extended fingers scatter around the palm; the rest is free; pointing never occurs |
| WebGame.GatherBeforeCount | web/game.js:310-312 | tips together means gather even with every finger extended |
| WebGame.ScatterAgreesWithDesktopOpen | web/game.js:313-324 | whenever the browser scatters, the desktop classifier reads the same landmarks as open; with the fingertips apart the two agree both ways |
| WebGame.NewMonster | web/game.js:108-119 | a new web monster sits at the position and velocity drawn for it (passed in), with radius 40 and full health 10 |
| WebGame.BounceAxis | web/game.js:129-135 | one axis's velocity is reversed iff the new coordinate is outside the no-bounce band, and never changes size |
| WebGame.MonsterUpdate | web/game.js:125-136 | the monster moves by its velocity, and each velocity component is reversed iff the new position leaves the no-bounce band on that axis |
| WebGame.BounceKeepsNearField | web/game.js:125-136 | a monster inside the band, or one step from it, stays so after any number of bounces |
| WebGame.TakeDamage | web/game.js:145-148 | health drops by the damage without clamping, and the monster is destroyed iff the damage reaches its health |
| WebGame.DamageAdds | web/game.js:145-148 | two hits cost the same as one hit of their sum |
| WebGame.Collides | web/game.js:138-143 | a particle collides when its centre is closer than radius + 2 to the monster's centre, compared on squared distances; WebGame.HitCount counts these |
| WebGame.HitCount | web/game.js:393-400 | the hit count is exactly the number of colliding particles, the leader included: zero iff none collides, all iff every one does |
| WebGame.Survivors | web/game.js:389-417 | survivors plus kills equal the monster count, and monsters with positive health keep positive health |
| WebGame.Spawn | web/game.js:206-210 | a new wave w brings 3 + w fresh monsters at the drawn places |
| WebGame.NoParticlesNoKills | web/game.js:389-417 | with no particle on the field no monster is destroyed and all of them stay |
| WebGame.UpdateMonsters | web/game.js:389-417 | each monster moves, bounces and takes one hit per particle touching it; the score grows by 100 and the combo by 1 per kill; if every monster was destroyed the wave number grows by one and 3 + wave new monsters replace them; otherwise the survivors stay in order and the wave is unchanged |

## Left out

- The particle force laws are not modelled: leader steering, attraction and repulsion, orbit, noise, effect forces and the speed clamp (particle_game.py:260-557, web/game.js:327-386). They are float vector arithmetic with square roots. The speed-limited velocity is an input to `Particles.Integrate`.
- `set_target`, `set_direction`, `set_scatter_center` and `apply_burst_force` are not modelled. They only store vectors that the force laws read.
- The monster's dodge, random roam, speed limit and damping are not modelled (particle_game.py:692-725). The same goes for the bounce velocity given to a hitting particle (particle_game.py:757-759) and the hit-flash colour. These are float arithmetic and randomness. `Monsters.Update` models only the frame's counters.
- `Monsters.Monster` carries no position. The collision check takes the position as an argument, and `Monsters.WrapCoordinate` models the wrap on one coordinate.
- The float stats `base_speed`, `dodge_strength` and `dodge_radius` are not modelled, and neither are colours.
- Debris and spark positions and velocities are not modelled. Only their lifetimes are, because only the lifetimes decide when an animation ends.
- Drawing, the camera, hand-tracking I/O, `draw_ui`, `draw_landmarks`, the launcher and `main()` are not modelled. This includes the main loop's spawn queue and its frame delays. Only the hit and kill step of the loop is modelled, as `GameManager.ResolveHit`.
- GameManager.KillScore: computed on exact reals. The source multiplies in binary floating point, and a product can round just below an integer before truncation. For example, base 100 with combo 13 gives 230 here and 229 in the source.
- GameManager.KillScoreIsIntegerFormula: holds on exact reals only, for the same reason as GameManager.KillScore.
- GameManager.ShakeOffset: the uniform draws are fractions in [0, 1) passed in; their distribution is not modelled.
- WebGame.UpdateMonsters: monster placement draws are a parameter, and particles enter as their positions only.
- WebGame.AnalyzeGesture: the hand-tracking result is reduced to the first hand's landmarks or none.

## Findings

| source | as written | input that shows it | evidently intended | confidence | as-written member | corrected member |
|---|---|---|---|---|---|---|
| particle_game.py:1429 | the kill handler runs when `not monster.is_alive() and not monster.is_dying` | a normal monster at full health hit for 100: `take_damage` sets health to 0 and `is_dying` to true in the same call, so the test is false and `on_monster_killed` is never called; no kill ever scores, counts toward the wave, or shakes the screen | credit the kill on the frame the monster starts dying, once per monster | high; not executed | Monsters.KillTestAsWritten, Monsters.KillTestNeverFires, Monsters.KillTestMissesAKill | Monsters.JustDied, Monsters.JustDiedOnce, GameManager.ResolveHit, GameManager.KillCreditedOnce |

With the test as written nothing calls `on_monster_killed`, so
`monsters_defeated_this_wave` stays 0. `check_wave_complete` therefore never
reports completion for a non-empty wave list, and by `GameManager.StartWave`
every wave from 1 on has a non-empty list. The model credits kills through
`GameManager.ResolveHit`. Its lemma `GameManager.KillCreditedOnce` shows
each monster is credited exactly once, which is the count the wave gate
relies on.
