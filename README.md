# 真！こうかとん無双 — a verified model of the frame simulation

The game is a pygame shoot-'em-up in one file, `musou_kokaton.py`. The player
steers the avatar (a bird, "こうかとん") with the four arrow keys and fires
beams with Space. Return buys a buff: while it lasts, boss domains do not
hurt the avatar (the `check_act` test, line 485), and a "domain" of the
avatar's own opens around it, follows it and counts down with the buff; it
never hurts the avatar and protects nothing by itself. Enemies
descend from the top edge, stop at a line drawn at spawn, and then drop
bombs. After 30 seconds a boss may appear. It wanders at random, fades in,
and periodically turns on a buff of its own; in "domain_expansion" mode that
buff opens a large domain that hurts the avatar.

This project models the integer simulation under the rendering and proves
properties of it:

- the playfield bounds test;
- the avatar's step and buff countdown;
- the enemy descent state machine;
- the two countdown sprites (explosions and domains);
- the integer part of the boss's update;
- the HP meter's colour tier;
- the per-frame bookkeeping of `main`: events, spawns, bombs, boss
  activation, collisions, the game-over test and the update order.

Every entity whose fields the game updates in place is a class with those
fields, and its `update` is a method. Each such method is tied to a
value-level step function (`StepRect`, `Descend`, `BossStep`, `Tier`, ...),
and the lemmas about those functions carry the multi-step properties.

A sprite group is a sequence of objects. The groups of enemies, explosions
and domains are proved to hold each object once (`Groups.Distinct`, part of
the game invariant `Game.Game.Valid`); the beam and bomb groups are not given
that invariant. pygame's `Group.update` walks a copy of the group, so
the group afterwards is the walked members without those that killed
themselves (`Groups.Remove`).

`groupcollide(ga, gb, dokilla, True)` walks `ga` in order. For each sprite it
removes from `gb` every sprite that sprite overlaps at that moment, so a beam
spent on one enemy cannot also destroy a later one. `Groups.GroupCollide`
models that walk. It is proved against a reference definition
(`Groups.CrashesAt`, `Groups.Untouched`).

Which sprites overlap is geometry the model does not compute. It comes in as
predicates over object identities (`Game.Hits`, `Game.Moves`). Random draws
are parameters whose ranges are preconditions. The elapsed-time test of the
boss spawn is a boolean parameter.

Modules, leaves first:

- `Geometry`: `Rect` and `check_bound`.
- `Groups`: group removal and collision semantics.
- `Avatar`: `Bird`.
- `Enemies`: `Enemy`.
- `Explosions`: `Explosion`.
- `Hud`: `Score` and `HitPoint`.
- `Bosses`: `Boss`.
- `Domains`: `Domain`.
- `Game`: the loop of `main`.

Points where the code behaves differently than it may first appear. The
model follows the code in each:

- **Buff price.** The buff needs strictly more than 50 points
  (`score.value > 50`, line 435). Exactly 50 points do not buy it.
- **Spawn schedule.** The comment on the spawn test (line 442) says an enemy
  appears once every 200 frames. The code does otherwise: each spawn raises
  `Enemy.tf` by 50 (line 444), but `tmr` grows faster than `tf`. Without a
  boss, an enemy therefore appears at frame 0, at frame 250, and then on
  every frame that is a multiple of 50 (`Game.SpawnSchedule`).
- **Boss bounds.** Out of bounds, the boss moves back by its current velocity
  (lines 308-309). On an interval tick that velocity is the one just drawn,
  which was never applied, so the boss moves although it never moved
  forward (`Bosses.TickRevertMoves`).
- **Domain damage.** A boss domain costs the avatar 1 life per overlapping
  domain per frame (lines 484-487). The avatar's own domains never hurt it
  (`Game.OwnDomainsHarmless`).
- **Domain owner.** A domain is removed only when its countdown drops below
  zero. The test `self.unit is None` (line 406) can never succeed, because
  the owner is always an object. A domain keeps following a boss that has
  died.

## Model

| member | source | states |
|---|---|---|
| Geometry.CheckBound | musou_kokaton.py:16-27 | the horizontal answer is true exactly when `0 <= left` and `right <= WIDTH`; the vertical one exactly when `0 <= top` and `bottom <= HEIGHT` |
| Geometry.CheckBoundAxesIndependent | musou_kokaton.py:22-26 | the horizontal answer depends only on x and width, the vertical one only on y and height |
| Geometry.Centered | musou_kokaton.py:75 | assigning `center` gives that centre and keeps the size |
| Geometry.Rect.WithCenterY | musou_kokaton.py:239 | assigning `centery` gives that centre height and keeps x and the size |
| Avatar.StepRect | musou_kokaton.py:97-106 | a step keeps the size; a rect inside the playfield stays inside; a rect that changes lands inside |
| Avatar.StepFacing | musou_kokaton.py:107-108 | a facing that has an image keeps having one |
| Avatar.HeldSumIsFacing | musou_kokaton.py:46-51 | each component of the summed key vector is -1, 0 or 1, and a non-zero sum is one of the eight keys of `imgs` (lines 62-71) |
| Avatar.StepFacingIsFacing | musou_kokaton.py:107-109 | the facing stays one of the eight image directions, and it changes only to a non-zero summed key vector |
| Avatar.StepIsWholeMoveOrNone | musou_kokaton.py:97-106 | a step either makes the whole move of speed times the summed key vector or restores the rect exactly; a move that would leave the playfield is always undone |
| Avatar.WalkStaysInside | musou_kokaton.py:97-106 | an avatar that starts inside the playfield stays inside after any number of steps |
| Avatar.BuffAfter | musou_kokaton.py:110-112 | after n updates of the avatar's (or, lines 296-298, the boss's) buff the countdown is n lower, and the buff is on exactly when it was on and, if n > 0, the countdown is still not negative: the countdown never turns a buff on |
| Avatar.Bird.constructor | musou_kokaton.py:53-80 | centred on `xy`, facing right, speed 10, life and maximum life 100, buff off with countdown 0 |
| Avatar.Bird.Update | musou_kokaton.py:91-113 | the rect is the step of the held keys, the facing the step facing, the buff countdown drops by one, and the buff flag is cleared once the countdown is negative; the life is unchanged and the class invariant (facing has an image, buff only while its countdown is not negative) is kept |
| Avatar.Bird.MoveHeld | musou_kokaton.py:97-102 | the first walk over `delta` returns the summed key vector and moves the rect by speed times it |
| Avatar.Bird.UndoHeld | musou_kokaton.py:103-106 | the second walk moves the rect back by exactly the first walk's move |
| Enemies.Enemy.constructor | musou_kokaton.py:220-228 | centred on (x, 0), speed 6, state "down", with the drawn stop line and bomb interval |
| Enemies.Enemy.Update | musou_kokaton.py:230-239 | one update is `Descend` of the enemy's height, speed and state; only the height changes; speed 6 while "down" and 0 once "stop" is kept |
| Enemies.Descend | musou_kokaton.py:236-239 | past the stop line the enemy stops where it is, with speed 0; otherwise it moves by its speed; a stopped enemy never returns to "down" |
| Enemies.DescendSettled | musou_kokaton.py:236-239 | above the stop line an update adds exactly 6 to the height; a stopped enemy is unchanged; the speed/state invariant is kept |
| Enemies.StoppedStaysPut | musou_kokaton.py:236-239 | once stopped, an enemy never returns to "down", keeps speed 0 and keeps its height, for any number of updates |
| Enemies.DescentEnds | musou_kokaton.py:236-239 | a descending enemy at height `cy` has stopped after `(bound - cy) / 6 + 2` updates |
| Enemies.UpdateGroup | musou_kokaton.py:504 | `emys.update()` gives every enemy of the group exactly one `Descend` step, keeps every enemy's x and size, and removes none |
| Explosions.FrameIndex | musou_kokaton.py:208 | the image index `life // 10 % 2` is 0 or 1 |
| Explosions.FrameAlternates | musou_kokaton.py:208 | ten frames of countdown later the other image is shown |
| Explosions.Explosion.constructor | musou_kokaton.py:185-200 | the countdown starts at `life` with the first image |
| Explosions.Explosion.Update | musou_kokaton.py:202-210 | the life drops by exactly one, the image index follows it, and the sprite kills itself exactly when the life is below zero |
| Explosions.Countdown | musou_kokaton.py:207-210 | the countdown never has more lives than before, and none of them is below zero |
| Explosions.CountdownExact | musou_kokaton.py:207-210 | after a countdown step every remaining life is non-negative and one below an old life, every old life of at least 1 is still there one lower, and exactly the lives that were at most 0 are gone |
| Explosions.AliveMember | musou_kokaton.py:209-210 | an explosion stays in its group exactly when it was there and its life is not below zero |
| Explosions.AliveIsRemove | musou_kokaton.py:209-210 | dropping the members that killed themselves is the same as keeping those whose life is not below zero |
| Explosions.AliveIsCountdown | musou_kokaton.py:207-210 | when every life dropped by one, the lives of the survivors are the countdown of the old lives |
| Explosions.UpdateGroup | musou_kokaton.py:510 | `exps.update()`: every life drops by one and its image follows it, the group keeps exactly the members whose life is not below zero, each still once, and their lives are the countdown of the old ones |
| Hud.Score.constructor | musou_kokaton.py:317-320 | the score starts at 0 |
| Hud.Tier | musou_kokaton.py:364-368 | yellow for widths strictly between 100 and 250, red at 100 or less, otherwise the previous colour; never back to green |
| Hud.PaintSticky | musou_kokaton.py:364-368 | a meter that is yellow or red never turns green again, whatever the later lives |
| Hud.PaintTracksLast | musou_kokaton.py:364-368 | while the life never grows, a meter that started green shows exactly the tier of the latest width |
| Hud.RegainedLifeStaysYellow | musou_kokaton.py:364-368 | a life that drops to 40 and climbs back to 60 leaves the meter yellow, not green |
| Hud.HitPoint.constructor | musou_kokaton.py:339-342 | the width is five pixels per point of life and the colour starts green |
| Hud.HitPoint.Update | musou_kokaton.py:357-368 | the colour becomes the tier of the unit's life times 5 |
| Bosses.ActLife | musou_kokaton.py:263 | the countdown of a mode is 400 for "domain_expansion" and 600 for "nomal" |
| Bosses.Wander | musou_kokaton.py:288-295 | the size is kept; on a tick the boss stays put and takes the drawn velocity and interval; off a tick it moves by its velocity and keeps it |
| Bosses.PushBack | musou_kokaton.py:308-309 | velocity, interval and size are kept; inside the playfield nothing changes; outside, moving by the velocity again restores the rect from before the push |
| Bosses.Roam | musou_kokaton.py:288-295 | off a tick the boss moves by its velocity and keeps it, unless the move would leave the playfield; on a tick it takes the drawn velocity and interval, stays put inside the playfield and moves back by the new velocity outside it (lines 308-309); the size and the draw ranges are kept, and a boss inside stays inside |
| Bosses.RoamsInside | musou_kokaton.py:288-309 | a boss that starts inside the playfield stays inside however many frames it roams |
| Bosses.TickRevertMoves | musou_kokaton.py:288-309 | on a tick outside the playfield any non-zero draw moves the boss back by the new velocity, which it never moved by |
| Bosses.FadeStep | musou_kokaton.py:299-303 | one fade step keeps `late` in 0..250 and the fade-in flag off only at 250 |
| Bosses.FadeAfter | musou_kokaton.py:299-303 | after n frames `late` is `min(250, late + n)`, and the fade-in flag is still on exactly while `late + n <= 250`, so it never turns on again |
| Bosses.BossStep | musou_kokaton.py:288-303 | one update keeps the boss invariant: velocity and interval in their draw ranges, a consistent fade, and the buff on only while its countdown is not negative |
| Bosses.Boss.constructor | musou_kokaton.py:253-270 | life 1000, transparent and fading in, buff off with countdown 0, centred on the drawn centre with the drawn velocity and interval |
| Bosses.Boss.Activate | musou_kokaton.py:458-462 | a boss whose buff is off turns it on with the chosen mode's countdown |
| Bosses.Boss.Update | musou_kokaton.py:280-309 | the boss is `BossStep` of its old state; it dies exactly when its life is at most 0, and then adds 100 points and one new explosion of life 150, and otherwise nothing |
| Bosses.Boss.WanderStep | musou_kokaton.py:288-295 | the tick-or-move part of the update is `Wander` |
| Bosses.Boss.BuffStep | musou_kokaton.py:296-298 | the countdown drops by one and the buff is cleared once it is negative |
| Bosses.Boss.FadeIn | musou_kokaton.py:299-303 | the fade part of the update is `FadeStep` |
| Bosses.Boss.PushBackStep | musou_kokaton.py:308-309 | out of bounds the boss moves back by its velocity |
| Domains.Domain.constructor | musou_kokaton.py:383-398 | a 2·rad square with the given life and owner |
| Domains.Domain.Update | musou_kokaton.py:400-407 | the domain is centred on its owner with size 2·rad, its life drops by exactly one, and it kills itself exactly when the life is below zero |
| Domains.UpdateGroup | musou_kokaton.py:515 | `domains.update()`: every domain follows its owner, keeps the size 2·rad and counts down by one, and the group keeps exactly the domains whose life is not below zero |
| Domains.Survives | musou_kokaton.py:404-407 | a domain of life `l` is still in its group after n updates exactly when n = 0 or n <= l |
| Domains.BuffEndsWithDomain | musou_kokaton.py:435-439 | a buff and the domain opened with it at the same countdown end on the same update, after `life + 1` updates (the countdowns at lines 110-112 and 404-407) |
| Groups.Remove | musou_kokaton.py:470 | the group after the kills is as long as the old one less the number of kills |
| Groups.Without | musou_kokaton.py:489 | a filtered group is no longer than the old one |
| Groups.RemoveMember | musou_kokaton.py:470 | a sprite is in its group after the kills exactly when it sits at one of the old positions that was not killed |
| Groups.RemoveGone | musou_kokaton.py:470 | in a group that holds each sprite once, a killed sprite is no longer in it |
| Groups.WithoutMember | musou_kokaton.py:489 | a filtered group keeps exactly the members outside the filter |
| Groups.RemoveDistinct | musou_kokaton.py:470 | a group holds each sprite once after kills too |
| Groups.WithoutDistinct | musou_kokaton.py:489 | a group holds each sprite once after a filter too |
| Groups.SpriteCollide | musou_kokaton.py:489 | `spritecollide(a, group, True)` reports a hit exactly when some member is hit, and leaves the members not hit |
| Groups.CollideStep | musou_kokaton.py:470 | walking one more sprite of `ga` removes what it hits from the survivors, and it is reported exactly when it hits one of the survivors so far |
| Groups.GroupCollide | musou_kokaton.py:470 | `xs[i]` is reported exactly when it hits a member of `ys` that no earlier member hit; the survivors are the members no member hit; at most one reported sprite per consumed member |
| Groups.CrashBound | musou_kokaton.py:470-479 | the reported sprites plus the survivors never outnumber the group walked against |
| Game.HandleEvent | musou_kokaton.py:430-439 | after a quit nothing changes; Space adds exactly one beam and no event adds more; Return with a score above 50 and the buff off buys it: 50 points off, buff on with countdown 400, one domain; and every change of score is such a buy |
| Game.HandleAllBounds | musou_kokaton.py:430-439 | the events of a frame leave a quit intake alone, add at most one beam each, and take points without ever going below zero |
| Game.QuitStops | musou_kokaton.py:430-432 | once a quit is handled, later events change nothing |
| Game.OneBuyPerFrame | musou_kokaton.py:435-439 | the events of a frame either leave score and buff alone, or buy the buff exactly once: 50 points off a score above 50, buff on with countdown 400, one domain |
| Game.BuyOnceScenario | musou_kokaton.py:435-439 | Return twice with 60 points and the buff off leaves 10 points, the buff on with countdown 400 and one domain |
| Game.TfAfter | musou_kokaton.py:218 | `Enemy.tf` never drops below 200 |
| Game.FiresAt | musou_kokaton.py:442-444 | under the closed form of `tf` the spawn test fires at frame 0, at frame 250, and on every later multiple of 50 |
| Game.TfAtStep | musou_kokaton.py:442-444 | the closed form of `tf` grows by 50 exactly on the frames where the spawn test fires |
| Game.SpawnSchedule | musou_kokaton.py:442-444 | without a boss, `tf` after n frames is the closed form, and an enemy spawns at frame n exactly when n is 0, or n is at least 250 and a multiple of 50 |
| Game.Droppers | musou_kokaton.py:450-453 | at most one bomb per enemy per frame |
| Game.OnlyStoppedDrop | musou_kokaton.py:450-453 | a group of descending enemies drops no bombs |
| Game.BossTouches | musou_kokaton.py:484-486 | no more boss-domain hits than domains |
| Game.OwnDomainsHarmless | musou_kokaton.py:484-486 | domains owned by the avatar never count as hits |
| Game.Blasts | musou_kokaton.py:471 | n fresh, distinct explosions, each with the given life and the first image |
| Game.Game.constructor | musou_kokaton.py:415-426 | score 0, the avatar centred on (900, 400) with full life and buff off, its meter, empty groups, frame 0 and `tf` 200; the avatar faces right with buff countdown 0 and its meter is green |
| Game.Game.HandleEvents | musou_kokaton.py:430-439 | the event loop's effect on quit, score, buff, beams and domains is `HandleAll` of the events; every new domain is the avatar's, of radius 100 and life 400; existing beams and domains are kept |
| Game.Game.Take | musou_kokaton.py:433-439 | one non-quit event's effect is `HandleEvent`: Space adds one beam; a buy takes 50 points, turns the buff on with countdown 400 and adds one avatar domain of radius 100 |
| Game.Game.SpawnEnemy | musou_kokaton.py:442-444 | an enemy spawns exactly when `tmr % tf == 0` and no boss is present, with the drawn centre, stop line and interval; `tf` grows by exactly 50 per spawn, and without a boss it follows `TfAfter` |
| Game.Game.SpawnBoss | musou_kokaton.py:447-448 | a boss spawns exactly when the 30 seconds are over, at least 5 enemies are present and no boss is, so there is never more than one; it is new, with life 1000, fading in and its buff off |
| Game.Game.DropBombs | musou_kokaton.py:450-453 | exactly one new bomb per stopped enemy whose interval divides the frame number; the old bombs are kept |
| Game.Game.ActivateBoss | musou_kokaton.py:458-464 | a present boss ends with its buff on; if it was off, it takes the mode's countdown, and "domain_expansion" opens one boss domain of radius 250 and life 400; nothing else of the boss changes |
| Game.Game.AddBlasts | musou_kokaton.py:471 | n fresh explosions of the given life are appended to the group |
| Game.Game.ShootEnemies | musou_kokaton.py:470-473 | the destroyed enemies are exactly those of `GroupCollide`, the surviving beams its survivors; each destroyed enemy adds 10 points and one explosion of life 100, and costs at least one beam |
| Game.Game.RemoveEnemies | musou_kokaton.py:470 | the group keeps exactly the enemies not destroyed; every destroyed enemy is gone and no new enemy appears |
| Game.Game.ShootBombs | musou_kokaton.py:475-477 | the destroyed bombs are exactly those of `GroupCollide`; each adds 1 point and one explosion of life 50, and costs at least one beam |
| Game.Game.ShootBosses | musou_kokaton.py:479-481 | the beams that reach a boss are spent; each boss reached loses exactly 50 life, once however many beams reached it, stays in its group, and nothing else of it changes |
| Game.Game.DomainHits | musou_kokaton.py:484-487 | the avatar loses 1 life per boss domain over it, and nothing while its buff is on |
| Game.Game.BombHits | musou_kokaton.py:489-491 | the bombs over the avatar are gone, and it loses 10 life exactly when there was at least one, however many |
| Game.Game.Shoot | musou_kokaton.py:470-482 | the beam collisions only add points, at most 10 per spent beam; no new enemy appears, and every explosion is old or new |
| Game.Game.Hurt | musou_kokaton.py:484-491 | the bombs over the avatar are gone; it loses 1 life per boss domain over it unless its buff is on, and 10 more if any bomb hit it |
| Game.Game.Collide | musou_kokaton.py:470-499 | points only grow, by at most 10 per spent beam; the avatar's life never grows; the game is over exactly when that life is at most 0 |
| Game.Game.UpdateEnemies | musou_kokaton.py:504 | every enemy takes one `Descend` step and keeps its x and size |
| Game.Game.UpdateBoss | musou_kokaton.py:506 | without a boss nothing changes; a present boss takes `BossStep`, dies exactly when its life is at most 0, and then leaves the group with 100 points and one explosion of life 150 |
| Game.Game.UpdateExplosions | musou_kokaton.py:510 | `exps.update()` keeps the game invariant |
| Game.Game.UpdateMeter | musou_kokaton.py:513-514 | the meter takes the tier of the avatar's life |
| Game.Game.UpdateDomains | musou_kokaton.py:515 | the domain group keeps some of its members, in order, and no new one |
| Game.Game.UpdateMovers | musou_kokaton.py:501-504 | the avatar takes its step in rect, facing and buff countdown with its life kept; the beams that leave the playfield are gone; every enemy takes one `Descend` step, keeps its x and size, and none is removed |
| Game.Game.UpdateFallout | musou_kokaton.py:508-510 | the bombs that leave the playfield are gone, and the game invariant is kept |
| Game.Game.UpdateTail | musou_kokaton.py:513-518 | the meter takes the tier of the avatar's life and the frame counter grows by one |
| Game.Game.UpdateRest | musou_kokaton.py:508-518 | the bombs that leave the playfield are gone, the meter takes the tier of the avatar's life, and the frame counter grows by one |
| Game.Game.UpdateSprites | musou_kokaton.py:501-518 | the updates of a frame in order: the avatar's step in rect, facing and buff countdown with its life kept; every enemy's `Descend` step with its x and size kept; the filtered beams and bombs; the meter's tier; and the frame counter one up with `tf` unchanged |
| Game.Game.Arrivals | musou_kokaton.py:442-464 | spawns, bombs and the boss activation keep the game invariant and the `tf` schedule |
| Game.Game.Frame | musou_kokaton.py:428-519 | one pass of the loop keeps the game invariant; the frame counter grows by one unless the pass quit or the game ended; without a boss, `tf` keeps to `TfAfter` |

## Left out

- Rendering, fonts, images, `blit`, `draw`, `display.update`, `clock.tick` and `time.sleep`: I/O with no effect on the simulated state.
- pygame's event queue and `key.get_pressed`: the events of a frame and the four arrow-key flags are parameters.
- `pg.time.get_ticks() > 30 * 10**3` (line 447): a boolean parameter, because it reads the wall clock.
- The `while True` loop of `main` as a loop: it is modelled one pass at a time (`Game.Game.Frame`), because it never ends on its own and each pass reads fresh input.
- Overlap geometry of `groupcollide` and `spritecollide`: the overlapping pairs are predicates given to the collision methods.
- `calc_orientation`, and the creation and flight of `Beam` and `Bomb` (lines 30-39, 116-178): they use floating-point square roots, trigonometry and division. Beams and bombs are objects without state, and which of them leave the playfield in a frame is a parameter (`Game.Moves`).
- `Enemy.assemble` and its call at lines 454-456: while a boss fades in, line 243 overwrites every enemy's `vy` with a float and moves the enemy by a float amount, which depends on how pygame rounds float moves. The model never calls it and never removes an enemy by assembly. So `Enemies.Enemy.Update`, `Enemies.StoppedStaysPut` and `Enemies.DescentEnds` describe an enemy only while no boss is fading in.
- Game.Game.DropBombs: always adds the bomb. In the code, `Bomb(emy, bird)` (line 453) calls `calc_orientation` (line 136), which divides by the distance between the two centres (line 39); when the dropping enemy's centre equals the avatar's centre that distance is 0 and the game ends with `ZeroDivisionError`. This can happen: an enemy drawn at x = 900 with stop line 416 stops at centre (900, 420), which the avatar reaches from its start (900, 400) with two steps down. The model does not capture this crash.
- Boss bomb firing (lines 466-468): it takes a float modulus and reads the loop variables `emy` and `act_mode` left over from earlier loops.
- Random draws (positions, stop lines, intervals, velocities, modes, colours, radii): parameters, with the drawn ranges as preconditions. The stop-line draw `randint(50, HEIGHT/2)` (line 226) is taken as the integer range 50..450. `HEIGHT/2` is the float 450.0; from Python 3.12 on `randint` refuses a float bound with a `TypeError`, so there the first spawn would crash.
- Image sizes are parameters. The explosion images and positions, `change_img` and the boss's image swap on a tick are visual only.
- `Score.update` and the HP meter's drawing, text and position: rendering. Of the meter only the colour tier is modelled.
- The boss group is modelled for at most one boss, which the spawn rule guarantees (`Game.Game.SpawnBoss`).
- `self.unit is None` in `Domain.update` (line 406): the `unit` attribute is always an object, so this test never succeeds.
- Game.Game.UpdateExplosions: states only the game invariant. The lives after the update are stated by `Explosions.UpdateGroup`, which it calls.
- Game.Game.UpdateDomains: states that the group keeps some of its old members in order. Each domain's life and position are stated by `Domains.UpdateGroup`, which it calls.
- Game.Game.Shoot: states the score bound and where enemies and explosions come from. Which enemies, bombs and beams are destroyed, and the damage to the boss, are stated by `Game.Game.ShootEnemies`, `Game.Game.ShootBombs` and `Game.Game.ShootBosses`, which it calls.
- Game.Game.Collide: states the score bound, that the avatar's life never grows, and the game-over test. The removals are stated by the three shooting methods, and the exact life change by `Game.Game.Hurt`.
- Game.Game.UpdateMovers: does not state the boss's update. That is stated by `Game.Game.UpdateBoss`, which it calls.
- Game.Game.UpdateFallout: does not state the explosions' lives. They are stated by `Explosions.UpdateGroup`, which it calls through `Game.Game.UpdateExplosions`.
- Game.Game.UpdateTail: does not state the domains' update. That is stated by `Domains.UpdateGroup`, which it calls through `Game.Game.UpdateDomains`.
- Game.Game.UpdateRest: does not state the explosions' or the domains' update, for the reasons given for `Game.Game.UpdateFallout` and `Game.Game.UpdateTail`.
- Game.Game.UpdateSprites: does not state the boss's, the explosions' or the domains' update, for the reasons given for `Game.Game.UpdateMovers` and `Game.Game.UpdateRest`.
- Game.Game.Arrivals: states the invariant, the `tf` schedule and where the group members come from. The individual effects are stated by the methods it calls.
- Game.Game.Frame: states the invariant, the frame counter and the `tf` schedule. What each phase does is stated by the methods it calls.
