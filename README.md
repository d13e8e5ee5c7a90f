# Alien Invasion game engine in Dafny

This project models the game-state engine of the `AlienInvasion` class in
`alien_invasion.py` and the statistics of `GameStats` in `game_stats.py`,
and proves properties of the model. The model covers:

- the sprite groups of bullets and aliens;
- forming the fleet on a grid;
- the fleet's march, drop and turn at the screen edges;
- firing and pruning bullets;
- bullet–alien collisions and scoring;
- new levels;
- lives lost to the ship being hit or to aliens reaching the bottom;
- the play button;
- the keys;
- one frame of the main loop.

The drawing is not modelled.

The model has two layers:

- **Value layer.** `Engine.World` holds everything a frame can change, as one
  value, and each engine operation is a function on that value. The lemmas in
  `Engine`, `Fleet`, `Collisions` and `Stats` state what the game promises
  about these functions.
- **Object layer.** This layer takes the source's shape: the `Game.AlienInvasion`,
  `Stats.GameStats`, `Tuning.Settings` and `Sprites.Ship` classes, whose methods
  update fields in place with the same loops the source uses. These loops are:
  - the nested fleet loops;
  - the pruning loop over a copy of the bullet group;
  - the score loop;
  - the drop loop;
  - the edge and bottom scans that stop at the first match.

  Each method of `Game.AlienInvasion` that stands for a method of the source
  is proved to take the state `Model()` to the value its `Engine` function
  gives. Three helpers cover one loop or one call each:
  - `CreateAlien`;
  - `ScoreHits`;
  - `RemoveOffscreenBullets`.

  Their contracts are stated on the fields they change.

Positions are integer rectangles (`Geometry.Rect`). Overlap follows pygame's
`colliderect`: the interiors must intersect, and an empty rectangle collides
with nothing. The button test is `collidepoint`, which includes the left and
top edges and excludes the right and bottom ones.

`groupcollide(bullets, aliens, True, True)` is modelled as pygame performs it.
The bullets are taken in group order, and each one kills every alien it
overlaps that is still alive. So a later bullet whose only targets are
already dead stays in the group (`Collisions.SharedTargetSparesSecondBullet`).
`Collisions.CollideInOrder` states, for every input, which bullets stay and
the hit counts, in order.

The model follows the code as written where it differs from what its mirrored
branches and its comments suggest, and it keeps the code's order of effects:

- A hit while `ships_left` is 1 takes the count to 0 and play continues. The
  game ends only on a hit with `ships_left` already 0.
- In `_ship_hit`, `center_ship` is named but not called, so the ship is not
  re-centred after a hit.
- On a cleared fleet, `_create_fleet` runs before `increase_speed`. The model
  keeps that order.

## Model

| member | source | states |
|---|---|---|
| Stats.Reset | game_stats.py:15-19 | ships_left becomes ship_limit, score becomes 0 and level becomes 1; high_score and game_active are unchanged |
| Stats.Fresh | game_stats.py:4-13 | a new statistics record is inactive, with high score 0, score 0, level 1 and ship_limit ships |
| Stats.ResetIdempotent | game_stats.py:15-19 | resetting twice is the same as resetting once |
| Stats.ResetValid | game_stats.py:4-19 | a reset record and a fresh record are in range, and resetting a fresh record changes nothing |
| Stats.GameStats.constructor | game_stats.py:4-13 | a constructed GameStats holds the fresh record |
| Stats.GameStats.ResetStats | game_stats.py:15-19 | assigns exactly the three per-session fields, as `Reset` gives |
| Tuning.Settings.constructor | alien_invasion.py:20 | new settings keep the given fixed values, with the fleet moving right and no speed-ups |
| Tuning.Settings.InitializeDynamicSettings | alien_invasion.py:71 | the fleet direction goes back to the right and the speed-up count to 0 |
| Tuning.Settings.IncreaseSpeed | alien_invasion.py:140 | one more speed-up; the direction is unchanged |
| Sprites.ShipRect | alien_invasion.py:152 | the ship's rectangle has the ship's size, its left edge at x and its bottom on the screen's bottom edge |
| Sprites.CenteredX | alien_invasion.py:84 | the centred ship's midpoint is the screen's midpoint |
| Sprites.Steered | alien_invasion.py:44 | each flag moves the ship by its speed unless that side is reached, both tests use the old position, and no flag means no move; with both flags set, the ship stays put between the sides, moves right at the left side, moves left at the right side, and stays put when it spans the screen |
| Sprites.NewBullet | alien_invasion.py:110 | a new bullet's midtop is the ship's midtop |
| Sprites.Climbed | alien_invasion.py:116 | a bullet rises by the bullet speed and keeps its column and size |
| Sprites.AtEdge | alien_invasion.py:210 | Alien.check_edges: the alien's right edge has reached the screen width or its left edge is at or left of 0 |
| Sprites.Marched | alien_invasion.py:149 | an alien moves sideways by direction times speed and keeps its row and size |
| Sprites.Ship.Update | alien_invasion.py:44 | the ship's x becomes `Steered` of the old x; the flags are unchanged |
| Sprites.Ship.CenterShip | alien_invasion.py:84 | the ship's x becomes the centred position; the flags are unchanged |
| Sprites.Ship.constructor | alien_invasion.py:29 | a new ship is centred at the bottom, with both movement flags clear |
| Fleet.AliensPerRow | alien_invasion.py:185-186 | the largest n such that n aliens, each followed by a gap of one alien width, fit behind a left margin of one alien width and a right margin of two |
| Fleet.Rows | alien_invasion.py:189-191 | the largest n such that n rows, each followed by a gap of one alien height, fit below a top margin of one alien height and above a band of two alien heights above the ship |
| Fleet.AlienAt | alien_invasion.py:198-204 | the alien of a cell has the alien sprite's size |
| Fleet.Grid | alien_invasion.py:194-196 | the first k aliens of the formation are placed row by row, left to right |
| Fleet.NewFleet | alien_invasion.py:180-196 | the aliens _create_fleet adds: the grid of AliensPerRow columns by Rows rows, or none when either is ≤ 0; its properties are in the NewFleet lemmas |
| Fleet.NewFleetSize | alien_invasion.py:185-196 | a new fleet has number_rows × number_aliens_x aliens, and none when either value is ≤ 0 |
| Fleet.NewFleetCell | alien_invasion.py:194-204 | cell (n, r) is at index r·columns + n and is placed at x = w + 2wn, y = h + 2hr |
| Fleet.NewFleetIndex | alien_invasion.py:194-204 | every alien of a new fleet is the alien of some cell inside the formation |
| Fleet.CellsApart | alien_invasion.py:202-204 | aliens of two different cells do not overlap |
| Fleet.NewFleetSeparated | alien_invasion.py:194-204 | no two aliens of a new fleet overlap or share a position |
| Fleet.NewFleetInside | alien_invasion.py:185-204 | a new fleet keeps one alien width from the left side, two from the right side, and two alien heights above the ship |
| Fleet.NewFleetQuiet | alien_invasion.py:180-227 | a new fleet is at no edge, has no alien at the bottom, and does not touch the ship |
| Fleet.Dropped | alien_invasion.py:216-217 | every alien moves down by the drop speed, and the order is kept |
| Fleet.MarchedAll | alien_invasion.py:149 | every alien marches one step, and the order is kept |
| Fleet.SomeAtEdge | alien_invasion.py:209-210 | the scan of _check_fleet_edges: some alien of the fleet is at an edge |
| Fleet.AtBottom | alien_invasion.py:224 | an alien's bottom has reached the screen's bottom |
| Fleet.SomeAtBottom | alien_invasion.py:223-224 | the scan of _check_aliens_bottom: some alien of the fleet has reached the bottom |
| Collisions.GroupCollide | alien_invasion.py:128 | every bullet either survives or has a hit count of at least one |
| Collisions.CollideAliens | alien_invasion.py:128 | the aliens left are exactly those no bullet overlaps, in their original order |
| Collisions.CollideCounts | alien_invasion.py:128-132 | the hit counts add up to the number of aliens removed |
| Collisions.CollideBullets | alien_invasion.py:128 | no surviving bullet overlaps a surviving alien, a bullet that overlaps no alien survives, and the survivors are bullets from the group |
| Collisions.Alive | alien_invasion.py:128 | the aliens still alive when a bullet takes its turn: those no earlier bullet overlapped |
| Collisions.Kills | alien_invasion.py:128 | how many aliens a bullet kills on its turn: the live aliens it overlaps |
| Collisions.KillsNone | alien_invasion.py:128 | a bullet kills nothing on its turn exactly when it overlaps no alien left alive by the earlier bullets |
| Collisions.Turns | alien_invasion.py:128 | each bullet of the group, in order, with what it kills on its turn |
| Collisions.TurnsCons | alien_invasion.py:128 | the first bullet's turn, then the other bullets' turns against the aliens it missed |
| Collisions.CollideInOrder | alien_invasion.py:128-132 | the bullets left are, in order, exactly those that killed nothing on their turn; the hit counts are, in order, the kills of every other bullet |
| Collisions.OneBulletTwoAliens | alien_invasion.py:128-132 | one bullet over two aliens kills both, is removed, and scores a hit count of 2 |
| Collisions.SharedTargetSparesSecondBullet | alien_invasion.py:128 | when two bullets overlap one alien, the first kills it and the second survives |
| Geometry.Overlaps | alien_invasion.py:128 | Rect.colliderect as groupcollide and spritecollideany use it: both rectangles are non-empty and their interiors intersect |
| Geometry.ContainsPoint | alien_invasion.py:68 | Rect.collidepoint: the left and top edges are inside, the right and bottom edges are not |
| Geometry.AnyOverlap | alien_invasion.py:152 | spritecollideany: some rectangle of the group overlaps the given one |
| Engine.PlayButton | button.py:11-18 | the button is 200 by 50 and centred on the screen |
| Engine.Initial | alien_invasion.py:17-36 | the first state is inactive, with no bullets, a full new fleet, and the invariant holding |
| Engine.FireBullet | alien_invasion.py:107-111 | below the limit, exactly one bullet is added at the ship's nose; at the limit nothing changes; nothing else ever changes; the limit is never exceeded |
| Engine.ClimbedAll | alien_invasion.py:116 | every bullet climbs one step, and the order is kept |
| Engine.Pruned | alien_invasion.py:119-121 | the bullets whose bottom is below the top of the screen, in order; its properties are in PrunedExactly |
| Engine.Visible | alien_invasion.py:120 | the negation of the removal test: a bullet stays while its bottom is below the top of the screen |
| Engine.UpdateBullets | alien_invasion.py:113-123 | every bullet climbs, the off-screen ones are pruned, then collisions are handled |
| Engine.SteerShip | alien_invasion.py:44 | the ship's x becomes `Steered` of its old x and flags, and nothing else in the state changes |
| Engine.CheckBulletAlienCollisions | alien_invasion.py:125-144 | groupcollide, points for every alien killed, and a new level when no alien is left; its properties are in CollisionsScore |
| Engine.NewLevel | alien_invasion.py:136-144 | no bullets, a new fleet, one speed-up and level +1 |
| Engine.CreateFleet | alien_invasion.py:180-196 | the new fleet is appended to the alien group |
| Engine.PrunedExactly | alien_invasion.py:119-121 | after pruning, every bullet has bottom > 0, and every bullet with bottom > 0 is kept with all its copies |
| Engine.CollisionsScore | alien_invasion.py:125-144 | the struck aliens are removed; score rises by alien_points × aliens removed and never falls; on a cleared fleet: no bullets, a new fleet, level +1, one speed-up; otherwise level and speed are unchanged; lives, activity, direction and ship are unchanged; nothing is said about the high score |
| Engine.ChangeFleetDirection | alien_invasion.py:214-218 | every alien drops by the drop speed, the direction is negated and stays ±1, and nothing else changes |
| Engine.CheckFleetEdges | alien_invasion.py:207-212 | one drop and turn when some alien is at an edge, otherwise no change; its properties are in EdgesTurnOnce |
| Engine.EdgesTurnOnce | alien_invasion.py:207-212 | exactly one drop and turn when some alien is at an edge, no change otherwise; x positions are unchanged and the direction stays ±1 |
| Engine.ShipHit | alien_invasion.py:158-178 | with ships left, one is lost and the field starts over without re-centring the ship; otherwise the game ends; its properties are in ShipHitBranches |
| Engine.CheckAliensBottom | alien_invasion.py:220-227 | a ship hit when some alien's bottom has reached the screen's bottom, otherwise no change |
| Engine.UpdateAliens | alien_invasion.py:146-156 | edge check, march, a hit when an alien overlaps the ship, then the bottom check; its properties are in AliensCostAtMostOneShip |
| Engine.ShipHitBranches | alien_invasion.py:158-178 | with ships left: one life is lost, there are no bullets and a new fleet; with none left: the game ends and nothing else changes; the ship does not move |
| Engine.AliensCostAtMostOneShip | alien_invasion.py:146-156 | one alien update costs at most one ship, never raises activity, and leaves score, level, high score and ship position alone |
| Engine.CheckPlayButton | alien_invasion.py:66-87 | starts a new game on a press inside the button while inactive; its properties are in PlayStartsNewGame |
| Engine.PlayStartsNewGame | alien_invasion.py:66-87 | a press inside the button while inactive resets the stats, activates the game, empties both groups, builds a new fleet, centres the ship and resets the direction and speed; any other press changes nothing |
| Engine.CheckKeydownEvents | alien_invasion.py:89-98 | Right and Left set their flag, Q exits, Space fires |
| Engine.CheckKeyupEvents | alien_invasion.py:100-105 | Right and Left clear their flag |
| Engine.CheckEvents | alien_invasion.py:53-64 | the events in order, stopping at an exit |
| Engine.RunFrame | alien_invasion.py:38-51 | the events, then, while the game is active, the ship, the bullets and the aliens |
| Engine.KeysSetFlags | alien_invasion.py:89-105 | Right and Left set their flag on press and clear it on release, Space fires, Q exits, and other keys change nothing |
| Engine.SmallStepsKeepInv | alien_invasion.py:107-218 | firing, steering, a ship hit and the edge check keep the state invariant |
| Engine.UpdateBulletsKeepsInv | alien_invasion.py:113-144 | the bullet update keeps the state invariant |
| Engine.UpdateAliensKeepsInv | alien_invasion.py:146-227 | the alien update keeps the state invariant |
| Engine.EventsKeepInv | alien_invasion.py:53-64 | handling a frame's events keeps the state invariant |
| Engine.FrameKeepsInv | alien_invasion.py:38-51 | every frame keeps the direction ±1, the bullets within their limit and the statistics in range |
| Engine.ActiveEventsKeepStats | alien_invasion.py:53-69 | while a game is active, events do not change the statistics |
| Engine.ActiveFrameProgress | alien_invasion.py:38-51 | in an active game a frame never lowers the score, raises the level by at most one, and costs at most one ship |
| Game.PruneStep | alien_invasion.py:119-121 | one step of the pruning loop prunes one more bullet of the copy |
| Game.AlienInvasion.constructor | alien_invasion.py:17-36 | the new game is the initial state |
| Game.AlienInvasion.CheckEvents | alien_invasion.py:53-64 | handles the events in order and stops at an exit, as `Engine.CheckEvents` gives |
| Game.AlienInvasion.RunFrame | alien_invasion.py:40-47 | one frame of the main loop, as `Engine.RunFrame` gives |
| Game.AlienInvasion.CheckPlayButton | alien_invasion.py:66-87 | the new state is `Engine.CheckPlayButton` of the old one |
| Game.AlienInvasion.CheckKeydownEvents | alien_invasion.py:89-98 | the new state and the exit flag are `Engine.CheckKeydownEvents` of the old state |
| Game.AlienInvasion.CheckKeyupEvents | alien_invasion.py:100-105 | the new state is `Engine.CheckKeyupEvents` of the old one |
| Game.AlienInvasion.FireBullet | alien_invasion.py:107-111 | the new state is `Engine.FireBullet` of the old one |
| Game.AlienInvasion.UpdateBullets | alien_invasion.py:113-123 | the new state is `Engine.UpdateBullets` of the old one |
| Game.AlienInvasion.RemoveOffscreenBullets | alien_invasion.py:119-121 | the group becomes `Pruned` of the old group; the aliens are unchanged |
| Game.AlienInvasion.CheckBulletAlienCollisions | alien_invasion.py:125-144 | the new state is `Engine.CheckBulletAlienCollisions` of the old one |
| Game.AlienInvasion.ScoreHits | alien_invasion.py:130-132 | the score rises by alien_points times the sum of the hit counts, and no other statistic changes |
| Game.AlienInvasion.StartNewLevel | alien_invasion.py:136-144 | the new state is `Engine.NewLevel` of the old one |
| Game.AlienInvasion.UpdateAliens | alien_invasion.py:146-156 | the new state is `Engine.UpdateAliens` of the old one |
| Game.AlienInvasion.ShipHit | alien_invasion.py:158-178 | the new state is `Engine.ShipHit` of the old one |
| Game.AlienInvasion.CreateFleet | alien_invasion.py:180-196 | the new fleet is appended to the alien group, as `Engine.CreateFleet` gives |
| Game.AlienInvasion.CreateAlien | alien_invasion.py:198-205 | exactly one alien, for the given cell, is appended; the bullets are unchanged |
| Game.AlienInvasion.CheckFleetEdges | alien_invasion.py:207-212 | the new state is `Engine.CheckFleetEdges` of the old one |
| Game.AlienInvasion.ChangeFleetDirection | alien_invasion.py:214-218 | the new state is `Engine.ChangeFleetDirection` of the old one |
| Game.AlienInvasion.CheckAliensBottom | alien_invasion.py:220-227 | the new state is `Engine.CheckAliensBottom` of the old one |

## Left out

- Rendering is not modelled: pygame initialisation, window creation, the caption, `_update_screen`, `display.flip` and the button's font and colours only draw.
- Event polling is not modelled: events are a parameter, a sequence of `Engine.Event`.
- `sys.exit` is modelled as an exit flag that ends the frame.
- Mouse-cursor visibility and the real-time pause `sleep(0.5)` in `_ship_hit` are not modelled, because they have no effect on the game state.
- The Scoreboard's `prep_*` calls and `check_high_score` are not modelled. scoreboard.py is not part of this model, so the high score never changes here.
- Engine.CollisionsScore: states nothing about the high score, because `check_high_score` (alien_invasion.py:134) may raise it and is not modelled.
- Engine.ActiveFrameProgress: states nothing about the high score, for the same reason.
- Tuning.Config.Valid: requires an alien sprite with non-zero width and height. With a zero size, the floor divisions of alien_invasion.py:186 and 191 raise ZeroDivisionError; that error path is not modelled.
- settings.py, ship.py, alien.py and bullet.py are not part of this model. Their behaviour is stated on integer rectangles with integer speeds, so float sub-pixel positions (`alien.x`, `ship.x`) are not modelled.
- Tuning.Settings.IncreaseSpeed: records only that a speed-up happened. The scaling of the speeds and points in settings.py is not modelled.
- The endless `while True` loop of `run_game` is modelled as one frame (`RunFrame`), with lemmas about a single frame.
