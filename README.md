# The gun of Khiryanov, as a verified Dafny model

This project models the game engine of `week13/cannon.py`. In that pygame
program the player's cannon fires shells at round targets. Each tick the
`Manager`:

1. reads the mouse and keyboard;
2. aims the gun;
3. moves the shells, the targets and the gun's charge;
4. removes the targets that shells touch, scoring them;
5. starts a new mission once no targets and no shells are left.

The model keeps the program's classes as Dafny classes, with fields that
their methods update in place:

- `Shells.Shell`
- `Cannons.Cannon`
- `Targets.Target`, which covers both `Target` and `MovingTargets`
- `Scores.ScoreTable`
- `Game.Manager`

The methods that change state give the state they leave through
specification functions on plain values: `Step` for a shell, `Drift` for a
target, `Mission` for a new mission, `PopReversed` for the pops of `collide`.
Lemmas prove what the game relies on about those functions. The modules are:

- `Arena`:
  - the screen size and the two-element `Vec`;
  - truncating division, which stands for Python's `int(v * 0.8)` and
    `int(v * 0.9)`.
- `Shells`: the reflection at the walls (`Corners`) and one tick of motion
  (`Step`), with the `Shell` class.
- `Cannons`: the charge and pan rules (`Gained`, `Panned`), with the `Cannon`
  class.
- `Targets`: the collision test (`Collides`) and the drift of a moving target
  (`Drift`), with the `Target` class.
- `Scores`: the two counters of `ScoreTable`.
- `Lists`: the Python list operations the `Manager` uses:
  - `pop(i)`;
  - popping a list of indices from the end;
  - `sort()`.
- `ManagerSpec`: the per-tick rules of the `Manager` on values:
  - the input events;
  - the random draws of a mission;
  - the charge after a batch of events;
  - the list of colliding (shell, target) pairs that `collide` builds.
- `Game`: the `Manager` class itself.

`collide` is modelled as written, with one index per colliding pair. If two
shells touch the same target, its index is popped twice. The second pop
removes the next target, which no shell touched, or raises `IndexError` when
there is none. `ManagerSpec.DoubleHitPopsTwice` proves both outcomes.
`ManagerSpec.CollideRemovesHitTargets` proves the intended behaviour when no
target is touched by two shells: exactly the touched targets go.

The game in this file has:

- one player gun;
- stationary and drifting targets;
- one score made of two counters.

It has no bombs, no computer-controlled gun, no orbiting targets, no other
kinds of shell and no hits-taken counter, so the model has none either.

## Model

| member | source | states |
|---|---|---|
| Arena.TruncDiv | week13/cannon.py:50-51 | Python's `int()` of a quotient: the magnitude is the magnitude of `a` divided by `b`, rounded down, and the sign is that of `a` (truncation toward zero) |
| Arena.Ort | week13/cannon.py:50 | the normal velocity after a bounce, `-int(v*0.8)`, as minus the truncated quotient of `4v` by 5 |
| Arena.Par | week13/cannon.py:51 | the parallel velocity after a bounce, `int(v*0.9)`, as the truncated quotient of `9v` by 10 |
| Arena.OrtFlipsAndDamps | week13/cannon.py:50 | the normal velocity `-int(v*0.8)` has magnitude `4|v|/5` rounded down, has the opposite sign to `v` or is 0, and is strictly smaller than `v` in magnitude when `v` is not 0 |
| Arena.ParKeepsSignAndDamps | week13/cannon.py:51 | the parallel velocity `int(v*0.9)` has magnitude `9|v|/10` rounded down, keeps the sign of `v` or is 0, and is strictly smaller when `v` is not 0 |
| Arena.BounceNeverGrows | week13/cannon.py:50-51 | neither bounce factor makes a velocity component larger |
| Shells.CornerAxis | week13/cannon.py:48-55 | one pass of the `check_corners` loop for axis i |
| Shells.Corners | week13/cannon.py:43-55 | `check_corners`: the passes for axes 0 and then 1 |
| Shells.Step | week13/cannon.py:57-67 | `move` on values: gravity, the position update, `check_corners`, then the death test |
| Shells.WallHitReflects | week13/cannon.py:48-55 | on a wall hit along axis i, the shell is placed on that wall and its other coordinate is kept; the normal velocity is reversed or stopped and does not grow; the tangential velocity keeps its sign and does not grow |
| Shells.CornerAxisDamps | week13/cannon.py:47-55 | a pass of the loop that finds no wall changes nothing; any pass keeps the other coordinate and never increases a velocity component |
| Shells.CornersInArena | week13/cannon.py:43-55 | if the arena fits the ball, then after `check_corners` both coordinates lie in `[radius, size - radius]` |
| Shells.CornersKeepInArena | week13/cannon.py:43-55 | `check_corners` on a shell already inside the arena changes nothing |
| Shells.CornersIdempotent | week13/cannon.py:43-55 | `check_corners` applied twice equals `check_corners` applied once |
| Shells.CornersNeverSpeedUp | week13/cannon.py:43-55 | after `check_corners`, neither velocity component is larger in magnitude |
| Shells.StepStaysInArena | week13/cannon.py:57-67 | after a move, the shell is inside the arena and keeps its radius, and a dead shell stays dead |
| Shells.DeathRule | week13/cannon.py:65-67 | a shell is dead after a move exactly when it was already dead, or when its post-bounce squared speed is below 4 and its y is greater than `600 - 2*radius` |
| Shells.GravityBeforeMove | week13/cannon.py:62-64 | gravity is added to the vertical velocity before the position advances; away from the walls the new position is the old one plus `time` times the accelerated velocity |
| Shells.ShellAtRestOnFloorDies | week13/cannon.py:62-67 | under the Manager's gravity of 2, a live shell lying still on the floor dies on its next move |
| Shells.Shell.constructor | week13/cannon.py:31-41 | a new shell has the given position, velocity and radius, and is alive |
| Shells.Shell.CheckCorners | week13/cannon.py:43-55 | the loop over both axes leaves the position and velocity equal to `Corners`, and leaves `is_alive` as it was |
| Shells.Shell.Move | week13/cannon.py:57-67 | the new state of the shell is `Step` of its old state: gravity, then the position update, then the bounce, then the death test |
| Cannons.Gained | week13/cannon.py:98-103 | the `gain` rule: an active gun below its maximum charge gains `increment` |
| Cannons.Panned | week13/cannon.py:122-127 | the guarded `move` rule for the gun's x |
| Cannons.GainBounded | week13/cannon.py:98-103 | the charge changes exactly when the gun is active and below its maximum, and only by `increment`; the charge never exceeds `max_pow + increment - 1` |
| Cannons.GainKeepsChargeReachable | week13/cannon.py:98-103 | with the defaults, repeated gains keep the charge an even number in [10, 50] |
| Cannons.PanGuard | week13/cannon.py:122-127 | a pan request toward a wall is ignored within 30 units of that wall; any other request moves the gun by exactly `increment` |
| Cannons.PanStaysOnFloor | week13/cannon.py:122-127 | with steps of at most 5, a gun that starts within [25, 775] stays there |
| Cannons.Cannon.constructor | week13/cannon.py:80-90 | a new gun has the given position, angle and limits, is not charging, and holds the minimum charge |
| Cannons.Cannon.Activate | week13/cannon.py:92-96 | the gun is charging |
| Cannons.Cannon.Gain | week13/cannon.py:98-103 | the new charge follows the `gain` rule |
| Cannons.Cannon.Strike | week13/cannon.py:105-114 | returns a new shell at the gun's position, launched from the charge and angle the gun had before the shot, with radius 20, alive; the gun then holds the minimum charge and stops charging |
| Cannons.Cannon.SetAngle | week13/cannon.py:116-120 | the gun's angle is the given direction |
| Cannons.Cannon.Move | week13/cannon.py:122-127 | x follows the guarded pan rule and y never changes |
| Targets.Collides | week13/cannon.py:173-179 | `check_collision` on values: the circles touch or overlap, compared as squared distances |
| Targets.Drift | week13/cannon.py:187-208 | one `move` of a target: a stationary one stays; a moving one shifts by its velocity and reverses each component whose axis is out of the arena |
| Targets.Target.CheckCollision | week13/cannon.py:173-179 | the target's collision test with a shell object is `Collides` of their positions and radii |
| Targets.CollisionSymmetric | week13/cannon.py:173-179 | the collision test does not depend on which circle is the target |
| Targets.CentreInsideCollides | week13/cannon.py:173-179 | a shell whose centre lies within the target's radius (Euclidean distance, compared as squares) always collides |
| Targets.FarApartMisses | week13/cannon.py:173-179 | circles further apart on one axis than the sum of their radii never collide |
| Targets.CollisionGrowsWithRadius | week13/cannon.py:173-179 | a larger shell collides with everything that a smaller shell collides with |
| Targets.DriftShiftsAndKeepsSpeed | week13/cannon.py:187-208 | a moving target shifts by exactly its velocity from before the move; speeds are kept (only signs flip); a stationary target does not move |
| Targets.DriftTurnsBack | week13/cannon.py:204-208 | a target past a wall and still heading out reverses that velocity component |
| Targets.DriftKeepsSlow | week13/cannon.py:197-208 | velocities drawn in [-2, 2] stay in [-2, 2] after any number of moves |
| Targets.DriftKeepsReturning | week13/cannon.py:200-208 | a target that is past a wall is heading back and reaches the wall on its next move; every move keeps this true |
| Targets.ReturningStaysNear | week13/cannon.py:200-208 | such a target is never further past a wall than its speed |
| Targets.Target.Stationary | week13/cannon.py:160-171 | a new `Target` has the given position and radius and does not move |
| Targets.Target.Moving | week13/cannon.py:194-198 | a new `MovingTargets` has the given position, radius and drawn velocities |
| Targets.Target.Move | week13/cannon.py:187-208 | the new state of the target is `Drift` of its old state (no change for a stationary target) |
| Scores.ScoreTable.Score | week13/cannon.py:220-224 | `score()`: destroyed targets minus shells used |
| Scores.ScoreTable.constructor | week13/cannon.py:215-217 | a new table holds the given counters |
| Lists.PopReversed | week13/cannon.py:348-350 | the pop loop of `collide`: pop the listed indices from the last to the first, raising at the first index past the end |
| Lists.PopAt | week13/cannon.py:331 | `pop(i)` shortens the list by one, keeps the elements before `i`, and shifts the elements after it down by one |
| Lists.WithoutMembers | week13/cannon.py:330-331 | an element remains after removing a set of positions exactly when some position outside that set holds it |
| Lists.WithoutAfterPop | week13/cannon.py:330-331 | popping the largest position first and then removing smaller ones equals removing all of them at once |
| Lists.PopAscending | week13/cannon.py:330-331 | popping strictly ascending in-range indices from the end never raises, and removes exactly those positions |
| Lists.WithoutKeepsAll | week13/cannon.py:330-331 | removing no position leaves the list unchanged |
| Lists.PopAtKeeps | week13/cannon.py:350 | a pop adds no element and keeps a list free of repetitions |
| Lists.PopSameTwice | week13/cannon.py:348-350 | popping index j twice removes j and the element after it, or raises when j was the last index |
| Lists.Insert | week13/cannon.py:347 | inserting into an ascending list keeps it ascending and adds exactly that element |
| Lists.SortAsc | week13/cannon.py:347 | `sort()` returns an ascending permutation of its input |
| Lists.SortDistinctIsStrict | week13/cannon.py:347 | sorting pairwise distinct indices gives a strictly ascending list |
| ManagerSpec.Pick | week13/cannon.py:165 | a draw from a non-empty range lies inside it |
| ManagerSpec.RandInt | week13/cannon.py:255-257 | `randint(lo, hi)` returns a value exactly when `lo <= hi`, and that value lies in `[lo, hi]`; otherwise it raises |
| ManagerSpec.RandIntCovers | week13/cannon.py:255-257 | every value in a non-empty range can be drawn |
| ManagerSpec.RadiusLow | week13/cannon.py:256 | the lower radius bound `max(1, 30 - 2*max(0, score))` |
| ManagerSpec.RadiusHigh | week13/cannon.py:257 | the upper radius bound `30 - max(0, score)` |
| ManagerSpec.RadiusRange | week13/cannon.py:255-257 | the radius range is non-empty exactly while the score is at most 29, and every radius in it lies in [1, 30] |
| ManagerSpec.RadiusShrinks | week13/cannon.py:253-257 | as the score rises, both bounds of the radius range shrink |
| ManagerSpec.SpawnedExists | week13/cannon.py:254-265 | a target is spawned exactly while the score is at most 29; it has the requested kind, and a stationary one has no velocity |
| ManagerSpec.SpawnedIsValid | week13/cannon.py:160-167 | a spawned target's radius lies in the score's range, its centre lies inside the arena, and its velocities lie in [-2, 2] |
| ManagerSpec.MissionNext | week13/cannon.py:252-265 | each round appends one moving target and then one stationary target |
| ManagerSpec.MissionExists | week13/cannon.py:252-265 | a mission of one or more rounds succeeds exactly while the score is at most 29 |
| ManagerSpec.MissionShape | week13/cannon.py:252-265 | a mission holds two targets per round, with the moving ones at the even positions |
| ManagerSpec.MissionIsValid | week13/cannon.py:252-265 | every target of a mission is valid and inside the arena |
| ManagerSpec.DriftKeepsOk | week13/cannon.py:332-333 | moving keeps every target valid |
| ManagerSpec.ChargeAfterEvents | week13/cannon.py:292-301 | after a batch of events the charge is unchanged if no shell was fired, and is the minimum once one was; after a final release the gun is not charging |
| ManagerSpec.ReleasesAdd | week13/cannon.py:292-301 | the shells fired by two consecutive event batches add up |
| ManagerSpec.PanKeysStayOnFloor | week13/cannon.py:302-306 | the arrow keys keep the gun within [25, 775] |
| ManagerSpec.RowMembers | week13/cannon.py:343-346 | one shell's inner loop lists, in increasing order, exactly the indices of the targets it touches |
| ManagerSpec.HitListMembers | week13/cannon.py:342-346 | `targets_c` holds only valid indices, and an index is in it exactly when some shell touches that target |
| ManagerSpec.HitOnceIsDistinct | week13/cannon.py:342-346 | when no target is touched by two shells, `targets_c` has no repeated index |
| ManagerSpec.CollideRemovesHitTargets | week13/cannon.py:336-350 | when no target is touched by two shells, `collide` does not raise, removes exactly the touched targets and keeps the others in order, and counts one destroyed target per removal |
| ManagerSpec.DoubleHitPopsTwice | week13/cannon.py:342-350 | when two shells touch only target j, `targets_c` is `[j, j]`; the second pop removes the untouched target after j, or raises when j was last |
| ManagerSpec.Spawned | week13/cannon.py:254-265 | one target of `new_mission`: a radius drawn from the score's range (or a raise on an empty range), a centre drawn inside the arena, and for a moving target velocities drawn in [-2, 2] |
| ManagerSpec.Mission | week13/cannon.py:252-265 | the targets of `num_of_targets` rounds, each a moving target then a stationary one; it raises as soon as one draw does |
| ManagerSpec.Hit | week13/cannon.py:344 | `target.check_collision(ball)` on states: `Collides` of the target's and the shell's positions and radii |
| ManagerSpec.Row | week13/cannon.py:343-346 | the indices one shell's inner loop of `collide` appends, in increasing order |
| ManagerSpec.HitList | week13/cannon.py:341-346 | `targets_c`: the rows of all shells, shell by shell |
| ManagerSpec.Releases | week13/cannon.py:298-301 | the number of left-button releases in an event batch, each of which fires a shell |
| ManagerSpec.ChargeStep | week13/cannon.py:293-301 | one event: a left press starts charging, a left release fires and resets to the minimum charge, anything else changes nothing |
| ManagerSpec.ChargeAfter | week13/cannon.py:291-301 | the charge after the event loop of `handle_events` |
| ManagerSpec.Fired | week13/cannon.py:298-301 | the states of the shells a batch fires: all at the gun's position, alive, radius 20, the first launched at the gun's charge and the rest at the minimum |
| ManagerSpec.PanKeys | week13/cannon.py:302-306 | the gun's x after the held keys: the left pan, then the right pan |
| ManagerSpec.StepAll | week13/cannon.py:325-328 | every shell state stepped once under the given gravity, in order |
| ManagerSpec.LiveStates | week13/cannon.py:325-331 | the live shell states, in order |
| ManagerSpec.LiveStatesMembers | week13/cannon.py:325-331 | a state is kept exactly when it was listed and is alive |
| ManagerSpec.DriftAll | week13/cannon.py:332-333 | every target state drifted once, in order |
| ManagerSpec.SingleHitRow | week13/cannon.py:343-346 | a shell touching only target j contributes the row `[j]` |
| Game.Survivors | week13/cannon.py:325-331 | the shell list left by `move`'s two shell loops: the live shells in their original order |
| Game.SurvivorStates | week13/cannon.py:325-331 | the states of the surviving shells are `LiveStates` of the states of all shells |
| Game.PopReversedStates | week13/cannon.py:348-350 | popping a list of indices from the targets raises exactly when popping it from their states does, and otherwise leaves the states of the remaining targets |
| Game.SurvivorsMembers | week13/cannon.py:325-331 | a shell remains exactly when it was listed and is alive; the list keeps no repetition |
| Game.SurvivorsAreWithoutDead | week13/cannon.py:325-331 | removing the positions of the dead shells leaves the live shells in their original order |
| Game.SurvivorsKeepOk | week13/cannon.py:325-331 | if every live shell is valid, the surviving shells are valid |
| Game.PoppedAreSurvivors | week13/cannon.py:325-331 | popping the dead indices leaves the survivors, valid and listed once |
| Game.Manager.constructor | week13/cannon.py:239-246 | a new manager has no shells and a score table at zero. It has a fresh default gun at (400, 570) with angle 0, not charging, holding the minimum charge. Its targets are new objects whose states are exactly `Mission` at score 0 (`2 * Max(0, num_of_targets)` of them, never raising). The manager invariant holds |
| Game.Manager.NewMission | week13/cannon.py:248-265 | succeeds exactly when `num_of_targets <= 0` or the score is at most 29; on success it appends exactly the `2*num_of_targets` new targets of `Mission`, keeping the existing ones; on failure nothing changes; the invariant is kept |
| Game.Manager.AppendMission | week13/cannon.py:252-265 | the `new_mission` loop appends the targets of `Mission` as new objects, or nothing if the first draw raises |
| Game.Manager.AppendRound | week13/cannon.py:254-265 | one round appends new objects in the states `Spawned` gives: a moving target, then a stationary one |
| Game.Manager.HandleEvents | week13/cannon.py:287-308 | `done` is true exactly when a quit event came; each left release appends one new shell, fired from the gun, and adds 1 to `shell_used`; the charge follows `ChargeAfter`; the keys pan the gun (left, then right); the invariant is kept |
| Game.Manager.PanGun | week13/cannon.py:302-306 | the held keys pan the gun by `PanKeys` (left, then right), keep it on the floor within [25, 775], and change nothing else |
| Game.Manager.HandleEventList | week13/cannon.py:291-301 | the event loop fires and counts one shell per left release; existing shells stay as they are |
| Game.Manager.HandleEvent | week13/cannon.py:293-301 | a quit event reports quitting; a left press activates the gun; a left release appends one shell and counts it; any other event changes nothing |
| Game.Manager.MoveShells | week13/cannon.py:325-331 | every shell moves by `Step`; the dead ones are removed, the survivors keep their order, and targets, gun and score are unchanged |
| Game.Manager.StepShells | week13/cannon.py:325-329 | every shell moves by `Step`; the returned indices, in increasing order, are exactly the positions of the dead shells |
| Game.Manager.MoveShellAt | week13/cannon.py:327 | one shell moves; no other shell changes, and neither does a target, the gun or the score |
| Game.Manager.DropDead | week13/cannon.py:330-331 | popping the dead positions of the stepped shells leaves exactly the live ones, in order, as valid shells whose states are `LiveStates` of the stepped states |
| Game.Manager.PopShells | week13/cannon.py:330-331 | the reverse pop loop removes exactly the listed positions |
| Game.Manager.MoveTargets | week13/cannon.py:332-333 | every target moves by `Drift` and stays valid; the shells are unchanged |
| Game.Manager.Move | week13/cannon.py:321-334 | the surviving shells have moved by `Step` and keep their order, every target has moved by `Drift`, the charge follows `gain`, and the invariant is kept |
| Game.Manager.MoveObjects | week13/cannon.py:325-333 | the shell loops and then the target loop, with the same results as in `Move`; the gun and the score are unchanged |
| Game.Manager.GainCharge | week13/cannon.py:334 | the charge follows `gain` and stays an even number in [10, 50] |
| Game.Manager.Hits | week13/cannon.py:341-346 | the `targets_c` list `collide` builds from the current shells and targets: `HitList` of their states |
| Game.Manager.Collide | week13/cannon.py:336-350 | shells are unchanged; `collide` raises exactly when popping the sorted `targets_c` from the end goes out of range; otherwise the targets are those left by that popping and `target_destroyed` grows by the number of colliding pairs |
| Game.Manager.CollectHits | week13/cannon.py:341-346 | the double loop builds `targets_c`, with one index per colliding pair, shell by shell |
| Game.Manager.CollectRow | week13/cannon.py:343-346 | the inner loop appends the indices of the targets one shell touches |
| Game.Manager.PopTargets | week13/cannon.py:347-350 | the pop loop gives the same result as `PopReversed`, and counts one destroyed target per pop |
| Game.Manager.Advance | week13/cannon.py:272-278 | events, then aim, then move. The ghost `fired` are the new shells, one per left release. The shell list is the survivors of the old shells followed by `fired`; their states are `Step` of the old states followed by `Fired` (the first shot at the old charge, later ones at the minimum). The target list is the same, with every state drifted once. The gun is panned by `PanKeys` and aimed; its charge is `gain` after `ChargeAfter`. `done` reports a quit, and `shell_used` grows by the releases |
| Game.Manager.Input | week13/cannon.py:272-276 | `handle_events`, then the aim: the shell list gains `fired`, whose states are `Fired`; targets are untouched; the gun is panned and its charge follows `ChargeAfter`; the angle is the aim when one is given |
| Game.Manager.Resolved | week13/cannon.py:279-283 | what `collide` and the respawn check leave from the target states before them. A failing pop raises (`ok` false, no respawn). When no respawn is due, `ok` holds exactly when every pop succeeds, and then the target states are the popped list. A respawn is due exactly when the pops succeed, leave no target, and no shell is left. In that case `new_mission` raises exactly when the score is past 29, and otherwise the states are `Mission` of the current score |
| Game.Manager.Resolve | week13/cannon.py:279-283 | `collide` and then the respawn check, as `Resolved` states, from the current target states and `Hits()`. Shells and gun are unchanged. `target_destroyed` grows by the number of hits whenever every pop succeeds (even if `new_mission` then raises), and never decreases |
| Game.Manager.Process | week13/cannon.py:268-285 | one tick. The shells are the survivors of the old and fired shells; the old and fired shells have the stepped states of `Advance`, and the survivors' states are the live ones among them. `hits` is `HitList` of those shell states against the drifted target states, and the targets are then as `Resolved` states from the drifted states and `hits`. The gun is as in `Advance`. `shell_used` grows by the releases; `target_destroyed` grows by the number of hits whenever every pop succeeds, and never decreases |

## Left out

- Rendering is left out because it only reads state:
  - every `draw` method;
  - `rand_color` and the colour of each entity;
  - the score table's font;
  - `main`'s window, clock and loop;
  - `pg.init`.
- The empty `GameObject` base class is left out because it has no state.
- pygame input is replaced by inputs to `Process`:
  - the event list becomes a sequence of `Event` values;
  - the held arrow keys (or A/D) become two booleans;
  - the mouse's focus and position become an optional aim angle.
- numpy trigonometry is left out. `strike`'s `int(pow*cos(angle))` and `int(pow*sin(angle))` are a `launch` function passed in, and `set_angle`'s `arctan2` is computed by the caller.
- `randint` is replaced by natural numbers passed in (`Draw`):
  - `Pick` maps a number into a non-empty range;
  - every value of the range is reachable (`RandIntCovers`);
  - `randint` on an empty range raises, and that case is modelled.
  - The three `randint` calls of `rand_color` inside each `Target` constructor are left out with the colour.
- Python floats are replaced by integer arithmetic:
  - `int(v*0.8)` and `int(v*0.9)` are modelled by truncating division of `4v` by 5 and of `9v` by 10. The two agree for every integer `v` below about 10^14 in magnitude, for two reasons:
    - When the exact product is not an integer, its fractional part lies at least 0.1 away from both neighbouring integers, and the float error is far smaller.
    - When the exact product is an integer `k`, the doubles nearest 0.8 and 0.9 lie just above them, so `v` times that double lies beyond `k`, away from zero. `k` is itself a double and rounding is monotone, so the result is never rounded past `k` toward zero, and truncation gives `k`.
    - A float product can still land below the exact value, as `7*0.9` gives 6.2999…, but only when the exact value is not an integer.
  - `check_collision`'s square root is replaced by a comparison of squares.
  - The angle is a `real`.
- Exceptions are modelled as `ok == false` returned from `Collide`, `NewMission` and `Process`, with no change after the raise: the `IndexError` of a second pop in `collide`, and the `ValueError` of `randint` once the score reaches 30. In the program either one ends the game.
- `collide`'s `collisions` list is built but never read, so it is left out.
- Coordinates are values, so list aliasing is not modelled:
  - `strike` copies the gun's position, so no shell shares it.
  - The `Cannon` constructor's default `coord` list is shared by every gun built with defaults, but the program builds only one.
- Shells.Shell.Move: `time` is a parameter, but `check_corners` is modelled with its default factors 0.8 and 0.9 only, because no call passes others.
- Scores.ScoreTable.Score: the score function has no contract of its own. It is the difference of the two counters, and the `Manager`'s contracts use it where `new_mission` reads the score.
- Game.Manager.NewMission reads the score once instead of before every `randint`. The score does not change inside the loop, so the targets are the same.
- Game.Manager.Process: when `collide` raises, it returns with `ok == false`. Its contract then does not give the targets left by the pops before the raise, and says only that `target_destroyed` has not decreased. In the program the exception ends the game. The same holds for Game.Manager.Resolve and Game.Manager.Collide.
