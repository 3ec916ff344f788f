# Achtung light-cycle core in Dafny

This project models the game logic of Achtung, a pygame "light-cycle" game
(`utils/core.py`, `utils/powerups.py`). In each round every player moves
continuously, leaves a trail with occasional gaps ("holes"), and dies on
touching a trail or leaving the play area. The model keeps the source's
imperative shape:

- `Players.Player` is a class whose fields are `Player`'s mutable attributes
  (hole timers, rect, trail anchor, collision flags, velocity, width, score).
  `Games.Game` is a class with the `going`, `is_paused` and `round_over`
  flags, the round's player group and the lines on the trail surface.
  `Powerups.Powerup` is a class with the timer and the alive flag.
- Each method's contract gives its whole new state. Most do so as a pure
  function of the old state:
  - `Holes.Next` for `_update_hole_stats`;
  - `Trails.Advance` and `Trails.DrawTrail` for the trail anchor;
  - `Players.Step` for `update` and `Players.Respawned` for `reset`;
  - `Powerups.Next` for `Powerup.update`;
  - for the game loop, a chain over a value snapshot of the game
    (`Games.GameView`): `AfterEvents`, `UpdateOne`, `Updated`, `AfterStep`,
    `AfterReset`, `AfterInit`, `AfterFrame`, `PlayRound`, `Wait`,
    `RoundThenWait` and `PlayFrom`.

  The field-setting helpers (`Record`, `StartGroup`, `Pause`) and the
  constructors state their new fields directly. The properties the game
  relies on are proved about those functions: the hole timing, the gap-free
  trail between holes, the death decision, pause toggling, how a step moves
  the members of the group and fills the trail surface, how a round and the
  main loop end, and the powerup's lifetime.
- Everything pygame or numpy computes is given to the model as a parameter:
  - the random draws (`np.random.exponential`, `np.random.uniform`, the
    spawn position and direction);
  - the rounded movement of each frame;
  - the drawing point behind the head;
  - the trail-mask overlap, including its `IndexError`;
  - the events polled each frame.

  The unbounded `_round` and `main` loops consume finite scripts of frames
  and round setups, and also stop when a script runs out.

Where the code and the game's design description disagree, the model
follows the code:

- Collision is a plain overlap of the player's mask with the trail mask.
  There is no ahead/behind test against the player's own fresh trail.
- Holes are timed in seconds (`1/FPS` per update), not by distance travelled.
- No code ever increments `score`. The model proves that every round and the
  main loop leave all scores unchanged.
- `round_over` is set only when exactly one player remains
  (`len(self.players_group) == 1`, `utils/core.py:69`). If the last two
  players die in the same frame, the group is empty and the round goes on
  until Escape or QUIT. The model keeps this behaviour.
  - `Games.StepKeeps` proves that a step (`Games.AfterStep`, which
    `Games.Game.GameStep` follows) leaves `roundOver` set exactly when it
    already was set or exactly one player is left.
  - `Games.WipeOutLeavesRoundOpen` proves that a step in which every member
    dies leaves an empty group and the round not over.
  - `Games.EmptyGroupNeverEnds` proves that a round with an empty group
    then reads frames until the game stops or the frames run out.
  - The five frozen steps of `_init_round` can already end the round. So
    `Games.InitKeeps` promises only that the round is then over with at
    most one player left. It does not promise that the round is not over.
- Players see the play area through `play_area.get_rect()`. That is the
  subsurface's own rect, `Rect(0, 0, 1540, 1040)`, not `PLAY_AREA_RECT` at
  (20, 20), so bounds are checked against the origin-based rect
  (`Players.PLAY_AREA`).

Modules: `Options` (Option type), `Geometry` (pygame rects, pixel points,
velocity over reals), `Holes`, `Trails`, `Players`, `Powerups`, `Games`.

## Model

| member | source | states |
|---|---|---|
| `Holes.Cooloff` | utils/core.py:183-184 | a fresh cool-off is HOLE_COOLOFF plus the exponential sample over FPS, so it is at least HOLE_COOLOFF seconds |
| `Holes.Initial` | utils/core.py:183-186 | after `reset` no hole is drawn, the draw timer is None and the cool-off is at least HOLE_COOLOFF |
| `Holes.Next` | utils/core.py:253-265 | cooling off lowers the cool-off by exactly 1/FPS, and the hole opens exactly when it reaches 0, with a draw timer in [0.2, 0.3); drawing lowers the draw timer by 1/FPS, and the hole closes exactly when it reaches 0, with a new cool-off of at least HOLE_COOLOFF; a drawn hole always has its timer set |
| `Holes.Run` | utils/core.py:253-265 | any number of updates keeps the hole state well formed |
| `Holes.CoolingContinues` | utils/core.py:254-258 | while the cool-off exceeds the time of the coming frames no hole opens, and the timer drops by one frame per update |
| `Holes.NoHoleWithinCooloff` | utils/core.py:253-265 | after `reset` or after a hole, the trail is drawn for at least the next 59 updates |
| `Holes.HoleContinues` | utils/core.py:259-262 | while the draw timer exceeds the time of the coming frames the hole stays open, and the timer drops by one frame per update |
| `Holes.HoleCloses` | utils/core.py:259-265 | an open hole whose timer runs out within the next updates (at most 60) is closed after them |
| `Holes.HoleLength` | utils/core.py:253-265 | a hole just opened with a draw time in [0.2, 0.3) is still open 5 updates later and closed 9 updates later |
| `Geometry.SquareAround` | utils/core.py:199-200 | `get_rect(center=c)` for the square image has side `side` and is centred on `c` (pygame's integer halving) |
| `Geometry.SquaredDistance` | utils/core.py:233 | the squared distance is non-negative and zero exactly for equal points |
| `Geometry.ContainsIffAllPixelsInside` | utils/core.py:251 | for a non-empty rect, pygame's `contains` holds exactly when every pixel of the inner rect is a pixel of the play area |
| `Geometry.ScaleDivideRoundTrip` | utils/powerups.py:43-47 | over reals, dividing by a non-zero factor undoes scaling by it, and vice versa |
| `Trails.DrawTrail` | utils/core.py:232-235 | a line from the anchor to `dest` is drawn and the anchor moves to `dest` exactly when the squared distance is at least TRAIL_PIXEL_DELAY squared; otherwise nothing is drawn and the anchor stays |
| `Trails.Advance` | utils/core.py:225-230 | with a hole open or no anchor, nothing is drawn and the anchor is re-seeded at the drawing point; otherwise `_draw_trail` decides; the anchor is always set afterwards |
| `Trails.DrawRunIsPolyline` | utils/core.py:225-235 | between holes, the lines drawn form one connected polyline from the first anchor to the current one, each line of the player's width and at least TRAIL_PIXEL_DELAY long |
| `Trails.DiesIffCollisionOrPixelOutside` | utils/core.py:243-251 | `_check_death` after `_check_collisions` holds exactly when the overlap query raises or finds trail pixels, or some pixel of the player's rect lies outside the play area |
| `Players.SpawnInsidePlayArea` | utils/core.py:197-200 | a spawn centre drawn in [30, w-30) x [30, h-30) puts the 7-pixel square inside the play area, so the player is not out of bounds at spawn |
| `Players.Step` | utils/core.py:213-230 | one `update`: the hole state stays well formed; the rect moves by the rounded movement; the hole state is `Holes.Next` of the old one; the player is killed exactly when the death condition holds for the moved rect; the new anchor and the drawn line are `Trails.Advance` of the old anchor under the new hole flag, so even a killed player draws; a line is drawn only from the old anchor to the drawing point and only when they are at least TRAIL_PIXEL_DELAY apart; velocity, width and score are unchanged |
| `Players.Respawned` | utils/core.py:179-201 | after `reset` no hole is drawn, the cool-off is at least HOLE_COOLOFF, there is no anchor, the player is not out of bounds, and the score is kept |
| `Players.StepInHoleDrawsNothing` | utils/core.py:225-230 | while a hole is drawn, or before the first anchor, an update draws nothing and sets the anchor to the drawing point |
| `Players.Player.constructor` | utils/core.py:167-177 | a new player has score 0 and the state of a fresh `reset` |
| `Players.Player.Reset` | utils/core.py:179-201 | `reset` leaves exactly the fields `Players.Respawned` gives for the spawn draws, so the score is kept |
| `Players.Player.UpdateHoleStats` | utils/core.py:253-265 | `_update_hole_stats` moves the hole fields exactly as `Holes.Next` and changes nothing else |
| `Players.Player.CheckCollisions` | utils/core.py:246-251 | the trail flag is set when the overlap query raises or finds pixels; the bounds flag is set when the rect is not contained in the play area |
| `Players.Player.DrawTrail` | utils/core.py:232-235 | `_draw_trail` moves the anchor and draws a line exactly as `Trails.DrawTrail` |
| `Players.Player.UpdateTrail` | utils/core.py:225-230 | the trail branch of `update` moves the anchor and draws a line exactly as `Trails.Advance` |
| `Players.Player.Update` | utils/core.py:213-230 | the new fields, the kill and the drawn line are those of `Players.Step` on the old fields |
| `Powerups.InvTransformUndoesTransform` | utils/powerups.py:28-47 | `inv_transform` after `transform` restores the velocity exactly; the base powerup changes nothing |
| `Powerups.TransformKeepsDirection` | utils/powerups.py:28-44 | `transform` never turns the player: the new velocity is parallel to the old one and points the same way, and `SelfSpeedUp` doubles the speed |
| `Powerups.Next` | utils/powerups.py:16-26 | the first update transforms once and starts the timer at the alive time; later updates with time left lower it by exactly 1/fps; when the timer ends at or below 0, `inv_transform` runs and the powerup is killed |
| `Powerups.Live` | utils/powerups.py:16-26 | however many frames its group runs, a powerup transforms at most once (never again once its timer is set) and undoes at most once; one still alive has undone nothing |
| `Powerups.CountsDown` | utils/powerups.py:21-22 | with more than k frames of time left, k updates only count down, by k frames |
| `Powerups.ExpiresAfter` | utils/powerups.py:21-26 | with between k-1 and k frames of time left, the k-th update undoes the transform and kills the powerup |
| `Powerups.Lifetime` | utils/powerups.py:16-26 | a powerup whose alive time is in ((n-1)/fps, n/fps] stays alive with exactly one transform in force for n updates, undoes it and dies on update n+1, and is not updated after that |
| `Powerups.ExpiresAtBirth` | utils/powerups.py:17-26 | with an alive time of at most 0, the first update both transforms and undoes, and kills the powerup |
| `Powerups.Powerup.constructor` | utils/powerups.py:9-14 | a new powerup has no timer and has not been killed |
| `Powerups.Powerup.SpeedUp` | utils/powerups.py:40-41 | a `SelfSpeedUp` lives for 5 seconds |
| `Powerups.Powerup.Transform` | utils/powerups.py:28-44 | the base powerup leaves the velocity alone; `SelfSpeedUp` multiplies it by 2 |
| `Powerups.Powerup.InvTransform` | utils/powerups.py:31-47 | the base powerup leaves the velocity alone; `SelfSpeedUp` divides it by 2 |
| `Powerups.Powerup.Update` | utils/powerups.py:16-26 | `update` advances the lifecycle as `Powerups.Next`; the player's velocity is transformed on the first call and restored on the call that expires the powerup |
| `Games.PausedAfterCountsToggles` | utils/core.py:97-99 | after a batch of events the pause flag is flipped exactly when the number of space key-downs is odd |
| `Games.HasExitIff` | utils/core.py:40-51 | a batch of events stops the game exactly when one of them is Escape or QUIT |
| `Games.PausedAfterAppend` | utils/core.py:97-99 | handling events in two batches leaves the pause flag as handling them in one does |
| `Games.PauseOnlyToggledBySpace` | utils/core.py:97-99 | events without a space key-down leave the pause flag alone, and two space key-downs restore it |
| `Games.UpdatedStates` | utils/core.py:55 | during `players_group.update`, each member among the players updated so far holds the `Players.Step` outcome of its state as the step began, and every other player is untouched |
| `Games.UpdatedGroup` | utils/core.py:55 | during `players_group.update`, a player is in the group exactly when it was as the step began and its own update, if it had one, did not kill it |
| `Games.UpdatedTrails` | utils/core.py:55 | the trail surface after the players updated so far is the old one followed by the lines the members drew, in player order |
| `Games.UpdatedLeavesRest` | utils/core.py:55 | the updates so far leave every later player, and its membership, as they were |
| `Games.Updated` | utils/core.py:55 | the group update changes none of the `round_over`, `going` and `is_paused` flags |
| `Games.StepKeeps` | utils/core.py:53-70 | a game step keeps every score, only shrinks the group, only adds to the trail surface, sets `round_over` exactly when it was already set or exactly one player is left (so never for a group emptied in one step), never clears it, and leaves the round over only with at most one player if that held before |
| `Games.WipeOutLeavesRoundOpen` | utils/core.py:55-70 | when every member of the group dies in the same step, the group ends empty and the round is not set over |
| `Games.StepsKeep` | utils/core.py:33-34 | a run of game steps keeps every score, only shrinks the group, only adds to the trail surface, never clears `round_over`, and leaves the round over only with at most one player if that held before |
| `Games.Indices` | utils/core.py:26 | `Group(self.players)` holds exactly the player indices 0 .. n-1 |
| `Games.ResetStates` | utils/core.py:24-25 | after the first `upto` resets, each of those players is respawned from its own state and spawn draws, and the rest are untouched |
| `Games.AfterReset` | utils/core.py:22-30 | before the frozen steps of `_init_round`, every player is respawned and every player is in the new group |
| `Games.AfterInit` | utils/core.py:21-35 | `_init_round` leaves the game paused and `going` as it was |
| `Games.InitKeeps` | utils/core.py:21-35 | `_init_round` keeps every score, and the round can be over after it only with at most one player left |
| `Games.AfterFrame` | utils/core.py:76-85 | one pass of the `_round` loop clears `going` exactly when the frame has an exit event, and flips the pause once per space key-down |
| `Games.PlayRound` | utils/core.py:72-85 | the `_round` loop ends with the round over, the game stopped or the frames used up; it stops the game exactly when a frame it read has an exit event, and that frame is the last one it read |
| `Games.RoundKeeps` | utils/core.py:72-85 | a round keeps every score, only shrinks the group, and ends over only with at most one player left |
| `Games.EmptyGroupNeverEnds` | utils/core.py:69-85 | a round whose group is empty is never set over and its group stays empty; while the game is going it reads every frame |
| `Games.PausedRoundStandsStill` | utils/core.py:75-82 | while the game is paused and no frame toggles the pause or exits, the round reads every frame and leaves every player, the group and the trail surface as they were |
| `Games.Wait` | utils/core.py:92-93 | the waiting loop of `main` changes only the two flags and ends with the game stopped, unpaused or the frames used up; it stops the game exactly when a frame it read has an exit event, and that frame is the last one it read |
| `Games.RoundThenWait` | utils/core.py:89-93 | a round and the wait after it stop the game exactly when a frame they read has an exit event, and that frame is the last one read |
| `Games.PlayFrom` | utils/core.py:87-95 | `main` keeps playing rounds while the game is going, until the round setups or the frames run out; it stops the game exactly when a frame it read has an exit event, and that frame is the last one it read |
| `Games.PlayKeepsScores` | utils/core.py:87-95 | no round or wait changes a score |
| `Games.Game.constructor` | utils/core.py:14-19 | the game starts going and not paused, with one fresh player of score 0 per spawn, each in the state `reset` gives it from its own spawn draws (hole timers, rect, velocity, width, no anchor, in bounds); the round fields that `_init_round` creates start empty and not over |
| `Games.Game.PauseStateMachine` | utils/core.py:97-99 | a space key-down flips `is_paused`; any other event leaves it alone |
| `Games.Game.HandleGameState` | utils/core.py:37-51 | after a frame's events, the pause flag has flipped once per space key-down, and `going` is cleared exactly when an Escape or QUIT came, and is never set again |
| `Games.Game.MovePlayer` | utils/core.py:213-230 | one player's `update` moves it to its `Players.Step` outcome and leaves every other player and the game's own fields alone |
| `Games.Game.Record` | utils/core.py:223-235 | a kill removes the player from the group, and the line it drew, if any, is appended to the trail surface |
| `Games.Game.UpdateMember` | utils/core.py:55 | player `i`'s turn in the group update does exactly what `Games.UpdateOne` gives to the players, the group and the trail surface |
| `Games.Game.UpdateGroup` | utils/core.py:55 | `players_group.update` leaves the game as `Games.Updated` over all players |
| `Games.Game.GameStep` | utils/core.py:53-70 | `_game_step` leaves the game as `Games.AfterStep`: the group update, then the round is over once exactly one player is left |
| `Games.Game.ResetPlayer` | utils/core.py:25 | `players[i].reset()` respawns player `i` and leaves the others and the game's own fields alone |
| `Games.Game.ResetPlayers` | utils/core.py:24-25 | the reset loop leaves the players as `Games.ResetStates` over all of them |
| `Games.Game.StartGroup` | utils/core.py:26-30 | the new group holds every player, the round is not over and the game is paused; nothing else changes |
| `Games.Game.ResetRound` | utils/core.py:21-30 | the start of `_init_round` leaves the game as `Games.AfterReset`: trails cleared, players respawned, all in the group |
| `Games.Game.FrozenSteps` | utils/core.py:33-34 | the frozen steps leave the game as `Games.AfterSteps`, one game step per input set |
| `Games.Game.InitRound` | utils/core.py:21-35 | `_init_round` leaves the game as `Games.AfterInit`: the reset followed by the frozen steps |
| `Games.Game.PlayFrame` | utils/core.py:76-85 | one pass of the `_round` loop leaves the game as `Games.AfterFrame` |
| `Games.Game.RoundLoop` | utils/core.py:75-85 | the `_round` loop leaves the game, and returns the next frame, as `Games.PlayRound` |
| `Games.Game.Round` | utils/core.py:72-85 | `_round` is `_init_round` followed by `Games.PlayRound`; it keeps every score and ends over only with at most one player left |
| `Games.Game.Pause` | utils/core.py:90 | `is_paused` is set and nothing else changes |
| `Games.Game.WaitLoop` | utils/core.py:92-93 | the waiting loop of `main` leaves the game, and returns the next frame, as `Games.Wait` |
| `Games.Game.RoundAndWait` | utils/core.py:89-93 | one pass of `main`'s loop leaves the game as `Games.RoundThenWait` |
| `Games.Game.Play` | utils/core.py:87-95 | `main` leaves the game as `Games.PlayFrom`: while `going` holds it stops only when the setups or the frames ran out, and once stopped the last frame it read holds an exit event |

## Left out

- Board: the screen and subsurfaces, fills, borders, blitting, the score board
  and `misc.text_wrap`. These are rendering and font layout.
- The trail mask itself (`pg.mask.from_threshold`, `overlap_area`): its result
  for the moved rect, or the `IndexError` it raises, is an input of each update.
  `pg.draw.line` becomes a `Segment` appended to the game's trail surface.
- `change_direction` and the `freeze_direction` flag: turning is
  floating-point rotation driven by `pg.key.get_pressed`. The velocity stays
  fixed between updates, and `GameStep`'s `freezeDirection` changes nothing.
- Movement rounding (`rect_center_float`, `np.round`) and
  `_calc_drawing_point` (`normalize`, `np.trunc`, `np.sign`) are floating-point
  work. Their results (the whole-pixel movement and the drawing point) are
  inputs of each update. `update` calls `_calc_drawing_point` a second time and
  discards the result; this has no effect and is not modelled. A zero movement
  makes `normalize` raise; the model does not capture that error.
- `np.random` becomes injected draws. Their ranges are preconditions: uniform
  in [0.2, 0.3), exponential at least 0, a spawn centre in the `randint`
  bounds, and a spawn velocity of speed 3.
- Timers are exact reals. Floating-point accumulation of `1/FPS` is not
  modelled.
- Event polling, `clock.tick`, `pg.display.update`, `pg.quit`, image loading
  and the `__main__` key-binding setup.
- `active_powerups`, `key_bindings_dict`, `color`, `name` and the `image` and
  `mask` attributes of `Player` carry no logic that the core uses.
- The `Powerup` class at `utils/core.py:268-270` is an empty record that is
  never used.
- `Powerup.update`'s `players` argument is unused by both kinds. A powerup
  with `fps == 0`, which raises `ZeroDivisionError` in Python, is excluded by
  the `fps > 0` precondition.
- `Games.Game.Round`, `Games.Game.Play`: the source loops forever until an exit
  event. The model reads finite scripts of frames and round setups, and also
  stops when either runs out.
- The order of `players_group`: pygame updates the sprites of a group in the
  order they were added, here player order, over a copy of the group. The
  model updates players in index order and checks each one's membership as
  the step began; an update removes at most its own player, so the two agree.
