# Snake game core in Dafny

This project models the game logic of a Swing Snake game. The window is 600 × 600 units
and the grid cell is 20 units. The snake is a list of segments: the tail comes first and
the head last. Every tick, each segment takes its successor's position and the head moves
one cell in the current direction. A tick then tests whether the head ran into the body
and whether it covers the food. Eating raises the score, adds a new tail and places new
food. The session ends when the head leaves the window or runs into the body. Arrow keys
steer the snake; a handled press never sets the direction to the reverse of the current
one, and a press only counts when more than `DELAY * 1.12` ms have passed since the last
handled press. A small menu state machine
(`MAIN_MENU`, `STARTED`, `FINISHED`) starts sessions.

The repository has two near-identical panels, `com.examples` and `com.games`. They run the
same tick, key handler and reset, so one class `Panel.GamePanel` models both. Their menu
characters are its `keys` parameter: `Controls.EXAMPLES_KEYS` ('3' back, 'x' exit) and
`Controls.GAMES_KEYS` ('x' back, '3' exit).

Files and modules:

- `grid.dfy` (`Grid`): the constants (`CELL` = `SNAKE_BODY_SIZE` = 20, 600 × 600,
  `FOOD_SIZE` = 15, `DELAY` = 60), the cell, food, direction and `GameState` types.
- `body.dfy` (`Body`): `Snake.java`, with the class `Snake`, its initial layout and
  `addTail`.
- `food_generation.dfy` (`FoodGeneration`): `FoodGenerationService.generateFood`, with the
  rejection-sampling loop, its acceptance test and the centring offset.
- `movement.dfy` (`Movement`): one tick as functions on a body, the collision scan, and
  lemmas about ticks.
- `session.dfy` (`Session`): the game data as a value (`World`), one whole tick on it
  (`TickW`), the tick loop (`RunW`) and what is proved about the loop's trace.
- `controls.dfy` (`Controls`): the debounce, the direction rule and both menus.
- `panel.dfy` (`Panel`): the panel class (`resetGame`, menu listener, tick, tick loop) and
  `KeyControl`.

Each tick is performed in place on the panel's `snake` object. Every such method is proved
against the functions in `Movement`, `FoodGeneration` and `Session`: `Tick` leaves exactly
the state `TickW` computes from the state before, and `Run` ends with exactly the outcome
and state `RunW` computes. The lemmas about those functions carry the game's promises. The
panel's invariant `Valid` keeps at least four segments, all on the grid.

A natural reading of growth is that the new tail extends the body away from the second
segment. The code does something simpler: it always puts the new tail above the old tail
when the first two segments share a column, and to the old tail's left otherwise. The
model follows the code. `Movement.NewTailOnSecondSegment` shows the consequence: the new
tail lands on the second segment's cell exactly when the second segment is one step left
of, or one step above, the tail.

## Model

| member | source | states |
|---|---|---|
| `Body.InitialLayout` | src/main/java/com/examples/game/snake/objects/Snake.java:16-21 | the initial body has 4 segments; segment i is at ((i+1)*20, 60), so the tail is at (20, 60) and the head at (80, 60); the segments are pairwise distinct, on the grid and inside the window |
| `Body.Snake.constructor` | src/main/java/com/examples/game/snake/objects/Snake.java:16-21 | the constructor loop builds exactly the initial layout |
| `Body.Snake.HeadIndex` | src/main/java/com/examples/game/snake/objects/Snake.java:30-32 | the head index is one less than the number of segments |
| `Body.Snake.Head` | src/main/java/com/examples/game/snake/objects/Snake.java:34-36 | the head is the segment at the head index, which exists for a non-empty body |
| `Body.WithTail` | src/main/java/com/examples/game/snake/objects/Snake.java:38-40 | inserting at index 0 grows the body by one, puts the new cell first, keeps every former segment unchanged one index later, and leaves the head unchanged |
| `Body.Snake.AddTail` | src/main/java/com/examples/game/snake/objects/Snake.java:38-40 | `addTail(x, y)` leaves the body equal to the old body with (x, y) inserted at index 0 |
| `FoodGeneration.Candidate` | src/main/java/com/examples/game/snake/service/FoodGenerationService.java:26-30 | every sampled candidate lies in [20, 599] on both axes |
| `FoodGeneration.Scan` | src/main/java/com/examples/game/snake/service/FoodGenerationService.java:23-45 | the sampling loop stops at the first draw whose cell is on the grid and clear of the body; all earlier draws are rejected |
| `FoodGeneration.GenerateFood` | src/main/java/com/examples/game/snake/service/FoodGenerationService.java:16-51 | the loop returns the first accepted candidate moved 2 into its cell, and consumes draws up to and including that one; it always consumes at least one draw because the starting (1, 1) is off the grid; if no draw is accepted it has nothing to return |
| `FoodGeneration.PlacementSound` | src/main/java/com/examples/game/snake/service/FoodGenerationService.java:34-50 | placed food has each coordinate ≡ 2 (mod 20) and in [22, 582], and the cell it was drawn in has no segment within one cell on both axes |
| `FoodGeneration.PlacementNoneIffAllRejected` | src/main/java/com/examples/game/snake/service/FoodGenerationService.java:23-45 | generation fails to return within the given draws exactly when every one of them is rejected (the loop has no retry bound) |
| `Movement.Advanced` | src/main/java/com/examples/game/snake/SnakeGamePanel.java:208-233 | after shifting and moving, the length is unchanged, segment i holds old segment i+1 for every i below the head index, and the head is exactly one cell further along the direction (never its old cell, never a step backwards) |
| `Movement.ScanForCollision` | src/main/java/com/examples/game/snake/SnakeGamePanel.java:235-240 | rolledIn is true exactly when the head equals some segment with a lower index |
| `Movement.NewTail` | src/main/java/com/examples/game/snake/SnakeGamePanel.java:246-250 | the new tail is one cell above the old tail when the first two segments share a column, otherwise one cell to its left |
| `Movement.StraightRun` | src/main/java/com/examples/game/snake/SnakeGamePanel.java:206-233 | after n ticks with no food and no turn, the length is unchanged and the head is exactly n cells further along the direction |
| `Movement.SelfHitKeptByGrowth` | src/main/java/com/games/snake/SnakeGamePanel.java:266-294 | a collision found by a tick is still present after that tick's growth adds a tail |
| `Movement.TickKeepsGrid` | src/main/java/com/examples/game/snake/SnakeGamePanel.java:208-233 | a body whose segments are all on the grid stays on the grid after the shift and the head's move |
| `Movement.GrowthKeepsGrid` | src/main/java/com/examples/game/snake/SnakeGamePanel.java:246-252 | a body on the grid stays on the grid when the new tail is added |
| `Movement.CoversOnGrid` | src/main/java/com/examples/game/snake/SnakeGamePanel.java:242-243 | for a head on the grid and food 2 into a cell, the eating test holds exactly when the food is in the head's own cell |
| `Movement.PlacedFoodNotCovered` | src/main/java/com/examples/game/snake/service/FoodGenerationService.java:34-50 | no segment of the body handed to the generator satisfies the eating test for the food it places |
| `Movement.NewTailOnSecondSegment` | src/main/java/com/examples/game/snake/SnakeGamePanel.java:246-252 | for every body, the new tail is placed on the second segment's cell exactly when the second segment is one step LEFT or one step UP from the tail |
| `Controls.Debounced` | src/main/java/com/examples/game/snake/SnakeGamePanel.java:165 | a press is handled exactly when at least 68 ms, that is more than 60 × 1.12 ms, have passed since the last handled press |
| `Controls.Steer` | src/main/java/com/examples/game/snake/SnakeGamePanel.java:166-190 | an arrow key sets its direction unless that is the reverse of the current one; a reversing arrow or any other key leaves the direction unchanged; the result is never the reverse of the current direction |
| `Controls.TurnThenReverse` | src/main/java/com/examples/game/snake/SnakeGamePanel.java:164-191 | the rule compares only with the current actDir: from any direction, a perpendicular arrow turns the snake and a second arrow, the reverse of the first direction, is then accepted, so two handled presses reverse it |
| `Controls.SteerFromRight` | src/main/java/com/examples/game/snake/SnakeGamePanel.java:179-189 | while moving RIGHT, LEFT is ignored and UP or DOWN turn the snake |
| `Controls.ExamplesMenu` | src/main/java/com/examples/game/snake/SnakeGamePanel.java:58-91 | com.examples menu: every key is ignored while STARTED; when FINISHED only '3' is handled and leads to MAIN_MENU; in MAIN_MENU '1' starts a session, '2' shows high scores, 'x' exits and other keys do nothing |
| `Controls.GamesMenu` | src/main/java/com/games/snake/SnakeGamePanel.java:56-98 | com.games menu: every key is ignored while STARTED; when FINISHED only 'x' is handled and leads to MAIN_MENU; in MAIN_MENU '1' starts a session, '2' shows high scores, '3' exits and other keys do nothing |
| `Panel.GamePanel.constructor` | src/main/java/com/examples/game/snake/SnakeGamePanel.java:48-53 | a new panel starts in MAIN_MENU |
| `Panel.GamePanel.ResetGame` | src/main/java/com/examples/game/snake/SnakeGamePanel.java:120-126 | after a reset, counter = 0, gameOver is false, actDir = RIGHT, the snake is a fresh initial layout, and the food is what the generator places for that layout |
| `Panel.GamePanel.MenuKeyPressed` | src/main/java/com/games/snake/SnakeGamePanel.java:55-99 | the listener takes the branch given by the panel's menu keys and state; starting a session sets STARTED and resets the game exactly as `ResetGame` does (fresh snake, counter 0, not over, RIGHT, food and remaining draws from the generator); every other branch leaves the game data unchanged |
| `Panel.GamePanel.ShiftBody` | src/main/java/com/examples/game/snake/SnakeGamePanel.java:208-213 | after the shift loop every segment below the head index holds its successor's old coordinates; the length and the head are unchanged |
| `Panel.GamePanel.Advance` | src/main/java/com/games/snake/SnakeGamePanel.java:238-264 | the shift and the head's move leave the body equal to `Advanced` of the old body and actDir |
| `Panel.GamePanel.Tick` | src/main/java/com/examples/game/snake/SnakeGamePanel.java:208-254 | the body, food, counter, remaining draws and the collision and stall flags after the tick are exactly `TickW` of the state before, in direction actDir; actDir, the menu state and gameOver are unchanged |
| `Panel.GamePanel.Feed` | src/main/java/com/games/snake/SnakeGamePanel.java:276-294 | eating raises counter by exactly 1, prepends the new tail from the first two segments, and regenerates the food for the grown body |
| `Panel.GamePanel.RunTick` | src/main/java/com/examples/game/snake/SnakeGamePanel.java:207-262 | one pass of the loop body from a head inside the window: what `RunW` has left to do before it equals what `Resumed` has left to do after it |
| `Panel.GamePanel.TickLoop` | src/main/java/com/examples/game/snake/SnakeGamePanel.java:205-262 | the while loop stops only with the head outside the window, a collision, a stall or the budget spent, and at that point `RunW` from the starting state has exactly `Resumed` from the current state left to do |
| `Panel.GamePanel.Run` | src/main/java/com/games/snake/SnakeGamePanel.java:229-309 | the outcome and the final body, food, counter and draws are exactly `RunW` of the starting state with the tick in direction actDir and budget maxTicks; an Over outcome sets gameOver and FINISHED, any other leaves them unchanged (what `RunW` returns is characterized by `Session.RunIsTicks` and `Session.RunKeeps`) |
| `Session.TickW` | src/main/java/com/examples/game/snake/SnakeGamePanel.java:207-253 | one whole tick on the game data (shift and move, collision test, eating with growth and new food): the body never shrinks and counter minus length is unchanged, so the score grows exactly with the body |
| `Session.TickKeeps` | src/main/java/com/examples/game/snake/SnakeGamePanel.java:207-253 | a collision a tick reports is still in the body the tick leaves behind, even after growth; a body on the grid stays on the grid |
| `Session.TickOfKeeps` | src/main/java/com/examples/game/snake/SnakeGamePanel.java:207-253 | the tick in every direction keeps all four: length, score minus length, reported collision in the body, grid alignment |
| `Session.RunStep` | src/main/java/com/examples/game/snake/SnakeGamePanel.java:205-262 | from a head inside the window with budget left, a run is one tick followed by: stop Stalled if generation stalled, else stop Over if the tick collided, else the run from the new state with one tick less |
| `Session.RunKeeps` | src/main/java/com/examples/game/snake/SnakeGamePanel.java:202-267 | over a whole run of a tick that keeps these: the body never shrinks, the score grows exactly with the body, grid alignment is kept, Over is returned only with the head outside the window or on a body segment, and StillRunning only with the head inside |
| `Session.CleanTicksContinue` | src/main/java/com/examples/game/snake/SnakeGamePanel.java:205-206 | the loop never stops early: while the ticks start inside the window and neither collide nor stall, a run from w is the run from the state n ticks later with n ticks less budget |
| `Session.RunIsTicks` | src/main/java/com/examples/game/snake/SnakeGamePanel.java:202-267 | every run is some n clean ticks (each starting inside the window, without collision or stall) followed by the first stop: Over at once when the head is outside the window, StillRunning when the budget is spent, otherwise the first colliding tick ends Over and the first stalling tick ends Stalled, with the state after that tick |
| `Panel.KeyControl.constructor` | src/main/java/com/examples/game/snake/SnakeGamePanel.java:161 | the last handled press starts at time 0 |
| `Panel.KeyControl.KeyPressed` | src/main/java/com/games/snake/SnakeGamePanel.java:183-216 | a debounced press applies the direction rule and records its time, even when actDir does not change or the key is not an arrow; other presses change nothing |

## Left out

- Painting is not modelled: `paintSnake`, `paintSnakeBody`, `paintFood`, `paintComponent`, `showMenu`, `playGame` and `repaint()`. They render and hold no game logic.
- src/main/java/com/examples/game/snake/SnakeGame.java is not part of this model. It only builds the window and registers the listeners.
- The asynchronous launch of the tick loop and the high-score dialogs are not modelled, and `System.exit` is not executed. The menu returns `StartSession`, `ShowHighScores` or `Exit`, and the tick loop is the separate method `Run`.
- `Thread.sleep(DELAY)` and its `InterruptedException`, which is rethrown as a fatal error, are timing, not logic.
- The tick task and the key handler share `actDir`, `snake` and `food` without synchronisation; this concurrency is not modelled. A run holds `actDir` fixed, and presses between ticks are `KeyPressed` calls made between `Tick` calls.
- `java.util.Random` becomes the sequence of values it would return (the panel's `rng`). Each element is one x roll and one y roll in [0, 580).
- FoodGeneration.GenerateFood: the source loop has no retry bound and may never return. The model samples only the given draws and reports failure (`None`, and `stalled` in the panel) when all of them are rejected. So only partial correctness is captured.
- Panel.GamePanel.Run: Dafny needs the loop to terminate, so the run is cut off after `maxTicks` ticks (`StillRunning`). A session longer than that is not followed to its end. `Session.RunW` has the same budget as its fuel.
- Two handled presses between ticks can still reverse the snake (from RIGHT, UP then LEFT leaves actDir at LEFT, see `Controls.TurnThenReverse`). The source allows this whenever a tick takes longer than 68 ms, and neither the source nor the model bounds the presses per tick; a run holds one actDir throughout, so presses in the middle of a run are not modelled.
- Panel.KeyControl.KeyPressed: `System.currentTimeMillis()` becomes the parameter `now`. The source reads the clock twice, once to test the delay and once to record it; the model uses the same reading for both.
- The double comparison `elapsed > DELAY * 1.12` is written as the integer comparison `elapsed * 100 > DELAY * 112`.
- Java's 32-bit `int` and 64-bit `long` are modelled as unbounded integers. Coordinates stay within a few cells of the window and the score within the number of cells, so they cannot wrap.
- Body segments are values, not `SnakeBody` objects. The source never shares a `SnakeBody` between two positions, so no aliasing is lost.
- Before the first session the source's `snake` and `food` are null (and `actDir` is unset). The model holds a fresh snake and food at (0, 0) instead; `resetGame` replaces them before any tick.
- src/main/java/com/games/snake/objects/Snake.java, `GameState.java` and `FoodGenerationService.java` in the com.games package are not part of this model. Both panels use the com.examples versions, to which they are assumed equal.
- `Food.java` (both packages) and `GameState.java` contribute only their constants and enum: `FOOD_SIZE` = 15 and the three states.
