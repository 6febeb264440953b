# Snake game with hand-gesture control, modelled in Dafny

This project models the decision logic of a snake game that is steered by hand gestures. It has two parts.

- **The gesture controller** (`gesture_controller.dfy`, module `GestureControl`). It does four things:
  - It detects swipes from a bounded history of wrist positions. A swipe needs a minimum distance, speed and dominance, and a cooldown applies between swipes.
  - It classifies one frame's 21 hand landmarks into a pose: pointing up, down, left or right, thumbs up, thumbs down, peace or fist.
  - It smooths poses over the last five frames. A pose is emitted only when it occurs at least three times.
  - Its per-frame `detect_gesture` step ties the three together and updates the histories.
- **The game** (`snake_game.dfy`, module `SnakeGame`). It covers the snake's body, the queued turn and its no-reversal rule, growth, collisions with walls and with itself, the food and its respawn, and the game's control state (score, game over, pause), which is driven by gesture labels, keys and ticks.

`controls.dfy` (module `Controls`) connects the two parts. It proves that every label the controller can emit steers the game, and that each label steers the way it points. `optional.dfy` holds the `Option` type, which plays the role of Python's `Optional`.

Coordinates are exact reals. The swipe test's square root is replaced by a comparison of squares, and `DistanceAndSpeedTest` proves that the two tests agree. The classifier is specified by a declarative predicate, `Shows`, which says which pose each hand shape is. The smoother's dictionary keeps insertion order; it is modelled by `FirstSeen` and `Tally`, and a lemma proves that on a five-entry window the order never matters.

## Model

| member | source | states |
|---|---|---|
| GestureControl.Append | GAME/gesture_controller.py:31-38 | a bounded deque append keeps at most `capacity` entries: the newest ones, with the new item last; the oldest entry is dropped only when the deque is full |
| GestureControl.DistanceAndSpeedTest | GAME/gesture_controller.py:130-136 | the squared-distance test `ShortOrSlow` rejects a movement exactly when the distance is below 0.05 or the speed (0 when no time has passed) is below 0.02 |
| GestureControl.DominantSwipe | GAME/gesture_controller.py:138-159 | the dominance chain only ever yields swipe labels |
| GestureControl.DominantSwipeFollowsHeading | GAME/gesture_controller.py:138-159 | the dominance chain `DominantSwipe` yields swipe g exactly when the movement along g's heading is more than 1.5 times its sideways movement |
| GestureControl.SwipeOf | GAME/gesture_controller.py:109-159 | no swipe with fewer than 3 recorded positions or during the 0.3 s cooldown; any result is a swipe label |
| GestureControl.SwipeOfMeaning | GAME/gesture_controller.py:121-159 | once armed, a swipe g is reported exactly when the movement from the oldest recorded position is long and fast enough and points along g's heading |
| GestureControl.SwipeNeedsMotion | GAME/gesture_controller.py:114-136 | a reported swipe implies at least 3 positions, an expired cooldown, a positive elapsed time and a displacement of at least 0.05 |
| GestureControl.SwipeScenarios | GAME/gesture_controller.py:109-159 | a fast upward movement gives swipe_up; a short one, or one made during the cooldown, gives nothing |
| GestureControl.PointingOf | GAME/gesture_controller.py:228-254 | the pointing rules only ever yield pointing labels |
| GestureControl.PointingFollowsHeading | GAME/gesture_controller.py:228-254 | the pointing rules `PointingOf` give direction g exactly when the index tip is more than 0.08 from the wrist along g and more than 1.2 times further along than across |
| GestureControl.Classify | GAME/gesture_controller.py:184-291 | the classifier only ever yields poses, never swipes |
| GestureControl.ClassifyMeansShows | GAME/gesture_controller.py:204-291 | the ordered rule chain yields g exactly when the hand shows g (the declarative predicate `Shows`): pointing needs only the index finger extended and a clear direction; thumbs up or down needs curled fingers, an outward thumb and a 0.05 rise or drop; peace needs index and middle extended; fist needs curled fingers and no thumb pose |
| GestureControl.AtMostOneLabelShows | GAME/gesture_controller.py:222-289 | no hand shows two poses at once |
| GestureControl.FirstSeen | GAME/gesture_controller.py:171-175 | the tally's keys are exactly the labels that occur in the history |
| GestureControl.FirstReaching | GAME/gesture_controller.py:178-180 | the scan returns a key counted at least 3 times, or none when no key reaches 3 |
| GestureControl.Smoothed | GAME/gesture_controller.py:161-182 | nothing below 3 entries; any result occurs in the history at least 3 times |
| GestureControl.TallyCounts | GAME/gesture_controller.py:169-175 | the tally `Tally`, built entry by entry as the loop does, maps every label of the history to its number of occurrences and holds no other key |
| GestureControl.MajorityIsUnique | GAME/gesture_controller.py:38-39 | in a window of at most 5 entries, at most one label reaches 3 |
| GestureControl.SmoothedIsMajority | GAME/gesture_controller.py:166-182 | on at most 5 entries the smoother emits g exactly when there are at least 3 entries and g occurs at least 3 times |
| GestureControl.CountedIffOccurs | GAME/gesture_controller.py:173-175 | a label has a positive count exactly when it occurs in the history |
| GestureControl.CountIsMultiplicity | GAME/gesture_controller.py:173-175 | a label's count is its multiplicity in the history |
| GestureControl.SmoothedIgnoresOrder | GAME/gesture_controller.py:169-182 | reordering a window of at most 5 entries does not change the smoothed gesture, so the dictionary's key order does not matter |
| GestureControl.CountsOfTwoLabels | GAME/gesture_controller.py:173-175 | two different labels together occur at most once per entry |
| GestureControl.FirstReachingFindsMajority | GAME/gesture_controller.py:178-180 | on at most 5 entries, the scan finds a label counted at least 3 times wherever it sits among the keys |
| GestureControl.SmootherScenarios | GAME/gesture_controller.py:161-182 | three point_up among five entries give point_up; five different entries give nothing; two entries give nothing |
| GestureControl.AppendKeepsPoses | GAME/gesture_controller.py:101-104 | appending a pose, or none, to a history of poses keeps it a history of poses |
| GestureControl.GestureController.TrackFrame | GAME/gesture_controller.py:88-107 | with a hand and no swipe, the wrist sample and the classified pose (or none) are each appended once, and the smoothed gesture of the new history is returned |
| GestureControl.GestureController.constructor | GAME/gesture_controller.py:29-39 | both histories start empty and the last swipe time starts at 0 |
| GestureControl.GestureController.DetectSwipe | GAME/gesture_controller.py:109-159 | returns the swipe test's verdict; a swipe sets the last swipe time to now, and a rejection leaves it unchanged |
| GestureControl.GestureController.CountGestures | GAME/gesture_controller.py:169-175 | the counting loop builds the tally of the history and its keys in insertion order |
| GestureControl.GestureController.SmoothedGesture | GAME/gesture_controller.py:161-182 | the method returns the smoothed gesture of the current history |
| GestureControl.GestureController.DetectGesture | GAME/gesture_controller.py:67-107 | no hand clears both histories and gives none. With swipes enabled, a detected swipe is returned unsmoothed, clears the gesture history and leaves the positions untouched. Otherwise the wrist sample and the classified pose (or none) are each appended once and the smoothed gesture is returned. Capacities and pose-only entries are preserved, and a returned pose occurs at least 3 times |
| SnakeGame.Opposite | snake_game.py:47-52 | the opposite of a direction is its negated step and is never the direction itself |
| SnakeGame.Steer | snake_game.py:54-55 | the queued direction becomes the requested one exactly when that is not a reversal of the current direction (or is already queued); a queue that was not a reversal stays that way |
| SnakeGame.Snake.constructor | snake_game.py:23-28 | a one-cell snake heading right, not growing |
| SnakeGame.Snake.Move | snake_game.py:30-42 | the queued direction becomes current; the new head is one block ahead; the old body follows, without its tail unless growth was pending; growth is used up |
| SnakeGame.Snake.ChangeDirection | snake_game.py:44-55 | queues the new direction unless it reverses the current one, keeping the no-reversal invariant |
| SnakeGame.Snake.CheckCollision | snake_game.py:57-70 | a collision exactly when the head is off the grid or on a cell of the rest of the body |
| SnakeGame.Snake.EatFood | snake_game.py:72-77 | eaten exactly when the head is on the food; eating makes the snake grow |
| SnakeGame.FirstFree | snake_game.py:95-100 | the first draw that misses the snake, which exists exactly when some draw misses it |
| SnakeGame.Food.constructor | snake_game.py:83-87 | the food starts at its first random draw |
| SnakeGame.Food.Respawn | snake_game.py:95-100 | the food moves to `Respawned`: the first draw that misses the snake (or the last draw tried), so it is never on the snake when such a draw exists |
| SnakeGame.KeyDirection | snake_game.py:184-193 | the arrow keys and WASD steer; R, P and every other key do not |
| SnakeGame.GridExtent | snake_game.py:113-115 | the grid extent is a multiple of the block size and the largest one not exceeding the window size |
| SnakeGame.StartCell | snake_game.py:136 | the start cell is the middle of the grid, rounded down (twice each coordinate is the grid extent or one less), and lies inside a non-empty grid |
| SnakeGame.AdvanceKeepsLattice | snake_game.py:33-35 | a move keeps each head coordinate's remainder modulo the block size, so the snake only visits cells congruent to its start cell |
| SnakeGame.StartCellOffLattice | snake_game.py:113-136 | on a 620 by 600 window with 20-pixel blocks the start cell is (310, 300), half a block off the lattice of multiples of 20 that food is drawn from |
| SnakeGame.SnakeGame.NewRound | snake_game.py:134-139 | a fresh one-cell snake at the start cell heading right, with food respawned off it |
| SnakeGame.SnakeGame.constructor | snake_game.py:106-132 | grid extents from the window size, then a new round: a one-cell snake at the start cell heading right and not growing, food respawned off it from the draws, score 0, not over and not paused |
| SnakeGame.SnakeGame.ResetGame | snake_game.py:134-142 | a new round, score 0, not over and not paused; the game invariant holds again |
| SnakeGame.SnakeGame.HandleGesture | snake_game.py:144-168 | a known label steers the snake (no reversal); nothing happens when the game is over or paused, or for no label or an unknown one |
| SnakeGame.SnakeGame.HandleKeyboard | snake_game.py:170-196 | after game over only R does anything (it starts a new round: snake at the start cell heading right, food respawned, score 0); any other key leaves everything unchanged; otherwise P toggles the pause, and when not paused the arrow keys and WASD steer |
| SnakeGame.SnakeGame.Update | snake_game.py:198-212 | when neither over nor paused: the snake moves in its queued direction, which stays queued; if the new head is on the food the score rises by 10, the snake will grow and the food respawns; the game ends exactly on a collision. The score stays 10 per food, matching the snake's length |
| Controls.EveryLabelSteers | snake_game.py:149-165 | every emitted label is in the steering table `GestureDirections`; pointing and swipe labels steer along their heading; thumbs up and peace steer up; thumbs down and fist steer down |
| Controls.OnlyLabelsSteer | snake_game.py:149-168 | every string in the steering table is the name of a label the controller can emit |

## Left out

- The camera, the hand-landmark detector and frame flipping are not modelled. The early returns of `detect_gesture` for a missing camera or a failed frame read (GAME/gesture_controller.py:53-65) are left out. A frame's detector output is the `hand` parameter: no hand, or 21 landmarks.
- `time.time()` is not modelled: the current time is the `now` parameter.
- Floating-point arithmetic is modelled with exact reals. `np.sqrt` is replaced by an equivalent comparison of squares; rounding effects near the thresholds are not captured.
- The landmark z coordinate is carried but never used, as in the classifier.
- `random.randrange` is not modelled: food positions are a sequence of draws passed in. `Food.Respawn` consumes a finite sequence. When every draw hits the snake it stops at the last draw, whereas the source would keep drawing forever. Draws are not constrained to the grid.
- Drawing, fonts, the display, the clock, event polling, `draw`, `run_frame` and `quit` in snake_game.py are not modelled. pygame key codes are the `Key` enumeration.
- The main loop in GAME/main.py is not modelled. That includes its extra 0.1 s repeat filter on gestures, and the wiring of labels as strings beyond the name table.
- `start_camera`, `draw_landmarks`, `get_camera_frame` and `release` in GAME/gesture_controller.py are camera and drawing code and are not modelled.
- The last swipe time starts at 0, as the code does at GAME/gesture_controller.py:34. With real clock values the first cooldown test always passes.
