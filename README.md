# pump-game gameplay engine, modelled in Dafny

A webcam rhythm game: arrows carrying one of eight direction glyphs
(`↑ ↗ → ↘ ↓ ↙ ← ↖`) slide right to left across a strip at 5 pixels per
frame. The first frame an arrow's span overlaps the wide "good" zone around
`targetX = 100`, the game checks once whether the player's left or right arm
(shoulder keypoint 5 or 6 to wrist keypoint 9 or 10) points into the glyph's
angle range; on a match the arrow earns the points of the narrowest zone
containing its centre (wow 100 within 15, perfect 70 within 30, good 40
within 50). Arrows whose right edge leaves the canvas are removed.

The model has four modules:

- `Wrappers`: `Option`, standing for the code's `null`/`undefined`.
- `Pose`: keypoint visibility, the normalisation of the arm angle into
  [0, 360), the inclusive range check, the glyph angle table as written and
  the either-arm pose match. `Math.atan2(...) * 180 / Math.PI` enters as a
  function value returning degrees in [-180, 180], bundled with the latest
  poses and the video canvas size in a `Sensing` value.
- `Arrows`: the arrow record, the three zones, the zone resolver
  `CheckScoreZone`, one arrow's part of a frame (`StepArrow`), and the
  specification of a frame's sweep: `Sweep` (the arrows left, in order) and
  `Gain` (the points added). `Lifetime` adds up what one arrow earns over a
  sequence of frames until it leaves the canvas.
- `Session`: class `Game` with the module-level state `arrows`, `score` and
  `running` as fields, and the start, stop, spawn and frame handlers as
  methods. `DrawGameUI` runs the reverse-indexed sweep with in-loop removal
  and is proved equal to `Sweep`/`Gain`.

Properties of the code as written that the proofs bring out:

- The pose check fires on the first frame with `x <= 150`. An arrow arriving
  from the right is then at `x` in 146..150, so its centre is 71 to 75 pixels
  from the target, outside even the good zone. Such an arrow never earns
  points, whatever the poses (`Arrows.ArrowFromRightNeverScores`). Every arrow
  spawned on a UI canvas wider than 200 pixels arrives from the right
  (`Session.SpawnedArrowNeverScores`).
- The glyph table is inclusive at both ends, so neighbouring glyphs share
  the angles 20, 70, …, 290. `'↑'` is written as -20..20, while angles are
  normalised into [0, 360), so the wrap-around branch of `isAngleInRange` is
  never used and angles strictly between 340 and 360 match no glyph.
- An arm held level to the right has angle 0 and matches `'↑'`; an arm
  pointing up has angle 90 and matches `'→'`.

Other points of the code that the model keeps: there is no cap on live
arrows; motion is a fixed 5 pixels per frame, whatever the time between
frames; `startGame` does not clear `arrows` (they are always empty when the
game is stopped, which `Game.Valid` records); a missed arrow stays in the
list, checked and unscored, until it leaves the canvas; the glyph ranges are
40 or 50 degrees wide and inclusive at both ends.

## Model

| member | source | states |
|---|---|---|
| `Pose.IsPointVisible` | game.js:285-294 | confidence below 0.3 is never visible; otherwise visible exactly when 0 ≤ x ≤ width and 0 ≤ y ≤ height of the video canvas |
| `Pose.NormalizeAngle` | game.js:361-363 | any raw angle in [-180, 180] lands in [0, 360), moved by 0 or exactly one turn |
| `Pose.KeypointAt` | game.js:300-303 | a keypoint index is present exactly when it is inside the keypoint list, and then gives that keypoint |
| `Pose.CalculateAngle` | game.js:341-372 | an angle exists exactly when both points are present and visible; it lies in [0, 360) and is the normalised arctangent of the flipped shoulder-to-wrist vector |
| `Pose.IsAngleInRange` | game.js:374-380 | a missing angle is in no range; inclusive at both ends when min ≤ max; when min > max accepts angle ≥ min or ≤ max |
| `Pose.CheckPoseMatchAtTarget` | game.js:296-339 | no match without poses or with an empty pose list; a match implies that some arm of the first pose has both keypoints visible |
| `Pose.PoseMatchIsEitherArm` | game.js:330-338 | a pose matches a glyph exactly when its left or its right arm has an angle in the glyph's range |
| `Pose.AngleRange` | game.js:318-327 | every glyph's range lies within -20..340 with min < max and is 40 or 50 degrees wide |
| `Pose.RangesNeverWrap` | game.js:318-327 | every range in the table has min ≤ max |
| `Pose.CoveredUpTo340` | game.js:318-327 | every normalised angle in [0, 340] matches a glyph (the one a reference classifier picks) |
| `Pose.NoGlyphAbove340` | game.js:318-327 | normalised angles strictly between 340 and 360 match no glyph |
| `Pose.OverlapOnlyAtSharedBoundaries` | game.js:318-327 | two different glyphs match one angle only at a shared end point 20, 70, 110, 160, 200, 250 or 290 |
| `Pose.SharedBoundaryMatchesBothNeighbours` | game.js:318-327 | each shared end point matches both neighbouring glyphs |
| `Pose.LevelArmMatchesUp` | game.js:348-363 | shoulder (0, 0) and wrist (10, 0) at confidence 0.9 give angle 0, which matches `'↑'` and no other glyph |
| `Pose.RaisedArmMatchesRight` | game.js:318-327 | angle 90, an arm pointing straight up, matches `'→'` and no other glyph |
| `Arrows.CheckScoreZone` | game.js:382-401 | an already scored arrow gets nothing and is unchanged; otherwise points exactly when the centre is within 50 of the target, and then the arrow is marked scored; the points are 100, 70 or 40 |
| `Arrows.ScoreIsNarrowestZone` | game.js:389-398 | the points are those of a zone containing the centre, the highest of any containing zone, from the narrowest containing zone |
| `Arrows.BoundaryEarnsNarrowerZone` | game.js:389-398 | a distance of exactly 15, 30 or 50 earns wow, perfect or good; 51 earns nothing |
| `Arrows.ZonesNestedAndRewardPrecision` | game.js:26-42 | widths 30 < 60 < 100, points 100 > 70 > 40, each zone inside the next |
| `Arrows.Distance` | game.js:385-387 | the arrow's centre lies exactly that far left or right of the target |
| `Arrows.InGoodSpan` | game.js:213-215 | the arrow's span touches the good zone exactly when its left edge is between 0 and 150 |
| `Arrows.OnScreen` | game.js:233 | an arrow is kept exactly while its x is at least -50 |
| `Arrows.StepArrow` | game.js:207-230 | x drops by exactly 5 with direction and y unchanged; checked becomes true exactly on first overlap with the good zone; an arrow already checked only moves and earns 0; on first overlap without a pose match it is only marked checked; on first overlap with a match it takes `CheckScoreZone`'s arrow and points, so an unscored arrow whose centre is within 50 earns points and is marked scored; points are 0, 40, 70 or 100, and only for an unchecked arrow whose pose matches; scored never without checked |
| `Arrows.Sweep` | game.js:206-236 | the arrows left after a frame are no more than before and are all on the canvas |
| `Arrows.Gain` | game.js:218-222 | a frame adds a multiple of 10 and at most 100 per arrow |
| `Arrows.SweepIsFilterThenStep` | game.js:206-236 | a frame's surviving list is exactly the arrows still on the canvas after moving, each stepped, in their original order |
| `Arrows.StillOnScreenMembers` | game.js:232-236 | an arrow survives exactly when its right edge is at or right of 0 after moving |
| `Arrows.SweepSplits` | game.js:206-236 | sweeping a list in two parts gives the same arrows and points as sweeping it whole, so each arrow is handled independently of the others |
| `Arrows.SweepKeepsWellFormed` | game.js:206-236 | every survivor of a frame stays on its row and is scored only if checked |
| `Arrows.GainOnlyFromUnchecked` | game.js:213-222 | a frame adds nothing when every arrow in it is already checked |
| `Arrows.CheckedArrowEarnsNothing` | game.js:213-216 | once checked, an arrow earns nothing in any later frame |
| `Arrows.ScoredAtMostOnce` | game.js:213-221 | over its whole life an arrow earns 0, 40, 70 or 100: it is matched and scored at most once, even after a miss |
| `Arrows.ArrowFromRightNeverScores` | game.js:210-221 | an unchecked arrow right of x = 150 is checked with its centre 71 to 75 from the target and never earns points |
| `Session.SpawnedArrow` | game.js:157-163 | a new arrow has the given direction, its right edge at the UI canvas width, row 50, and is neither checked nor scored |
| `Session.SpawnedArrowNeverScores` | game.js:153-164 | on a UI canvas wider than 200 pixels a spawned arrow never earns points |
| `Session.Game.constructor` | game.js:8-13 | the game starts stopped, with score 0 and no arrows |
| `Session.Game.StartGame` | game.js:125-140 | a no-op while running; otherwise running with score 0 and exactly one freshly spawned arrow |
| `Session.Game.StopGame` | game.js:142-151 | always leaves the game stopped with score 0 and no arrows |
| `Session.Game.GenerateArrow` | game.js:153-168 | appends one spawned arrow only while running, and changes nothing else |
| `Session.Game.GameLoop` | game.js:170-189 | a frame changes nothing when stopped and runs the sweep when running |
| `Session.Game.DrawGameUI` | game.js:206-248 | the reverse sweep with in-loop removal leaves exactly the `Sweep` of the old list and adds exactly its `Gain` to the score, so the score never decreases; keeps the game invariant |

## Left out

- Camera and detector set-up (`init`, `resizeCanvases`, `detectPose`, `game.js:44-123`): `getUserMedia`, the MoveNet detector and async scheduling are I/O; the latest `poses` are an input of each frame.
- `Math.atan2` and the conversion to degrees: trigonometry is a function value returning degrees in [-180, 180]; angles, coordinates and confidences are exact reals, so floating-point rounding is not modelled.
- `Math.random` in `generateArrow`: the chosen direction is a parameter.
- `setTimeout` every 2 s and `requestAnimationFrame`: each method call stands for one firing of its timer; overlapping spawn chains after a quick stop and start are not modelled.
- The UI canvas width read at spawn is a parameter; the keypoint names are not modelled, only their indices 5, 6, 9 and 10.
- All drawing (zones, arrows, score text, the mirrored video), the start button's label and state, and `console.log` output.
- Pose.CheckPoseMatchAtTarget: treats a keypoint missing from the first pose (fewer than 11 keypoints) as not visible, as `calculateAngle` does. The `console.log` argument at `game.js:309-315` calls `isPointVisible` on the left and then the right arm's keypoints whether or not they exist, so in the code the first missing keypoint it reaches throws a TypeError instead. The throw would leave the frame sweep half done: the current arrow is already marked checked, the arrows before it in the list are neither moved nor checked, and `requestAnimationFrame(gameLoop)` is skipped, so frames stop while the game stays running. The model does not capture this. The detector in use reports 17 keypoints per pose.
- `getHandDirection` (`game.js:257-282`): never called; it repeats `calculateAngle`.
- In-place update of arrow objects: arrows are values, and the sweep replaces the list element instead of mutating the object. Nothing else holds a reference to an arrow, so no aliasing is lost.
- server.js is not part of this model: it serves static files.
