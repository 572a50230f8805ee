# Leverless-BongoCat input core in Dafny

Leverless-BongoCat is a browser overlay for streams. It polls a gamepad (a
leverless "hitbox" controller) and shows a cat whose paws follow the
buttons. This project models the part of the controller script that turns
gamepad snapshots into decisions. It covers:

- **Calibration.** A twelve-step state machine binds each logical role to a
  physical button or axis. The roles are `vbLeft`, `vbDown`, `vbRight`, `vbUp`
  and `vb1`..`vb8`. When it finishes, the result is merged into the live
  `buttonMapping` and saved.
- **The visualisation reducer.** For every frame it decides which action
  buttons are lit, the horizontal and vertical direction, the left-hand pose
  (0..4) and the right-arm index (-1..7).
- **The helpers of the hardened copy.** These are the health gate
  `InputStateManager`, `validateGamepad`, and the colour conversions
  `rgbToHex` and `hexToRgb`.

The repository ships two copies of the script:

- the older `hitbox-controller.js`;
- the hardened `dist/hitbox-controller.js`.

Calibration is one model for both copies. `Calibration.Build` selects between
them. The copies differ only in how they read an axis entry that is missing
from a recorded array:

- The hardened copy reads it as 0.
- The older copy leaves it undefined, and a comparison with it then fails.

The reducers are modelled separately:

- `RootOverlay`: the older copy, which is stateless and picks the lowest
  pressed action.
- `DistOverlay`: the hardened copy, which remembers the last press.
- `Agreement`: relates the two.

Module layout:

- `gamepad.dfy`: snapshots, physical inputs, the mapping type, and
  `buttonPressed` / `directionalPressed`.
- `mapping.dfy`: role names, the default mapping, and the live mapping object
  with its two merges.
- `calibration.dfy`: the calibration session as a value (`Session`, `Next`) and
  as the object the source mutates (`Calibrator`). `Tick` is proved to follow
  `Next`.
- `calibration_properties.dfy`: properties of single ticks and of whole runs.
- `visual.dfy`: the per-frame reads shared by both reducers.
- `root_overlay.dfy` and `dist_overlay.dfy`: the two reducers.
- `agreement.dfy`: where the two reducers agree and where they differ.
- `health.dfy`: `InputStateManager` and the frame gate of `visualizationLoop`.
- `colour.dfy`: `rgbToHex` and `hexToRgb`.

Conventions:

- Gamepad buttons are `Pad(pressed)` (a `GamepadButton` object) or
  `Level(value)` (a bare number).
- An index past the end of an array reads as undefined, as in JavaScript.
- `Math.round` is `floor(v + 0.5)`.

## Model

| member | source | states |
|---|---|---|
| Gamepad.JsRound | dist/hitbox-controller.js:237 | `Math.round` returns the integer within half a unit of the value, with halves rounding up |
| Gamepad.ButtonPressedVersusFlag | hitbox-controller.js:157-160 | a button whose `pressed` flag calibration reads as set is pressed for `buttonPressed` too; the only value `buttonPressed` accepts that calibration does not is a bare 1.0 (also dist/hitbox-controller.js:222-226) |
| Gamepad.DirectionalWithoutAxisSignal | hitbox-controller.js:170-178 | when the configured axis does not round to the expected value, a directional is pressed exactly when its role is bound to a pressed button; an axis-bound role never counts by itself (also dist/hitbox-controller.js:230-241) |
| Gamepad.DirectionalAxisBands | dist/hitbox-controller.js:236-239 | the configured axis reads as -1 on [-1.5, -0.5), as 1 on [0.5, 1.5), and on [-0.5, 0.5) adds nothing to either direction |
| Gamepad.InputActiveByBinding | hitbox-controller.js:414-430 | an action role is active exactly when its bound button is pressed or its bound axis exceeds 0.5, whatever polarity the axis was bound with; an unbound role never |
| ButtonMap.ActionKeysDistinct | dist/hitbox-controller.js:616-619 | the eight action names are pairwise distinct and none is a directional name |
| ButtonMap.DefaultMappingIsTotal | dist/hitbox-controller.js:616-619 | the default binding covers all twelve roles |
| ButtonMap.ButtonMapping.constructor | hitbox-controller.js:35-38 | the live mapping starts as the default binding |
| ButtonMap.ButtonMapping.MergeIn | hitbox-controller.js:373-375 | afterwards every given key has the given binding, every other key keeps its old binding, and no key is lost |
| ButtonMap.ButtonMapping.FinishCalibration | dist/hitbox-controller.js:1141-1145 | the live mapping becomes the old one overridden by the calibrated bindings, and exactly those bindings are stored |
| ButtonMap.ButtonMapping.LoadCalibration | dist/hitbox-controller.js:254-269 | reports true exactly when a parsable calibration is stored; then it is merged over the live mapping, otherwise nothing changes |
| Calibration.StepsDistinct | hitbox-controller.js:43-56 | the twelve calibration steps name twelve different roles |
| Calibration.ReleasedCases | hitbox-controller.js:282-301 | with no last input the wait ends; a button is released once its flag drops or it is gone; an axis once it is within 0.2 of its resting value (0 past the recorded ones in the hardened copy, dist/hitbox-controller.js:1053-1071, and released at once in the older copy), or once it is no longer reported, or whenever it equals the resting snapshot |
| Calibration.RestingValue | dist/hitbox-controller.js:1058 | a recorded resting value is used; a missing one is 0 in the hardened copy and undefined in the older one (hitbox-controller.js:288) |
| Calibration.FirstButtonEdgeFrom | hitbox-controller.js:303-304 | the lowest button at or after `from` that is pressed now and was not pressed on the last recorded tick; none exactly when there is no such button |
| Calibration.PreviousAxis | hitbox-controller.js:323-325 | the previous axis value; in the older copy 0 only when nothing was recorded, undefined past the end; in the hardened copy (dist/hitbox-controller.js:1090) 0 past the end |
| Calibration.FirstAxisCrossingFrom | dist/hitbox-controller.js:1088-1091 | the lowest axis at or after `from` whose previous value was at most 0.5 and whose current value exceeds 0.5; none exactly when there is no such axis |
| Calibration.Candidate | dist/hitbox-controller.js:1073-1103 | a button edge wins over an axis crossing; an axis is bound with direction 1; nothing is bound exactly when there is neither |
| Calibration.Next | hitbox-controller.js:280-342 | a calibration tick advances the step by at most one |
| Calibration.NextPreservesWellFormed | hitbox-controller.js:306-310 | bound roles are always exactly those of the steps taken, and axes are always bound with direction 1 |
| Calibration.Start | hitbox-controller.js:206-215 | starting resets the step and the collected bindings and takes both axis baselines from the current pad, or empty without one; it leaves the release wait, the last input and the last button flags as they were |
| Calibration.Calibrator.constructor | dist/hitbox-controller.js:8-26 | the calibration fields start empty, with calibration off |
| Calibration.Calibrator.StartCalibration | dist/hitbox-controller.js:674-685 | calibration is on and the fields hold `Start` of the old session |
| Calibration.Calibrator.SkipCalibration | dist/hitbox-controller.js:1159-1172 | calibration is off and no calibration field or binding changes |
| Calibration.Calibrator.AwaitRelease | dist/hitbox-controller.js:1053-1071 | the release wait moves the fields exactly as `Next` does for a waiting session: the wait ends only on release, and nothing is bound |
| Calibration.Calibrator.UpdateCalibrationUI | dist/hitbox-controller.js:707-709 | once every step is bound, the collected bindings are merged into the live mapping and stored and calibration stops; before that neither the live mapping nor the calibration fields change |
| Calibration.Calibrator.Tick | dist/hitbox-controller.js:1052-1106 | the fields move exactly as `Next` says; calibration stays on while steps remain; after the twelfth binding the collected bindings are merged into the live mapping and stored (dist/hitbox-controller.js:707-709); the session stays well formed, so a finished calibration has put all twelve roles into the live mapping |
| Calibration.ScanButtons | hitbox-controller.js:303-318 | the button loop returns the lowest button with a fresh press |
| Calibration.ScanAxes | hitbox-controller.js:321-338 | the axis loop returns the lowest axis crossing 0.5 upwards |
| CalibrationProperties.WaitingTick | hitbox-controller.js:282-301 | while waiting for release, no binding is made; the wait ends exactly when the last input is released, and then the resting axes are re-read |
| CalibrationProperties.ButtonHoldsWait | dist/hitbox-controller.js:1062-1065 | a bound button keeps the wait exactly while it exists and is pressed |
| CalibrationProperties.AxisHoldsWait | dist/hitbox-controller.js:1055-1061 | a bound axis keeps the wait exactly while it is present and more than 0.2 from its resting value |
| CalibrationProperties.AcceptingTick | dist/hitbox-controller.js:1073-1103 | a binding tick binds exactly the current step's role, to the lowest fresh button press or else the lowest upward axis crossing with direction 1, starts waiting and rebases all baselines on the snapshot |
| CalibrationProperties.IdleTick | hitbox-controller.js:339-341 | a tick that binds nothing only records the snapshot, and there was no edge and no crossing |
| CalibrationProperties.HeldAxisReleasesAtOnce | hitbox-controller.js:335 | after an axis is bound the resting values are the current ones, so the same held value already counts as released on the next tick |
| CalibrationProperties.Run | hitbox-controller.js:267-274 | feeding ticks never moves the step backwards or past the last step |
| CalibrationProperties.RunPreservesWellFormed | hitbox-controller.js:267-274 | every run of ticks keeps the session well formed |
| CalibrationProperties.SettledHasNoCandidate | hitbox-controller.js:303-337 | against the snapshot it last recorded, a session sees no edge and no crossing |
| CalibrationProperties.SettledStaysPut | hitbox-controller.js:339-341 | repeating the recorded snapshot never binds anything |
| CalibrationProperties.ConstantInputBindsAtMostOnce | hitbox-controller.js:302-304 | holding the same snapshot for any number of ticks binds at most one role |
| CalibrationProperties.HeldPressBindsOnce | hitbox-controller.js:302-318 | a fresh press held for many ticks binds its button to the current role exactly once |
| CalibrationProperties.PressBindsItsButton | hitbox-controller.js:303-317 | pressing one button that was up binds that button to the current role |
| CalibrationProperties.PressThenRelease | hitbox-controller.js:280-342 | before the last step, pressing a button that was up and then releasing everything binds the current role to it, moves to the next step, ends the wait and records no other button as held |
| CalibrationProperties.PressOnLastStep | hitbox-controller.js:267-274 | on the last step the press binds the last role and completes the steps, after which the calibration loop reads no more snapshots |
| CalibrationProperties.ScriptFrom | hitbox-controller.js:280-342 | from step j, press/release pairs finish calibration and bind each remaining role to its pressed button, keeping earlier bindings |
| CalibrationProperties.ScriptedCalibration | hitbox-controller.js:43-56 | twelve press/release pairs, consecutive buttons distinct, bind every role in step order to its button and complete calibration |
| Visual.DirectionX | hitbox-controller.js:465-466 | x is 1 when right is held (right wins), -1 for left alone, 0 otherwise |
| Visual.DirectionY | hitbox-controller.js:467-468 | y is -1 when down is held (down wins), 1 for up alone, 0 otherwise |
| RootOverlay.LeftState | hitbox-controller.js:495-499 | the hand pose is 1..4 exactly for the four single directions and 0 for neutral and diagonals |
| RootOverlay.FirstPressedFrom | hitbox-controller.js:512-526 | the lowest pressed action at or after `from`, or -1 exactly when none is pressed |
| RootOverlay.RootFrame | hitbox-controller.js:412-530 | one frame of the older copy: the action flags are the frame's reads, x and y resolve the directionals as `DirectionX`/`DirectionY` do, the hand follows (x, y), and the arm is the lowest pressed action or -1 exactly when none is pressed |
| RootOverlay.ArmLoop | hitbox-controller.js:512-526 | the arm loop with its early exit computes the frame's arm |
| RootOverlay.SingleDirectionPose | hitbox-controller.js:495-507 | each single directional shows its own pose, and no directional shows the neutral pose |
| RootOverlay.OppositeDirectionsResolve | hitbox-controller.js:465-468 | left with right reads as right, and up with down reads as down |
| DistOverlay.HighestRisingBelow | dist/hitbox-controller.js:838-841 | the highest index below n that is on now and was off before, or none exactly when there is no such index |
| DistOverlay.PressedBelow | dist/hitbox-controller.js:834-836 | the pressed indices below n, ascending, each exactly once |
| DistOverlay.MaxOf | dist/hitbox-controller.js:922 | `Math.max` of a non-empty list is one of its elements and no element exceeds it |
| DistOverlay.ArmChoice | dist/hitbox-controller.js:911-942 | the arm is -1 exactly when nothing is pressed; otherwise the remembered button if still pressed, else the highest pressed one |
| DistOverlay.Flags | dist/hitbox-controller.js:896 | the directionals as flags in the order left, right, up, down |
| DistOverlay.FirstActive | dist/hitbox-controller.js:949-954 | the first active directional in the order left, right, up, down; none exactly when none is active |
| DistOverlay.HandChoice | dist/hitbox-controller.js:952-961 | none exactly when no directional is active; otherwise the remembered one if still active, else the first active one |
| DistOverlay.HandPose | dist/hitbox-controller.js:963-969 | left 1, down 2, right 3, up 4, and 0 exactly for none |
| DistOverlay.RememberDirection | dist/hitbox-controller.js:895-907 | the memory changes only to a directional that is active now and was not active in the previous frame |
| DistOverlay.DistArm | dist/hitbox-controller.js:805-942 | the hardened copy's arm for a frame is -1 exactly when no action is pressed, and otherwise a pressed action |
| DistOverlay.DistHand | dist/hitbox-controller.js:895-976 | the hardened copy's hand pose for a frame is in 0..4, and 0 exactly when no directional is active |
| DistOverlay.Overlay.constructor | dist/hitbox-controller.js:30-35 | all memory starts cleared |
| DistOverlay.Overlay.Reset | dist/hitbox-controller.js:1504-1510 | `resetApplicationState` clears every memory field |
| DistOverlay.Overlay.ProcessActionButtons | dist/hitbox-controller.js:805-849 | returns the action flags and the ascending pressed list, remembers the highest fresh press or keeps the old memory, and records the flags |
| DistOverlay.Overlay.UpdateDirectionalStateTracking | dist/hitbox-controller.js:895-907 | remembers the last fresh directional in left, right, up, down order or keeps the old memory, and records the states |
| DistOverlay.Overlay.ProcessDirectionals | dist/hitbox-controller.js:853-891 | reads the four directionals, resolves x and y, and updates the directional memory |
| DistOverlay.Overlay.UpdateRightArmState | dist/hitbox-controller.js:911-942 | the arm is `ArmChoice`, and both memories become the arm, so releasing everything clears them |
| DistOverlay.Overlay.UpdateLeftHandState | dist/hitbox-controller.js:946-976 | the memory becomes `HandChoice` and the pose is its `HandPose` |
| DistOverlay.Overlay.UpdateButtonOverlays | dist/hitbox-controller.js:783-801 | one frame: the arm is `DistArm` and the hand `DistHand` of the memory before the frame, so the arm is a pressed action or -1 exactly when none is pressed and the hand is 0 exactly when no directional is active; x and y resolve the directionals; afterwards the previous-frame records hold this frame's flags and directionals, both arm memories hold the arm, and the directional memory is the active one shown |
| DistOverlay.NewestPressWins | dist/hitbox-controller.js:838-841 | when an action is freshly pressed, the arm shows the highest fresh press, whatever was remembered |
| DistOverlay.ReleaseFallsBackToHighest | dist/hitbox-controller.js:920-924 | releasing the remembered button while others stay held falls back to the highest one still held |
| DistOverlay.HeldChordKeepsArm | dist/hitbox-controller.js:915-919 | with no fresh press, a remembered button that is still held stays shown |
| Health.InputStateManager.constructor | dist/hitbox-controller.js:1310-1313 | the error count starts at 0 |
| Health.InputStateManager.ValidateGamepadState | dist/hitbox-controller.js:1314-1339 | succeeds exactly for a present pad with at least 4 buttons and 2 axes (the test of `validateGamepad`, dist/hitbox-controller.js:162-164); success clears the count, failure adds one; the manager is healthy afterwards exactly when the check succeeded or the count is still below 10 |
| Health.InputStateManager.Reset | dist/hitbox-controller.js:1340-1342 | the count is cleared |
| Health.InputStateManager.AdmitFrame | dist/hitbox-controller.js:755-762 | a frame goes on exactly when the snapshot is valid; the count follows `FrameErrors` and stays below 10 |
| Health.FrameErrors | dist/hitbox-controller.js:755-762 | after one gated frame the count is below 10: 0 after a valid frame, one more after an invalid one, and 0 again when that one more would reach 10 |
| Health.FailuresWrap | dist/hitbox-controller.js:756-759 | from a clear count, k invalid frames in a row leave k mod 10 |
| Health.RecoveryRestartsCycle | dist/hitbox-controller.js:1328 | after a valid frame, k invalid frames leave the count at k mod 10, whatever it was before |
| Colour.Clamp | dist/hitbox-controller.js:369 | the channel is clamped to 0..255 |
| Colour.Digit | dist/hitbox-controller.js:369 | a digit below 16 is written as one hexadecimal character that reads back as itself |
| Colour.HexValue | dist/hitbox-controller.js:374 | a hexadecimal character of either case has a value below 16 |
| Colour.ToHex | dist/hitbox-controller.js:369 | `toString(16)` writes at least one lower-case hexadecimal digit |
| Colour.PairValue | dist/hitbox-controller.js:378-380 | two hexadecimal digits read as a value up to 255 |
| Colour.Channel | dist/hitbox-controller.js:368-371 | each channel is two lower-case digits that read back as the clamped value |
| Colour.RgbToHex | dist/hitbox-controller.js:367-372 | the result is `#` followed by six lower-case hexadecimal digits |
| Colour.Digits | dist/hitbox-controller.js:374 | a string starting with `#` is `#` followed by the result; any other string is the result itself |
| Colour.HexToRgb | dist/hitbox-controller.js:373-382 | three channels each up to 255, and black for any string the pattern rejects |
| Colour.HexRoundTrip | dist/hitbox-controller.js:367-382 | reading back a written colour gives the clamped channels |
| Colour.HexNormalises | dist/hitbox-controller.js:367-382 | writing back a read colour gives `#` and its six digits in lower case |
| Colour.PairDigits | dist/hitbox-controller.js:367-382 | one pair read and written again gives its two digits in lower case |
| Agreement.SingleActionAgrees | hitbox-controller.js:512-526 | with one action held, both copies show its arm whatever the hardened copy remembered |
| Agreement.NoActionAgrees | hitbox-controller.js:512-529 | with no action held, both copies lower the arm |
| Agreement.SingleDirectionAgrees | hitbox-controller.js:495-507 | with at most one directional active, both copies show the same hand pose |
| Agreement.ChordFromRestDiffers | dist/hitbox-controller.js:920-924 | two actions pressed together from a clear memory show the lower one in the older copy and the higher one in the hardened copy |

## Left out

- DOM work is not modelled: overlay visibility, the calibration schematic and
  progress text, `batchVisualUpdates`, the DOM cache, the `if (!btn) continue`
  guard for missing elements, and the early return of `updateCalibrationUI`
  when its highlight element is missing. Every element is taken to exist.
- Timers, `requestAnimationFrame`, polling, the gamepad event listeners, the
  mouse auto-hide, logging and `PerformanceMonitor` are not modelled. A frame
  is one call, and a gamepad is a parameter.
- `localStorage` and `JSON.parse` are not modelled. The stored entry is a
  `Stored` value: absent, malformed, or a parsed mapping. In the older copy a
  malformed entry throws out of `loadCalibration`. The model only covers the
  hardened copy's `false` in that case.
- The axis mode of the directional read (`if (state.axes)`) is not modelled.
  `state.axes` is the constant 0, so that branch never runs, and neither do
  `invertX`/`invertY`.
- The reset query parameter, the settings import envelope, the background
  colour handlers and the HSV conversions are not modelled. They are
  UI-facing, not input logic.
- The `armReturnTimeout` bookkeeping in `updateRightArmState` is not
  modelled. It only clears a timer that is never set.
- The hardened `finishCalibration` and `skipCalibration` also call
  `resetApplicationState` and restart the visualisation loop. These are
  separate operations (`Overlay.Reset`, `InputStateManager.Reset`); `Tick` and
  `SkipCalibration` do not invoke them.
- `Overlay.Reset` covers only the memory fields. The counter reset it also
  triggers is `InputStateManager.Reset`.
- Exceptions caught by the hardened copy's `try` blocks are not modelled
  (a `null` entry in `gp.buttons`, a mapping key of an unexpected type). The
  model's values cannot produce them.
- Calibration.Released: axis values are exact reals, not IEEE-754 doubles.
  The 0.2 dead-zone test therefore has no rounding error and never sees NaN.
  In JavaScript a NaN distance compares false and counts as released, and the
  hardened copy's `|| 0` also turns a NaN resting value into 0. Neither case
  is modelled.
- Gamepad.JsRound: `Math.round` is taken on exact reals. A double whose
  `v + 0.5` rounds in floating point (such as 0.49999999999999994) is not
  modelled, nor are NaN and infinite axis values.
- Colour.RgbToHex: non-integer and NaN channels are not modelled. Channels are
  integers, so `toString(16)` never writes a fraction.
- Colour.HexToRgb: non-string arguments, which `RegExp.exec` would first turn
  into strings, are not modelled.
- ButtonMap.ButtonMapping.LoadCalibration: the merged values are taken to be
  well-formed bindings. A stored JSON of another shape is not modelled.
