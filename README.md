# Finger-drawing controller, modelled in Dafny

A browser demo tracks one hand through a webcam and lets the user draw on a
transparent canvas over the video. The hand must be in a "pointing" pose:
index finger up, the other three fingers curled. The mouse is a second way
to draw. This project models the two parts of `script.js` that make
decisions, and proves what they promise:

- **Gesture classifier** (`Gesture`, `gesture.dfy`). `IsPointingGesture` is a
  pure predicate over the 21 landmarks of one hand. The index fingertip must
  be strictly above its middle joint (a smaller y). The middle, ring and
  pinky fingertips must each be strictly below their middle joints.
- **Draw-state controller.**
  - `DrawState` (`draw_state.dfy`) gives each event handler as a pure step
    from the old globals to the new globals, plus the commands the handler
    issues. The globals are `isDrawingEnabled`, `isDrawing`, `lastX`,
    `lastY` and `mouseDrawing`. A command is a line segment with its colour,
    a fingertip marker, a canvas clear or a status line. `Run` handles a
    stream of events one after another.
  - `DrawController.Controller` (`controller.dfy`) holds the globals as
    mutable fields. Its methods are the page's handlers and update the
    fields in place, in the page's order. Each method appends what it draws
    or reports to `trace`. Each method's postcondition ties the new fields
    and trace to the matching step function of the old fields.
  - `DrawProperties` (`draw_properties.dfy`) proves what these steps do over
    whole event streams.

Modelling choices:
- Coordinates are `real`. Only comparisons and one scaling multiply occur.
- One inference tick is the sequence of detected hands. An empty sequence
  stands for both a missing and an empty `multiHandLandmarks`. Only the
  first hand is read.
- Canvas width and height are positive parameters.
- Mouse positions come in already relative to the canvas.

Behaviour of the code worth knowing, each proved below:
- **Disabling does not end a stroke.** `isDrawing` survives the disabled
  period. So after re-enabling, the next pointing tick joins the fingertip
  to the pen position from before the pause (`StaleStrokeResumes`).
- **A stroke's first tick also draws a marker.** The fingertip marker
  (script.js:166-170) runs after both the start and the continue branch.
- **Mouse presses move the hand stroke's pen.** The mouse path has its own
  drag flag, but it shares `lastX`/`lastY` with the hand path. A mouse
  press during a hand stroke makes the next green segment start at the
  press point (`MousePressRedirectsHandStroke`). The "no segment from a
  stale position" rule is therefore proved only for streams without mouse
  presses or moves (`HandSegmentsContinueStroke`).

## Model

| member | source | states |
|---|---|---|
| Gesture.PointingExactly | script.js:38-65 | the classifier holds exactly when lm[8].y < lm[6].y, lm[12].y > lm[10].y, lm[16].y > lm[14].y and lm[20].y > lm[18].y, so any single failed comparison makes it false |
| Gesture.LevelFingerIsNotPointing | script.js:56-62 | every comparison is strict: a fingertip level with its middle joint gives false |
| Gesture.OnlyComparedHeightsMatter | script.js:40-64 | two hands that agree on the eight compared y values are classified alike; x, z, the thumb, the wrist and landmark 5 (read but unused) never matter |
| Gesture.RaisedIndexIsPointing | script.js:56-64 | index tip 0.3 over joint 0.5, other tips 0.6 under joints 0.4, is pointing |
| Gesture.IsPointingGesture | script.js:38-65 | the classifier itself: index tip strictly above its middle joint, middle, ring and pinky tips strictly below theirs; its truth condition is proved by the lemmas below |
| DrawState.ResultsStep | script.js:131-186 | a hand tick never changes the enabled flag or the mouse drag; while disabled it does nothing; when enabled, afterwards a stroke is under way exactly when the first hand points; a segment only continues an active stroke, green, from the old pen to the new; the pen moves only to the scaled fingertip and never when the stroke ends |
| DrawState.ToggleStep | script.js:31-35 | the enabled flag flips, nothing else changes, and the new setting is reported |
| DrawState.ClearStep | script.js:26-29 | clearing changes no controller state |
| DrawState.MouseDownStep | script.js:191-197 | a press draws nothing and never touches the hand stroke or the enabled flag; ignored while disabled; otherwise sets the drag flag and moves the shared pen to the press point |
| DrawState.MouseMoveStep | script.js:199-215 | a move draws exactly when enabled and dragging: one blue segment from the pen to the pointer, and the pen follows; otherwise nothing changes; the flags never change |
| DrawState.MouseUpStep | script.js:217-219 | a release ends any drag, enabled or not, draws nothing and changes nothing else |
| DrawState.FingertipPixel | script.js:137-140 | the fingertip is scaled by the canvas width and height; a fingertip inside the frame lands inside the canvas |
| DrawState.Step | script.js:26-219 | no handler issues more than two commands |
| DrawState.Run | script.js:131-219 | handling n events one after another issues at most 2n commands |
| DrawController.Controller.constructor | script.js:12-15 | page load: drawing enabled, no stroke, pen at (0, 0), no mouse drag, one "ready" status line (script.js:189, 222) |
| DrawController.Controller.UpdateStatus | script.js:21-24 | a status line is appended to the trace and nothing else changes |
| DrawController.Controller.ClearCanvas | script.js:26-29 | appends a canvas clear and its status line; no global changes |
| DrawController.Controller.ToggleDrawing | script.js:31-35 | the enabled flag is negated in place and the new setting is reported, as ToggleStep says |
| DrawController.Controller.OnResults | script.js:131-186 | the in-place update of isDrawing/lastX/lastY and the commands issued equal ResultsStep of the old globals |
| DrawController.Controller.MouseDown | script.js:191-197 | when enabled, sets mouseDrawing and overwrites the shared lastX/lastY; otherwise nothing; draws nothing |
| DrawController.Controller.MouseMove | script.js:199-215 | only when enabled and dragging: one blue segment from the pen to the pointer, and the pen moves there |
| DrawController.Controller.MouseUp | script.js:217-219 | clears mouseDrawing unconditionally, also while disabled |
| DrawProperties.PointingFramesDrawStroke | script.js:145-170 | a run of pointing ticks issues exactly the reference stroke: start status and marker with no segment when idle, then per tick one green segment from the previous point and a marker; the pen ends at the last fingertip and isDrawing is true |
| DrawProperties.StrokeSegmentsChain | script.js:145-164 | the reference stroke's segments join consecutive points only: none into the first point of a fresh stroke, and a continued stroke is first joined to where it left off |
| DrawProperties.FreshStrokeSegments | script.js:145-164 | from rest, n pointing ticks draw exactly n - 1 segments, the i-th from the i-th fingertip to the next |
| DrawProperties.TwoTickStroke | script.js:138-164 | fingertips (0.5, 0.5) then (0.6, 0.5) on 640x480 draw exactly one segment (320, 240) to (384, 240), each tick with its marker |
| DrawProperties.RestingFramesReportOnce | script.js:172-185 | any number of no-hand or non-pointing ticks set isDrawing false, leave the pen, draw nothing, and report one status line only if a stroke was under way |
| DrawProperties.DisabledFreezesDrawing | script.js:131-132 | while disabled, until re-enabled, hand ticks and mouse events issue nothing at all (a stream without clear clicks issues no command; with them, only a clear and its status line appear), isDrawing, lastX, lastY stay as they were, and mouseDrawing cannot become set (mouse handlers also return early, script.js:192, 200) |
| DrawProperties.StaleStrokeResumes | script.js:131-164 | disable, pointing tick, re-enable, pointing tick: the stroke resumes with a segment from the pen position held before the pause |
| DrawProperties.HandStepKeepsPen | script.js:131-186 | one non-mouse event issues no segment from a stale position and keeps the pen at the stroke's last point while drawing |
| DrawProperties.HandSegmentsContinueStroke | script.js:131-186 | over any stream without mouse presses or moves, every segment starts at the point its own stroke last reached |
| DrawProperties.NoPhantomSinceLoad | script.js:12-15 | from page load, with the mouse unused, no segment ever starts at a stale position |
| DrawProperties.MousePressRedirectsHandStroke | script.js:191-197 | a mouse press during a hand stroke makes the next green segment start at the press point, because the pen is shared |
| DrawProperties.DragDrawsChain | script.js:199-215 | while dragging, n moves draw n blue segments joining the pen and each pointer position in turn; the pen ends at the last one |
| DrawProperties.PressThenDrag | script.js:191-215 | from any enabled state, a press followed by moves draws exactly the blue chain from the press point through each pointer position |
| DrawProperties.PressDragRelease | script.js:191-219 | press (10, 10), move (50, 50), release, move: exactly one segment (10, 10) to (50, 50) |
| DrawProperties.ReleasedMovesAreSilent | script.js:199-219 | after a release, moves and releases draw nothing and change nothing but mouseDrawing, enabled or not |
| DrawProperties.MouseLeavesHandState | script.js:191-219 | mouse events never change isDrawing or the enabled flag and issue only blue segments |
| DrawProperties.ToggleFlipsOnlyTheFlag | script.js:31-35 | toggling negates only the enabled flag and reports the new setting; toggling twice restores the state |
| DrawProperties.ClearKeepsState | script.js:26-29 | clearing issues a clear and its status line and changes no state |

## Left out

- `startCamera` and `cameraStarted` (script.js:67-129): camera permission, video wiring, inference-engine and camera setup and their failure alert are browser and third-party I/O.
- Landmark inference: hands arrive as given. Each has 21 landmarks, the engine's contract, expressed by the `Landmarks` type.
- Rendering: line width 3, round caps, marker radius 8 and fill colour, `beginPath`/`arc`/`stroke`, and the composite operation. Each draw is one abstract command. Stroke colours are kept.
- DOM effects: the status text element, console logging and the toggle button's label. A status line is an abstract `Message`, not its text.
- `getBoundingClientRect` offsets in the mouse handlers. Handlers take canvas-relative coordinates.
- Floating point: coordinates are exact reals. Rounding in the scaling multiply and NaN inputs are not modelled.
- Callback ordering and concurrency: events are a sequential stream of calls.
