/** The draw-state controller as pure functions: each event handler of the
    page is a step from the old global state to the new one, together with
    the commands it issues to the drawing surface and the status line. */
module DrawState {
  import opened Gesture

  datatype Option<T> = None | Some(value: T)

  /** A canvas dimension in pixels. */
  type Dim = r: real | r > 0.0 witness 1.0

  datatype Canvas = Canvas(width: Dim, height: Dim)

  datatype Pixel = Pixel(x: real, y: real)

  /** Stroke colour of camera-driven segments. */
  const HAND_COLOUR := "#00ff00"
  /** Stroke colour of mouse-driven segments. */
  const MOUSE_COLOUR := "#0099ff"

  /** The human-readable status lines the controller reports. */
  datatype Message =
    | ReadyToStart
    | DrawingStarted
    | DrawingStopped
    | NoHandDetected
    | CanvasCleared
    | DrawingEnabled
    | DrawingDisabled

  /** What the controller asks of the drawing surface and status channel. */
  datatype Command =
    | Segment(x0: real, y0: real, x1: real, y1: real, colour: string)
    | Marker(x: real, y: real)
    | ClearAll
    | Status(msg: Message)

  /** The page's process-wide mutable state. */
  datatype State = State(
    drawingEnabled: bool,
    drawing: bool,
    lastX: real,
    lastY: real,
    mouseDrawing: bool)

  /** State at page load. */
  const INITIAL := State(true, false, 0.0, 0.0, false)

  /** A state together with the commands issued on the way to it. */
  datatype Outcome = Outcome(state: State, out: seq<Command>)

  /** The inputs the page reacts to. `HandResults` carries the detected
      hands of one inference tick (empty when no hand is seen); mouse
      positions are already relative to the canvas. */
  datatype Event =
    | HandResults(hands: seq<Landmarks>)
    | ToggleClicked
    | ClearClicked
    | MouseDown(x: real, y: real)
    | MouseMove(x: real, y: real)
    | MouseUp

  /** Index fingertip scaled from normalized to pixel coordinates; a
      fingertip inside the frame lands inside the canvas. */
  function FingertipPixel(lm: Landmarks, c: Canvas): (p: Pixel)
    ensures 0.0 <= lm[INDEX_TIP].x <= 1.0 ==> 0.0 <= p.x <= c.width
    ensures 0.0 <= lm[INDEX_TIP].y <= 1.0 ==> 0.0 <= p.y <= c.height
  {
    var x := lm[INDEX_TIP].x;
    var y := lm[INDEX_TIP].y;
    assert 0.0 <= x <= 1.0 ==> x * c.width <= 1.0 * c.width;
    assert 0.0 <= y <= 1.0 ==> y * c.height <= 1.0 * c.height;
    Pixel(x * c.width, y * c.height)
  }

  /** One hand-result callback. It never touches the enabled flag or the
      mouse drag; while disabled it does nothing; afterwards a stroke is under
      way exactly when the first hand points (or, while disabled, when one
      already was); a segment only continues an active stroke, from the old
      pen to the new one; and the pen moves only to the fingertip. */
  function ResultsStep(s: State, hands: seq<Landmarks>, c: Canvas): (r: Outcome)
    ensures r.state.drawingEnabled == s.drawingEnabled && r.state.mouseDrawing == s.mouseDrawing
    ensures !s.drawingEnabled ==> r == Outcome(s, [])
    ensures s.drawingEnabled ==>
      (r.state.drawing <==> |hands| > 0 && IsPointingGesture(hands[0]))
    ensures forall k | 0 <= k < |r.out| :: r.out[k].Segment? ==>
      s.drawing && r.out[k] == Segment(s.lastX, s.lastY, r.state.lastX, r.state.lastY, HAND_COLOUR)
    ensures !r.state.drawing ==> r.state.lastX == s.lastX && r.state.lastY == s.lastY
    ensures s.drawingEnabled && r.state.drawing ==>
      |hands| > 0 && Pixel(r.state.lastX, r.state.lastY) == FingertipPixel(hands[0], c)
  {
    if !s.drawingEnabled then Outcome(s, [])
    else if |hands| > 0 then
      var lm := hands[0];
      var p := FingertipPixel(lm, c);
      if IsPointingGesture(lm) then
        if !s.drawing then
          Outcome(s.(drawing := true, lastX := p.x, lastY := p.y),
                  [Status(DrawingStarted), Marker(p.x, p.y)])
        else
          Outcome(s.(lastX := p.x, lastY := p.y),
                  [Segment(s.lastX, s.lastY, p.x, p.y, HAND_COLOUR), Marker(p.x, p.y)])
      else if s.drawing then Outcome(s.(drawing := false), [Status(DrawingStopped)])
      else Outcome(s, [])
    else if s.drawing then Outcome(s.(drawing := false), [Status(NoHandDetected)])
    else Outcome(s, [])
  }

  /** The toggle-drawing button: flips the enabled flag, changes nothing
      else, and reports the new setting. */
  function ToggleStep(s: State): (r: Outcome)
    ensures r.state.drawingEnabled != s.drawingEnabled
    ensures r.state.(drawingEnabled := s.drawingEnabled) == s
    ensures r.out == [Status(if r.state.drawingEnabled then DrawingEnabled else DrawingDisabled)]
  {
    var enabled := !s.drawingEnabled;
    Outcome(s.(drawingEnabled := enabled),
            [Status(if enabled then DrawingEnabled else DrawingDisabled)])
  }

  /** The clear button: wipes the surface and changes no controller state. */
  function ClearStep(s: State): (r: Outcome)
    ensures r.state == s
  {
    Outcome(s, [ClearAll, Status(CanvasCleared)])
  }

  /** Mouse press: ignored while disabled; otherwise starts a drag at the
      press point. Draws nothing and never touches the hand stroke. */
  function MouseDownStep(s: State, x: real, y: real): (r: Outcome)
    ensures r.out == []
    ensures r.state.drawing == s.drawing && r.state.drawingEnabled == s.drawingEnabled
    ensures !s.drawingEnabled ==> r.state == s
    ensures s.drawingEnabled ==> r.state.mouseDrawing && r.state.lastX == x && r.state.lastY == y
  {
    if !s.drawingEnabled then Outcome(s, [])
    else Outcome(s.(mouseDrawing := true, lastX := x, lastY := y), [])
  }

  /** Mouse move: draws only while enabled and dragging, one blue segment
      from the pen to the pointer, and the pen follows; otherwise nothing. */
  function MouseMoveStep(s: State, x: real, y: real): (r: Outcome)
    ensures r.state.drawing == s.drawing && r.state.drawingEnabled == s.drawingEnabled
    ensures r.state.mouseDrawing == s.mouseDrawing
    ensures |r.out| <= 1
    ensures r.out != [] <==> s.drawingEnabled && s.mouseDrawing
    ensures r.out == [] ==> r.state == s
    ensures r.out != [] ==>
      r.out[0] == Segment(s.lastX, s.lastY, x, y, MOUSE_COLOUR)
      && r.state.lastX == x && r.state.lastY == y
  {
    if !s.drawingEnabled || !s.mouseDrawing then Outcome(s, [])
    else Outcome(s.(lastX := x, lastY := y), [Segment(s.lastX, s.lastY, x, y, MOUSE_COLOUR)])
  }

  /** Mouse release: ends any drag, enabled or not, and changes nothing else. */
  function MouseUpStep(s: State): (r: Outcome)
    ensures !r.state.mouseDrawing && r.out == []
    ensures r.state.(mouseDrawing := s.mouseDrawing) == s
  {
    Outcome(s.(mouseDrawing := false), [])
  }

  /** Dispatch of one event; no handler issues more than two commands. */
  function Step(s: State, e: Event, c: Canvas): (r: Outcome)
    ensures |r.out| <= 2
  {
    match e
    case HandResults(hands) => ResultsStep(s, hands, c)
    case ToggleClicked => ToggleStep(s)
    case ClearClicked => ClearStep(s)
    case MouseDown(x, y) => MouseDownStep(s, x, y)
    case MouseMove(x, y) => MouseMoveStep(s, x, y)
    case MouseUp => MouseUpStep(s)
  }

  /** A sequential stream of events, handled one after another; the
      commands of all steps in order. */
  function Run(s: State, es: seq<Event>, c: Canvas): (r: Outcome)
    ensures |r.out| <= 2 * |es|
    decreases |es|
  {
    if es == [] then Outcome(s, [])
    else
      var first := Step(s, es[0], c);
      var rest := Run(first.state, es[1..], c);
      Outcome(rest.state, first.out + rest.out)
  }
}
