/** The page's globals and event handlers as one object. Each handler
    updates the fields in place, in the order the page does, and appends
    what it would draw or report to `trace`. */
module DrawController {
  import opened Gesture
  import opened DrawState

  class Controller {
    const canvas: Canvas
    var drawingEnabled: bool
    var drawing: bool
    var lastX: real
    var lastY: real
    var mouseDrawing: bool
    /** Every drawing command and status line issued so far, oldest first. */
    var trace: seq<Command>

    /** The globals as a value. */
    function Current(): State
      reads this
    {
      State(drawingEnabled, drawing, lastX, lastY, mouseDrawing)
    }

    /** The state at page load, which announces that the page is ready. */
    constructor (c: Canvas)
      ensures canvas == c && Current() == INITIAL && trace == [Status(ReadyToStart)]
    {
      canvas := c;
      drawingEnabled := true;
      drawing := false;
      lastX, lastY := 0.0, 0.0;
      mouseDrawing := false;
      trace := [Status(ReadyToStart)];
    }

    method UpdateStatus(msg: Message)
      modifies this`trace
      ensures trace == old(trace) + [Status(msg)]
    {
      trace := trace + [Status(msg)];
    }

    method ClearCanvas()
      modifies this`trace
      ensures trace == old(trace) + ClearStep(old(Current())).out
      ensures Current() == ClearStep(old(Current())).state
    {
      trace := trace + [ClearAll];
      UpdateStatus(CanvasCleared);
    }

    method ToggleDrawing()
      modifies this`drawingEnabled, this`trace
      ensures Current() == ToggleStep(old(Current())).state
      ensures trace == old(trace) + ToggleStep(old(Current())).out
    {
      drawingEnabled := !drawingEnabled;
      UpdateStatus(if drawingEnabled then DrawingEnabled else DrawingDisabled);
    }

    /** The hand-result callback. */
    method OnResults(hands: seq<Landmarks>)
      modifies this`drawing, this`lastX, this`lastY, this`trace
      ensures Current() == ResultsStep(old(Current()), hands, canvas).state
      ensures trace == old(trace) + ResultsStep(old(Current()), hands, canvas).out
    {
      if !drawingEnabled {
        return;
      }
      if |hands| > 0 {
        var landmarks := hands[0];
        var indexTip := landmarks[INDEX_TIP];
        var x := indexTip.x * canvas.width;
        var y := indexTip.y * canvas.height;
        var isPointing := IsPointingGesture(landmarks);
        if isPointing {
          if !drawing {
            drawing := true;
            lastX := x;
            lastY := y;
            UpdateStatus(DrawingStarted);
          } else {
            trace := trace + [Segment(lastX, lastY, x, y, HAND_COLOUR)];
            lastX := x;
            lastY := y;
          }
          trace := trace + [Marker(x, y)];
        } else if drawing {
          drawing := false;
          UpdateStatus(DrawingStopped);
        }
      } else if drawing {
        drawing := false;
        UpdateStatus(NoHandDetected);
      }
    }

    /** Mouse button pressed at canvas-relative (x, y). */
    method MouseDown(x: real, y: real)
      modifies this`mouseDrawing, this`lastX, this`lastY
      ensures Current() == MouseDownStep(old(Current()), x, y).state
      ensures trace == old(trace) + MouseDownStep(old(Current()), x, y).out
    {
      if !drawingEnabled {
        return;
      }
      mouseDrawing := true;
      lastX := x;
      lastY := y;
    }

    /** Pointer moved to canvas-relative (x, y). */
    method MouseMove(x: real, y: real)
      modifies this`lastX, this`lastY, this`trace
      ensures Current() == MouseMoveStep(old(Current()), x, y).state
      ensures trace == old(trace) + MouseMoveStep(old(Current()), x, y).out
    {
      if !drawingEnabled || !mouseDrawing {
        return;
      }
      trace := trace + [Segment(lastX, lastY, x, y, MOUSE_COLOUR)];
      lastX := x;
      lastY := y;
    }

    /** Mouse button released; applies even while drawing is disabled. */
    method MouseUp()
      modifies this`mouseDrawing
      ensures Current() == MouseUpStep(old(Current())).state
      ensures trace == old(trace) + MouseUpStep(old(Current())).out
    {
      mouseDrawing := false;
    }
  }
}
