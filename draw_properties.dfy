/** What the controller promises over whole streams of events: strokes,
    stopping, the disabled period, the mouse path, and the rule that a
    hand-drawn segment never starts from a stale position. */
module DrawProperties {
  import opened Gesture
  import opened DrawState

  /** A hand tick whose first hand points. */
  predicate PointingFrame(e: Event)
  {
    e.HandResults? && |e.hands| > 0 && IsPointingGesture(e.hands[0])
  }

  /** A hand tick with no hand, or whose first hand does not point. */
  predicate RestingFrame(e: Event)
  {
    e.HandResults? && !PointingFrame(e)
  }

  /** The status a resting tick reports when it ends a stroke. */
  function StopMessage(e: Event): Message
    requires RestingFrame(e)
  {
    if |e.hands| > 0 then DrawingStopped else NoHandDetected
  }

  function Last<T>(s: seq<T>): T
    requires s != []
  {
    s[|s| - 1]
  }

  // ---------------------------------------------------------------------
  // Reference definitions of a stroke

  /** The fingertip of every tick of a pointing run, in pixels. */
  function Fingertips(es: seq<Event>, c: Canvas): (ps: seq<Pixel>)
    requires forall i | 0 <= i < |es| :: PointingFrame(es[i])
    ensures |ps| == |es|
    decreases |es|
  {
    if es == [] then []
    else
      assert PointingFrame(es[0]);
      [FingertipPixel(es[0].hands[0], c)] + Fingertips(es[1..], c)
  }

  /** Straight segments of one colour joining consecutive points. */
  function Chain(ps: seq<Pixel>, colour: string): seq<Command>
    decreases |ps|
  {
    if |ps| < 2 then []
    else [Segment(ps[0].x, ps[0].y, ps[1].x, ps[1].y, colour)] + Chain(ps[1..], colour)
  }

  /** What a stroke through `ps` looks like on the surface: a fresh stroke
      announces itself and draws no segment to its first point; every later
      point is joined to the one before and marked. */
  function StrokeCommands(from: Option<Pixel>, ps: seq<Pixel>): seq<Command>
    decreases |ps|
  {
    if ps == [] then []
    else
      var lead := match from
        case None => Status(DrawingStarted)
        case Some(q) => Segment(q.x, q.y, ps[0].x, ps[0].y, HAND_COLOUR);
      [lead, Marker(ps[0].x, ps[0].y)] + StrokeCommands(Some(ps[0]), ps[1..])
  }

  /** The segments of a trace, in order. */
  function Segments(t: seq<Command>): seq<Command>
    decreases |t|
  {
    if t == [] then []
    else (if t[0].Segment? then [t[0]] else []) + Segments(t[1..])
  }

  lemma {:induction false} SegmentsAppend(a: seq<Command>, b: seq<Command>)
    ensures Segments(a + b) == Segments(a) + Segments(b)
    decreases |a|
  {
    if a != [] {
      var head := if a[0].Segment? then [a[0]] else [];
      assert (a + b)[0] == a[0];
      assert (a + b)[1..] == a[1..] + b;
      assert Segments(a + b) == head + Segments(a[1..] + b);
      SegmentsAppend(a[1..], b);
      assert Segments(a) == head + Segments(a[1..]);
    } else {
      assert a + b == b;
    }
  }

  /** A stroke's segments join its consecutive points and nothing else:
      none leads into the first point of a fresh stroke, and a continued
      stroke is first joined to where it left off. */
  lemma {:induction false} StrokeSegmentsChain(from: Option<Pixel>, ps: seq<Pixel>)
    ensures from.None? ==> Segments(StrokeCommands(from, ps)) == Chain(ps, HAND_COLOUR)
    ensures from.Some? ==> Segments(StrokeCommands(from, ps)) == Chain([from.value] + ps, HAND_COLOUR)
    decreases |ps|
  {
    if ps != [] {
      var rest := StrokeCommands(Some(ps[0]), ps[1..]);
      var lead := match from
        case None => Status(DrawingStarted)
        case Some(q) => Segment(q.x, q.y, ps[0].x, ps[0].y, HAND_COLOUR);
      assert StrokeCommands(from, ps) == [lead, Marker(ps[0].x, ps[0].y)] + rest;
      SegmentsAppend([lead, Marker(ps[0].x, ps[0].y)], rest);
      assert [lead, Marker(ps[0].x, ps[0].y)][1..] == [Marker(ps[0].x, ps[0].y)];
      StrokeSegmentsChain(Some(ps[0]), ps[1..]);
      assert ([ps[0]] + ps[1..]) == ps;
      if from.Some? {
        assert ([from.value] + ps)[1..] == ps;
      }
    }
  }

  // ---------------------------------------------------------------------
  // The hand path

  /** Consecutive pointing ticks draw exactly the reference stroke, and the
      pen ends at the last fingertip. */
  lemma {:induction false} PointingFramesDrawStroke(s: State, es: seq<Event>, c: Canvas)
    requires s.drawingEnabled
    requires forall i | 0 <= i < |es| :: PointingFrame(es[i])
    ensures Run(s, es, c).out
      == StrokeCommands(if s.drawing then Some(Pixel(s.lastX, s.lastY)) else None, Fingertips(es, c))
    ensures es == [] ==> Run(s, es, c).state == s
    ensures es != [] ==>
      var p := Last(Fingertips(es, c));
      Run(s, es, c).state == s.(drawing := true, lastX := p.x, lastY := p.y)
    decreases |es|
  {
    if es != [] {
      var p := FingertipPixel(es[0].hands[0], c);
      var next := s.(drawing := true, lastX := p.x, lastY := p.y);
      assert Step(s, es[0], c).state == next;
      PointingFramesDrawStroke(next, es[1..], c);
      assert Fingertips(es, c) == [p] + Fingertips(es[1..], c);
      if es[1..] != [] {
        assert Last(Fingertips(es, c)) == Last(Fingertips(es[1..], c));
      }
    }
  }

  /** From rest, n pointing ticks draw exactly n - 1 segments, the i-th from
      the i-th fingertip to the next. */
  lemma FreshStrokeSegments(s: State, es: seq<Event>, c: Canvas)
    requires s.drawingEnabled && !s.drawing
    requires forall i | 0 <= i < |es| :: PointingFrame(es[i])
    ensures Segments(Run(s, es, c).out) == Chain(Fingertips(es, c), HAND_COLOUR)
  {
    PointingFramesDrawStroke(s, es, c);
    StrokeSegmentsChain(None, Fingertips(es, c));
  }

  /** Resting ticks end a stroke with one status line, whatever their
      number: the first one reports, the rest are silent; the pen stays put. */
  lemma {:induction false} RestingFramesReportOnce(s: State, es: seq<Event>, c: Canvas)
    requires s.drawingEnabled
    requires es != []
    requires forall i | 0 <= i < |es| :: RestingFrame(es[i])
    ensures Run(s, es, c).state == s.(drawing := false)
    ensures Run(s, es, c).out == if s.drawing then [Status(StopMessage(es[0]))] else []
    decreases |es|
  {
    var next := s.(drawing := false);
    assert Step(s, es[0], c) == Outcome(next, if s.drawing then [Status(StopMessage(es[0]))] else []);
    if es[1..] != [] {
      RestingFramesReportOnce(next, es[1..], c);
    }
  }

  /** While drawing is disabled, and until it is re-enabled, hand ticks and
      mouse moves issue nothing, the hand stroke's flag and pen stay as they
      were, and no mouse drag can begin; only the clear button still acts. */
  lemma {:induction false} DisabledFreezesDrawing(s: State, es: seq<Event>, c: Canvas)
    requires !s.drawingEnabled
    requires forall i | 0 <= i < |es| :: !es[i].ToggleClicked?
    ensures var r := Run(s, es, c);
      !r.state.drawingEnabled && r.state.drawing == s.drawing
      && r.state.lastX == s.lastX && r.state.lastY == s.lastY
    ensures Run(s, es, c).state.mouseDrawing ==> s.mouseDrawing
    ensures forall k | 0 <= k < |Run(s, es, c).out| ::
      Run(s, es, c).out[k] == ClearAll || Run(s, es, c).out[k] == Status(CanvasCleared)
    ensures (forall i | 0 <= i < |es| :: !es[i].ClearClicked?) ==> Run(s, es, c).out == []
    decreases |es|
  {
    if es != [] {
      var first := Step(s, es[0], c);
      assert first.state.(mouseDrawing := s.mouseDrawing) == s;
      DisabledFreezesDrawing(first.state, es[1..], c);
    }
  }

  /** Disabling mid-stroke does not end the stroke: after re-enabling, the
      next pointing tick joins the fingertip to the pen position held from
      before the pause. */
  lemma StaleStrokeResumes(s: State, a: Landmarks, b: Landmarks, c: Canvas)
    requires s.drawingEnabled && s.drawing
    requires IsPointingGesture(a) && IsPointingGesture(b)
    ensures var p := FingertipPixel(b, c);
      Run(s, [ToggleClicked, HandResults([a]), ToggleClicked, HandResults([b])], c).out
      == [Status(DrawingDisabled), Status(DrawingEnabled),
          Segment(s.lastX, s.lastY, p.x, p.y, HAND_COLOUR), Marker(p.x, p.y)]
  {
    var es := [ToggleClicked, HandResults([a]), ToggleClicked, HandResults([b])];
    var off := s.(drawingEnabled := false);
    assert es[1..] == [HandResults([a]), ToggleClicked, HandResults([b])];
    assert es[1..][1..] == [ToggleClicked, HandResults([b])];
    assert es[1..][1..][1..] == [HandResults([b])];
    assert Run(off, es[1..][1..], c).out
      == [Status(DrawingEnabled)] + Run(s, [HandResults([b])], c).out;
  }

  /** Two pointing ticks at normalized (0.5, 0.5) and (0.6, 0.5) on a
      640 by 480 canvas draw one segment from (320, 240) to (384, 240). */
  lemma TwoTickStroke(a: Landmarks, b: Landmarks)
    requires IsPointingGesture(a) && IsPointingGesture(b)
    requires a[8].x == 0.5 && a[8].y == 0.5 && b[8].x == 0.6 && b[8].y == 0.5
    ensures Run(INITIAL, [HandResults([a]), HandResults([b])], Canvas(640.0, 480.0)).out
      == [Status(DrawingStarted), Marker(320.0, 240.0),
          Segment(320.0, 240.0, 384.0, 240.0, HAND_COLOUR), Marker(384.0, 240.0)]
  {
  }

  // ---------------------------------------------------------------------
  // No phantom segments

  /** Status lines that begin or end a hand stroke. */
  predicate RestartsStroke(m: Message)
  {
    m == DrawingStarted || m == DrawingStopped || m == NoHandDetected
  }

  /** Where the current stroke's pen is after one command; None when no
      stroke is under way or it has not reached its first point. */
  function Advance(cmd: Command, pen: Option<Pixel>): Option<Pixel>
  {
    match cmd
    case Segment(_, _, x1, y1, _) => Some(Pixel(x1, y1))
    case Marker(x, y) => Some(Pixel(x, y))
    case ClearAll => pen
    case Status(m) => if RestartsStroke(m) then None else pen
  }

  function PenAfter(t: seq<Command>, pen: Option<Pixel>): Option<Pixel>
    decreases |t|
  {
    if t == [] then pen else PenAfter(t[1..], Advance(t[0], pen))
  }

  /** Every segment of the trace starts where the same stroke last was. */
  predicate NoPhantom(t: seq<Command>, pen: Option<Pixel>)
    decreases |t|
  {
    t == []
    || ((t[0].Segment? ==> pen == Some(Pixel(t[0].x0, t[0].y0)))
        && NoPhantom(t[1..], Advance(t[0], pen)))
  }

  lemma {:induction false} NoPhantomAppend(a: seq<Command>, b: seq<Command>, pen: Option<Pixel>)
    ensures PenAfter(a + b, pen) == PenAfter(b, PenAfter(a, pen))
    ensures NoPhantom(a + b, pen) <==> NoPhantom(a, pen) && NoPhantom(b, PenAfter(a, pen))
    decreases |a|
  {
    if a != [] {
      assert (a + b)[1..] == a[1..] + b;
      NoPhantomAppend(a[1..], b, Advance(a[0], pen));
    } else {
      assert a + b == b;
    }
  }

  /** While a hand stroke is under way, the pen is at its last point. */
  predicate PenTracks(s: State, pen: Option<Pixel>)
  {
    s.drawing ==> pen == Some(Pixel(s.lastX, s.lastY))
  }

  /** Events that leave the shared pen position to the hand path. */
  predicate HandPathEvent(e: Event)
  {
    !e.MouseDown? && !e.MouseMove?
  }

  lemma HandStepKeepsPen(s: State, e: Event, c: Canvas, pen: Option<Pixel>)
    requires HandPathEvent(e) && PenTracks(s, pen)
    ensures NoPhantom(Step(s, e, c).out, pen)
    ensures PenTracks(Step(s, e, c).state, PenAfter(Step(s, e, c).out, pen))
  {
    var out := Step(s, e, c).out;
    if |out| == 2 {
      var mid := Advance(out[0], pen);
      assert out[1..][0] == out[1] && out[1..][1..] == [];
      assert PenAfter(out[1..], mid) == Advance(out[1], mid);
      assert PenAfter(out, pen) == Advance(out[1], mid);
    } else if |out| == 1 {
      assert out[1..] == [];
      assert PenAfter(out, pen) == Advance(out[0], pen);
    }
  }

  /** Without mouse strokes, every hand segment continues its own stroke
      from the point it last reached. */
  lemma {:induction false} HandSegmentsContinueStroke(s: State, es: seq<Event>, c: Canvas, pen: Option<Pixel>)
    requires forall i | 0 <= i < |es| :: HandPathEvent(es[i])
    requires PenTracks(s, pen)
    ensures NoPhantom(Run(s, es, c).out, pen)
    ensures PenTracks(Run(s, es, c).state, PenAfter(Run(s, es, c).out, pen))
    decreases |es|
  {
    if es != [] {
      var first := Step(s, es[0], c);
      HandStepKeepsPen(s, es[0], c, pen);
      HandSegmentsContinueStroke(first.state, es[1..], c, PenAfter(first.out, pen));
      NoPhantomAppend(first.out, Run(first.state, es[1..], c).out, pen);
    }
  }

  /** From page load, with the mouse unused, no segment is ever drawn from a
      stale position. */
  lemma NoPhantomSinceLoad(es: seq<Event>, c: Canvas)
    requires forall i | 0 <= i < |es| :: HandPathEvent(es[i])
    ensures NoPhantom(Run(INITIAL, es, c).out, None)
  {
    HandSegmentsContinueStroke(INITIAL, es, c, None);
  }

  /** The mouse shares the pen with the hand: a press during a hand stroke
      makes the next hand segment start at the press point. */
  lemma MousePressRedirectsHandStroke(s: State, x: real, y: real, lm: Landmarks, c: Canvas)
    requires s.drawingEnabled && s.drawing && IsPointingGesture(lm)
    ensures var p := FingertipPixel(lm, c);
      Run(s, [MouseDown(x, y), HandResults([lm])], c).out
      == [Segment(x, y, p.x, p.y, HAND_COLOUR), Marker(p.x, p.y)]
  {
  }

  // ---------------------------------------------------------------------
  // The mouse path

  predicate MouseEvent(e: Event)
  {
    e.MouseDown? || e.MouseMove? || e.MouseUp?
  }

  function MovePoints(es: seq<Event>): (ps: seq<Pixel>)
    requires forall i | 0 <= i < |es| :: es[i].MouseMove?
    ensures |ps| == |es|
    decreases |es|
  {
    if es == [] then [] else [Pixel(es[0].x, es[0].y)] + MovePoints(es[1..])
  }

  /** Dragging draws one blue segment per move, joining each pointer
      position to the one before, starting at the pen. */
  lemma {:induction false} DragDrawsChain(s: State, es: seq<Event>, c: Canvas)
    requires s.drawingEnabled && s.mouseDrawing
    requires forall i | 0 <= i < |es| :: es[i].MouseMove?
    ensures Run(s, es, c).out == Chain([Pixel(s.lastX, s.lastY)] + MovePoints(es), MOUSE_COLOUR)
    ensures es != [] ==> (Run(s, es, c).state
      == s.(lastX := Last(MovePoints(es)).x, lastY := Last(MovePoints(es)).y))
    decreases |es|
  {
    if es != [] {
      var p := Pixel(es[0].x, es[0].y);
      var next := s.(lastX := p.x, lastY := p.y);
      assert Step(s, es[0], c) == Outcome(next, [Segment(s.lastX, s.lastY, p.x, p.y, MOUSE_COLOUR)]);
      DragDrawsChain(next, es[1..], c);
      var ps := [Pixel(s.lastX, s.lastY)] + MovePoints(es);
      assert MovePoints(es) == [p] + MovePoints(es[1..]);
      assert ps[1..] == [p] + MovePoints(es[1..]);
      assert ps[0] == Pixel(s.lastX, s.lastY) && ps[1] == p;
      assert Chain(ps, MOUSE_COLOUR)
        == [Segment(s.lastX, s.lastY, p.x, p.y, MOUSE_COLOUR)] + Chain(ps[1..], MOUSE_COLOUR);
      if es[1..] != [] {
        assert Last(MovePoints(es)) == Last(MovePoints(es[1..]));
      }
    }
  }

  /** A press while enabled starts a drag: the moves that follow draw the
      blue chain from the press point through each pointer position. */
  lemma PressThenDrag(s: State, x: real, y: real, es: seq<Event>, c: Canvas)
    requires s.drawingEnabled
    requires forall i | 0 <= i < |es| :: es[i].MouseMove?
    ensures Run(s, [MouseDown(x, y)] + es, c).out == Chain([Pixel(x, y)] + MovePoints(es), MOUSE_COLOUR)
  {
    assert ([MouseDown(x, y)] + es)[1..] == es;
    DragDrawsChain(s.(mouseDrawing := true, lastX := x, lastY := y), es, c);
  }

  /** Press at (10, 10), move to (50, 50), release, move again: exactly one
      segment (10, 10) to (50, 50). */
  lemma PressDragRelease(c: Canvas)
    ensures Run(INITIAL, [MouseDown(10.0, 10.0), MouseMove(50.0, 50.0), MouseUp, MouseMove(70.0, 70.0)], c).out
      == [Segment(10.0, 10.0, 50.0, 50.0, MOUSE_COLOUR)]
  {
  }

  /** After a release, moves draw nothing and change nothing, enabled or not. */
  lemma {:induction false} ReleasedMovesAreSilent(s: State, es: seq<Event>, c: Canvas)
    requires es != [] && es[0].MouseUp?
    requires forall i | 1 <= i < |es| :: es[i].MouseMove? || es[i].MouseUp?
    ensures Run(s, es, c) == Outcome(s.(mouseDrawing := false), [])
    decreases |es|
  {
    var up := s.(mouseDrawing := false);
    if |es| > 1 {
      if es[1].MouseUp? {
        ReleasedMovesAreSilent(up, es[1..], c);
      } else {
        assert Step(up, es[1], c) == Outcome(up, []);
        ReleasedMovesAreSilent(up, [MouseUp] + es[2..], c);
        assert Run(up, [MouseUp] + es[2..], c) == Run(up, es[2..], c) by {
          assert ([MouseUp] + es[2..])[1..] == es[2..];
        }
        assert es[1..][1..] == es[2..];
      }
    }
  }

  /** The mouse never touches the hand stroke's flag or the enabled flag,
      and draws nothing but blue segments. */
  lemma {:induction false} MouseLeavesHandState(s: State, es: seq<Event>, c: Canvas)
    requires forall i | 0 <= i < |es| :: MouseEvent(es[i])
    ensures Run(s, es, c).state.drawing == s.drawing
    ensures Run(s, es, c).state.drawingEnabled == s.drawingEnabled
    ensures forall k | 0 <= k < |Run(s, es, c).out| ::
      Run(s, es, c).out[k].Segment? && Run(s, es, c).out[k].colour == MOUSE_COLOUR
    decreases |es|
  {
    if es != [] {
      var first := Step(s, es[0], c);
      MouseLeavesHandState(first.state, es[1..], c);
    }
  }

  // ---------------------------------------------------------------------
  // Toggle and clear

  /** Toggling flips only the enabled flag and reports the new setting;
      toggling twice restores the state. */
  lemma ToggleFlipsOnlyTheFlag(s: State)
    ensures ToggleStep(s).state.drawingEnabled == !s.drawingEnabled
    ensures ToggleStep(s).state.(drawingEnabled := s.drawingEnabled) == s
    ensures ToggleStep(ToggleStep(s).state).state == s
    ensures ToggleStep(s).out
      == [Status(if s.drawingEnabled then DrawingDisabled else DrawingEnabled)]
  {
  }

  /** Clearing wipes the surface and reports it, and changes no state. */
  lemma ClearKeepsState(s: State)
    ensures ClearStep(s) == Outcome(s, [ClearAll, Status(CanvasCleared)])
  {
  }
}
