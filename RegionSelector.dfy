/** Choosing the screen region that holds the board (src/region_selector.py):
    a mouse callback records the corners of a drag, a key loop waits for
    ENTER (with two corners recorded) or ESC, and the two corners become a
    region. `capture_region` then uses the region given, or the saved one.

    The OpenCV window, drawing and screen grabs are left out; the mouse and
    key events the loop sees are given as one sequence, and the saved-region
    file as its content, if it exists. */
module RegionSelector {
  import opened Wrappers

  datatype Point = Point(x: int, y: int)

  datatype MouseEvent = LeftButtonDown | MouseMove | LeftButtonUp | OtherMouseEvent

  /** What one turn of the key loop sees: a mouse event dispatched to the
      callback, or the value `cv2.waitKey(1)` returned (-1 when no key). */
  datatype Input = Mouse(event: MouseEvent, at: Point) | Key(code: int)

  /** `{"left": ..., "top": ..., "width": ..., "height": ...}`. */
  datatype Region = Region(left: int, top: int, width: int, height: int)

  /** How the selection ends: ESC, ENTER on a finished drag, or not yet (the
      events ran out inside the loop). */
  datatype Selection = Cancelled | Selected(region: Region) | Waiting

  /** The callback's variables. */
  datatype DragState = DragState(refPoint: seq<Point>, selecting: bool)

  /** One callback invocation on values: the new variables, and whether it
      raised. */
  datatype MouseStep = MouseStep(state: DragState, raised: bool)

  /** `click_and_crop`: a press starts a new drag at the point; a move only
      redraws; a release appends the point and ends the drag, and raises
      IndexError when there is no second point to draw to. The raise comes
      after the update, so the new variables stand either way. */
  function OnMouse(st: DragState, event: MouseEvent, at: Point): (r: MouseStep)
    ensures r.raised <==> event == LeftButtonUp && st.refPoint == []
    ensures event == LeftButtonDown ==> r.state == DragState([at], true)
    ensures event == LeftButtonUp ==> !r.state.selecting && |r.state.refPoint| == |st.refPoint| + 1 &&
                                      r.state.refPoint[..|st.refPoint|] == st.refPoint &&
                                      r.state.refPoint[|st.refPoint|] == at
    ensures event != LeftButtonDown && event != LeftButtonUp ==> r.state == st
  {
    match event
    case LeftButtonDown => MouseStep(DragState([at], true), false)
    case MouseMove => MouseStep(st, false)
    case LeftButtonUp =>
      var points := st.refPoint + [at];
      MouseStep(DragState(points, false), |points| < 2)
    case OtherMouseEvent => MouseStep(st, false)
  }

  function Abs(v: int): int { if v < 0 then -v else v }
  function Min(a: int, b: int): int { if a <= b then a else b }
  function Max(a: int, b: int): int { if a >= b then a else b }

  /** The region spanned by two corners, whichever way the drag went. */
  function Normalize(p: Point, q: Point): (r: Region)
    ensures r.width >= 0 && r.height >= 0
  {
    Region(Min(p.x, q.x), Min(p.y, q.y), Abs(q.x - p.x), Abs(q.y - p.y))
  }

  /** The region does not depend on the drag direction, and it spans exactly
      from the smaller to the larger coordinate on each axis. */
  lemma NormalizeSymmetric(p: Point, q: Point)
    ensures Normalize(p, q) == Normalize(q, p)
    ensures Normalize(p, q).left + Normalize(p, q).width == Max(p.x, q.x)
    ensures Normalize(p, q).top + Normalize(p, q).height == Max(p.y, q.y)
  {
  }

  /** `cv2.waitKey(1) & 0xFF`. */
  function KeyByte(code: int): (k: int)
    ensures 0 <= k < 256
  {
    code % 256
  }

  const Enter := 13
  const Escape := 27

  /** The selection loop over the remaining events, from callback state `st`;
      after ENTER the two recorded corners give the region. An exception in
      the callback is printed by OpenCV's binding and the loop goes on. The
      loop ends only on a key: ESC, or ENTER giving a region with non-negative
      sides. */
  function Run(st: DragState, inputs: seq<Input>): (r: Selection)
    ensures r.Selected? ==> r.region.width >= 0 && r.region.height >= 0 &&
                            exists i :: 0 <= i < |inputs| && inputs[i].Key? && KeyByte(inputs[i].code) == Enter
    ensures r.Cancelled? ==> exists i :: 0 <= i < |inputs| && inputs[i].Key? && KeyByte(inputs[i].code) == Escape
    decreases |inputs|
  {
    if inputs == [] then Waiting
    else match inputs[0]
      case Mouse(event, at) =>
        var next := Run(OnMouse(st, event, at).state, inputs[1..]);
        assert next.Selected? || next.Cancelled? ==> forall i :: 0 <= i < |inputs[1..]| ==> inputs[1..][i] == inputs[i + 1];
        next
      case Key(code) =>
        if KeyByte(code) == Enter && |st.refPoint| == 2 then Selected(Normalize(st.refPoint[0], st.refPoint[1]))
        else if KeyByte(code) == Escape then Cancelled
        else
          var next := Run(st, inputs[1..]);
          assert next.Selected? || next.Cancelled? ==> forall i :: 0 <= i < |inputs[1..]| ==> inputs[1..][i] == inputs[i + 1];
          next
  }

  const Initial := DragState([], false)

  /** The callback's closure variables, as an object the callback updates. */
  class Selector {
    var refPoint: seq<Point>
    var selecting: bool

    /** While a drag is in progress exactly one corner is recorded. */
    ghost predicate Valid()
      reads this
    {
      selecting ==> |refPoint| == 1
    }

    function State(): DragState
      reads this
    {
      DragState(refPoint, selecting)
    }

    constructor ()
      ensures Valid() && State() == Initial
    {
      refPoint := [];
      selecting := false;
    }

    /** `click_and_crop`; `raised` reports the IndexError of a release with
        no corner before it. */
    method ClickAndCrop(event: MouseEvent, at: Point) returns (raised: bool)
      requires Valid()
      modifies this
      ensures Valid()
      ensures MouseStep(State(), raised) == OnMouse(old(State()), event, at)
    {
      raised := false;
      match event
      case LeftButtonDown =>
        refPoint := [at];
        selecting := true;
      case MouseMove =>
        if selecting {
          // The redraw reads `ref_point[0]`; the image it draws on is not modelled.
          var corner := refPoint[0];
        }
      case LeftButtonUp =>
        refPoint := refPoint + [at];
        selecting := false;
        if |refPoint| < 2 {
          raised := true;
        }
      case OtherMouseEvent =>
    }
  }

  /** `select_region`: feed the events to the callback and watch the keys; an
      exception the callback raises does not stop the loop. */
  method SelectRegion(inputs: seq<Input>) returns (outcome: Selection)
    ensures outcome == Run(Initial, inputs)
  {
    var selector := new Selector();
    var i := 0;
    while i < |inputs|
      invariant 0 <= i <= |inputs|
      invariant selector.Valid()
      invariant Run(Initial, inputs) == Run(selector.State(), inputs[i..])
    {
      assert inputs[i..][1..] == inputs[i + 1..];
      match inputs[i] {
        case Mouse(event, at) =>
          var _ := selector.ClickAndCrop(event, at);
        case Key(code) =>
          var key := code % 256;
          if key == Enter && |selector.refPoint| == 2 {
            var p, q := selector.refPoint[0], selector.refPoint[1];
            return Selected(Region(Min(p.x, q.x), Min(p.y, q.y), Abs(q.x - p.x), Abs(q.y - p.y)));
          } else if key == Escape {
            return Cancelled;
          }
      }
      i := i + 1;
    }
    return Waiting;
  }

  // ---------------------------------------------------------------------------
  // Properties of the selection loop

  /** ESC cancels whatever has been dragged, also when the raw key code has
      other bits set above the low byte. */
  lemma EscapeCancels(st: DragState, rest: seq<Input>, high: int)
    ensures Run(st, [Key(Escape + 256 * high)] + rest) == Cancelled
  {
    assert KeyByte(Escape + 256 * high) == Escape;
  }

  /** ENTER without exactly two corners is ignored and the loop goes on. */
  lemma EnterNeedsTwoCorners(st: DragState, rest: seq<Input>)
    requires |st.refPoint| != 2
    ensures Run(st, [Key(Enter)] + rest) == Run(st, rest)
  {
    assert ([Key(Enter)] + rest)[1..] == rest;
  }

  /** A release with no press before it raises, having recorded its point as
      the only corner; the loop then carries on from there, and a later drag
      still selects its region. */
  lemma ReleaseWithoutPressRaises(at: Point, start: Point, moves: seq<Input>, stop: Point, rest: seq<Input>)
    requires AllMoves(moves)
    ensures OnMouse(Initial, LeftButtonUp, at) == MouseStep(DragState([at], false), true)
    ensures Run(Initial, [Mouse(LeftButtonUp, at)] + rest) == Run(DragState([at], false), rest)
    ensures Run(Initial, [Mouse(LeftButtonUp, at), Mouse(LeftButtonDown, start)] + moves +
                         [Mouse(LeftButtonUp, stop), Key(Enter)] + rest) == Selected(Normalize(start, stop))
  {
    assert ([Mouse(LeftButtonUp, at)] + rest)[1..] == rest;
    var drag := [Mouse(LeftButtonDown, start)] + moves + [Mouse(LeftButtonUp, stop), Key(Enter)] + rest;
    var all := [Mouse(LeftButtonUp, at), Mouse(LeftButtonDown, start)] + moves +
               [Mouse(LeftButtonUp, stop), Key(Enter)] + rest;
    assert all == [Mouse(LeftButtonUp, at)] + drag;
    assert all[1..] == drag;
    DragThenEnter(DragState([at], false), start, moves, stop, rest);
  }

  /** Moving the mouse never changes the recorded corners or the drag flag. */
  lemma MoveChangesNothing(st: DragState, at: Point)
    ensures OnMouse(st, MouseMove, at) == MouseStep(st, false)
  {
  }

  predicate AllMoves(moves: seq<Input>)
  {
    forall i :: 0 <= i < |moves| ==> moves[i].Mouse? && moves[i].event == MouseMove
  }

  /** Any number of moves during a drag leaves the drag as it was. */
  lemma {:induction false} MovesKeepDrag(st: DragState, moves: seq<Input>, rest: seq<Input>)
    requires AllMoves(moves)
    ensures Run(st, moves + rest) == Run(st, rest)
    decreases |moves|
  {
    if moves != [] {
      assert (moves + rest)[0] == moves[0];
      assert moves[0].Mouse? && moves[0].event == MouseMove;
      assert (moves + rest)[1..] == moves[1..] + rest;
      assert Run(st, moves + rest) == Run(st, moves[1..] + rest);
      MovesKeepDrag(st, moves[1..], rest);
    } else {
      assert moves + rest == rest;
    }
  }

  /** Press, drag, release, ENTER: the region spanned by the press and the
      release points, whatever the moves in between and whatever was pressed
      before. */
  lemma DragThenEnter(st: DragState, start: Point, moves: seq<Input>, stop: Point, rest: seq<Input>)
    requires AllMoves(moves)
    ensures Run(st, [Mouse(LeftButtonDown, start)] + moves + [Mouse(LeftButtonUp, stop), Key(Enter)] + rest) ==
            Selected(Normalize(start, stop))
  {
    var tail := [Mouse(LeftButtonUp, stop), Key(Enter)] + rest;
    var all := [Mouse(LeftButtonDown, start)] + moves + [Mouse(LeftButtonUp, stop), Key(Enter)] + rest;
    assert all == [Mouse(LeftButtonDown, start)] + (moves + tail);
    assert all[0] == Mouse(LeftButtonDown, start);
    assert all[1..] == moves + tail;
    var dragging := DragState([start], true);
    assert Run(st, all) == Run(dragging, moves + tail);
    MovesKeepDrag(dragging, moves, tail);
    var released := DragState([start, stop], false);
    assert tail[0] == Mouse(LeftButtonUp, stop);
    assert tail[1..] == [Key(Enter)] + rest;
    assert Run(dragging, tail) == Run(released, [Key(Enter)] + rest);
    assert ([Key(Enter)] + rest)[0] == Key(Enter);
  }

  // ---------------------------------------------------------------------------
  // `capture_region`

  datatype CaptureError = ValueError

  /** The region `capture_region` grabs: the one passed in, else the saved
      one (`saved` is the file's content, None when there is no file), else
      ValueError. */
  function CaptureRegion(region: Option<Region>, saved: Option<Region>): (r: Result<Region, CaptureError>)
    ensures region.Some? ==> r == Ok(region.value)
    ensures region.None? && saved.Some? ==> r == Ok(saved.value)
    ensures r.Err? <==> region.None? && saved.None?
  {
    var chosen := if region.None? then saved else region;
    if chosen.None? then Err(ValueError) else Ok(chosen.value)
  }
}
