/**
 The custom title bar (`CustomTitleBar`): its title label, its search
 field, the glyph of its maximize button, and dragging the window by the
 bar. A press of the left button records the global pointer position;
 every move while a press is recorded shifts the window by the pointer's
 displacement since the last recorded position and records the new one;
 a release forgets it.
 */
module TitleBar {
  import opened Wrappers
  import opened Geometry

  datatype MouseButton = LeftButton | RightButton | MiddleButton

  /** A mouse event delivered to the bar, with the pointer's global position. */
  datatype MouseEvent = Press(button: MouseButton, at: Point) | Move(at: Point) | Release(at: Point)

  /** The drag-relevant state: the recorded pointer position and the window's position. */
  datatype DragState = DragState(drag: Option<Point>, window: Point)

  /** One mouse handler (`mousePressEvent`, `mouseMoveEvent`, `mouseReleaseEvent`). */
  function Step(s: DragState, e: MouseEvent): DragState {
    match e
    case Press(b, p) => if b == LeftButton then DragState(Some(p), s.window) else s
    case Move(p) =>
      if s.drag.Some? then DragState(Some(p), Add(s.window, Sub(p, s.drag.value))) else s
    case Release(_) => DragState(None, s.window)
  }

  /** A sequence of events handled in order. */
  function Run(s: DragState, es: seq<MouseEvent>): DragState
    decreases |es|
  {
    if es == [] then s else Run(Step(s, es[0]), es[1..])
  }

  /** Pointer moves only. */
  function Moves(ps: seq<Point>): (es: seq<MouseEvent>)
    ensures |es| == |ps|
    ensures forall i :: 0 <= i < |ps| ==> es[i] == Move(ps[i])
  {
    if ps == [] then [] else [Move(ps[0])] + Moves(ps[1..])
  }

  /**
   While a drag is in progress, the offset between the window and the
   recorded pointer position never changes, and the recorded position is
   the last pointer position seen.
   */
  lemma {:induction false} DragKeepsOffset(s: DragState, ps: seq<Point>)
    requires s.drag.Some?
    ensures Run(s, Moves(ps)).drag.Some?
    ensures Sub(Run(s, Moves(ps)).window, Run(s, Moves(ps)).drag.value) == Sub(s.window, s.drag.value)
    ensures ps != [] ==> Run(s, Moves(ps)).drag == Some(ps[|ps| - 1])
    decreases |ps|
  {
    if ps != [] {
      var es := Moves(ps);
      assert es[0] == Move(ps[0]);
      assert es[1..] == Moves(ps[1..]);
      DragKeepsOffset(Step(s, es[0]), ps[1..]);
    }
  }

  /**
   Pressing the left button at `p0` and then moving the pointer through
   `ps` moves the window by the displacement from `p0` to the last point.
   */
  lemma DragMovesWindowByDisplacement(s: DragState, p0: Point, ps: seq<Point>)
    requires ps != []
    ensures Run(s, [Press(LeftButton, p0)] + Moves(ps)).window ==
            Add(s.window, Sub(ps[|ps| - 1], p0))
  {
    var pressed := Step(s, Press(LeftButton, p0));
    var es := [Press(LeftButton, p0)] + Moves(ps);
    assert es[1..] == Moves(ps);
    DragKeepsOffset(pressed, ps);
  }

  /** Moves made while no drag is recorded leave the window and the state as they are. */
  lemma {:induction false} MovesWithoutDragAreIgnored(s: DragState, ps: seq<Point>)
    requires s.drag.None?
    ensures Run(s, Moves(ps)) == s
    decreases |ps|
  {
    if ps != [] {
      var es := Moves(ps);
      assert es[0] == Move(ps[0]);
      assert es[1..] == Moves(ps[1..]);
      MovesWithoutDragAreIgnored(s, ps[1..]);
    }
  }

  /** After a release, moves are ignored until the next press. */
  lemma ReleaseEndsDrag(s: DragState, at: Point, ps: seq<Point>)
    ensures Run(s, [Release(at)] + Moves(ps)) == DragState(None, s.window)
  {
    var es := [Release(at)] + Moves(ps);
    assert es[1..] == Moves(ps);
    MovesWithoutDragAreIgnored(DragState(None, s.window), ps);
  }

  /** A press of any button other than the left one starts no drag: the moves after it are ignored. */
  lemma OtherButtonDoesNotDrag(s: DragState, b: MouseButton, at: Point, ps: seq<Point>)
    requires s.drag.None? && b != LeftButton
    ensures Run(s, [Press(b, at)] + Moves(ps)) == s
  {
    var es := [Press(b, at)] + Moves(ps);
    assert es[1..] == Moves(ps);
    MovesWithoutDragAreIgnored(s, ps);
  }

  /** The maximize button's text: the restore glyph when maximized. */
  function MaximizeGlyph(maximized: bool): (g: string)
    ensures g == "❐" <==> maximized
    ensures g == "□" <==> !maximized
  {
    if maximized then "❐" else "□"
  }

  /** The default `maxLength` of a line edit: longer text is cut when it is set. */
  const MaxLength := 32767

  /** The text a line edit keeps when `t` is set: all of it up to `MaxLength`, otherwise the first `MaxLength` characters. */
  function FieldText(t: string): (r: string)
    ensures |r| <= MaxLength
    ensures r <= t
    ensures |t| <= MaxLength <==> r == t
    ensures |t| > MaxLength ==> |r| == MaxLength
  {
    if |t| <= MaxLength then t else t[..MaxLength]
  }

  class CustomTitleBar {
    var title: string
    /** The text shown by the title label. */
    var titleLabel: string
    /** The text of the search field. */
    var searchText: string
    var isMaximized: bool
    /** The text of the maximize button. */
    var maximizeGlyph: string
    /** `_drag_position`: the global pointer position recorded by the last press or move. */
    var dragPosition: Option<Point>
    /** The position of the top-level window the bar belongs to. */
    var windowPos: Point

    function State(): DragState
      reads this
    {
      DragState(dragPosition, windowPos)
    }

    constructor (title: string, windowPos: Point)
      ensures this.title == title && titleLabel == title && searchText == ""
      ensures !isMaximized && maximizeGlyph == MaximizeGlyph(false)
      ensures dragPosition == None && this.windowPos == windowPos
    {
      this.title, titleLabel, searchText := title, title, "";
      isMaximized, maximizeGlyph := false, "□";
      dragPosition, this.windowPos := None, windowPos;
    }

    /** `set_title`: the stored title and the label both show `t`. */
    method SetTitle(t: string)
      modifies this`title, this`titleLabel
      ensures title == t && titleLabel == t
    {
      title := t;
      titleLabel := t;
    }

    /** `get_search_text`: the text the search field currently holds. */
    method GetSearchText() returns (t: string)
      ensures t == searchText
    {
      t := searchText;
    }

    /** `set_search_text`: the field keeps `t`, cut to `MaxLength` as `setText` does. */
    method SetSearchText(t: string)
      modifies this`searchText
      ensures searchText == FieldText(t)
    {
      searchText := if |t| <= MaxLength then t else t[..MaxLength];
    }

    /** `update_maximize_button`. */
    method UpdateMaximizeButton(maximized: bool)
      modifies this`isMaximized, this`maximizeGlyph
      ensures isMaximized == maximized && maximizeGlyph == MaximizeGlyph(maximized)
    {
      isMaximized := maximized;
      if maximized {
        maximizeGlyph := "❐";
      } else {
        maximizeGlyph := "□";
      }
    }

    /** `mousePressEvent`: only the left button starts a drag. */
    method MousePress(button: MouseButton, at: Point)
      modifies this`dragPosition
      ensures State() == Step(old(State()), Press(button, at))
      ensures button == LeftButton ==> dragPosition == Some(at)
      ensures button != LeftButton ==> dragPosition == old(dragPosition)
    {
      if button == LeftButton {
        dragPosition := Some(at);
      }
    }

    /** `mouseMoveEvent`: shift the window by the pointer's displacement while dragging. */
    method MouseMove(at: Point)
      modifies this`dragPosition, this`windowPos
      ensures State() == Step(old(State()), Move(at))
      ensures old(dragPosition).None? ==> windowPos == old(windowPos) && dragPosition == None
      ensures old(dragPosition).Some? ==>
                dragPosition == Some(at) && Sub(windowPos, at) == Sub(old(windowPos), old(dragPosition).value)
    {
      if dragPosition.Some? {
        var delta := Sub(at, dragPosition.value);
        windowPos := Add(windowPos, delta);
        dragPosition := Some(at);
      }
    }

    /** `mouseReleaseEvent`: forget the drag. */
    method MouseRelease(at: Point)
      modifies this`dragPosition
      ensures State() == Step(old(State()), Release(at))
      ensures dragPosition == None
    {
      dragPosition := None;
    }
  }
}
