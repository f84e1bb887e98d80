/**
 * The generic pointer hooks: `useResizable` resizes from a direction string
 * such as "bottom-right", measured from where the press started;
 * `useDraggable` moves a position so that the grabbed point follows the pointer.
 * Both report each new value to an optional callback, modelled as a second result.
 */
module ResizableHook {
  import opened Wrappers
  import opened Strings

  datatype Point = Point(x: int, y: int)
  datatype Size = Size(width: int, height: int)

  const MinWidth := 300
  const MinHeight := 200
  /** The hook's default initial size. */
  const DefaultSize := Size(800, 600)

  /** The hook's state; `direction` is `None` when no direction is set. */
  datatype ResizeState = ResizeState(size: Size, isResizing: bool, direction: Option<string>,
                                     startPointer: Point, startSize: Size)

  function Init(initialSize: Size): (s: ResizeState)
    ensures s.size == initialSize && !s.isResizing && s.direction.None?
  {
    ResizeState(initialSize, false, None, Point(0, 0), Size(0, 0))
  }

  /** A press with the main button (button 0) starts resizing from the current size; other buttons are ignored. */
  function ResizeStart(s: ResizeState, button: int, direction: string, clientX: int, clientY: int): (r: ResizeState)
    ensures button != 0 ==> r == s
    ensures button == 0 ==> r.isResizing && r.direction == Some(direction)
                            && r.startPointer == Point(clientX, clientY) && r.startSize == s.size && r.size == s.size
  {
    if button != 0 then s
    else s.(isResizing := true, direction := Some(direction), startPointer := Point(clientX, clientY), startSize := s.size)
  }

  /** Moves are acted on only while resizing with a non-empty direction. */
  predicate Active(s: ResizeState)
  {
    s.isResizing && s.direction.Some? && s.direction.value != ""
  }

  /** `Math.max(min, Math.min(v, max))`. */
  function Bound(v: int, lo: int, hi: int): (r: int)
    ensures r >= lo
    ensures lo <= hi ==> r <= hi
    ensures lo <= v <= hi ==> r == v
  {
    Max(lo, Min(v, hi))
  }

  /**
   * The size for a pointer at (clientX, clientY): each edge named in the
   * direction moves with the pointer from the starting size, bounded by the
   * minimum and by the viewport. "left" is applied after "right" and "top"
   * after "bottom", so each wins when both appear.
   */
  function SizeFor(s: ResizeState, clientX: int, clientY: int, vpWidth: int, vpHeight: int): (r: Size)
    requires s.direction.Some?
    ensures var d := s.direction.value;
            var dx := clientX - s.startPointer.x;
            (Contains(d, "left") ==> r.width == Bound(s.startSize.width - dx, MinWidth, vpWidth))
            && (Contains(d, "right") && !Contains(d, "left") ==> r.width == Bound(s.startSize.width + dx, MinWidth, vpWidth))
            && (!Contains(d, "right") && !Contains(d, "left") ==> r.width == s.startSize.width)
    ensures var d := s.direction.value;
            var dy := clientY - s.startPointer.y;
            (Contains(d, "top") ==> r.height == Bound(s.startSize.height - dy, MinHeight, vpHeight))
            && (Contains(d, "bottom") && !Contains(d, "top") ==> r.height == Bound(s.startSize.height + dy, MinHeight, vpHeight))
            && (!Contains(d, "bottom") && !Contains(d, "top") ==> r.height == s.startSize.height)
  {
    var d := s.direction.value;
    var dx := clientX - s.startPointer.x;
    var dy := clientY - s.startPointer.y;
    var w0 := s.startSize.width;
    var w1 := if Contains(d, "right") then Bound(w0 + dx, MinWidth, vpWidth) else w0;
    var w2 := if Contains(d, "left") then Bound(w0 - dx, MinWidth, vpWidth) else w1;
    var h0 := s.startSize.height;
    var h1 := if Contains(d, "bottom") then Bound(h0 + dy, MinHeight, vpHeight) else h0;
    var h2 := if Contains(d, "top") then Bound(h0 - dy, MinHeight, vpHeight) else h1;
    Size(w2, h2)
  }

  /** The move listener: the new state, and the size passed to the callback (`None` when the move is ignored). */
  function MouseMove(s: ResizeState, clientX: int, clientY: int, vpWidth: int, vpHeight: int): (r: (ResizeState, Option<Size>))
    ensures !Active(s) ==> r == (s, None)
    ensures Active(s) ==> r.1 == Some(r.0.size) && r.0 == s.(size := r.0.size)
    ensures Active(s) ==> r.0.size == SizeFor(s, clientX, clientY, vpWidth, vpHeight)
    ensures Active(s) && MinWidth <= vpWidth && (Contains(s.direction.value, "left") || Contains(s.direction.value, "right"))
            ==> MinWidth <= r.0.size.width <= vpWidth
    ensures Active(s) && MinHeight <= vpHeight && (Contains(s.direction.value, "top") || Contains(s.direction.value, "bottom"))
            ==> MinHeight <= r.0.size.height <= vpHeight
  {
    if !Active(s) then (s, None)
    else
      var size := SizeFor(s, clientX, clientY, vpWidth, vpHeight);
      (s.(size := size), Some(size))
  }

  /** Releasing the button ends the gesture and clears the direction; the size stays. */
  function MouseUp(s: ResizeState): (r: ResizeState)
    ensures !r.isResizing && r.direction.None? && r.size == s.size
  {
    s.(isResizing := false, direction := None)
  }

  /** After the button is released, moves change nothing. */
  lemma MovesAfterReleaseIgnored(s: ResizeState, clientX: int, clientY: int, vpWidth: int, vpHeight: int)
    ensures MouseMove(MouseUp(s), clientX, clientY, vpWidth, vpHeight) == (MouseUp(s), None)
  {
  }

  /** Every move is measured from the press, so a later move replaces an earlier one rather than adding to it. */
  lemma MovesDoNotAccumulate(s: ResizeState, x1: int, y1: int, x2: int, y2: int, vpWidth: int, vpHeight: int)
    ensures MouseMove(MouseMove(s, x1, y1, vpWidth, vpHeight).0, x2, y2, vpWidth, vpHeight)
         == MouseMove(s, x2, y2, vpWidth, vpHeight)
  {
  }

  /** A press that does not move keeps the size, when that size was within the bounds. */
  lemma PressWithoutMoveKeepsSize(s: ResizeState, direction: string, clientX: int, clientY: int, vpWidth: int, vpHeight: int)
    requires direction != ""
    requires MinWidth <= s.size.width <= vpWidth && MinHeight <= s.size.height <= vpHeight
    ensures MouseMove(ResizeStart(s, 0, direction, clientX, clientY), clientX, clientY, vpWidth, vpHeight).0.size == s.size
  {
  }

  /** A direction naming only the right edge leaves the height alone. */
  lemma RightEdgeKeepsHeight(s: ResizeState, clientX: int, clientY: int, vpWidth: int, vpHeight: int)
    requires s.isResizing && s.direction == Some("right")
    ensures MouseMove(s, clientX, clientY, vpWidth, vpHeight).0.size.height == s.startSize.height
  {
    ContainsIffOccurs("right", "top");
    forall i | 0 <= i <= 2
      ensures !OccursAt("right", "top", i)
    {
      assert "right"[i..i + 3][0] == "right"[i];
    }
    ContainsIffOccurs("right", "bottom");
  }
}

module DraggableHook {
  import opened Wrappers

  datatype Point = Point(x: int, y: int)

  /** At least this much of the window stays reachable: the position is at most the viewport minus these. */
  const MinVisibleWidth := 200
  const MinVisibleHeight := 100

  datatype DragState = DragState(position: Point, isDragging: bool, offset: Point)

  function Init(initialPosition: Point): (s: DragState)
    ensures s.position == initialPosition && !s.isDragging
  {
    DragState(initialPosition, false, Point(0, 0))
  }

  /**
   * A main-button press records where in the element the pointer grabbed it
   * (pointer minus the element's on-screen corner) and starts dragging.
   */
  function MouseDown(s: DragState, button: int, clientX: int, clientY: int, rectLeft: int, rectTop: int): (r: DragState)
    ensures button != 0 ==> r == s
    ensures button == 0 ==> r.isDragging && r.position == s.position
                            && rectLeft + r.offset.x == clientX && rectTop + r.offset.y == clientY
  {
    if button != 0 then s
    else s.(offset := Point(clientX - rectLeft, clientY - rectTop), isDragging := true)
  }

  /** The new position: the grabbed point under the pointer, clamped to [0, viewport - minimum visible]. */
  function MouseMove(s: DragState, clientX: int, clientY: int, vpWidth: int, vpHeight: int): (r: (DragState, Option<Point>))
    ensures !s.isDragging ==> r == (s, None)
    ensures s.isDragging ==> r.1 == Some(r.0.position) && r.0 == s.(position := r.0.position)
    ensures s.isDragging ==> 0 <= r.0.position.x <= Max(0, vpWidth - MinVisibleWidth)
    ensures s.isDragging ==> 0 <= r.0.position.y <= Max(0, vpHeight - MinVisibleHeight)
    ensures s.isDragging && 0 <= clientX - s.offset.x <= vpWidth - MinVisibleWidth
            ==> r.0.position.x + s.offset.x == clientX
    ensures s.isDragging && 0 <= clientY - s.offset.y <= vpHeight - MinVisibleHeight
            ==> r.0.position.y + s.offset.y == clientY
    ensures s.isDragging && clientX - s.offset.x < 0 ==> r.0.position.x == 0
    ensures s.isDragging && clientX - s.offset.x > vpWidth - MinVisibleWidth
            ==> r.0.position.x == Max(0, vpWidth - MinVisibleWidth)
    ensures s.isDragging && clientY - s.offset.y < 0 ==> r.0.position.y == 0
    ensures s.isDragging && clientY - s.offset.y > vpHeight - MinVisibleHeight
            ==> r.0.position.y == Max(0, vpHeight - MinVisibleHeight)
  {
    if !s.isDragging then (s, None)
    else
      var x := Max(0, Min(clientX - s.offset.x, vpWidth - MinVisibleWidth));
      var y := Max(0, Min(clientY - s.offset.y, vpHeight - MinVisibleHeight));
      (s.(position := Point(x, y)), Some(Point(x, y)))
  }

  function MouseUp(s: DragState): (r: DragState)
    ensures !r.isDragging && r.position == s.position
  {
    s.(isDragging := false)
  }

  /** After the button is released, moves change nothing. */
  lemma MovesAfterReleaseIgnored(s: DragState, clientX: int, clientY: int, vpWidth: int, vpHeight: int)
    ensures MouseMove(MouseUp(s), clientX, clientY, vpWidth, vpHeight) == (MouseUp(s), None)
  {
  }

  /** A later move replaces an earlier one: the position depends only on the last pointer location. */
  lemma MovesDoNotAccumulate(s: DragState, x1: int, y1: int, x2: int, y2: int, vpWidth: int, vpHeight: int)
    ensures MouseMove(MouseMove(s, x1, y1, vpWidth, vpHeight).0, x2, y2, vpWidth, vpHeight)
         == MouseMove(s, x2, y2, vpWidth, vpHeight)
  {
  }

  /**
   * Grabbing an element drawn at the hook's position and moving by nothing keeps
   * the position, when the position was within the bounds.
   */
  lemma GrabWithoutMoveKeepsPosition(s: DragState, clientX: int, clientY: int, vpWidth: int, vpHeight: int)
    requires 0 <= s.position.x <= vpWidth - MinVisibleWidth && 0 <= s.position.y <= vpHeight - MinVisibleHeight
    ensures var grabbed := MouseDown(s, 0, clientX, clientY, s.position.x, s.position.y);
            MouseMove(grabbed, clientX, clientY, vpWidth, vpHeight).0.position == s.position
  {
  }
}
