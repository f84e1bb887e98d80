/**
 * The generic `Window` component: a frame placed with CSS `left`/`top`, moved
 * by a `translate` transform whose offset is mirrored in `data-x`/`data-y`,
 * dragged and resized through the interaction library, and stretched over the
 * viewport (minus a 60-pixel taskbar) while maximized.
 */
module BaseWindow {
  import opened Wrappers
  import Geometry

  /** The taskbar height this component subtracts, in pixels. */
  const TaskbarHeight := 60

  /** The component's placement props. */
  datatype Props = Props(initialWidth: int, initialHeight: int, initialX: int, initialY: int)

  /** The prop defaults: 800 by 600 at (100, 100). */
  const DefaultProps := Props(800, 600, 100, 100)

  /**
   * The element's inline geometry: `left`/`top`, `width`/`height`, the
   * translate offset, and the offset recorded in `data-x`/`data-y`.
   */
  datatype Frame = Frame(left: int, top: int, width: int, height: int,
                         translateX: int, translateY: int, dataX: int, dataY: int)
  {
    /** Where the window's left edge is drawn. */
    function VisibleX(): int { left + translateX }
    function VisibleY(): int { top + translateY }
  }

  /** The setup effect: size and `left`/`top` from the props; offsets are left as they are. */
  function Setup(p: Props, f: Frame): (r: Frame)
    ensures r.width == p.initialWidth && r.height == p.initialHeight
    ensures r.left == p.initialX && r.top == p.initialY
    ensures r.translateX == f.translateX && r.translateY == f.translateY
    ensures r.dataX == f.dataX && r.dataY == f.dataY
  {
    f.(width := p.initialWidth, height := p.initialHeight, left := p.initialX, top := p.initialY)
  }

  /** The maximize effect: the whole viewport above the taskbar, no offset; `data-x`/`data-y` are not reset. */
  function MaximizedFrame(f: Frame, vpWidth: int, vpHeight: int): (r: Frame)
    ensures r.VisibleX() == 0 && r.VisibleY() == 0
    ensures r.width == vpWidth && r.height + TaskbarHeight == vpHeight
    ensures r.dataX == f.dataX && r.dataY == f.dataY
  {
    f.(width := vpWidth, height := vpHeight - TaskbarHeight, left := 0, top := 0, translateX := 0, translateY := 0)
  }

  /**
   * What the two effects do when `isMaximized` takes a new value (and on
   * mount): the setup effect runs first, then a maximized window is stretched.
   */
  function MaximizedChanged(p: Props, f: Frame, isMaximized: bool, vpWidth: int, vpHeight: int): (r: Frame)
    ensures r.dataX == f.dataX && r.dataY == f.dataY
    ensures isMaximized ==> r.VisibleX() == 0 && r.VisibleY() == 0 && r.width == vpWidth
    ensures isMaximized ==> r.height + TaskbarHeight == vpHeight
    ensures !isMaximized ==> r.left == p.initialX && r.top == p.initialY && r.width == p.initialWidth
                             && r.height == p.initialHeight && r.translateX == f.translateX
    ensures !isMaximized ==> r.translateY == f.translateY
  {
    var s := Setup(p, f);
    if isMaximized then MaximizedFrame(s, vpWidth, vpHeight) else s
  }

  /** The first render: no offset recorded, then the effects for the initial `isMaximized`. */
  function Mounted(p: Props, isMaximized: bool, vpWidth: int, vpHeight: int): (r: Frame)
    ensures !isMaximized ==> r.VisibleX() == p.initialX && r.VisibleY() == p.initialY
    ensures !isMaximized ==> r.width == p.initialWidth && r.height == p.initialHeight
    ensures isMaximized ==> r.VisibleX() == 0 && r.VisibleY() == 0
                            && r.width == vpWidth && r.height + TaskbarHeight == vpHeight
    ensures r.dataX == 0 && r.dataY == 0
  {
    MaximizedChanged(p, Frame(0, 0, 0, 0, 0, 0, 0, 0), isMaximized, vpWidth, vpHeight)
  }

  /**
   * The drag move listener: ignored while maximized; otherwise the recorded
   * offset plus the pointer delta, clamped to [0, room] where room is the
   * viewport minus the window (and the taskbar, vertically).
   */
  function DragMove(f: Frame, isMaximized: bool, dx: int, dy: int, vpWidth: int, vpHeight: int): (r: Frame)
    ensures isMaximized ==> r == f
    ensures !isMaximized ==> r.translateX == r.dataX && r.translateY == r.dataY
    ensures !isMaximized ==> 0 <= r.dataX && 0 <= r.dataY
    ensures !isMaximized && vpWidth - f.width >= 0 ==> r.dataX <= vpWidth - f.width
    ensures !isMaximized && 0 <= f.dataX + dx <= vpWidth - f.width ==> r.dataX == f.dataX + dx
    ensures !isMaximized && vpWidth - f.width < 0 ==> r.dataX == 0
    ensures !isMaximized && vpHeight - f.height - TaskbarHeight >= 0 ==> r.dataY <= vpHeight - f.height - TaskbarHeight
    ensures !isMaximized && 0 <= f.dataY + dy <= vpHeight - f.height - TaskbarHeight ==> r.dataY == f.dataY + dy
    ensures !isMaximized && vpHeight - f.height - TaskbarHeight < 0 ==> r.dataY == 0
    ensures !isMaximized && f.dataX + dx < 0 ==> r.dataX == 0
    ensures !isMaximized && f.dataX + dx > vpWidth - f.width >= 0 ==> r.dataX == vpWidth - f.width
    ensures !isMaximized && f.dataY + dy < 0 ==> r.dataY == 0
    ensures !isMaximized && f.dataY + dy > vpHeight - f.height - TaskbarHeight >= 0
            ==> r.dataY == vpHeight - f.height - TaskbarHeight
    ensures r.left == f.left && r.top == f.top && r.width == f.width && r.height == f.height
  {
    if isMaximized then f
    else
      var cx := Max(0, Min(f.dataX + dx, vpWidth - f.width));
      var cy := Max(0, Min(f.dataY + dy, vpHeight - f.height - TaskbarHeight));
      f.(translateX := cx, translateY := cy, dataX := cx, dataY := cy)
  }

  /**
   * The clamp without an inner `max(0, room)` that this component writes is the
   * same function as the one with it that the other window components write.
   */
  lemma ClampFormsAgree(v: int, room: int)
    ensures Max(0, Min(v, room)) == Max(0, Min(v, Max(0, room)))
  {
  }

  /**
   * The generic window's drag lands where the other window components' clamp
   * (to `[0, max(0, room)]`) would put it, on both axes.
   */
  lemma DragMoveIsComponentClamp(f: Frame, dx: int, dy: int, vpWidth: int, vpHeight: int)
    ensures var r := DragMove(f, false, dx, dy, vpWidth, vpHeight);
            r.dataX == Geometry.Clamp(f.dataX + dx, 0, Max(0, vpWidth - f.width))
            && r.dataY == Geometry.Clamp(f.dataY + dy, 0, Max(0, vpHeight - f.height - TaskbarHeight))
  {
    ClampFormsAgree(f.dataX + dx, vpWidth - f.width);
    ClampFormsAgree(f.dataY + dy, vpHeight - f.height - TaskbarHeight);
  }

  /** A drag settles: a further zero move leaves the dragged frame where it is. */
  lemma DragMoveSettles(f: Frame, dx: int, dy: int, vpWidth: int, vpHeight: int)
    ensures var r := DragMove(f, false, dx, dy, vpWidth, vpHeight);
            DragMove(r, false, 0, 0, vpWidth, vpHeight) == r
  {
  }

  /**
   * The drag bound ignores `left`: a window placed at the default `left` of 100
   * can be dragged until it hangs that far past the right edge of the viewport,
   * and can never reach the left 100 pixels.
   */
  lemma DragBoundIgnoresLeft(vpWidth: int, vpHeight: int)
    requires vpWidth >= 800
    ensures var f := DragMove(Mounted(DefaultProps, false, vpWidth, vpHeight), false, vpWidth, 0, vpWidth, vpHeight);
            f.VisibleX() + f.width == vpWidth + 100
    ensures var f := DragMove(Mounted(DefaultProps, false, vpWidth, vpHeight), false, -vpWidth, 0, vpWidth, vpHeight);
            f.VisibleX() == 100
  {
  }

  /**
   * The resize move listener: ignored while maximized; otherwise the size the
   * library proposes, and the offset moved by the left/top edge deltas. There is
   * no viewport bound; the minimum size is enforced by the library's modifier.
   */
  function ResizeMove(f: Frame, isMaximized: bool, deltaLeft: int, deltaTop: int, width: int, height: int): (r: Frame)
    ensures isMaximized ==> r == f
    ensures !isMaximized ==> r.width == width && r.height == height
    ensures !isMaximized ==> r.dataX == f.dataX + deltaLeft && r.translateX == r.dataX
    ensures !isMaximized ==> r.dataY == f.dataY + deltaTop && r.translateY == r.dataY
    ensures r.left == f.left && r.top == f.top
  {
    if isMaximized then f
    else
      f.(width := width, height := height,
         translateX := f.dataX + deltaLeft, translateY := f.dataY + deltaTop,
         dataX := f.dataX + deltaLeft, dataY := f.dataY + deltaTop)
  }

  /**
   * Dragging the left edge moves the drawn left edge by the delta and keeps the
   * right edge where it was, provided the frame was drawn at its recorded offset.
   */
  lemma ResizeLeftKeepsRightEdge(f: Frame, deltaLeft: int)
    requires f.translateX == f.dataX
    ensures var r := ResizeMove(f, false, deltaLeft, 0, f.width - deltaLeft, f.height);
            r.VisibleX() == f.VisibleX() + deltaLeft && r.VisibleX() + r.width == f.VisibleX() + f.width
  {
  }

  /**
   * Maximizing and then restoring puts the window back at its initial props,
   * drawn at `left`/`top` with no offset, while `data-x` still holds the offset
   * from before: the next drag starts from that stale offset, so the window
   * jumps by it.
   */
  lemma RestoreForgetsDragOffset(p: Props, f: Frame, vpWidth: int, vpHeight: int, dx: int)
    requires 0 <= f.dataX + dx <= vpWidth - p.initialWidth
    ensures var restored := MaximizedChanged(p, MaximizedChanged(p, f, true, vpWidth, vpHeight), false, vpWidth, vpHeight);
            restored.VisibleX() == p.initialX && restored.dataX == f.dataX
            && DragMove(restored, false, dx, 0, vpWidth, vpHeight).VisibleX() == p.initialX + f.dataX + dx
  {
  }

  /** The buttons in the title bar and what each asks the owner for. */
  datatype Button = CloseButton | MinimizeButton | MaximizeButton
  datatype Request = CloseRequest | MinimizeRequest | MaximizeRequest | RestoreRequest

  /** The third button asks to restore a maximized window and to maximize any other. */
  function ButtonRequest(b: Button, isMaximized: bool): (r: Request)
    ensures b == MaximizeButton ==> (r == RestoreRequest <==> isMaximized) && r != CloseRequest && r != MinimizeRequest
    ensures b == CloseButton <==> r == CloseRequest
    ensures b == MinimizeButton <==> r == MinimizeRequest
  {
    match b
    case CloseButton => CloseRequest
    case MinimizeButton => MinimizeRequest
    case MaximizeButton => if isMaximized then RestoreRequest else MaximizeRequest
  }

  /** The three presses alternate maximize and restore requests as the owner flips the flag. */
  lemma MaximizeButtonAlternates(isMaximized: bool)
    ensures ButtonRequest(MaximizeButton, isMaximized) != ButtonRequest(MaximizeButton, !isMaximized)
    ensures {ButtonRequest(MaximizeButton, isMaximized), ButtonRequest(MaximizeButton, !isMaximized)}
         == {MaximizeRequest, RestoreRequest}
  {
  }

  /** A minimized window renders nothing (so it receives no clicks and no focus requests). */
  function Rendered(isMinimized: bool, f: Frame): (r: Option<Frame>)
    ensures r.Some? <==> !isMinimized
    ensures r.Some? ==> r.value == f
  {
    if isMinimized then None else Some(f)
  }

  // ---------------------------------------------------------------- element lifecycle

  /**
   * The rendered element: its inline geometry (`None` while no effect has
   * written any) and whether the drag and resize listeners are attached.
   */
  datatype Element = Element(frame: Option<Frame>, listening: bool)

  /**
   * The component between renders: its props and flags, and the element it
   * renders, absent while minimized.
   */
  datatype Component = Component(props: Props, isMaximized: bool, isMinimized: bool, element: Option<Element>)
  {
    /** The element exists exactly while the window is shown. */
    predicate Consistent() { element.Some? <==> !isMinimized }
  }

  /** A fresh element with no inline style reads as the zero frame: no offset, no `data-x`/`data-y`. */
  const Blank := Frame(0, 0, 0, 0, 0, 0, 0, 0)

  /**
   * Mounting: when shown, both effects find the element, write its geometry and
   * attach the listeners; when minimized, they find no element and do nothing.
   */
  function Mount(p: Props, isMaximized: bool, isMinimized: bool, vpWidth: int, vpHeight: int): (c: Component)
    ensures c.Consistent()
    ensures !isMinimized ==> c.element == Some(Element(Some(Mounted(p, isMaximized, vpWidth, vpHeight)), true))
  {
    Component(p, isMaximized, isMinimized,
      if isMinimized then None else Some(Element(Some(Mounted(p, isMaximized, vpWidth, vpHeight)), true)))
  }

  /**
   * A new `isMinimized`: minimizing unmounts the element; showing mounts a new
   * one, but neither effect depends on the flag, so neither runs again and the
   * new element has no inline geometry and no listeners.
   */
  function MinimizedChanged(c: Component, isMinimized: bool): (r: Component)
    requires c.Consistent()
    ensures r.Consistent()
    ensures r.props == c.props && r.isMaximized == c.isMaximized && r.isMinimized == isMinimized
    ensures isMinimized == c.isMinimized ==> r == c
    ensures isMinimized != c.isMinimized && !isMinimized ==> r.element == Some(Element(None, false))
  {
    if isMinimized == c.isMinimized then c
    else if isMinimized then c.(isMinimized := true, element := None)
    else c.(isMinimized := false, element := Some(Element(None, false)))
  }

  /**
   * A new `isMaximized`: both effects run again. With an element they rewrite
   * its geometry from the props (stretching it when maximized) and reattach the
   * listeners; without one they return early.
   */
  function MaximizeToggled(c: Component, isMaximized: bool, vpWidth: int, vpHeight: int): (r: Component)
    requires c.Consistent()
    ensures r.Consistent()
    ensures r.props == c.props && r.isMinimized == c.isMinimized && r.isMaximized == isMaximized
    ensures isMaximized == c.isMaximized ==> r == c
    ensures isMaximized != c.isMaximized && !c.isMinimized ==> r.element.value.listening && r.element.value.frame.Some?
    ensures isMaximized != c.isMaximized && !c.isMinimized ==>
              r.element.value.frame.value == MaximizedChanged(c.props, c.element.value.frame.GetOr(Blank), isMaximized, vpWidth, vpHeight)
  {
    if isMaximized == c.isMaximized then c
    else match c.element
      case None => c.(isMaximized := isMaximized)
      case Some(e) =>
        c.(isMaximized := isMaximized,
           element := Some(Element(Some(MaximizedChanged(c.props, e.frame.GetOr(Blank), isMaximized, vpWidth, vpHeight)), true)))
  }

  /**
   * Minimizing and showing a window again is not a round trip: the window
   * mounted shown had its geometry and listeners, the one shown again has
   * neither, so it is drawn at the stylesheet's position and cannot be dragged
   * or resized.
   */
  lemma MinimizeThenShowLosesGeometry(p: Props, isMaximized: bool, vpWidth: int, vpHeight: int)
    ensures var c := Mount(p, isMaximized, false, vpWidth, vpHeight);
            var back := MinimizedChanged(MinimizedChanged(c, true), false);
            c.element.value.listening && c.element.value.frame.Some?
            && back.isMinimized == c.isMinimized && back.isMaximized == c.isMaximized
            && !back.element.value.listening && back.element.value.frame.None?
  {
  }

  /**
   * The lost geometry and listeners come back only when `isMaximized` changes
   * while the window is shown: maximizing a re-shown window stretches it over
   * the viewport and reattaches the listeners.
   */
  lemma MaximizeAfterShowReattaches(p: Props, vpWidth: int, vpHeight: int)
    ensures var shown := MinimizedChanged(MinimizedChanged(Mount(p, false, false, vpWidth, vpHeight), true), false);
            var r := MaximizeToggled(shown, true, vpWidth, vpHeight);
            r.element.value.listening && r.element.value.frame.value.VisibleX() == 0
            && r.element.value.frame.value.width == vpWidth
  {
  }
}
