/**
 * Per-window geometry shared by the Blog, Info, Music, Gallery and Test
 * window components: title-bar dragging, edge resizing with a minimum size,
 * re-clamping when the browser viewport changes, and the maximize/restore
 * snapshot. Each component repeats the same listener code with its own
 * constants; here the code is written once and parameterised by `Config`.
 *
 * Pixels are integers. The taskbar height that the components read from the
 * DOM (`nav` element's height) is a field of `Viewport`.
 */
module Geometry {
  import opened Wrappers

  /** A window's top-left corner and size, in viewport pixels. */
  datatype Rect = Rect(x: int, y: int, width: int, height: int)

  /** The browser viewport and the taskbar strip reserved along its bottom. */
  datatype Viewport = Viewport(width: int, height: int, taskbar: int) {
    /** The height available to windows: the viewport minus the taskbar. */
    function SafeHeight(): int { height - taskbar }
  }

  /** What a component's viewport-resize handler does. */
  datatype ReclampPolicy =
    | ClampOnScreen
      // position clamped to [0, viewport - size] on both axes, then a maximized window is refitted
    | ClampPartlyOffscreen(visible: int)
      // like ClampOnScreen, but x may go as far left as `visible - width`
    | RefitMaximizedOnly
      // a maximized window is reset to fill the safe area; other windows are left alone

  /** The constants and variant branches one window component uses. */
  datatype Config = Config(minWidth: int, minHeight: int, minSizeMove: bool, reclamp: ReclampPolicy)

  /** A window's geometry state: current rectangle, maximized flag and the pre-maximize snapshot. */
  datatype WindowState = WindowState(geom: Rect, isMaximized: bool, original: Rect)

  /**
   * The two resize listeners each component installs on the same element: the
   * one in the mount effect, and the one in the effect on the maximized flag.
   * That second effect also runs at mount, right after the first, and again
   * each time the window is restored, so both are installed from the first
   * render on. Which of them the interaction library then calls is decided
   * inside the library, so every resize result is stated for either one. Only
   * the mount listener carries the "move at minimum size" branch.
   */
  datatype Handler = MountHandler | RestoredHandler

  /**
   * One resize move event: how far the left and top edges moved, and the
   * width and height of the rectangle the resize library proposes.
   */
  datatype ResizeEvent = ResizeEvent(deltaLeft: int, deltaTop: int, width: int, height: int)

  /** `Math.max(lo, Math.min(v, hi))`. */
  function Clamp(v: int, lo: int, hi: int): (r: int)
    ensures r >= lo
    ensures lo <= hi ==> r <= hi
    ensures lo <= v <= hi ==> r == v
    ensures v < lo ==> r == lo
    ensures lo <= hi < v ==> r == hi
  {
    Max(lo, Min(v, hi))
  }

  /** Clamping a value already clamped into a non-empty range changes nothing. */
  lemma ClampIdempotent(v: int, lo: int, hi: int)
    requires lo <= hi
    ensures Clamp(Clamp(v, lo, hi), lo, hi) == Clamp(v, lo, hi)
  {
  }

  // ---------------------------------------------------------------- drag

  /**
   * The drag move listener: add the pointer delta and keep the window inside
   * [0, max(0, room)] on each axis, where room is the viewport (or safe area)
   * minus the window's size. Only the position changes.
   */
  function DragRect(g: Rect, dx: int, dy: int, vp: Viewport): (r: Rect)
    ensures r.width == g.width && r.height == g.height
    ensures 0 <= r.x <= Max(0, vp.width - g.width)
    ensures 0 <= r.y <= Max(0, vp.SafeHeight() - g.height)
    ensures 0 <= g.x + dx <= vp.width - g.width ==> r.x == g.x + dx
    ensures 0 <= g.y + dy <= vp.SafeHeight() - g.height ==> r.y == g.y + dy
    ensures g.x + dx < 0 ==> r.x == 0
    ensures g.y + dy < 0 ==> r.y == 0
    ensures g.x + dx > Max(0, vp.width - g.width) ==> r.x == Max(0, vp.width - g.width)
    ensures g.y + dy > Max(0, vp.SafeHeight() - g.height) ==> r.y == Max(0, vp.SafeHeight() - g.height)
  {
    g.(x := Clamp(g.x + dx, 0, Max(0, vp.width - g.width)),
       y := Clamp(g.y + dy, 0, Max(0, vp.SafeHeight() - g.height)))
  }

  /** Dragging is switched off while the window is maximized. */
  function Drag(s: WindowState, dx: int, dy: int, vp: Viewport): (r: WindowState)
    ensures s.isMaximized ==> r == s
    ensures !s.isMaximized ==> r == s.(geom := DragRect(s.geom, dx, dy, vp))
  {
    if s.isMaximized then s else s.(geom := DragRect(s.geom, dx, dy, vp))
  }

  /** A zero-length drag of a window that already fits leaves it where it is. */
  lemma DragInBoundsIsIdentity(g: Rect, vp: Viewport)
    requires 0 <= g.x <= vp.width - g.width
    requires 0 <= g.y <= vp.SafeHeight() - g.height
    ensures DragRect(g, 0, 0, vp) == g
  {
  }

  /** A dragged position is already in bounds, so a further zero-length drag does nothing. */
  lemma DragIdempotent(g: Rect, dx: int, dy: int, vp: Viewport)
    ensures DragRect(DragRect(g, dx, dy, vp), 0, 0, vp) == DragRect(g, dx, dy, vp)
  {
  }

  // ---------------------------------------------------------------- resize

  /** One axis of a resized rectangle: where it starts and how long it is. */
  datatype Span = Span(start: int, length: int)

  /**
   * One axis of the resize move listener. `start + delta` is the proposed
   * origin and `length` the proposed size; `limit` is the viewport width or
   * the safe-area height. In order: an origin left of (above) 0 is pinned to
   * 0 and the overshoot taken off the size; a far edge past `limit` is pulled
   * back by shrinking; the size is raised to `minLength`; and, when
   * `moveAtMinimum` is set, a window left at the minimum size whose origin edge
   * moved outwards is shifted by the edge's delta once more, not below 0.
   */
  function ResizeSpan(start: int, delta: int, length: int, limit: int, minLength: int, moveAtMinimum: bool): (r: Span)
    ensures r.start >= 0
    ensures r.length >= minLength
    ensures r.length > minLength ==> r.start + r.length <= limit
    ensures start + delta <= 0 ==> r.start == 0
    ensures r.length > minLength ==> r.start == Max(0, start + delta)
    ensures start + delta < 0 && minLength <= start + delta + length <= limit ==> r == Span(0, start + delta + length)
    ensures 0 <= start + delta && start + delta + length > limit && limit - (start + delta) > minLength
            ==> r == Span(start + delta, limit - (start + delta))
  {
    var s1 := start + delta;
    var s2 := if s1 < 0 then 0 else s1;
    var l2 := if s1 < 0 then length + s1 else length;
    var l3 := if s2 + l2 > limit then limit - s2 else l2;
    var l4 := Max(minLength, l3);
    var s5 := if moveAtMinimum && l4 == minLength && s2 > 0 && delta < 0 then Max(0, s2 + delta) else s2;
    Span(s5, l4)
  }

  /** A proposal that fits the viewport and the minimum is followed exactly (outside the minimum-size shift). */
  lemma ResizeSpanFollowsFittingProposal(start: int, delta: int, length: int, limit: int, minLength: int, moveAtMinimum: bool)
    requires 0 <= start + delta && start + delta + length <= limit && length >= minLength
    requires !(moveAtMinimum && length == minLength && start + delta > 0 && delta < 0)
    ensures ResizeSpan(start, delta, length, limit, minLength, moveAtMinimum) == Span(start + delta, length)
  {
  }

  /** When the minimum-size shift fires, the origin has moved by the edge delta twice, floored at 0. */
  lemma ResizeSpanShiftsTwiceAtMinimum(start: int, delta: int, length: int, limit: int, minLength: int)
    requires delta < 0 && start + delta > 0
    requires length <= minLength
    ensures ResizeSpan(start, delta, length, limit, minLength, true) == Span(Max(0, start + 2 * delta), minLength)
    ensures ResizeSpan(start, delta, length, limit, minLength, false) == Span(start + delta, minLength)
  {
  }

  /** The resize move listener of a component, on both axes. */
  function ResizeRect(cfg: Config, g: Rect, ev: ResizeEvent, vp: Viewport, handler: Handler): (r: Rect)
    ensures r.width >= cfg.minWidth && r.height >= cfg.minHeight
    ensures r.x >= 0 && r.y >= 0
    ensures r.width > cfg.minWidth ==> r.x + r.width <= vp.width
    ensures r.height > cfg.minHeight ==> r.y + r.height <= vp.SafeHeight()
  {
    var moveAtMinimum := cfg.minSizeMove && handler == MountHandler;
    var h := ResizeSpan(g.x, ev.deltaLeft, ev.width, vp.width, cfg.minWidth, moveAtMinimum);
    var v := ResizeSpan(g.y, ev.deltaTop, ev.height, vp.SafeHeight(), cfg.minHeight, moveAtMinimum);
    Rect(h.start, v.start, h.length, v.length)
  }

  /** Resizing is switched off while maximized; otherwise only the rectangle changes. */
  function Resize(cfg: Config, s: WindowState, ev: ResizeEvent, vp: Viewport, handler: Handler): (r: WindowState)
    ensures s.isMaximized ==> r == s
    ensures !s.isMaximized ==> r == s.(geom := ResizeRect(cfg, s.geom, ev, vp, handler))
  {
    if s.isMaximized then s else s.(geom := ResizeRect(cfg, s.geom, ev, vp, handler))
  }

  /**
   * The two listeners produce the same size, and the same position except when
   * the mount listener's minimum-size branch applies to an axis.
   */
  lemma HandlersDifferOnlyAtMinimum(cfg: Config, g: Rect, ev: ResizeEvent, vp: Viewport)
    ensures ResizeRect(cfg, g, ev, vp, MountHandler).width == ResizeRect(cfg, g, ev, vp, RestoredHandler).width
    ensures ResizeRect(cfg, g, ev, vp, MountHandler).height == ResizeRect(cfg, g, ev, vp, RestoredHandler).height
    ensures !cfg.minSizeMove ==> ResizeRect(cfg, g, ev, vp, MountHandler) == ResizeRect(cfg, g, ev, vp, RestoredHandler)
    ensures ev.deltaLeft >= 0 || ResizeRect(cfg, g, ev, vp, MountHandler).width > cfg.minWidth ==>
              ResizeRect(cfg, g, ev, vp, MountHandler).x == ResizeRect(cfg, g, ev, vp, RestoredHandler).x
    ensures ev.deltaTop >= 0 || ResizeRect(cfg, g, ev, vp, MountHandler).height > cfg.minHeight ==>
              ResizeRect(cfg, g, ev, vp, MountHandler).y == ResizeRect(cfg, g, ev, vp, RestoredHandler).y
  {
  }

  /**
   * Pulling only the right edge (the left edge does not move) never moves the
   * window, even when the requested width is below the minimum: the size floor
   * wins over following the pointer.
   */
  lemma RightEdgeResizeKeepsOrigin(cfg: Config, g: Rect, width: int, vp: Viewport, handler: Handler)
    requires g.x >= 0
    ensures ResizeRect(cfg, g, ResizeEvent(0, 0, width, g.height), vp, handler).x == g.x
  {
  }

  // ---------------------------------------------------------------- viewport changes

  /** The leftmost x the viewport handler allows for a window of width `width`. */
  function LeftFloor(policy: ReclampPolicy, width: int): int
  {
    if policy.ClampPartlyOffscreen? then policy.visible - width else 0
  }

  /** The whole safe area: what a maximized window occupies. */
  function FullSafeArea(vp: Viewport): (r: Rect)
    ensures r.x == 0 && r.y == 0 && r.width == vp.width && r.height + vp.taskbar == vp.height
  {
    Rect(0, 0, vp.width, vp.SafeHeight())
  }

  /**
   * The viewport-resize handler (one synchronous pass after the debounce). The
   * position is clamped with the window's current size; a maximized window then
   * takes the new viewport width and safe-area height. The snapshot is never touched.
   */
  function Reclamp(cfg: Config, s: WindowState, vp: Viewport): (r: WindowState)
    ensures r.original == s.original && r.isMaximized == s.isMaximized
    ensures cfg.reclamp != RefitMaximizedOnly ==> r.geom.y >= 0 && r.geom.x >= LeftFloor(cfg.reclamp, s.geom.width)
    ensures !s.isMaximized ==> r.geom.width == s.geom.width && r.geom.height == s.geom.height
    ensures s.isMaximized ==> r.geom.width == vp.width && r.geom.height == vp.SafeHeight()
    ensures cfg.reclamp == RefitMaximizedOnly && !s.isMaximized ==> r == s
    ensures cfg.reclamp == RefitMaximizedOnly && s.isMaximized ==> r.geom == FullSafeArea(vp)
  {
    if cfg.reclamp.RefitMaximizedOnly? then
      if s.isMaximized then s.(geom := FullSafeArea(vp)) else s
    else
      var g := s.geom;
      var moved := g.(x := Clamp(g.x, LeftFloor(cfg.reclamp, g.width), vp.width - g.width),
                      y := Clamp(g.y, 0, vp.SafeHeight() - g.height));
      s.(geom := if s.isMaximized then moved.(width := vp.width, height := vp.SafeHeight()) else moved)
  }

  /** The position is rewritten only when it is out of bounds, and always when it is (given a non-empty range). */
  lemma ReclampMovesOnlyOutOfBounds(cfg: Config, s: WindowState, vp: Viewport)
    requires cfg.reclamp != RefitMaximizedOnly
    ensures LeftFloor(cfg.reclamp, s.geom.width) <= s.geom.x <= vp.width - s.geom.width ==> Reclamp(cfg, s, vp).geom.x == s.geom.x
    ensures 0 <= s.geom.y <= vp.SafeHeight() - s.geom.height ==> Reclamp(cfg, s, vp).geom.y == s.geom.y
    ensures LeftFloor(cfg.reclamp, s.geom.width) <= vp.width - s.geom.width
            && !(LeftFloor(cfg.reclamp, s.geom.width) <= s.geom.x <= vp.width - s.geom.width)
            ==> Reclamp(cfg, s, vp).geom.x != s.geom.x
    ensures 0 <= vp.SafeHeight() - s.geom.height && !(0 <= s.geom.y <= vp.SafeHeight() - s.geom.height)
            ==> Reclamp(cfg, s, vp).geom.y != s.geom.y
  {
  }

  // ---------------------------------------------------------------- maximize / restore

  /**
   * The maximize button: a maximized window returns to its snapshot; any other
   * window records its rectangle as the snapshot and fills the safe area.
   */
  function ToggleMaximize(s: WindowState, vp: Viewport): (r: WindowState)
    ensures r.isMaximized == !s.isMaximized
    ensures s.isMaximized ==> r.geom == s.original && r.original == s.original
    ensures !s.isMaximized ==> r.geom == FullSafeArea(vp) && r.original == s.geom
  {
    if s.isMaximized then WindowState(s.original, false, s.original)
    else WindowState(FullSafeArea(vp), true, s.geom)
  }

  /** Any number of viewport changes, applied in order. */
  function ReclampAll(cfg: Config, s: WindowState, vps: seq<Viewport>): WindowState
    decreases |vps|
  {
    if |vps| == 0 then s else ReclampAll(cfg, Reclamp(cfg, s, vps[0]), vps[1..])
  }

  /** Viewport changes never touch the maximized flag or the snapshot. */
  lemma {:induction false} ReclampAllKeepsSnapshot(cfg: Config, s: WindowState, vps: seq<Viewport>)
    ensures ReclampAll(cfg, s, vps).original == s.original
    ensures ReclampAll(cfg, s, vps).isMaximized == s.isMaximized
    decreases |vps|
  {
    if |vps| > 0 {
      ReclampAllKeepsSnapshot(cfg, Reclamp(cfg, s, vps[0]), vps[1..]);
    }
  }

  /**
   * Maximize, any number of viewport changes while maximized, then restore:
   * the window is back at exactly the rectangle it had before maximizing.
   */
  lemma MaximizeRestoreRoundTrip(cfg: Config, s: WindowState, vp: Viewport, vps: seq<Viewport>, vp': Viewport)
    requires !s.isMaximized
    ensures ToggleMaximize(ReclampAll(cfg, ToggleMaximize(s, vp), vps), vp').geom == s.geom
    ensures !ToggleMaximize(ReclampAll(cfg, ToggleMaximize(s, vp), vps), vp').isMaximized
  {
    ReclampAllKeepsSnapshot(cfg, ToggleMaximize(s, vp), vps);
  }

  // ---------------------------------------------------------------- event sequences

  /** The inputs a window component reacts to. */
  datatype Event =
    | DragMoved(dx: int, dy: int, dragVp: Viewport)
    | ResizeMoved(ev: ResizeEvent, handler: Handler, resizeVp: Viewport)
    | ViewportResized(newVp: Viewport)
    | MaximizeClicked(maxVp: Viewport)

  function Step(cfg: Config, s: WindowState, e: Event): WindowState
  {
    match e
    case DragMoved(dx, dy, vp) => Drag(s, dx, dy, vp)
    case ResizeMoved(ev, handler, vp) => Resize(cfg, s, ev, vp, handler)
    case ViewportResized(vp) => Reclamp(cfg, s, vp)
    case MaximizeClicked(vp) => ToggleMaximize(s, vp)
  }

  function Run(cfg: Config, s: WindowState, events: seq<Event>): WindowState
    decreases |events|
  {
    if |events| == 0 then s else Run(cfg, Step(cfg, s, events[0]), events[1..])
  }

  /** Two states that show the same window and would restore the same way. */
  ghost predicate Indistinguishable(a: WindowState, b: WindowState)
  {
    a.geom == b.geom && a.isMaximized == b.isMaximized && (a.isMaximized ==> a.original == b.original)
  }

  lemma StepPreservesIndistinguishable(cfg: Config, a: WindowState, b: WindowState, e: Event)
    requires Indistinguishable(a, b)
    ensures Indistinguishable(Step(cfg, a, e), Step(cfg, b, e))
  {
  }

  /**
   * The snapshot a window starts with is never observed: from two un-maximized
   * states that differ only in their snapshot, every sequence of events shows
   * the same rectangle and maximized flag. (The Music window starts with a
   * snapshot of a different width from its rectangle; this is why that is harmless.)
   */
  lemma {:induction false} InitialSnapshotUnobservable(cfg: Config, a: WindowState, b: WindowState, events: seq<Event>)
    requires a.geom == b.geom && !a.isMaximized && !b.isMaximized
    ensures Run(cfg, a, events).geom == Run(cfg, b, events).geom
    ensures Run(cfg, a, events).isMaximized == Run(cfg, b, events).isMaximized
  {
    RunPreservesIndistinguishable(cfg, a, b, events);
  }

  lemma {:induction false} RunPreservesIndistinguishable(cfg: Config, a: WindowState, b: WindowState, events: seq<Event>)
    requires Indistinguishable(a, b)
    ensures Indistinguishable(Run(cfg, a, events), Run(cfg, b, events))
    decreases |events|
  {
    if |events| > 0 {
      StepPreservesIndistinguishable(cfg, a, b, events[0]);
      RunPreservesIndistinguishable(cfg, Step(cfg, a, events[0]), Step(cfg, b, events[0]), events[1..]);
    }
  }
}
