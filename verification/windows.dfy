/**
 * The six window components as instances of the shared geometry, plus the
 * wiring around it that differs between them: which pointer presses ask the
 * window manager for focus, and what the minimize button does when no
 * minimize handler was passed in.
 */
module Windows {
  import opened Wrappers
  import opened Geometry

  /** The window components that carry their own drag/resize code. */
  datatype Kind = Blog | InfoNew | Info | Music | Gallery | Test

  /** Minimum size, minimum-size shift branch and viewport policy of each component. */
  function ConfigOf(k: Kind): (c: Config)
    ensures c.minWidth >= 300 && c.minHeight >= 200
    ensures c.minSizeMove <==> k in {Blog, InfoNew, Info, Test}
    ensures c.reclamp.ClampPartlyOffscreen? <==> k == Test
    ensures c.reclamp.RefitMaximizedOnly? <==> k == Info
  {
    match k
    case Blog => Config(400, 300, true, ClampOnScreen)
    case InfoNew => Config(400, 300, true, ClampOnScreen)
    case Info => Config(400, 300, true, RefitMaximizedOnly)
    case Music => Config(350, 250, false, ClampOnScreen)
    case Gallery => Config(500, 400, false, ClampOnScreen)
    case Test => Config(300, 200, true, ClampPartlyOffscreen(100))
  }

  /** The state each component mounts with: rectangle, not maximized, and its initial snapshot. */
  function InitialState(k: Kind): (s: WindowState)
    ensures !s.isMaximized
    ensures s.geom.width >= ConfigOf(k).minWidth && s.geom.height >= ConfigOf(k).minHeight
    ensures s.geom.x >= 0 && s.geom.y >= 0
    ensures k != Music <==> s.original == s.geom
  {
    match k
    case Blog => WindowState(Rect(150, 80, 600, 500), false, Rect(150, 80, 600, 500))
    case InfoNew => WindowState(Rect(200, 100, 500, 400), false, Rect(200, 100, 500, 400))
    case Info => WindowState(Rect(200, 100, 500, 400), false, Rect(200, 100, 500, 400))
    case Music => WindowState(Rect(200, 120, 500, 400), false, Rect(200, 120, 400, 400))
    case Gallery => WindowState(Rect(250, 100, 700, 500), false, Rect(250, 100, 700, 500))
    case Test => WindowState(Rect(100, 100, 400, 300), false, Rect(100, 100, 400, 300))
  }

  /**
   * The Music window's initial snapshot is narrower than its rectangle, yet no
   * sequence of inputs can tell it apart from a window whose snapshot matches.
   */
  lemma MusicInitialSnapshotHarmless(events: seq<Event>)
    ensures Run(ConfigOf(Music), InitialState(Music), events).geom
         == Run(ConfigOf(Music), InitialState(Music).(original := InitialState(Music).geom), events).geom
  {
    InitialSnapshotUnobservable(ConfigOf(Music), InitialState(Music),
      InitialState(Music).(original := InitialState(Music).geom), events);
  }

  /** Every component except the Test window keeps its left edge on screen through a viewport change. */
  lemma ReclampKeepsLeftEdgeVisible(k: Kind, s: WindowState, vp: Viewport)
    requires k != Test && s.geom.x >= 0
    ensures Reclamp(ConfigOf(k), s, vp).geom.x >= 0
  {
  }

  /**
   * The Test window is the exception: in a viewport narrower than the window,
   * its freshly mounted state is pushed to a negative x (a third of it off screen).
   */
  lemma TestWindowCanLeaveScreen()
    ensures Reclamp(ConfigOf(Test), InitialState(Test), Viewport(300, 800, 52)).geom.x == -100
  {
  }

  /**
   * Whichever listener handles it, a resize of a shown window keeps each
   * component's own minimum size and keeps the window right of and below the origin.
   */
  lemma ResizeKeepsComponentMinimum(k: Kind, s: WindowState, ev: ResizeEvent, vp: Viewport, handler: Handler)
    requires !s.isMaximized
    ensures var g := Resize(ConfigOf(k), s, ev, vp, handler).geom;
            g.x >= 0 && g.y >= 0
            && (k in {Blog, InfoNew, Info} ==> g.width >= 400 && g.height >= 300)
            && (k == Music ==> g.width >= 350 && g.height >= 250)
            && (k == Gallery ==> g.width >= 500 && g.height >= 400)
            && (k == Test ==> g.width >= 300 && g.height >= 200)
  {
  }

  // ---------------------------------------------------------------- focus requests

  /** Where a pointer press landed inside a window. */
  datatype PressTarget = PressTarget(insideButton: bool, onResizeHandle: bool, onTitleBar: bool)

  /**
   * How many times a mouse-down on the window calls `onFocus`. Most components
   * call it from the root element whenever the window is shown and the handler
   * exists. The Gallery root skips presses inside buttons and on the resize
   * handles, and its title bar asks again on its own (the press bubbles up to
   * the root, so a title-bar press asks twice).
   */
  function FocusRequestsOnPress(k: Kind, isMinimized: bool, hasOnFocus: bool, t: PressTarget): (n: nat)
    ensures n <= 2
    ensures n > 0 ==> !isMinimized && hasOnFocus
    ensures k != Gallery ==> (n == 1 <==> !isMinimized && hasOnFocus)
    ensures k == Gallery && n > 0 ==> !t.insideButton
    ensures k == Gallery && !isMinimized && hasOnFocus && !t.insideButton && t.onTitleBar && !t.onResizeHandle ==> n == 2
    ensures k == Gallery && t.onResizeHandle && !t.onTitleBar ==> n == 0
  {
    if isMinimized || !hasOnFocus then 0
    else if k != Gallery then 1
    else if t.insideButton then 0
    else (if t.onTitleBar then 1 else 0) + (if t.onResizeHandle then 0 else 1)
  }

  /** The Gallery root's mouse-down handler: shown, a handler, not in a button, not on a resize handle. */
  function GalleryRootMouseDown(isMinimized: bool, hasOnFocus: bool, t: PressTarget): (asks: bool)
  {
    !isMinimized && hasOnFocus && !t.insideButton && !t.onResizeHandle
  }

  /** The Gallery title bar's own mouse-down handler: on the title bar, not in a button, a handler, shown. */
  function GalleryTitleBarMouseDown(isMinimized: bool, hasOnFocus: bool, t: PressTarget): (asks: bool)
  {
    t.onTitleBar && !t.insideButton && hasOnFocus && !isMinimized
  }

  /**
   * The Gallery's count is the two handlers' requests added up: the press
   * bubbles from the title bar to the root, and each handler decides alone.
   */
  lemma GalleryPressRunsBothHandlers(isMinimized: bool, hasOnFocus: bool, t: PressTarget)
    ensures FocusRequestsOnPress(Gallery, isMinimized, hasOnFocus, t)
         == (if GalleryRootMouseDown(isMinimized, hasOnFocus, t) then 1 else 0)
          + (if GalleryTitleBarMouseDown(isMinimized, hasOnFocus, t) then 1 else 0)
  {
  }

  /** How many times a click on the window calls `onFocus`; the Gallery root has no click handler. */
  function FocusRequestsOnClick(k: Kind, isMinimized: bool, hasOnFocus: bool): (n: nat)
    ensures n > 0 <==> k != Gallery && !isMinimized && hasOnFocus
  {
    if k == Gallery || isMinimized || !hasOnFocus then 0 else 1
  }

  /**
   * Whether starting a title-bar drag calls `onFocus`. The drag listeners are
   * installed once, so most components see the `onFocus` of the render that
   * installed them; the new Info window reads the latest one through a ref;
   * the Gallery drag start does not ask for focus at all. None of them checks
   * the minimized flag.
   */
  function FocusOnDragStart(k: Kind, hadOnFocusAtInstall: bool, hasOnFocusNow: bool): (b: bool)
    ensures k == Gallery ==> !b
    ensures k == InfoNew ==> (b <==> hasOnFocusNow)
    ensures k !in {Gallery, InfoNew} ==> (b <==> hadOnFocusAtInstall)
  {
    match k
    case Gallery => false
    case InfoNew => hasOnFocusNow
    case _ => hadOnFocusAtInstall
  }

  /**
   * A whole click (press, then release on the same spot) outside buttons and
   * resize handles asks twice in every component but the Gallery, whose root
   * asks once (and its title bar once more).
   */
  lemma ClickGestureRequests(k: Kind, t: PressTarget)
    requires !t.insideButton && !t.onResizeHandle
    ensures k != Gallery ==> FocusRequestsOnPress(k, false, true, t) + FocusRequestsOnClick(k, false, true) == 2
    ensures k == Gallery ==>
              FocusRequestsOnPress(k, false, true, t) + FocusRequestsOnClick(k, false, true) == (if t.onTitleBar then 2 else 1)
  {
  }

  /**
   * The new Info window is the only component whose drag start follows a
   * handler that arrived after its listeners were installed.
   */
  lemma OnlyInfoNewFollowsLatestHandler(k: Kind)
    ensures (FocusOnDragStart(k, false, true) && !FocusOnDragStart(k, true, false)) <==> k == InfoNew
  {
  }

  // ---------------------------------------------------------------- minimize button

  /** What pressing a window's minimize button does. */
  datatype MinimizeEffect = RequestMinimize | HideElement | DoNothing

  /**
   * With a handler, every component forwards to it. Without one, all but the
   * Gallery hide their own element; the Gallery does nothing.
   */
  function MinimizeClicked(k: Kind, hasOnMinimize: bool): (e: MinimizeEffect)
    ensures e == RequestMinimize <==> hasOnMinimize
    ensures e == DoNothing <==> !hasOnMinimize && k == Gallery
  {
    if hasOnMinimize then RequestMinimize
    else if k == Gallery then DoNothing
    else HideElement
  }

  /** Whether the window is still on screen after the effect, given what the owner does with a request. */
  function StillShown(e: MinimizeEffect, ownerHides: bool): (shown: bool)
  {
    match e
    case RequestMinimize => !ownerHides
    case HideElement => false
    case DoNothing => true
  }

  /**
   * Without a handler the minimize button leaves exactly the Gallery on screen;
   * with one, the window leaves the screen exactly when the owner hides it.
   */
  lemma MinimizeButtonVisibility(k: Kind, hasOnMinimize: bool, ownerHides: bool)
    ensures !hasOnMinimize ==> (StillShown(MinimizeClicked(k, false), ownerHides) <==> k == Gallery)
    ensures hasOnMinimize ==> (StillShown(MinimizeClicked(k, true), ownerHides) <==> !ownerHides)
  {
  }
}
