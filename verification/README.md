# Desktop portfolio window system, modelled in Dafny

This project models the front end of a personal portfolio site built as a
desktop: windows you can drag, resize, maximize and minimize, a taskbar with a
start menu and a clock, a music player, an image gallery with a lightbox, and
English/Vietnamese translations. The model covers the following parts.

- **The window manager** (`useWindowManager`). It keeps the list of open
  windows, the active window id and the stacking counter.
- **Window geometry.** The six window components (Blog, new Info, Info, Music,
  Gallery, Test) each repeat the same drag, resize, viewport re-clamp and
  maximize/restore code with their own constants. That code is written once in
  `Geometry`; `Windows` instantiates it per component and adds what differs
  between them: focus requests and the minimize fallback. The generic `Window`
  component is modelled separately in `BaseWindow`, because it keeps its
  geometry in CSS and `data-x`/`data-y` rather than in React state.
- **The pointer hooks** `useResizable` and `useDraggable`.
- **Translation lookup** (`getTranslation`) and the language table.
- **The start menu's search and close behaviour.**
- **The clock's time-zone choice.**
- **The icon and colour lookups.**
- **Music player logic.** This covers playlist navigation, play/pause, the
  `m:ss` display and the volume bar.
- **The gallery lightbox.**

Browser inputs are parameters of the model: pointer deltas, the viewport size,
the taskbar's measured height, `localStorage` contents and the browser's time
zone. Effects on the outside world are results of the model: callbacks invoked,
values stored, requests to the audio element.

Files: `wrappers.dfy` (Option, min/max), `sequences.dfy` (filter and
subsequence facts), `strings.dfy` (lower-casing, `includes`, `split`, number
formatting), then one file per part of the system.

## Model

| member | source | states |
|---|---|---|
| WindowManager.NewWindow | frontend/src/hooks/useWindowManager.js:10-21 | Every key absent from the configuration takes its default: a fresh id, "New Window", (100,100), 800x600, not maximized, not minimized, and the current counter as z-index. Each of the seven keys that is present (id, title, position, size, both flags, z-index) replaces its default. |
| WindowManager.Open | frontend/src/hooks/useWindowManager.js:9-27 | The old list is a prefix of the new one. The new window comes last and is exactly the window built from the configuration, the fresh id and the old counter. Its id is the one returned and becomes the active id. Without a configured z-index it takes the old counter. The counter goes up by one. |
| WindowManager.Close | frontend/src/hooks/useWindowManager.js:30-33 | No window with the id is left. The active id is cleared exactly when it named that window. The counter is unchanged. |
| WindowManager.Minimize | frontend/src/hooks/useWindowManager.js:35-39 | Every window with the id is minimized and every other field and window is unchanged. The active id and the counter are untouched, even when the active window is the one minimized. |
| WindowManager.Maximize | frontend/src/hooks/useWindowManager.js:41-45 | Every window with the id has its maximized flag flipped and every other field and window is unchanged. The active id and the counter are untouched. |
| WindowManager.Restore | frontend/src/hooks/useWindowManager.js:47-52 | Every window with the id is un-minimized and every other field and window is unchanged. The id becomes active even if no window has it. |
| WindowManager.Focus | frontend/src/hooks/useWindowManager.js:54-63 | The id becomes active and the counter goes up by one. Every window with the id gets the new counter value as its z-index. Every other field and window is unchanged. |
| WindowManager.UpdatePosition | frontend/src/hooks/useWindowManager.js:65-69 | Every window with the id takes the given position and every other field and window is unchanged. The list length, the active id and the counter are unchanged. |
| WindowManager.UpdateSize | frontend/src/hooks/useWindowManager.js:71-75 | Every window with the id takes the given size and every other field and window is unchanged. The list length, the active id and the counter are unchanged. |
| WindowManager.UpdatesKeepIds | frontend/src/hooks/useWindowManager.js:35-75 | In-place updates keep the same windows in the same order: the id list is unchanged. |
| WindowManager.CloseKeepsOthers | frontend/src/hooks/useWindowManager.js:30-33 | A window survives closing exactly when it was open and has a different id. The survivors keep their relative order, and every copy of a surviving window is kept. |
| WindowManager.OpenThenCloseRestoresWindows | frontend/src/hooks/useWindowManager.js:9-33 | Opening a window whose id is unused and then closing that id gives back exactly the original window list. Close is the inverse of open. |
| WindowManager.MinimizeRestoreRoundTrip | frontend/src/hooks/useWindowManager.js:35-52 | Minimizing a shown window and then restoring it gives back the original list, and that window is active. |
| WindowManager.MaximizeTwiceIsIdentity | frontend/src/hooks/useWindowManager.js:41-45 | Maximizing twice leaves the whole registry as it was. |
| WindowManager.LastPositionWins | frontend/src/hooks/useWindowManager.js:65-69 | A second position update overrides the first. |
| WindowManager.FocusRaisesToTop | frontend/src/hooks/useWindowManager.js:54-63 | Suppose no window is above the counter. Then after a focus, that still holds and the focused window is strictly above every other window. |
| WindowManager.DispatchKeepsStackBelowCounter | frontend/src/hooks/useWindowManager.js:9-75 | Every hook operation keeps "no window above the counter" and never lowers the counter. The one exception is an open that forces a z-index above the next counter value. |
| WindowManager.StackBelowCounterAlways | frontend/src/hooks/useWindowManager.js:9-75 | Any sequence of operations without an explicit z-index override preserves the stacking invariant. |
| WindowManager.OpenAfterFocusTies | frontend/src/hooks/useWindowManager.js:19-25 | Take open a, open b, focus a, open c. The result is that a and c share z-index 1003. Open hands out the counter and then advances it; focus advances it first. |
| Sequences.FilterMembership | frontend/src/hooks/useWindowManager.js:31 | An element is in the filtered list exactly when it is in the list and the predicate keeps it. This is `Array.prototype.filter`. |
| Geometry.Clamp | frontend/src/components/Window/BlogWindow.jsx:120-121 | `max(lo, min(v, hi))` lies in [lo, hi] when that range is non-empty. A value already inside is kept; one outside goes to the nearer bound. |
| Geometry.ClampIdempotent | frontend/src/components/Window/BlogWindow.jsx:120-121 | Clamping a clamped value again changes nothing. |
| Geometry.DragRect | frontend/src/components/Window/BlogWindow.jsx:97-136 | The new position lies in [0, max(0, viewport - size)] on x, and likewise on y, where the vertical bound uses the area above the taskbar. An in-range target is followed exactly. An overshoot sticks to the nearer edge. The size never changes. |
| Geometry.Drag | frontend/src/components/Window/BlogWindow.jsx:265-268 | A maximized window cannot be dragged. Any other window moves as in DragRect. |
| Geometry.DragInBoundsIsIdentity | frontend/src/components/Window/BlogWindow.jsx:105-121 | A zero-length drag of a window that already fits does not move it. |
| Geometry.DragIdempotent | frontend/src/components/Window/BlogWindow.jsx:105-121 | A dragged position is always in bounds, so a further zero-length drag leaves it alone. |
| Geometry.ResizeSpan | frontend/src/components/Window/BlogWindow.jsx:167-211 | On one axis the result starts at or after 0 and is at least the minimum length. Whenever it is above the minimum, its far edge stays inside the viewport or safe area and its origin is the proposed origin floored at 0. A proposal past the origin edge keeps the window at that edge with the far edge where the proposal put it. A proposal past the far edge keeps the origin and only shortens the length. |
| Geometry.ResizeSpanFollowsFittingProposal | frontend/src/components/Window/BlogWindow.jsx:167-211 | A proposal that fits the viewport and the minimum is taken exactly, unless the minimum-size shift applies. |
| Geometry.ResizeSpanShiftsTwiceAtMinimum | frontend/src/components/Window/BlogWindow.jsx:201-211 | At the minimum size with the origin edge moved outwards, the mount listener's branch moves the origin by the edge delta a second time, floored at 0. Without the branch it moves once. |
| Geometry.ResizeRect | frontend/src/components/Window/BlogWindow.jsx:154-231 | A resized window is at least the component's minimum size and never left of or above 0. Whenever it is above the minimum on an axis, it stays inside the viewport (or the area above the taskbar) on that axis. |
| Geometry.Resize | frontend/src/components/Window/BlogWindow.jsx:265-268 | A maximized window cannot be resized. Any other window gets the ResizeRect result. |
| Geometry.HandlersDifferOnlyAtMinimum | frontend/src/components/Window/BlogWindow.jsx:330-391 | The re-installed listener and the mount listener always produce the same size. They produce the same position except when the minimum-size branch fires, and fully agree in components without that branch. |
| Geometry.RightEdgeResizeKeepsOrigin | frontend/src/components/Window/BlogWindow.jsx:167-211 | Pulling only the right edge never moves the window, even when the requested width is below the minimum. |
| Geometry.FullSafeArea | frontend/src/components/Window/BlogWindow.jsx:510-530 | The maximized rectangle starts at the origin, is the viewport's width, and leaves exactly the taskbar's height free. |
| Geometry.Reclamp | frontend/src/components/Window/BlogWindow.jsx:437-472 | A viewport change never touches the snapshot or the maximized flag. It pulls the position back to at least the policy's left floor and to y at least 0, and keeps a normal window's size. A maximized window is refitted to the new width and safe height. Under the refit-only policy a normal window is left exactly alone. |
| Geometry.ReclampMovesOnlyOutOfBounds | frontend/src/components/Window/BlogWindow.jsx:437-458 | The position is rewritten exactly when it is out of bounds, provided the allowed range is non-empty. Both directions are proved. |
| Geometry.ToggleMaximize | frontend/src/components/Window/BlogWindow.jsx:483-532 | The flag flips. Maximizing records the current rectangle as the snapshot and fills the safe area. Restoring returns exactly to the snapshot. |
| Geometry.ReclampAllKeepsSnapshot | frontend/src/components/Window/BlogWindow.jsx:406-481 | Any number of viewport changes leave the snapshot and the maximized flag as they were. |
| Geometry.MaximizeRestoreRoundTrip | frontend/src/components/Window/BlogWindow.jsx:483-532 | Maximize, then any viewport changes, then restore: the window is back at exactly its pre-maximize rectangle and not maximized. |
| Geometry.StepPreservesIndistinguishable | frontend/src/components/Window/BlogWindow.jsx:97-532 | Take two states that show the same rectangle and flag and agree on the snapshot while maximized. One more input keeps them that way. |
| Geometry.RunPreservesIndistinguishable | frontend/src/components/Window/BlogWindow.jsx:97-532 | Take two states that show the same rectangle and flag and agree on the snapshot while maximized. Any input sequence keeps them that way. |
| Geometry.InitialSnapshotUnobservable | frontend/src/components/Window/MusicWindow.jsx:9-23 | A snapshot taken while not maximized is never observed. States that differ only in it show the same rectangle after every input sequence. |
| Windows.ConfigOf | frontend/src/components/Window/TestWindow.jsx:103-180 | Each component has its own minimum size, at least 300x200. Only Blog, new Info, Info and Test have the minimum-size shift. Only Test may push a window partly off the left edge. Only the old Info window re-clamps maximized windows alone. |
| Windows.InitialState | frontend/src/components/Window/MusicWindow.jsx:9-23 | Each component mounts unmaximized, at least its minimum size, at a non-negative position. The snapshot equals the rectangle in every component except Music. |
| Windows.MusicInitialSnapshotHarmless | frontend/src/components/Window/MusicWindow.jsx:9-23 | The Music window's narrower initial snapshot is never visible: every input sequence shows the same rectangle as with a matching snapshot. |
| Windows.ReclampKeepsLeftEdgeVisible | frontend/src/components/Window/BlogWindow.jsx:445 | Every component except Test keeps a window's left edge on screen through a viewport change. |
| Windows.TestWindowCanLeaveScreen | frontend/src/components/Window/TestWindow.jsx:394 | The Test window is the exception. In a 300-pixel-wide viewport its freshly mounted window is moved to x = -100. |
| Windows.ResizeKeepsComponentMinimum | frontend/src/components/Window/GalleryWindow.jsx:150-211 | Whichever listener handles it, a resize of a shown window stays at or right of and below the origin. It is at least 400x300 for Blog and both Info windows, 350x250 for Music, 500x400 for Gallery and 300x200 for Test. |
| Windows.FocusRequestsOnPress | frontend/src/components/Window/GalleryWindow.jsx:519-544 | There are no focus requests while minimized or without a handler. Other components ask exactly once. The Gallery never asks for a press inside a button, asks twice for a title-bar press, and never asks for a press on a resize handle. |
| Windows.FocusRequestsOnClick | frontend/src/components/Window/BlogWindow.jsx:560-561 | A click asks for focus exactly when the component is not the Gallery, the window is shown and a handler exists. |
| Windows.GalleryPressRunsBothHandlers | frontend/src/components/Window/GalleryWindow.jsx:519-544 | The Gallery's press count equals the root handler's request plus the title-bar handler's request, each written out from its own condition. |
| Windows.ClickGestureRequests | frontend/src/components/Window/BlogWindow.jsx:560-561 | A full click outside buttons and resize handles on a shown window with a handler asks twice in every component but the Gallery. The Gallery asks twice on its title bar and once elsewhere. |
| Windows.FocusOnDragStart | frontend/src/components/Window/InfoWindowNew.jsx:9-14 | Starting a drag never focuses the Gallery. The new Info window uses the latest handler. The others use the handler from when the listeners were installed. |
| Windows.OnlyInfoNewFollowsLatestHandler | frontend/src/components/Window/InfoWindowNew.jsx:9-14 | A drag start follows a handler that arrived after the listeners were installed, and ignores one that has gone since, exactly in the new Info window. |
| Windows.MinimizeClicked | frontend/src/components/Window/GalleryWindow.jsx:499-503 | The minimize button forwards exactly when a handler exists. Without one, it does nothing exactly for the Gallery; the others hide themselves. |
| Windows.MinimizeButtonVisibility | frontend/src/components/Window/BlogWindow.jsx:534-544 | Without a handler, the minimize button leaves the window on screen exactly for the Gallery. With one, the window leaves the screen exactly when the owner hides it. |
| BaseWindow.Setup | frontend/src/components/Window/Window.jsx:25-36 | The setup effect applies the props' size and `left`/`top`, and leaves the translate offset and `data-x`/`data-y` alone. |
| BaseWindow.MaximizedFrame | frontend/src/components/Window/Window.jsx:99-113 | A maximized frame is drawn at the origin with the viewport's width, and leaves exactly 60 pixels for the taskbar. It keeps the recorded drag offset. |
| BaseWindow.MaximizedChanged | frontend/src/components/Window/Window.jsx:25-113 | After `isMaximized` changes, a maximized frame is at the origin and fills the viewport above the 60-pixel taskbar. A restored one is back at its props' position and size with the old translate offset on both axes. Neither resets `data-x`/`data-y`. |
| BaseWindow.Mounted | frontend/src/components/Window/Window.jsx:13-36 | A first render that is not maximized is drawn at the props' position and size, and no offset is recorded. A maximized one is drawn at the origin, filling the viewport above the taskbar. |
| BaseWindow.DragMove | frontend/src/components/Window/Window.jsx:42-60 | Dragging is ignored while maximized. Otherwise each offset is drawn and recorded alike. It lies in [0, viewport - width] horizontally and in [0, viewport - height - 60] vertically. An in-range target is followed exactly on each axis, and an overshoot sticks to the nearer edge. A window larger than the room on an axis is pinned to offset 0 on that axis. `left`/`top` and the size never change. |
| BaseWindow.ClampFormsAgree | frontend/src/components/Window/Window.jsx:54-55 | The clamp without an inner `max(0, room)` equals the one with it that the other window components write. |
| BaseWindow.DragMoveIsComponentClamp | frontend/src/components/Window/Window.jsx:46-55 | Each recorded offset is the pointer target clamped to [0, max(0, room)], the same clamp the other window components write. |
| BaseWindow.DragMoveSettles | frontend/src/components/Window/Window.jsx:42-60 | A zero move on a frame that came out of a drag changes nothing, so dragging never drifts an offset already in range. |
| BaseWindow.DragBoundIgnoresLeft | frontend/src/components/Window/Window.jsx:50-55 | The bound ignores `left`. A window at the default `left` of 100 can hang 100 pixels past the right edge, and can never reach the leftmost 100 pixels. |
| BaseWindow.ResizeMove | frontend/src/components/Window/Window.jsx:66-84 | Resizing is ignored while maximized. Otherwise the proposed size is taken, and the offset moves by the left/top edge deltas (drawn and recorded alike). |
| BaseWindow.ResizeLeftKeepsRightEdge | frontend/src/components/Window/Window.jsx:66-84 | Pulling the left edge moves the drawn left edge by the delta and keeps the right edge fixed. |
| BaseWindow.RestoreForgetsDragOffset | frontend/src/components/Window/Window.jsx:25-113 | Maximize then restore redraws the window at its props with `data-x` still holding the old offset. The next drag therefore jumps by that offset. |
| BaseWindow.ButtonRequest | frontend/src/components/Window/Window.jsx:141-155 | Close and minimize map one-to-one to their requests. The third button asks to restore exactly when maximized. |
| BaseWindow.MaximizeButtonAlternates | frontend/src/components/Window/Window.jsx:151-155 | The third button asks for different things in the two states, and between them asks for maximize and restore. |
| BaseWindow.Rendered | frontend/src/components/Window/Window.jsx:115-117 | A window renders exactly when it is not minimized, and then it renders the frame it is given. Which frame a re-shown element carries is stated by BaseWindow.MinimizedChanged. |
| BaseWindow.Mount | frontend/src/components/Window/Window.jsx:25-35 | The element exists exactly while the window is shown. A window mounted shown carries the mounted frame and has its listeners attached. |
| BaseWindow.MinimizedChanged | frontend/src/components/Window/Window.jsx:96 | The element exists exactly while the window is shown, and the props and maximized flag are kept. An unchanged flag changes nothing. A window shown again gets a new element with no inline geometry and no listeners, because neither effect depends on the flag. |
| BaseWindow.MaximizeToggled | frontend/src/components/Window/Window.jsx:96-113 | The props and minimized flag are kept. On a shown window a new flag rewrites the frame from the props, stretching it when maximized, and reattaches the listeners. An unchanged flag changes nothing. |
| BaseWindow.MinimizeThenShowLosesGeometry | frontend/src/components/Window/Window.jsx:115-117 | Minimizing and showing again restores the flags but not the element: the mounted element had geometry and listeners, and the re-shown one has neither. |
| BaseWindow.MaximizeAfterShowReattaches | frontend/src/components/Window/Window.jsx:96-108 | Maximizing a re-shown window stretches it over the viewport from the left edge and reattaches its listeners. |
| ResizableHook.Init | frontend/src/hooks/useResizable.js:4-9 | The hook starts at the given size, not resizing, with no direction. |
| ResizableHook.ResizeStart | frontend/src/hooks/useResizable.js:11-20 | Presses other than the main button change nothing. A main-button press records the pointer and the current size and starts resizing in that direction. |
| ResizableHook.Bound | frontend/src/hooks/useResizable.js:37-46 | The bound is at least the minimum, at most the maximum when min <= max, and identity in between. |
| ResizableHook.SizeFor | frontend/src/hooks/useResizable.js:25-47 | Each named edge moves with the pointer from the starting size, within the bounds. "left" beats "right" and "top" beats "bottom" when both appear. An axis that is not named keeps its starting size. |
| ResizableHook.MouseMove | frontend/src/hooks/useResizable.js:22-51 | Moves are ignored unless resizing with a non-empty direction. Otherwise the stored size and the callback's size are both exactly the new size for the pointer, and a resized axis is in [minimum, viewport]. |
| ResizableHook.MouseUp | frontend/src/hooks/useResizable.js:53-56 | Release stops resizing and clears the direction, keeping the size. |
| ResizableHook.MovesAfterReleaseIgnored | frontend/src/hooks/useResizable.js:22-56 | After release, moves change nothing and report nothing. |
| ResizableHook.MovesDoNotAccumulate | frontend/src/hooks/useResizable.js:22-51 | Moves are measured from the press, so the last move alone decides the size. |
| ResizableHook.PressWithoutMoveKeepsSize | frontend/src/hooks/useResizable.js:11-51 | A press followed by a move to the same point keeps a size that was within bounds. |
| ResizableHook.RightEdgeKeepsHeight | frontend/src/hooks/useResizable.js:36-47 | Resizing from "right" leaves the height at its starting value. |
| DraggableHook.Init | frontend/src/hooks/useDraggable.js:4-7 | The hook starts at the given position, not dragging. |
| DraggableHook.MouseDown | frontend/src/hooks/useDraggable.js:9-19 | Presses other than the main button change nothing. A main-button press starts dragging and records the grab offset, so that the element corner plus the offset is the pointer. |
| DraggableHook.MouseMove | frontend/src/hooks/useDraggable.js:21-38 | Moves are ignored when not dragging. Otherwise the position lies in [0, max(0, viewport - 200)] by [0, max(0, viewport - 100)] and is reported to the callback. In range, the grabbed point is under the pointer. A target left of or above the viewport sticks at 0, and one past the room sticks at the room's edge. |
| DraggableHook.MouseUp | frontend/src/hooks/useDraggable.js:40-42 | Release stops dragging and keeps the position. |
| DraggableHook.MovesAfterReleaseIgnored | frontend/src/hooks/useDraggable.js:21-42 | After release, moves change nothing and report nothing. |
| DraggableHook.MovesDoNotAccumulate | frontend/src/hooks/useDraggable.js:21-38 | Only the last pointer location decides the position. |
| DraggableHook.GrabWithoutMoveKeepsPosition | frontend/src/hooks/useDraggable.js:9-38 | Grabbing the element at its drawn position and not moving keeps an in-bounds position. |
| I18n.Member | frontend/src/i18n/config.js:19 | `obj?.[k]` on own properties. A table has a value exactly at its keys, and it is the entry. A string has its length at `length`, and at the key spelling index i (for i below its length) the one-character string at i. Other keys of a string have nothing. Numbers, booleans, null and a missing value have nothing. |
| I18n.IndexKey | frontend/src/i18n/config.js:19 | The index found is below the bound and is spelled by the key. Nothing is found exactly when no index below the bound is spelled that way. |
| I18n.WalkAppend | frontend/src/i18n/config.js:19 | Following a concatenated path is following the first part, then the rest from where it led. |
| I18n.WalkFromNothing | frontend/src/i18n/config.js:19 | Once a step finds nothing, the rest of the walk finds nothing. |
| I18n.MissingSegmentEndsWalk | frontend/src/i18n/config.js:19 | A segment missing at any depth makes the whole lookup come back empty. |
| I18n.GetTranslation | frontend/src/i18n/config.js:18-20 | A truthy value found by following the key's dot-separated segments is returned. Otherwise the fallback is returned, which is the key itself when none is given. Without an explicit fallback the result is never an empty string, unless the key is empty. |
| I18n.MissingKeyGivesFallback | frontend/src/i18n/config.js:18-20 | A key with a missing segment gives the fallback. |
| I18n.EmptyTranslationGivesFallback | frontend/src/i18n/config.js:19 | A translation that is the empty string is replaced by the fallback too. |
| I18n.NoTableGivesFallback | frontend/src/i18n/config.js:18-20 | With no table for the language, every key gives its fallback. |
| I18n.DottedKeyWalk | frontend/src/i18n/config.js:19 | The lookup for "a.b" is the lookup for "b" inside what "a" found. |
| I18n.UndottedKeyIsDirectLookup | frontend/src/i18n/config.js:19 | A key without a dot is a direct lookup in the table. |
| I18n.OneMoreSegment | frontend/src/i18n/config.js:19 | Following `key.k` for a segment without a dot is one lookup of k past wherever `key` led. |
| I18n.KeyCanRunIntoString | frontend/src/i18n/config.js:18-20 | When a key leads to a non-empty string, `key.length` translates to its length and `key.0` to its first character. |
| I18n.Translations | frontend/src/i18n/config.js:10-15 | There is a translation table for exactly the selectable languages, and the default language's table is the Vietnamese one. |
| I18n.LanguagesAreEnglishAndVietnamese | frontend/src/i18n/config.js:5-15 | The language codes are exactly "en" and "vi". The default is "vi", named "Tiếng Việt". |
| Strings.ContainsIffOccurs | frontend/src/components/StartMenu.jsx:111-113 | `includes` holds exactly when the term occurs at some position of the string. |
| Strings.JoinSplit | frontend/src/i18n/config.js:19 | Joining the pieces of `split('.')` with '.' gives back the key. |
| StartMenu.FilteredItems | frontend/src/components/StartMenu.jsx:111-113 | Every listed entry matches the search case-insensitively, and the list is no longer than the menu. |
| StartMenu.FilteredMembership | frontend/src/components/StartMenu.jsx:111-113 | An entry is listed exactly when it is a menu entry whose name matches, and the listing keeps menu order. |
| StartMenu.EmptyTermListsAll | frontend/src/components/StartMenu.jsx:111-113 | An empty search box lists every entry, in order. |
| StartMenu.SearchIgnoresCase | frontend/src/components/StartMenu.jsx:111-113 | Terms equal up to letter case list the same entries. |
| StartMenu.SearchMusic | frontend/src/components/StartMenu.jsx:57-113 | Searching "MUSIC" lists only the music player. |
| StartMenu.ItemClicked | frontend/src/components/StartMenu.jsx:52-55 | Choosing an entry runs its action and then asks to close. |
| StartMenu.KeyDown | frontend/src/components/StartMenu.jsx:36-50 | A key asks to close exactly when it is Escape and the menu is open; otherwise nothing happens. |
| StartMenu.PointerDown | frontend/src/components/StartMenu.jsx:19-33 | A press asks to close exactly when the menu is open and the press is outside it; otherwise nothing happens. |
| StartMenu.Rendered | frontend/src/components/StartMenu.jsx:111-115 | A closed menu renders nothing. An open one lists exactly the matching entries, in menu order. |
| StartMenu.EffectsNeverOpen | frontend/src/components/StartMenu.jsx:19-55 | No effect sequence opens the menu, and one that contains a close request leaves it closed. |
| StartMenu.ItemClickedThenQuiet | frontend/src/components/StartMenu.jsx:26-55 | Choosing an entry leaves the menu closed. After that, neither a key nor a press asks for anything. |
| StartMenu.DismissalCloses | frontend/src/components/StartMenu.jsx:19-50 | On an open menu a key closes it exactly when it is Escape, and a press closes it exactly when it is outside. |
| Clock.Find | frontend/src/components/Clock.jsx:29 | The lookup finds a zone with that id exactly when one exists. What it finds is the zone at the first position holding that id. |
| Clock.ListedZones | frontend/src/components/Clock.jsx:10-15 | The offered ids are exactly UTC, Asia/Ho_Chi_Minh, Asia/Shanghai and Asia/Chongqing. |
| Clock.InitialTimezone | frontend/src/components/Clock.jsx:27-42 | An offered saved zone wins. Otherwise an offered detected zone is used. The result is always an offered zone or New York, and is never something neither saved nor detected. |
| Clock.Mounted | frontend/src/components/Clock.jsx:6-42 | The clock mounts with the selector closed and the initial zone selected. |
| Clock.ButtonClicked | frontend/src/components/Clock.jsx:89 | The button toggles the selector and keeps the zone. |
| Clock.BackdropClicked | frontend/src/components/Clock.jsx:106 | The backdrop closes the selector and keeps the zone. |
| Clock.TimezoneChanged | frontend/src/components/Clock.jsx:44-48 | Picking a zone selects it, stores it and closes the selector. |
| Clock.ChoiceSurvivesReload | frontend/src/components/Clock.jsx:27-48 | A zone picked from the list is selected again on the next mount, whatever the browser reports. |
| Clock.Label | frontend/src/components/Clock.jsx:84 | An offered zone shows its listed label; any other shows its id. |
| Clock.Abbreviation | frontend/src/components/Clock.jsx:63-82 | The offered zones have fixed abbreviations (UTC, ICT, CST, CST). Other zones show what the browser reports, or nothing. |
| Clock.ListedAbbreviationIsFixed | frontend/src/components/Clock.jsx:10-15 | An offered zone's abbreviation does not depend on the browser, and it appears in its label. |
| IconUtils.GetIcon | frontend/src/utils/iconUtils.jsx:3-71 | A known name gives its icon; any other name gives the user icon. |
| IconUtils.IconNamesAreUnique | frontend/src/utils/iconUtils.jsx:4-68 | The nine names are nine separate entries: different names give different entries. Two of them, `user` and `contact`, draw the same picture (see IconUtils.PersonPictureNames). |
| IconUtils.NameOf | frontend/src/utils/iconUtils.jsx:4-68 | Every entry is stored under a key of the table, and that key maps back to the entry. |
| IconUtils.GetIconOfName | frontend/src/utils/iconUtils.jsx:70 | Looking up an entry's own key returns that entry, so the lookup reaches every icon. |
| IconUtils.PersonPictureNames | frontend/src/utils/iconUtils.jsx:5-43 | The person picture is drawn exactly for "user", for "contact" (an identical SVG) and for every unknown name, through the fallback. |
| IconUtils.ColorMapFollowsScheme | frontend/src/utils/iconUtils.jsx:74-84 | The colour table covers exactly the nine colour names, each mapped to `bg-<name>-500`. |
| IconUtils.GetColorClass | frontend/src/utils/iconUtils.jsx:73-87 | A known colour gives `bg-<colour>-500`; any other gives grey. The result is always a class from the table. |
| IconUtils.GetColorClassNamesAColor | frontend/src/utils/iconUtils.jsx:73-87 | Every result is the class of some listed colour, and distinct known colours give distinct classes. |
| MusicPlayer.IndexOfCurrent | frontend/src/components/Window/MusicWindow.jsx:156 | `findIndex` returns the first position holding the current song's id. It returns -1 exactly when there is no current song or none is listed. |
| MusicPlayer.PlayNext | frontend/src/components/Window/MusicWindow.jsx:155-161 | The next handler selects the following song. When the current song is not listed it selects the first song. At the last song it keeps the current one. The list and the playing flag are unchanged. The button is disabled when nothing is current (MusicPlayer.NoSongDisablesNavigation). |
| MusicPlayer.SongEnded | frontend/src/components/Window/MusicWindow.jsx:60-67 | The end of a song stops playback and selects the song next would select. |
| MusicPlayer.PlayPrevious | frontend/src/components/Window/MusicWindow.jsx:147-153 | Previous selects the preceding song. At the first song, or when the current song is not listed, nothing changes. |
| MusicPlayer.SongSelected | frontend/src/components/Window/MusicWindow.jsx:163-166 | Picking a song makes it current and changes nothing else. |
| MusicPlayer.PlayPause | frontend/src/components/Window/MusicWindow.jsx:124-145 | Without audio nothing happens. With no current song the first song is selected and no audio request is made. Otherwise the button pauses exactly when playing, and plays otherwise. |
| MusicPlayer.NoSongDisablesNavigation | frontend/src/components/Window/MusicWindow.jsx:855-890 | With no current song, previous and next are disabled, and play/pause is enabled exactly when the list is not empty. |
| MusicPlayer.NextEnabledChangesSong | frontend/src/components/Window/MusicWindow.jsx:881-885 | With distinct ids, an enabled next button always changes the current song. A disabled one with a current song would change nothing. |
| MusicPlayer.PreviousEnabledChangesSong | frontend/src/components/Window/MusicWindow.jsx:855-859 | With distinct ids, an enabled previous button changes the song exactly when the current song is listed after the first position. For an unlisted song it is enabled but does nothing. A disabled one changes nothing. |
| MusicPlayer.PlayPauseEnabledIffEffective | frontend/src/components/Window/MusicWindow.jsx:865-869 | The play/pause button is enabled exactly when a press (with audio) changes the state or makes a request of the audio element. |
| MusicPlayer.SongChangeEffect | frontend/src/components/Window/MusicWindow.jsx:100-121 | The list and the current song are kept. With audio and a current song, the player is playing afterwards exactly when playback started. Otherwise nothing changes. |
| MusicPlayer.AudioAnswered | frontend/src/components/Window/MusicWindow.jsx:137-143 | Through the audio element's `play` and `pause` events (lines 700-701), a pause request always stops playing and a play request plays exactly when playback starts; the refusal handler stops it otherwise. No request changes nothing. The list and the current song are kept. |
| MusicPlayer.PressFlipsAndTwiceReturns | frontend/src/components/Window/MusicWindow.jsx:124-145 | With a current song and playback allowed, a press flips playing and keeps the song, and two presses give back the starting state. |
| MusicPlayer.FirstPressesFromNoSong | frontend/src/components/Window/MusicWindow.jsx:128-135 | With no current song, the first press selects the first song and leaves playing as it was. The song-change effect then starts it, so the second press asks for a pause. |
| MusicPlayer.SelectedSongIsWhereNavigationStarts | frontend/src/components/Window/MusicWindow.jsx:147-166 | With distinct ids, picking the song at position i puts the player at i. Next then gives the song at i+1 and previous the song at i-1, when they exist. The song-change effect then starts the song. |
| MusicPlayer.IndexOfListedSong | frontend/src/components/Window/MusicWindow.jsx:156 | With distinct ids, the song at position i is found at i. |
| MusicPlayer.NextThenPreviousReturns | frontend/src/components/Window/MusicWindow.jsx:147-161 | Next then previous is the identity, except at the last song. |
| MusicPlayer.PreviousThenNextReturns | frontend/src/components/Window/MusicWindow.jsx:147-161 | Previous then next is the identity, except at the first song. |
| MusicPlayer.PlayNextStopsAtLast | frontend/src/components/Window/MusicWindow.jsx:155-161 | Pressing next n times from song i reaches song min(i + n, last). |
| MusicPlayer.JsRem | frontend/src/components/Window/MusicWindow.jsx:186 | For a non-negative dividend, JavaScript's `%` agrees with the floored remainder. |
| MusicPlayer.FormatTime | frontend/src/components/Window/MusicWindow.jsx:183-188 | An unknown time (NaN) shows as "0:00". |
| MusicPlayer.MinutesAndSeconds | frontend/src/components/Window/MusicWindow.jsx:185-186 | For a non-negative time, the seconds field is below 60 and minutes * 60 + seconds is the whole number of seconds. |
| MusicPlayer.FormatTimeReadsBack | frontend/src/components/Window/MusicWindow.jsx:183-188 | For a non-negative time, the display splits at its one colon into a digit string and two digits below 60. Reading them back gives the whole number of seconds. |
| MusicPlayer.VolumeFromClick | frontend/src/components/Window/MusicWindow.jsx:177-181 | The volume is always in [0, 1]. A fraction inside is kept; one outside goes to the nearer end. |
| MusicPlayer.VolumeClampIdempotent | frontend/src/components/Window/MusicWindow.jsx:180 | Clamping a clamped volume again changes nothing. |
| Lightbox.Shown | frontend/src/components/Window/GalleryWindow.jsx:788 | The viewer shows an image exactly when it is open and an image is selected, and then shows that image. |
| Lightbox.ImageClicked | frontend/src/components/Window/GalleryWindow.jsx:57-60 | Clicking a thumbnail shows that image. |
| Lightbox.Close | frontend/src/components/Window/GalleryWindow.jsx:62-65 | Closing hides the viewer and forgets the image. |
| Lightbox.ViewerClicked | frontend/src/components/Window/GalleryWindow.jsx:788-803 | A click on the image changes nothing. A click on the backdrop or the close button returns to the initial closed state. |
| Lightbox.OperationsKeepConsistent | frontend/src/components/Window/GalleryWindow.jsx:57-65 | Thumbnail and viewer clicks keep "open exactly when an image is selected". |
| Lightbox.OpenThenCloseIsInitial | frontend/src/components/Window/GalleryWindow.jsx:57-65 | Opening an image and closing the viewer returns to the initial state. |

## Left out

- Pointer delivery by the interaction library (event `dx`/`dy`, `deltaRect`, `rect`) and its `restrictSize` modifier: their values are parameters of the drag and resize functions.
- DOM reads become parameters: the viewport size, the `nav` element's height and its 52-pixel fallback (`Viewport.taskbar`), and `getBoundingClientRect`. The components read the position back from `data-x`/`data-y`; the model assumes those attributes mirror the React state, as every handler writes both together.
- CSS writes (`transform`, `width`, `height`, `display`, border radius) and the cursor and user-select styling: they carry no logic beyond the geometry modelled.
- Geometry.Handler: each component installs a resize listener in its mount effect and installs another in its effect on the maximized flag. That effect also runs at mount, so the second listener is there from the first render on. Whether the interaction library then runs the later listener, the earlier one or both is library behaviour and not part of this model. Each resize result is therefore a function of the listener, and the properties that hold for both are proved for both.
- The 100 ms debounce of the viewport handler: only the handler's single run is modelled.
- React batching, effect timing and stale closures. Each update is applied in order as one transition. The one stale closure with a visible effect, which `onFocus` a drag start sees, is modelled as a parameter.
- Geometry.Reclamp: a maximized window is refitted from the viewport width; its `100vw` CSS width is not modelled separately.
- WindowManager.NewWindow: the `component` and `icon` payloads and other unknown configuration keys are carried opaquely in the source and are not modelled. Window ids come from `Date.now() + Math.random()` and are a parameter.
- MusicPlayer: fetching songs and images over HTTP, seeking (`handleSeek`) and the current-time/duration updates are I/O and are not modelled. Whether the audio element's `play()` promise resolves is a parameter (`started`) of SongChangeEffect, AudioAnswered and Press. The song-change effect is applied explicitly after a change of current song; React's reference comparison of the song object is not modelled.
- MusicPlayer.FormatTime: its contract covers NaN only. The numeric case is stated for non-negative times by FormatTimeReadsBack. Negative times and infinities are not modelled; times are exact reals, not IEEE doubles.
- MusicPlayer.VolumeFromClick: the fraction is taken as already computed from the click and the bar's rectangle.
- Clock: the ticking time and its locale formatting come from the browser's formatter. The browser's abbreviation for an unlisted zone is a parameter; `localStorage` is a parameter (saved zone) and a result (stored zone).
- I18n: the language context provider, the locale JSON files' contents, and arrays inside them are not modelled; translation tables are given as values.
- I18n.Member: own properties only. A table's keys, and a string's `length` and index keys, are modelled. Properties inherited from the prototypes (such as `constructor` on a table, or `toUpperCase` on a string) are not, and such keys find nothing in the model. A string's length and indices count Unicode scalar values, while JavaScript counts UTF-16 code units, so the two differ on characters outside the Basic Multilingual Plane.
- Strings.ToLower: only ASCII letters are case-folded.
- IconUtils.GetIcon: the `className` argument and the SVG drawings are presentation only. Names are looked up as plain strings. In the source, `icons[iconType]` also finds properties inherited by every object: `getIcon("constructor")` returns the `Object` function, not the user icon, and `getIcon("__proto__")` returns the prototype. The model gives the user icon for every such name.
- IconUtils.GetColorClass: colours are looked up as plain strings. In the source, `colorMap[color]` also finds inherited properties: `getColorClass("toString")` returns a function, not `bg-gray-500`. The model gives grey for every such name, and its guarantee that the result is a class from the table holds only for own keys.
- StartMenu: the menu's icons, layout and the user panel are presentation only. The owner that passes `onClose` and the toggle handlers is not part of this model. StartMenu.OpenAfter takes `onClose` to close the menu and the window toggles to leave it as it is.
- The other components (desktop, navigation bar, layouts, language switcher, pages) and the Django back end are not part of this model.
