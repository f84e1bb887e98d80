/**
 * The window-manager hook: the list of open windows, the id of the active
 * window and a stacking counter that starts at 1000. Each operation is one
 * state transition; the hook's React state updates are applied in order.
 */
module WindowManager {
  import opened Wrappers
  import opened Sequences

  /** Window ids are numbers the caller cannot predict; they are supplied as a parameter. */
  type WindowId = int

  datatype Point = Point(x: int, y: int)
  datatype Size = Size(width: int, height: int)

  datatype ManagedWindow = ManagedWindow(
    id: WindowId, title: string, position: Point, size: Size,
    isMaximized: bool, isMinimized: bool, zIndex: int)

  /**
   * The argument of `openWindow`. A field is `None` when the key is absent;
   * a key that is present (whatever its value) replaces the default, since the
   * configuration is spread over the defaults last.
   */
  datatype WindowConfig = WindowConfig(
    id: Option<WindowId>, title: Option<string>, position: Option<Point>, size: Option<Size>,
    isMaximized: Option<bool>, isMinimized: Option<bool>, zIndex: Option<int>)

  /** A configuration with no keys set. */
  const NoConfig := WindowConfig(None, None, None, None, None, None, None)

  datatype Registry = Registry(windows: seq<ManagedWindow>, active: Option<WindowId>, counter: int)

  const InitialCounter := 1000
  const DefaultTitle := "New Window"
  const DefaultPosition := Point(100, 100)
  const DefaultSize := Size(800, 600)

  /** No windows, nothing active, counter at 1000. */
  const Initial := Registry([], None, InitialCounter)

  /** The window `openWindow` builds: defaults, then every key the configuration sets. */
  function NewWindow(cfg: WindowConfig, freshId: WindowId, counter: int): (w: ManagedWindow)
    ensures cfg.id.None? ==> w.id == freshId
    ensures cfg.title.None? ==> w.title == DefaultTitle
    ensures cfg.position.None? ==> w.position == DefaultPosition
    ensures cfg.size.None? ==> w.size == DefaultSize
    ensures cfg.isMaximized.None? ==> !w.isMaximized
    ensures cfg.isMinimized.None? ==> !w.isMinimized
    ensures cfg.zIndex.None? ==> w.zIndex == counter
    ensures cfg.id.Some? ==> w.id == cfg.id.value
    ensures cfg.title.Some? ==> w.title == cfg.title.value
    ensures cfg.position.Some? ==> w.position == cfg.position.value
    ensures cfg.size.Some? ==> w.size == cfg.size.value
    ensures cfg.isMaximized.Some? ==> w.isMaximized == cfg.isMaximized.value
    ensures cfg.isMinimized.Some? ==> w.isMinimized == cfg.isMinimized.value
    ensures cfg.zIndex.Some? ==> w.zIndex == cfg.zIndex.value
  {
    ManagedWindow(cfg.id.GetOr(freshId), cfg.title.GetOr(DefaultTitle), cfg.position.GetOr(DefaultPosition),
                  cfg.size.GetOr(DefaultSize), cfg.isMaximized.GetOr(false), cfg.isMinimized.GetOr(false),
                  cfg.zIndex.GetOr(counter))
  }

  /** `openWindow`: append the new window, make it active, advance the counter; the new id is returned. */
  function Open(r: Registry, cfg: WindowConfig, freshId: WindowId): (res: (Registry, WindowId))
    ensures |res.0.windows| == |r.windows| + 1 && res.0.windows[..|r.windows|] == r.windows
    ensures res.0.windows[|r.windows|] == NewWindow(cfg, freshId, r.counter)
    ensures res.0.windows[|r.windows|].id == res.1 && res.0.active == Some(res.1)
    ensures cfg.zIndex.None? ==> res.0.windows[|r.windows|].zIndex == r.counter
    ensures res.0.counter == r.counter + 1
  {
    var w := NewWindow(cfg, freshId, r.counter);
    (Registry(r.windows + [w], Some(w.id), r.counter + 1), w.id)
  }

  /** `closeWindow`: drop every window with the id; clear the active id if it was this one. */
  function Close(r: Registry, id: WindowId): (r': Registry)
    ensures forall i :: 0 <= i < |r'.windows| ==> r'.windows[i].id != id
    ensures r'.active == if r.active == Some(id) then None else r.active
    ensures r'.counter == r.counter
  {
    Registry(Filter(r.windows, (w: ManagedWindow) => w.id != id),
             if r.active == Some(id) then None else r.active, r.counter)
  }

  /** The field updates the hook applies to the windows with a given id. */
  datatype Change = SetMinimized(minimized: bool) | ToggleMaximized | SetZIndex(z: int) | MoveTo(p: Point) | ResizeTo(s: Size)

  function Apply(w: ManagedWindow, c: Change): (r: ManagedWindow)
    ensures r.id == w.id && r.title == w.title
  {
    match c
    case SetMinimized(m) => w.(isMinimized := m)
    case ToggleMaximized => w.(isMaximized := !w.isMaximized)
    case SetZIndex(z) => w.(zIndex := z)
    case MoveTo(p) => w.(position := p)
    case ResizeTo(s) => w.(size := s)
  }

  /** `windows.map(w => w.id === id ? change(w) : w)`. */
  function UpdateWhere(ws: seq<ManagedWindow>, id: WindowId, c: Change): (r: seq<ManagedWindow>)
    ensures |r| == |ws|
    ensures forall i :: 0 <= i < |ws| ==> r[i].id == ws[i].id
    ensures forall i :: 0 <= i < |ws| && ws[i].id != id ==> r[i] == ws[i]
    ensures forall i :: 0 <= i < |ws| && ws[i].id == id ==> r[i] == Apply(ws[i], c)
  {
    seq(|ws|, i requires 0 <= i < |ws| => if ws[i].id == id then Apply(ws[i], c) else ws[i])
  }

  /** `minimizeWindow`: the active id is left alone, even when it names the minimized window. */
  function Minimize(r: Registry, id: WindowId): (r': Registry)
    ensures r'.active == r.active && r'.counter == r.counter
    ensures |r'.windows| == |r.windows|
    ensures forall i :: 0 <= i < |r.windows| && r.windows[i].id == id ==> r'.windows[i].isMinimized
    ensures forall i :: 0 <= i < |r.windows| ==>
              r'.windows[i] == if r.windows[i].id == id then r.windows[i].(isMinimized := true) else r.windows[i]
  {
    r.(windows := UpdateWhere(r.windows, id, SetMinimized(true)))
  }

  /** `maximizeWindow` toggles the flag. */
  function Maximize(r: Registry, id: WindowId): (r': Registry)
    ensures r'.active == r.active && r'.counter == r.counter
    ensures |r'.windows| == |r.windows|
    ensures forall i :: 0 <= i < |r.windows| && r.windows[i].id == id ==> r'.windows[i].isMaximized != r.windows[i].isMaximized
    ensures forall i :: 0 <= i < |r.windows| ==>
              r'.windows[i] == if r.windows[i].id == id then r.windows[i].(isMaximized := !r.windows[i].isMaximized) else r.windows[i]
  {
    r.(windows := UpdateWhere(r.windows, id, ToggleMaximized))
  }

  /** `restoreWindow`: un-minimize and make the id active (whether or not such a window exists). */
  function Restore(r: Registry, id: WindowId): (r': Registry)
    ensures r'.active == Some(id) && r'.counter == r.counter
    ensures |r'.windows| == |r.windows|
    ensures forall i :: 0 <= i < |r.windows| && r.windows[i].id == id ==> !r'.windows[i].isMinimized
    ensures forall i :: 0 <= i < |r.windows| ==>
              r'.windows[i] == if r.windows[i].id == id then r.windows[i].(isMinimized := false) else r.windows[i]
  {
    Registry(UpdateWhere(r.windows, id, SetMinimized(false)), Some(id), r.counter)
  }

  /** `focusWindow`: make the id active, advance the counter, and give the window the new counter value. */
  function Focus(r: Registry, id: WindowId): (r': Registry)
    ensures r'.active == Some(id) && r'.counter == r.counter + 1
    ensures |r'.windows| == |r.windows|
    ensures forall i :: 0 <= i < |r.windows| && r.windows[i].id == id ==> r'.windows[i].zIndex == r'.counter
    ensures forall i :: 0 <= i < |r.windows| ==>
              r'.windows[i] == if r.windows[i].id == id then r.windows[i].(zIndex := r.counter + 1) else r.windows[i]
  {
    Registry(UpdateWhere(r.windows, id, SetZIndex(r.counter + 1)), Some(id), r.counter + 1)
  }

  function UpdatePosition(r: Registry, id: WindowId, p: Point): (r': Registry)
    ensures r'.active == r.active && r'.counter == r.counter
    ensures |r'.windows| == |r.windows|
    ensures forall i :: 0 <= i < |r.windows| && r.windows[i].id == id ==> r'.windows[i].position == p
    ensures forall i :: 0 <= i < |r.windows| ==>
              r'.windows[i] == if r.windows[i].id == id then r.windows[i].(position := p) else r.windows[i]
  {
    r.(windows := UpdateWhere(r.windows, id, MoveTo(p)))
  }

  function UpdateSize(r: Registry, id: WindowId, s: Size): (r': Registry)
    ensures r'.active == r.active && r'.counter == r.counter
    ensures |r'.windows| == |r.windows|
    ensures forall i :: 0 <= i < |r.windows| && r.windows[i].id == id ==> r'.windows[i].size == s
    ensures forall i :: 0 <= i < |r.windows| ==>
              r'.windows[i] == if r.windows[i].id == id then r.windows[i].(size := s) else r.windows[i]
  {
    r.(windows := UpdateWhere(r.windows, id, ResizeTo(s)))
  }

  // ---------------------------------------------------------------- properties

  /** The ids of the windows, in list order. */
  function Ids(ws: seq<ManagedWindow>): (ids: seq<WindowId>)
    ensures |ids| == |ws|
  {
    seq(|ws|, i requires 0 <= i < |ws| => ws[i].id)
  }

  /** In-place updates keep the same windows in the same order: the id list does not change. */
  lemma UpdatesKeepIds(ws: seq<ManagedWindow>, id: WindowId, c: Change)
    ensures Ids(UpdateWhere(ws, id, c)) == Ids(ws)
  {
  }

  /** A window survives closing exactly when it was open and has a different id; survivors keep their order and every copy. */
  lemma CloseKeepsOthers(r: Registry, id: WindowId, w: ManagedWindow)
    ensures w in Close(r, id).windows <==> w in r.windows && w.id != id
    ensures IsSubsequence(Close(r, id).windows, r.windows)
    ensures multiset(Close(r, id).windows)[w] == if w.id != id then multiset(r.windows)[w] else 0
  {
    FilterMembership(r.windows, (w: ManagedWindow) => w.id != id, w);
    FilterMultiplicity(r.windows, (w: ManagedWindow) => w.id != id, w);
    FilterIsSubsequence(r.windows, (w: ManagedWindow) => w.id != id);
  }

  /** Opening a window with an unused id and closing it again gives back the same window list. */
  lemma OpenThenCloseRestoresWindows(r: Registry, cfg: WindowConfig, freshId: WindowId)
    requires forall i :: 0 <= i < |r.windows| ==> r.windows[i].id != cfg.id.GetOr(freshId)
    ensures Close(Open(r, cfg, freshId).0, Open(r, cfg, freshId).1).windows == r.windows
  {
    var id := Open(r, cfg, freshId).1;
    var keep := (w: ManagedWindow) => w.id != id;
    FilterAppend(r.windows, NewWindow(cfg, freshId, r.counter), keep);
    FilterKeepsAll(r.windows, keep);
  }

  /** Minimizing a shown window and restoring it gives back the same window list (and makes it active). */
  lemma MinimizeRestoreRoundTrip(r: Registry, id: WindowId)
    requires forall i :: 0 <= i < |r.windows| && r.windows[i].id == id ==> !r.windows[i].isMinimized
    ensures Restore(Minimize(r, id), id).windows == r.windows
    ensures Restore(Minimize(r, id), id).active == Some(id)
  {
    var ws := Restore(Minimize(r, id), id).windows;
    assert forall i :: 0 <= i < |r.windows| ==> ws[i] == r.windows[i];
  }

  /** Maximizing twice leaves every window as it was. */
  lemma MaximizeTwiceIsIdentity(r: Registry, id: WindowId)
    ensures Maximize(Maximize(r, id), id) == r
  {
    var ws := Maximize(Maximize(r, id), id).windows;
    assert forall i :: 0 <= i < |r.windows| ==> ws[i] == r.windows[i];
  }

  /** A later position update overrides an earlier one. */
  lemma LastPositionWins(r: Registry, id: WindowId, p: Point, q: Point)
    ensures UpdatePosition(UpdatePosition(r, id, p), id, q) == UpdatePosition(r, id, q)
  {
    var a := UpdatePosition(UpdatePosition(r, id, p), id, q).windows;
    var b := UpdatePosition(r, id, q).windows;
    assert forall i :: 0 <= i < |r.windows| ==> a[i] == b[i];
  }

  /** Stacking invariant: no window is above the counter. */
  predicate StackBelowCounter(r: Registry)
  {
    forall i :: 0 <= i < |r.windows| ==> r.windows[i].zIndex <= r.counter
  }

  /** Focusing (with the invariant) puts the focused window strictly above every other window. */
  lemma FocusRaisesToTop(r: Registry, id: WindowId)
    requires StackBelowCounter(r)
    ensures var r' := Focus(r, id);
            StackBelowCounter(r')
            && forall i, j :: 0 <= i < |r'.windows| && 0 <= j < |r'.windows| && r'.windows[i].id == id && r'.windows[j].id != id
                 ==> r'.windows[j].zIndex < r'.windows[i].zIndex
  {
  }

  /** Every operation of the hook, as data. */
  datatype Action =
    | OpenWindow(cfg: WindowConfig, freshId: WindowId)
    | CloseWindow(closeId: WindowId)
    | MinimizeWindow(minimizeId: WindowId)
    | MaximizeWindow(maximizeId: WindowId)
    | RestoreWindow(restoreId: WindowId)
    | FocusWindow(focusId: WindowId)
    | UpdateWindowPosition(moveId: WindowId, position: Point)
    | UpdateWindowSize(resizeId: WindowId, size: Size)

  function Dispatch(r: Registry, a: Action): Registry
  {
    match a
    case OpenWindow(cfg, freshId) => Open(r, cfg, freshId).0
    case CloseWindow(id) => Close(r, id)
    case MinimizeWindow(id) => Minimize(r, id)
    case MaximizeWindow(id) => Maximize(r, id)
    case RestoreWindow(id) => Restore(r, id)
    case FocusWindow(id) => Focus(r, id)
    case UpdateWindowPosition(id, p) => UpdatePosition(r, id, p)
    case UpdateWindowSize(id, s) => UpdateSize(r, id, s)
  }

  /** An action that does not force a stacking order above the next counter value. */
  predicate RespectsCounter(r: Registry, a: Action)
  {
    a.OpenWindow? ==> a.cfg.zIndex.None? || a.cfg.zIndex.value <= r.counter + 1
  }

  /** Every action keeps the stacking invariant; the counter never decreases. */
  lemma DispatchKeepsStackBelowCounter(r: Registry, a: Action)
    requires StackBelowCounter(r) && RespectsCounter(r, a)
    ensures StackBelowCounter(Dispatch(r, a))
    ensures Dispatch(r, a).counter >= r.counter
  {
    if a.CloseWindow? {
      var ws := Close(r, a.closeId).windows;
      forall i | 0 <= i < |ws|
        ensures ws[i].zIndex <= r.counter
      {
        CloseKeepsOthers(r, a.closeId, ws[i]);
      }
    }
  }

  /** The actions applied in order. */
  function DispatchAll(r: Registry, actions: seq<Action>): Registry
    decreases |actions|
  {
    if |actions| == 0 then r else DispatchAll(Dispatch(r, actions[0]), actions[1..])
  }

  /**
   * Starting from the empty registry, any sequence of actions without explicit
   * stacking overrides keeps the invariant, so a focused window is always on top.
   */
  lemma {:induction false} StackBelowCounterAlways(r: Registry, actions: seq<Action>)
    requires StackBelowCounter(r)
    requires forall k :: 0 <= k < |actions| && actions[k].OpenWindow? ==> actions[k].cfg.zIndex.None?
    ensures StackBelowCounter(DispatchAll(r, actions))
    decreases |actions|
  {
    if |actions| > 0 {
      DispatchKeepsStackBelowCounter(r, actions[0]);
      StackBelowCounterAlways(Dispatch(r, actions[0]), actions[1..]);
    }
  }

  /**
   * A window opened right after a focus is not above the focused window: open
   * hands out the counter and then advances it, focus advances it and then hands
   * it out, so the two end up with the same stacking value.
   */
  lemma OpenAfterFocusTies(a: WindowId, b: WindowId, c: WindowId)
    requires a != b && a != c && b != c
    ensures var r := DispatchAll(Initial, [OpenWindow(NoConfig, a), OpenWindow(NoConfig, b), FocusWindow(a), OpenWindow(NoConfig, c)]);
            |r.windows| == 3 && r.windows[0].id == a && r.windows[2].id == c
            && r.windows[0].zIndex == r.windows[2].zIndex == 1003
  {
    var actions := [OpenWindow(NoConfig, a), OpenWindow(NoConfig, b), FocusWindow(a), OpenWindow(NoConfig, c)];
    var r1 := Dispatch(Initial, actions[0]);
    var r2 := Dispatch(r1, actions[1]);
    var r3 := Dispatch(r2, actions[2]);
    var r4 := Dispatch(r3, actions[3]);
    assert DispatchAll(r3, actions[3..]) == r4 by {
      assert DispatchAll(r4, actions[4..]) == r4;
    }
    assert DispatchAll(r2, actions[2..]) == r4 by {
      assert actions[2..][1..] == actions[3..];
    }
    assert DispatchAll(r1, actions[1..]) == r4 by {
      assert actions[1..][1..] == actions[2..];
    }
    assert r3.windows[0].zIndex == 1003;
  }
}
