/**
 * The back end's copy of the state store: `NiriState` and `NiriClient::apply_event`, which
 * rewrites the state in place for each event read from the window manager's event stream.
 */
module Client {
  import opened Wrappers
  import opened Niri

  /** The value of a `NiriState`. */
  datatype StateValue = StateValue(
    workspaces: seq<Workspace>,
    windowsByWorkspace: Buckets,
    focusedWindowId: Option<Id>,
    focusedWorkspaceId: Option<Id>)

  /** `NiriState::default()`. */
  const Default := StateValue([], map[], None, None)

  /** What `apply_event` does to the state. Unlike the front end's store, a list event with no
      flagged element clears the focused id instead of keeping the old one. */
  function Step(s: StateValue, e: Event): (r: StateValue)
    ensures e.WorkspacesChanged? ==>
      && r.workspaces == e.workspaces
      && r.windowsByWorkspace == s.windowsByWorkspace && r.focusedWindowId == s.focusedWindowId
      && ((forall i :: 0 <= i < |e.workspaces| ==> !e.workspaces[i].isFocused) ==>
            r.focusedWorkspaceId == None)
      && (forall i ::
            (0 <= i < |e.workspaces| && e.workspaces[i].isFocused
             && forall j :: 0 <= j < i ==> !e.workspaces[j].isFocused) ==>
            r.focusedWorkspaceId == Some(e.workspaces[i].id))
    ensures e.WorkspaceActivated? ==>
      && r.workspaces == Activated(s.workspaces, e.id, e.focused)
      && r.windowsByWorkspace == s.windowsByWorkspace && r.focusedWindowId == s.focusedWindowId
      && r.focusedWorkspaceId == (if e.focused then Some(e.id) else s.focusedWorkspaceId)
    ensures e.WindowsChanged? ==>
      && r.windowsByWorkspace == Grouped(e.windows)
      && r.workspaces == s.workspaces && r.focusedWorkspaceId == s.focusedWorkspaceId
      && ((forall i :: 0 <= i < |e.windows| ==> !e.windows[i].isFocused) ==> r.focusedWindowId == None)
      && (forall i ::
            (0 <= i < |e.windows| && e.windows[i].isFocused
             && forall j :: 0 <= j < i ==> !e.windows[j].isFocused) ==>
            r.focusedWindowId == Some(e.windows[i].id))
    ensures e.WindowOpenedOrChanged? ==>
      r == s.(windowsByWorkspace := Upserted(s.windowsByWorkspace, e.window))
    ensures e.WindowClosed? ==> r == s.(windowsByWorkspace := Stripped(s.windowsByWorkspace, e.id))
    ensures e.WindowFocusChanged? ==>
      r == s.(focusedWindowId := e.focus,
              windowsByWorkspace := FocusedOnly(s.windowsByWorkspace, e.focus))
    ensures e.Unhandled? ==> r == s
  {
    match e
    case WorkspacesChanged(wss) =>
      s.(workspaces := wss, focusedWorkspaceId := FirstFocusedWorkspace(wss))
    case WorkspaceActivated(id, focused) =>
      s.(workspaces := Activated(s.workspaces, id, focused),
         focusedWorkspaceId := if focused then Some(id) else s.focusedWorkspaceId)
    case WindowsChanged(wins) =>
      s.(windowsByWorkspace := Grouped(wins), focusedWindowId := FirstFocusedWindow(wins))
    case WindowOpenedOrChanged(w) =>
      s.(windowsByWorkspace := Upserted(s.windowsByWorkspace, w))
    case WindowClosed(id) =>
      s.(windowsByWorkspace := Stripped(s.windowsByWorkspace, id))
    case WindowFocusChanged(focus) =>
      s.(focusedWindowId := focus, windowsByWorkspace := FocusedOnly(s.windowsByWorkspace, focus))
    case Unhandled(_) =>
      s
  }

  /** The state after a sequence of events, applied in stream order. */
  function Run(s: StateValue, es: seq<Event>): StateValue
    decreases |es|
  {
    if es == [] then s else Run(Step(s, es[0]), es[1..])
  }

  /** The focused ids the back end holds after a list event always name a focused member of
      the new list: they are never left over from before. */
  lemma FocusNeverStale(s: StateValue, e: Event)
    ensures e.WorkspacesChanged? && Step(s, e).focusedWorkspaceId.Some? ==>
      exists i :: 0 <= i < |e.workspaces| && e.workspaces[i].isFocused
                  && e.workspaces[i].id == Step(s, e).focusedWorkspaceId.value
    ensures e.WindowsChanged? && Step(s, e).focusedWindowId.Some? ==>
      exists i :: 0 <= i < |e.windows| && e.windows[i].isFocused
                  && e.windows[i].id == Step(s, e).focusedWindowId.value
  {
  }

  /** A rewrite of `state.workspaces` element by element (`for ws in &mut state.workspaces`). */
  method ActivateAll(wss: seq<Workspace>, id: Id, focused: bool) returns (r: seq<Workspace>)
    ensures r == Activated(wss, id, focused)
  {
    r := wss;
    var i := 0;
    while i < |r|
      invariant 0 <= i <= |r| == |wss|
      invariant forall j :: 0 <= j < i ==> r[j] == Activated(wss, id, focused)[j]
      invariant forall j :: i <= j < |r| ==> r[j] == wss[j]
    {
      var ws := r[i];
      ws := ws.(isActive := ws.id == id);
      if focused {
        ws := ws.(isFocused := ws.id == id);
      }
      r := r[i := ws];
      i := i + 1;
    }
  }

  /** `for w in wins.iter_mut() { w.is_focused = Some(w.id) == *id }` on one bucket. */
  method RefocusBucket(wins: seq<Window>, focus: Option<Id>) returns (r: seq<Window>)
    ensures r == Refocused(wins, focus)
  {
    r := wins;
    var i := 0;
    while i < |r|
      invariant 0 <= i <= |r| == |wins|
      invariant forall j :: 0 <= j < i ==> r[j] == Refocused(wins, focus)[j]
      invariant forall j :: i <= j < |r| ==> r[j] == wins[j]
    {
      r := r[i := r[i].(isFocused := Some(r[i].id) == focus)];
      i := i + 1;
    }
  }

  /** The shared state behind the client's lock. */
  class NiriState {
    var workspaces: seq<Workspace>
    var windowsByWorkspace: Buckets
    var focusedWindowId: Option<Id>
    var focusedWorkspaceId: Option<Id>

    function Value(): StateValue
      reads this
    {
      StateValue(workspaces, windowsByWorkspace, focusedWindowId, focusedWorkspaceId)
    }

    constructor ()
      ensures Value() == Default
    {
      workspaces := [];
      windowsByWorkspace := map[];
      focusedWindowId := None;
      focusedWorkspaceId := None;
    }

    /** `windows_by_workspace.clear()`, then `entry(ws_id).or_default().push(win)` per window. */
    method Regroup(windows: seq<Window>)
      modifies this`windowsByWorkspace
      ensures windowsByWorkspace == Grouped(windows)
    {
      windowsByWorkspace := map[];
      var i := 0;
      while i < |windows|
        invariant 0 <= i <= |windows|
        invariant windowsByWorkspace == Grouped(windows[..i])
      {
        var win := windows[i];
        var wsId := BucketKey(win);
        var bucket := if wsId in windowsByWorkspace then windowsByWorkspace[wsId] else [];
        windowsByWorkspace := windowsByWorkspace[wsId := bucket + [win]];
        assert windows[..i + 1][..i] == windows[..i];
        i := i + 1;
      }
      assert windows[..|windows|] == windows;
    }

    /** `for wins in values_mut() { wins.retain(|w| w.id != id) }`, in whatever order the hash
        map yields its buckets. */
    method RetainOthers(id: Id)
      modifies this`windowsByWorkspace
      ensures windowsByWorkspace == Stripped(old(windowsByWorkspace), id)
    {
      var keys := windowsByWorkspace.Keys;
      while keys != {}
        invariant keys <= windowsByWorkspace.Keys == old(windowsByWorkspace).Keys
        invariant forall k :: k in windowsByWorkspace && k !in keys ==>
          windowsByWorkspace[k] == WithoutId(old(windowsByWorkspace)[k], id)
        invariant forall k :: k in keys ==> windowsByWorkspace[k] == old(windowsByWorkspace)[k]
        decreases keys
      {
        var k :| k in keys;
        windowsByWorkspace := windowsByWorkspace[k := WithoutId(windowsByWorkspace[k], id)];
        keys := keys - {k};
      }
    }

    /** The nested loop of WindowFocusChanged over every bucket and every window in it. */
    method SetFocusFlags(focus: Option<Id>)
      modifies this`windowsByWorkspace
      ensures windowsByWorkspace == FocusedOnly(old(windowsByWorkspace), focus)
    {
      var keys := windowsByWorkspace.Keys;
      while keys != {}
        invariant keys <= windowsByWorkspace.Keys == old(windowsByWorkspace).Keys
        invariant forall k :: k in windowsByWorkspace && k !in keys ==>
          windowsByWorkspace[k] == Refocused(old(windowsByWorkspace)[k], focus)
        invariant forall k :: k in keys ==> windowsByWorkspace[k] == old(windowsByWorkspace)[k]
        decreases keys
      {
        var k :| k in keys;
        var wins := RefocusBucket(windowsByWorkspace[k], focus);
        windowsByWorkspace := windowsByWorkspace[k := wins];
        keys := keys - {k};
      }
    }

    /** `apply_event`, holding the write lock for the whole update. */
    method ApplyEvent(e: Event)
      modifies this
      ensures Value() == Step(old(Value()), e)
    {
      match e {
        case WorkspacesChanged(wss) =>
          focusedWorkspaceId := FirstFocusedWorkspace(wss);
          workspaces := wss;
        case WorkspaceActivated(id, focused) =>
          workspaces := ActivateAll(workspaces, id, focused);
          if focused {
            focusedWorkspaceId := Some(id);
          }
        case WindowsChanged(wins) =>
          windowsByWorkspace := map[];
          focusedWindowId := FirstFocusedWindow(wins);
          Regroup(wins);
        case WindowOpenedOrChanged(window) =>
          var wsId := BucketKey(window);
          RetainOthers(window.id);
          var bucket := if wsId in windowsByWorkspace then windowsByWorkspace[wsId] else [];
          windowsByWorkspace := windowsByWorkspace[wsId := bucket + [window]];
        case WindowClosed(id) =>
          RetainOthers(id);
        case WindowFocusChanged(focus) =>
          focusedWindowId := focus;
          SetFocusFlags(focus);
        case Unhandled(_) =>
      }
    }
  }
}
