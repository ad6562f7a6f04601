/**
 * The two copies of the state store side by side: the front end's store (module Store) and the
 * back end's `apply_event` (module Client) read the same event stream. They build the same
 * workspace list and the same buckets; they part only on the focused ids, which the front end
 * keeps and the back end clears when a list event flags nothing.
 */
module Copies {
  import opened Wrappers
  import opened Niri
  import Store
  import Client

  /** The part of a front-end snapshot that the back end also holds. */
  function Backend(s: Store.Snapshot): Client.StateValue {
    Client.StateValue(s.workspaces, s.windowsByWorkspace, s.focusedWindowId, s.focusedWorkspaceId)
  }

  /** The event is a list event that flags nothing while a focused id of that kind is held. */
  predicate FallbackApplies(s: Client.StateValue, e: Event) {
    || (e.WorkspacesChanged? && (forall i :: 0 <= i < |e.workspaces| ==> !e.workspaces[i].isFocused)
        && s.focusedWorkspaceId.Some?)
    || (e.WindowsChanged? && (forall i :: 0 <= i < |e.windows| ==> !e.windows[i].isFocused)
        && s.focusedWindowId.Some?)
  }

  /** One event: both copies build the same workspaces and buckets, and they end in the same
      state exactly when the keep-the-old-focus fallback does not apply; when it does, the front
      end keeps the old id and the back end has none. */
  lemma StepsAgree(s: Store.Snapshot, e: Event)
    ensures var js := Backend(Store.Step(s, e)); var rs := Client.Step(Backend(s), e);
      && js.workspaces == rs.workspaces && js.windowsByWorkspace == rs.windowsByWorkspace
      && (FallbackApplies(Backend(s), e) <==> js != rs)
      && (FallbackApplies(Backend(s), e) ==>
            (e.WorkspacesChanged? ==> js.focusedWorkspaceId == s.focusedWorkspaceId
                                      && rs.focusedWorkspaceId == None)
            && (e.WindowsChanged? ==> js.focusedWindowId == s.focusedWindowId
                                      && rs.focusedWindowId == None))
  {
  }

  /** The copies agree on focus where the back end has an id. */
  predicate Agree(js: Client.StateValue, rs: Client.StateValue) {
    && js.workspaces == rs.workspaces
    && js.windowsByWorkspace == rs.windowsByWorkspace
    && (rs.focusedWindowId.Some? ==> js.focusedWindowId == rs.focusedWindowId)
    && (rs.focusedWorkspaceId.Some? ==> js.focusedWorkspaceId == rs.focusedWorkspaceId)
  }

  /** Over any event stream, starting from agreeing states, the copies keep the same workspaces
      and buckets, and every focused id the back end holds is the front end's too. */
  lemma {:induction false} RunsAgree(s: Store.Snapshot, r: Client.StateValue, es: seq<Event>)
    requires Agree(Backend(s), r)
    ensures Agree(Backend(Store.Run(s, es)), Client.Run(r, es))
    decreases |es|
  {
    if es != [] {
      var e := es[0];
      var s' := Store.Step(s, e);
      var r' := Client.Step(r, e);
      assert Agree(Backend(s'), r') by {
        match e {
          case WorkspacesChanged(wss) =>
            if exists i :: 0 <= i < |wss| && wss[i].isFocused {
              var i :| 0 <= i < |wss| && wss[i].isFocused;
              FirstFlagged(wss, (w: Workspace) => w.isFocused, i);
            }
          case WindowsChanged(wins) =>
            if exists i :: 0 <= i < |wins| && wins[i].isFocused {
              var i :| 0 <= i < |wins| && wins[i].isFocused;
              FirstFlagged(wins, (w: Window) => w.isFocused, i);
            }
          case _ =>
        }
      }
      RunsAgree(s', r', es[1..]);
    }
  }

  /** An element with the flag somewhere means a first one with the flag exists. */
  lemma FirstFlagged<T>(xs: seq<T>, flagged: T -> bool, i: int)
    requires 0 <= i < |xs| && flagged(xs[i])
    ensures exists k :: 0 <= k < |xs| && flagged(xs[k]) && forall j :: 0 <= j < k ==> !flagged(xs[j])
  {
    var k := i;
    while k > 0 && exists j :: 0 <= j < k && flagged(xs[j])
      invariant 0 <= k <= i && flagged(xs[k])
      decreases k
    {
      var j :| 0 <= j < k && flagged(xs[j]);
      k := j;
    }
  }

  /** The divergence on a concrete stream: focus is on workspace 1, then a workspace list
      arrives in which nothing is flagged. */
  lemma FocusDivergence()
    ensures var ws := Workspace(1, 1, None, false, true);
      var s := Store.Initial.(focusedWorkspaceId := Some(1));
      && Store.Step(s, WorkspacesChanged([ws])).focusedWorkspaceId == Some(1)
      && Client.Step(Backend(s), WorkspacesChanged([ws])).focusedWorkspaceId == None
  {
  }
}
