/**
 * The front end's copy of the state store (`createStore` in store.js): a snapshot that `setState`
 * merges into and `applyEvent` rewrites one event at a time, and a set of subscribers that each
 * receive the new snapshot after every update.
 */
module Store {
  import opened Wrappers
  import opened Niri

  /** The store's state object. `query` is the `_query` field that the view writes into it. */
  datatype Snapshot = Snapshot(
    workspaces: seq<Workspace>,
    windowsByWorkspace: Buckets,
    focusedWindowId: Option<Id>,
    focusedWorkspaceId: Option<Id>,
    selectedWorkspaceId: Option<Id>,
    query: string)

  /** The state a new store starts from; `_query` is absent and reads as the empty string. */
  const Initial := Snapshot([], map[], None, None, None, "")

  /** JavaScript truthiness of a nullable id: null and 0 are falsy. */
  predicate Truthy(x: Option<Id>) {
    x.Some? && x.value != 0
  }

  /** `a || b` on nullable ids: `a` when it is truthy, `b` otherwise (even when `b` is falsy). */
  function Or(a: Option<Id>, b: Option<Id>): (r: Option<Id>)
    ensures Truthy(a) ==> r == a
    ensures !Truthy(a) ==> r == b
  {
    if Truthy(a) then a else b
  }

  // ---------------------------------------------------------------------------------------------
  // setState

  /** The fields an object passed to `setState` carries; an absent field keeps the current value,
      a present one (null included) overwrites it. */
  datatype Patch = Patch(
    workspaces: Option<seq<Workspace>>,
    windowsByWorkspace: Option<Buckets>,
    focusedWindowId: Option<Option<Id>>,
    focusedWorkspaceId: Option<Option<Id>>,
    selectedWorkspaceId: Option<Option<Id>>,
    query: Option<string>)

  /** `{ ...state, ...newState }`. */
  function Merged(s: Snapshot, p: Patch): Snapshot {
    Snapshot(
      p.workspaces.GetOr(s.workspaces),
      p.windowsByWorkspace.GetOr(s.windowsByWorkspace),
      p.focusedWindowId.GetOr(s.focusedWindowId),
      p.focusedWorkspaceId.GetOr(s.focusedWorkspaceId),
      p.selectedWorkspaceId.GetOr(s.selectedWorkspaceId),
      p.query.GetOr(s.query))
  }

  /** The state after `setState(p)`: the shallow merge, then a falsy selection takes a truthy
      focused workspace. */
  function Seeded(s: Snapshot, p: Patch): (r: Snapshot)
    ensures var m := Merged(s, p);
      && r.(selectedWorkspaceId := m.selectedWorkspaceId) == m
      && (Truthy(m.selectedWorkspaceId) ==> r.selectedWorkspaceId == m.selectedWorkspaceId)
      && (!Truthy(m.selectedWorkspaceId) && Truthy(m.focusedWorkspaceId) ==>
            r.selectedWorkspaceId == m.focusedWorkspaceId)
      && (!Truthy(m.focusedWorkspaceId) ==> r.selectedWorkspaceId == m.selectedWorkspaceId)
    ensures Truthy(r.focusedWorkspaceId) ==> Truthy(r.selectedWorkspaceId)
  {
    var m := Merged(s, p);
    if !Truthy(m.selectedWorkspaceId) && Truthy(m.focusedWorkspaceId) then
      m.(selectedWorkspaceId := m.focusedWorkspaceId)
    else m
  }

  /** Setting the same fields twice is the same as setting them once. */
  lemma SeededIdempotent(s: Snapshot, p: Patch)
    ensures Seeded(Seeded(s, p), p) == Seeded(s, p)
  {
  }

  /** A patch that names no field only seeds the selection: every other field is kept, and a
      selection that is already truthy, or a focus that is falsy, leaves the state as it was. */
  lemma SeededEmptyPatch(s: Snapshot)
    ensures var r := Seeded(s, Patch(None, None, None, None, None, None));
      && r.(selectedWorkspaceId := s.selectedWorkspaceId) == s
      && (Truthy(s.selectedWorkspaceId) || !Truthy(s.focusedWorkspaceId) ==> r == s)
  {
  }

  // ---------------------------------------------------------------------------------------------
  // applyEvent

  /** The state after `applyEvent(e)`. Fields a variant does not name are kept; in particular no
      event touches the selection or the query, and an unrecognised variant changes nothing. */
  function Step(s: Snapshot, e: Event): (r: Snapshot)
    ensures r.selectedWorkspaceId == s.selectedWorkspaceId && r.query == s.query
    ensures e.WorkspacesChanged? ==>
      && r.workspaces == e.workspaces
      && r.windowsByWorkspace == s.windowsByWorkspace && r.focusedWindowId == s.focusedWindowId
      && ((forall i :: 0 <= i < |e.workspaces| ==> !e.workspaces[i].isFocused) ==>
            r.focusedWorkspaceId == s.focusedWorkspaceId)
      && (forall i ::
            (0 <= i < |e.workspaces| && e.workspaces[i].isFocused
             && forall j :: 0 <= j < i ==> !e.workspaces[j].isFocused) ==>
            r.focusedWorkspaceId == Some(e.workspaces[i].id))
    ensures e.WorkspaceActivated? ==>
      && r.workspaces == Activated(s.workspaces, e.id, e.focused)
      && r.windowsByWorkspace == s.windowsByWorkspace && r.focusedWindowId == s.focusedWindowId
      && r.focusedWorkspaceId == (if e.focused then Some(e.id) else s.focusedWorkspaceId)
    ensures e.WindowsChanged? ==>
      && r.windowsByWorkspace == Grouped(e.windows)
      && r.workspaces == s.workspaces && r.focusedWorkspaceId == s.focusedWorkspaceId
      && ((forall i :: 0 <= i < |e.windows| ==> !e.windows[i].isFocused) ==>
            r.focusedWindowId == s.focusedWindowId)
      && (forall i ::
            (0 <= i < |e.windows| && e.windows[i].isFocused
             && forall j :: 0 <= j < i ==> !e.windows[j].isFocused) ==>
            r.focusedWindowId == Some(e.windows[i].id))
    ensures e.WindowOpenedOrChanged? ==>
      r == s.(windowsByWorkspace := Upserted(s.windowsByWorkspace, e.window))
    ensures e.WindowClosed? ==> r == s.(windowsByWorkspace := Stripped(s.windowsByWorkspace, e.id))
    ensures e.WindowFocusChanged? ==>
      r == s.(focusedWindowId := e.focus,
              windowsByWorkspace := FocusedOnly(s.windowsByWorkspace, e.focus))
    ensures e.Unhandled? ==> r == s
  {
    match e
    case WorkspacesChanged(wss) =>
      s.(workspaces := wss,
         focusedWorkspaceId := FirstFocusedWorkspace(wss).OrElse(s.focusedWorkspaceId))
    case WorkspaceActivated(id, focused) =>
      s.(workspaces := Activated(s.workspaces, id, focused),
         focusedWorkspaceId := if focused then Some(id) else s.focusedWorkspaceId)
    case WindowsChanged(wins) =>
      s.(windowsByWorkspace := Grouped(wins),
         focusedWindowId := FirstFocusedWindow(wins).OrElse(s.focusedWindowId))
    case WindowOpenedOrChanged(w) =>
      s.(windowsByWorkspace := Upserted(s.windowsByWorkspace, w))
    case WindowClosed(id) =>
      s.(windowsByWorkspace := Stripped(s.windowsByWorkspace, id))
    case WindowFocusChanged(focus) =>
      s.(focusedWindowId := focus, windowsByWorkspace := FocusedOnly(s.windowsByWorkspace, focus))
    case Unhandled(_) =>
      s
  }

  /** The state after a sequence of events, applied in delivery order. */
  function Run(s: Snapshot, es: seq<Event>): Snapshot
    decreases |es|
  {
    if es == [] then s else Run(Step(s, es[0]), es[1..])
  }

  /** The events after which window ids can be unique: a window list has to be free of
      duplicates itself. */
  predicate WellFormed(e: Event) {
    e.WindowsChanged? ==> DistinctWindowIds(e.windows)
  }

  /** Every window id stays in at most one place across buckets through any run of well-formed
      events, and a run never changes the selection or the query. */
  lemma {:induction false} RunKeepsUniqueIds(s: Snapshot, es: seq<Event>)
    requires UniqueIds(s.windowsByWorkspace)
    requires forall i :: 0 <= i < |es| ==> WellFormed(es[i])
    ensures UniqueIds(Run(s, es).windowsByWorkspace)
    ensures Run(s, es).selectedWorkspaceId == s.selectedWorkspaceId && Run(s, es).query == s.query
    decreases |es|
  {
    if es != [] {
      var e := es[0];
      match e {
        case WindowsChanged(wins) => GroupedKeepsUnique(wins);
        case WindowOpenedOrChanged(w) => UpsertedKeepsUnique(s.windowsByWorkspace, w);
        case WindowClosed(id) => StrippedKeepsUnique(s.windowsByWorkspace, id);
        case WindowFocusChanged(focus) => FocusedOnlyFacts(s.windowsByWorkspace, focus);
        case _ =>
      }
      assert forall i :: 0 <= i < |es[1..]| ==> es[1..][i] == es[i + 1];
      RunKeepsUniqueIds(Step(s, e), es[1..]);
    }
  }

  /** Closing an id that no window has leaves the state exactly as it was. */
  lemma CloseAbsentIsNoOp(s: Snapshot, id: Id)
    requires !Holds(s.windowsByWorkspace, id)
    ensures Step(s, WindowClosed(id)) == s
  {
    StrippedFacts(s.windowsByWorkspace, id);
  }

  // ---------------------------------------------------------------------------------------------
  // The loops of applyEvent and groupByWorkspace

  /** `groupByWorkspace`: pushes each window onto the bucket of its workspace, in list order. */
  method GroupByWorkspace(windows: seq<Window>) returns (acc: Buckets)
    ensures acc == Grouped(windows)
  {
    acc := map[];
    var i := 0;
    while i < |windows|
      invariant 0 <= i <= |windows|
      invariant acc == Grouped(windows[..i])
    {
      var win := windows[i];
      var key := BucketKey(win);
      acc := acc[key := (if key in acc then acc[key] else []) + [win]];
      assert windows[..i + 1][..i] == windows[..i];
      i := i + 1;
    }
    assert windows[..|windows|] == windows;
  }

  /** The key loop of WindowOpenedOrChanged and WindowClosed: a copy of the map in which each
      bucket is filtered, one key at a time. */
  method StripWindow(m: Buckets, id: Id) returns (byWs: Buckets)
    ensures byWs == Stripped(m, id)
  {
    byWs := m;
    var keys := m.Keys;
    while keys != {}
      invariant keys <= m.Keys && byWs.Keys == m.Keys
      invariant forall k :: k in m && k !in keys ==> byWs[k] == WithoutId(m[k], id)
      invariant forall k :: k in keys ==> byWs[k] == m[k]
      decreases keys
    {
      var key :| key in keys;
      byWs := byWs[key := WithoutId(byWs[key], id)];
      keys := keys - {key};
    }
  }

  // ---------------------------------------------------------------------------------------------
  // Subscribers

  /** A subscriber callback, identified by a handle. */
  type SubscriberId = nat

  /** One call of a subscriber with the snapshot it was given. */
  datatype Delivery = Delivery(subscriber: SubscriberId, snapshot: Snapshot)

  predicate NoDuplicates(xs: seq<SubscriberId>) {
    forall i, j :: 0 <= i < |xs| && 0 <= j < |xs| && xs[i] == xs[j] ==> i == j
  }

  /** One round of `notify`: every subscriber in insertion order, each given the same snapshot. */
  function Broadcast(subs: seq<SubscriberId>, s: Snapshot): (r: seq<Delivery>)
    ensures |r| == |subs|
    ensures forall i :: 0 <= i < |r| ==> r[i] == Delivery(subs[i], s)
  {
    seq(|subs|, i requires 0 <= i < |subs| => Delivery(subs[i], s))
  }

  /** With a duplicate-free subscriber list, a round reaches each subscriber exactly once, and
      only subscribers. */
  lemma BroadcastOnce(subs: seq<SubscriberId>, s: Snapshot, f: SubscriberId)
    requires NoDuplicates(subs)
    ensures var r := Broadcast(subs, s);
      && (f in subs ==>
            exists i :: 0 <= i < |r| && r[i].subscriber == f
                        && forall j :: 0 <= j < |r| && r[j].subscriber == f ==> j == i)
      && (f !in subs ==> forall j :: 0 <= j < |r| ==> r[j].subscriber != f)
  {
    var r := Broadcast(subs, s);
    if f in subs {
      var i :| 0 <= i < |subs| && subs[i] == f;
      assert r[i].subscriber == f;
    }
  }

  /** `subscribers.delete(fn)`. */
  function Removed(subs: seq<SubscriberId>, f: SubscriberId): (r: seq<SubscriberId>)
    ensures forall g :: g in r <==> g in subs && g != f
    ensures NoDuplicates(subs) ==> NoDuplicates(r)
    decreases |subs|
  {
    if subs == [] then []
    else
      var rest := Removed(subs[1..], f);
      assert forall g :: g in subs[1..] ==> g in subs;
      assert NoDuplicates(subs) ==> NoDuplicates(subs[1..]) && subs[0] !in rest by {
        if NoDuplicates(subs) {
          forall i, j | 0 <= i < |subs[1..]| && 0 <= j < |subs[1..]| && subs[1..][i] == subs[1..][j]
            ensures i == j
          {
            assert subs[i + 1] == subs[j + 1];
          }
        }
      }
      if subs[0] == f then rest else [subs[0]] + rest
  }

  /** The store object: its current state, its subscriber set (kept in insertion order, as a
      JavaScript Set iterates) and the log of callback invocations it has made. */
  class Store {
    var state: Snapshot
    var subscribers: seq<SubscriberId>
    var delivered: seq<Delivery>

    ghost predicate Valid()
      reads this
    {
      NoDuplicates(subscribers)
    }

    constructor ()
      ensures Valid()
      ensures state == Initial && subscribers == [] && delivered == []
    {
      state := Initial;
      subscribers := [];
      delivered := [];
    }

    /** `getState`. */
    method GetState() returns (s: Snapshot)
      ensures s == state
    {
      s := state;
    }

    /** `notify`: calls every subscriber with the current state. */
    method Notify()
      modifies this`delivered
      ensures delivered == old(delivered) + Broadcast(subscribers, state)
    {
      var i := 0;
      while i < |subscribers|
        invariant 0 <= i <= |subscribers|
        invariant delivered == old(delivered) + Broadcast(subscribers[..i], state)
      {
        assert Broadcast(subscribers[..i + 1], state) == Broadcast(subscribers[..i], state)
          + [Delivery(subscribers[i], state)];
        delivered := delivered + [Delivery(subscribers[i], state)];
        i := i + 1;
      }
      assert subscribers[..|subscribers|] == subscribers;
    }

    method SetState(p: Patch)
      requires Valid()
      modifies this
      ensures Valid()
      ensures state == Seeded(old(state), p) && subscribers == old(subscribers)
      ensures delivered == old(delivered) + Broadcast(subscribers, state)
    {
      state := Merged(state, p);
      if !Truthy(state.selectedWorkspaceId) && Truthy(state.focusedWorkspaceId) {
        state := state.(selectedWorkspaceId := state.focusedWorkspaceId);
      }
      Notify();
    }

    method ApplyEvent(e: Event)
      requires Valid()
      modifies this
      ensures Valid()
      ensures state == Step(old(state), e) && subscribers == old(subscribers)
      ensures delivered == old(delivered) + Broadcast(subscribers, state)
    {
      match e {
        case WorkspacesChanged(wss) =>
          state := state.(workspaces := wss,
                          focusedWorkspaceId := FirstFocusedWorkspace(wss).OrElse(state.focusedWorkspaceId));
        case WorkspaceActivated(id, focused) =>
          state := state.(workspaces := Activated(state.workspaces, id, focused),
                          focusedWorkspaceId := if focused then Some(id) else state.focusedWorkspaceId);
        case WindowsChanged(wins) =>
          var grouped := GroupByWorkspace(wins);
          state := state.(windowsByWorkspace := grouped,
                          focusedWindowId := FirstFocusedWindow(wins).OrElse(state.focusedWindowId));
        case WindowOpenedOrChanged(win) =>
          var wsId := BucketKey(win);
          var byWs := StripWindow(state.windowsByWorkspace, win.id);
          byWs := byWs[wsId := (if wsId in byWs then byWs[wsId] else []) + [win]];
          state := state.(windowsByWorkspace := byWs);
        case WindowClosed(id) =>
          var byWs := StripWindow(state.windowsByWorkspace, id);
          state := state.(windowsByWorkspace := byWs);
        case WindowFocusChanged(focus) =>
          state := state.(focusedWindowId := focus,
                          windowsByWorkspace := FocusedOnly(state.windowsByWorkspace, focus));
        case Unhandled(_) =>
      }
      Notify();
    }

    /** `subscribe(fn)`: adding a callback that is already present changes nothing. */
    method Subscribe(f: SubscriberId)
      requires Valid()
      modifies this`subscribers
      ensures Valid()
      ensures subscribers == if f in old(subscribers) then old(subscribers) else old(subscribers) + [f]
    {
      if f !in subscribers {
        subscribers := subscribers + [f];
      }
    }

    /** The function `subscribe` returns: deletes the callback from the set. */
    method Unsubscribe(f: SubscriberId)
      requires Valid()
      modifies this`subscribers
      ensures Valid()
      ensures subscribers == Removed(old(subscribers), f)
    {
      subscribers := Removed(subscribers, f);
    }

    /** The view writes `selected_workspace_id` straight into the object `getState` returned:
        the state changes and no subscriber is called. */
    method WriteSelection(id: Option<Id>)
      modifies this`state
      ensures state == old(state).(selectedWorkspaceId := id)
    {
      state := state.(selectedWorkspaceId := id);
    }

    /** Likewise for `_query`. */
    method WriteQuery(q: string)
      modifies this`state
      ensures state == old(state).(query := q)
    {
      state := state.(query := q);
    }
  }

  // ---------------------------------------------------------------------------------------------
  // Worked scenarios

  const Ws1 := Workspace(1, 1, None, true, true)
  const Ws2 := Workspace(2, 2, None, false, false)
  const Win10 := Window(10, Some(1), None, None, true, false, false)
  const Win11 := Window(11, Some(2), None, None, false, false, false)

  lemma GroupedSeed()
    ensures Grouped([Win10, Win11]) == map[1 := [Win10], 2 := [Win11]]
  {
    var none: Buckets := map[];
    assert [Win10, Win11][..1] == [Win10];
    assert [Win10][..0] == [];
    assert BucketKey(Win10) == 1 && BucketKey(Win11) == 2;
    var one := Pushed(none, Win10);
    assert one.Keys == {1} && one[1] == [Win10];
    var two := Pushed(one, Win11);
    assert two.Keys == {1, 2} && two[1] == [Win10] && two[2] == [Win11];
    assert two == map[1 := [Win10], 2 := [Win11]];
    assert Grouped([Win10]) == one by {
      assert Grouped([Win10][..0]) == none;
    }
    assert Grouped([Win10, Win11]) == Pushed(Grouped([Win10]), Win11);
  }

  /** Two workspaces, window 10 focused on the first and window 11 on the second. */
  function Seed(): (r: Snapshot)
    ensures r.workspaces == [Ws1, Ws2] && r.windowsByWorkspace == map[1 := [Win10], 2 := [Win11]]
    ensures r.focusedWorkspaceId == Some(1) && r.selectedWorkspaceId == Some(1)
  {
    var s := Seeded(Initial, Patch(Some([Ws1, Ws2]), None, None, None, None, None));
    var s := Step(s, WindowsChanged([Win10, Win11]));
    var s := Step(s, WorkspacesChanged([Ws1, Ws2]));
    GroupedSeed();
    Seeded(s, Patch(None, None, None, None, None, None))
  }

  /** Moving window 10 to workspace 2 empties bucket 1 and appends it after window 11; then
      activating workspace 2 with focus moves the focus flags and the focused id. */
  lemma MoveThenActivate()
    ensures var moved := Step(Seed(), WindowOpenedOrChanged(Win10.(workspaceId := Some(2))));
      && moved.windowsByWorkspace[1] == []
      && moved.windowsByWorkspace[2] == [Win11, Win10.(workspaceId := Some(2))]
      && var act := Step(moved, WorkspaceActivated(2, true));
      && act.workspaces[0].isFocused == false && act.workspaces[1].isFocused == true
      && act.focusedWorkspaceId == Some(2)
  {
    var s := Seed();
    var w := Win10.(workspaceId := Some(2));
    MoveWin10();
    var moved := Step(s, WindowOpenedOrChanged(w));
    assert moved.workspaces == [Ws1, Ws2];
    ActivateWs2();
  }

  lemma MoveWin10()
    ensures Upserted(map[1 := [Win10], 2 := [Win11]], Win10.(workspaceId := Some(2)))
         == map[1 := [], 2 := [Win11, Win10.(workspaceId := Some(2))]]
  {
    assert WithoutId([Win10], 10) == [];
    assert [Win11][1..] == [];
    assert WithoutId([Win11], 10) == [Win11];
    var st := Stripped(map[1 := [Win10], 2 := [Win11]], 10);
    assert st == map[1 := [], 2 := [Win11]];
    var w := Win10.(workspaceId := Some(2));
    assert BucketKey(w) == 2;
    assert Upserted(map[1 := [Win10], 2 := [Win11]], w) == st[2 := st[2] + [w]];
    assert st[2] + [w] == [Win11, w];
    assert st[2 := [Win11, w]] == map[1 := [], 2 := [Win11, w]];
  }

  lemma ActivateWs2()
    ensures var a := Activated([Ws1, Ws2], 2, true);
      a[0].isFocused == false && a[1].isFocused == true
  {
  }
}
