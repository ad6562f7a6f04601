/**
 * The window manager's records and events as both copies of the state store see them, and the
 * operations on the workspace-to-windows map that the two copies share. Each copy (module Store for
 * the JavaScript front end, module Client for the Rust back end) combines these into its own
 * transition; the two differ only in how focus ids fall back.
 */
module Niri {
  import opened Wrappers

  /** Ids are u64 in the back end and never negative. */
  type Id = nat

  datatype Workspace = Workspace(
    id: Id,
    idx: nat,
    name: Option<string>,
    isFocused: bool,
    isActive: bool)

  datatype Window = Window(
    id: Id,
    workspaceId: Option<Id>,
    appId: Option<string>,
    title: Option<string>,
    isFocused: bool,
    isFloating: bool,
    isUrgent: bool)

  /** The externally tagged events: the six handled variants, and any other variant by name. */
  datatype Event =
    | WorkspacesChanged(workspaces: seq<Workspace>)
    | WorkspaceActivated(id: Id, focused: bool)
    | WindowsChanged(windows: seq<Window>)
    | WindowOpenedOrChanged(window: Window)
    | WindowClosed(id: Id)
    | WindowFocusChanged(focus: Option<Id>)
    | Unhandled(variant: string)

  /** `windows_by_workspace`: workspace id to the windows on it, in order. */
  type Buckets = map<Id, seq<Window>>

  /** The bucket a window belongs to: `workspace_id ?? 0` / `workspace_id.unwrap_or(0)`. */
  function BucketKey(w: Window): Id {
    w.workspaceId.GetOr(0)
  }

  // ---------------------------------------------------------------------------------------------
  // First flagged element (`find(w => w.is_focused)?.id`)

  function FirstFocusedWorkspace(wss: seq<Workspace>): (r: Option<Id>)
    ensures r.None? <==> forall i :: 0 <= i < |wss| ==> !wss[i].isFocused
    ensures r.Some? ==> exists i :: 0 <= i < |wss| && wss[i].isFocused && wss[i].id == r.value
                                    && forall j :: 0 <= j < i ==> !wss[j].isFocused
  {
    if wss == [] then None
    else if wss[0].isFocused then Some(wss[0].id)
    else
      var r := FirstFocusedWorkspace(wss[1..]);
      assert r.Some? ==> exists i :: 0 <= i < |wss[1..]| && wss[1..][i].isFocused && wss[1..][i].id == r.value
                                     && forall j :: 0 <= j < i ==> !wss[1..][j].isFocused;
      assert r.Some? ==> exists i :: 1 <= i < |wss| && wss[i].isFocused && wss[i].id == r.value
                                     && forall j :: 0 <= j < i ==> !wss[j].isFocused by {
        if r.Some? {
          var i :| 0 <= i < |wss[1..]| && wss[1..][i].isFocused && wss[1..][i].id == r.value
                   && forall j :: 0 <= j < i ==> !wss[1..][j].isFocused;
          assert forall j :: 0 <= j < i + 1 ==> !wss[j].isFocused by {
            forall j | 0 <= j < i + 1 ensures !wss[j].isFocused {
              if j > 0 { assert wss[j] == wss[1..][j - 1]; }
            }
          }
          assert wss[i + 1] == wss[1..][i];
        }
      }
      r
  }

  function FirstFocusedWindow(wins: seq<Window>): (r: Option<Id>)
    ensures r.None? <==> forall i :: 0 <= i < |wins| ==> !wins[i].isFocused
    ensures r.Some? ==> exists i :: 0 <= i < |wins| && wins[i].isFocused && wins[i].id == r.value
                                    && forall j :: 0 <= j < i ==> !wins[j].isFocused
  {
    if wins == [] then None
    else if wins[0].isFocused then Some(wins[0].id)
    else
      var r := FirstFocusedWindow(wins[1..]);
      assert r.Some? ==> exists i :: 1 <= i < |wins| && wins[i].isFocused && wins[i].id == r.value
                                     && forall j :: 0 <= j < i ==> !wins[j].isFocused by {
        if r.Some? {
          var i :| 0 <= i < |wins[1..]| && wins[1..][i].isFocused && wins[1..][i].id == r.value
                   && forall j :: 0 <= j < i ==> !wins[1..][j].isFocused;
          assert forall j :: 0 <= j < i + 1 ==> !wins[j].isFocused by {
            forall j | 0 <= j < i + 1 ensures !wins[j].isFocused {
              if j > 0 { assert wins[j] == wins[1..][j - 1]; }
            }
          }
          assert wins[i + 1] == wins[1..][i];
        }
      }
      r
  }

  // ---------------------------------------------------------------------------------------------
  // WorkspaceActivated

  /** Every workspace becomes active exactly when its id matches; focus flags follow only when the
      activation also moves focus. */
  function Activated(wss: seq<Workspace>, id: Id, focused: bool): (r: seq<Workspace>)
    ensures |r| == |wss|
  {
    seq(|wss|, i requires 0 <= i < |wss| =>
      wss[i].(isActive := wss[i].id == id,
              isFocused := if focused then wss[i].id == id else wss[i].isFocused))
  }

  predicate DistinctWorkspaceIds(wss: seq<Workspace>) {
    forall i, j :: 0 <= i < |wss| && 0 <= j < |wss| && wss[i].id == wss[j].id ==> i == j
  }

  predicate AtMostOneFocusedWorkspace(wss: seq<Workspace>) {
    forall i, j :: 0 <= i < |wss| && 0 <= j < |wss| && wss[i].isFocused && wss[j].isFocused ==> i == j
  }

  /** Activation keeps the list (same length, order and every field but the two flags), makes the
      matching workspace the only active one, and moves focus only when `focused` is set; with
      distinct ids a focusing activation leaves at most one focused workspace, and exactly one when
      the id is present. */
  lemma ActivatedFacts(wss: seq<Workspace>, id: Id, focused: bool)
    ensures var r := Activated(wss, id, focused);
      && (forall i :: 0 <= i < |r| ==>
            r[i].id == wss[i].id && r[i].idx == wss[i].idx && r[i].name == wss[i].name
            && (r[i].isActive <==> wss[i].id == id)
            && (!focused ==> r[i].isFocused == wss[i].isFocused)
            && (focused ==> (r[i].isFocused <==> wss[i].id == id)))
      && (focused && DistinctWorkspaceIds(wss) ==> AtMostOneFocusedWorkspace(r))
      && (focused ==> ((exists i :: 0 <= i < |wss| && wss[i].id == id)
                        <==> (exists i :: 0 <= i < |r| && r[i].isFocused)))
  {
    var r := Activated(wss, id, focused);
    if focused {
      if exists i :: 0 <= i < |wss| && wss[i].id == id {
        var i :| 0 <= i < |wss| && wss[i].id == id;
        assert r[i].isFocused;
      }
    }
  }

  // ---------------------------------------------------------------------------------------------
  // Removing a window id (`filter(w => w.id !== id)` / `retain(|w| w.id != id)`)

  function WithoutId(wins: seq<Window>, id: Id): (r: seq<Window>)
    ensures |r| <= |wins|
    decreases |wins|
  {
    if wins == [] then []
    else (if wins[0].id == id then [] else [wins[0]]) + WithoutId(wins[1..], id)
  }

  /** The filter keeps exactly the windows with other ids, drops nothing when the id is absent, is
      idempotent, and distributes over concatenation (so relative order is kept). */
  lemma {:induction false} WithoutIdFacts(wins: seq<Window>, id: Id)
    ensures forall w :: w in WithoutId(wins, id) <==> w in wins && w.id != id
    ensures (forall i :: 0 <= i < |wins| ==> wins[i].id != id) ==> WithoutId(wins, id) == wins
    ensures WithoutId(WithoutId(wins, id), id) == WithoutId(wins, id)
    decreases |wins|
  {
    if wins != [] {
      WithoutIdFacts(wins[1..], id);
      WithoutIdConcat(if wins[0].id == id then [] else [wins[0]], WithoutId(wins[1..], id), id);
      assert wins == [wins[0]] + wins[1..];
      assert (forall i :: 0 <= i < |wins| ==> wins[i].id != id) ==>
             (forall i :: 0 <= i < |wins[1..]| ==> wins[1..][i].id != id) by {
        forall i | 0 <= i < |wins[1..]| ensures wins[1..][i] == wins[i + 1] { }
      }
    }
  }

  lemma {:induction false} WithoutIdConcat(a: seq<Window>, b: seq<Window>, id: Id)
    ensures WithoutId(a + b, id) == WithoutId(a, id) + WithoutId(b, id)
    decreases |a|
  {
    if a != [] {
      assert (a + b)[1..] == a[1..] + b;
      WithoutIdConcat(a[1..], b, id);
    } else {
      assert a + b == b;
    }
  }

  /** The id occurs somewhere in a bucket map. */
  predicate Holds(m: Buckets, id: Id) {
    exists k, i :: k in m && 0 <= i < |m[k]| && m[k][i].id == id
  }

  /** `WindowClosed`: every bucket loses its windows with that id; no bucket is dropped. */
  function Stripped(m: Buckets, id: Id): (r: Buckets)
    ensures r.Keys == m.Keys
  {
    map k | k in m :: WithoutId(m[k], id)
  }

  /** No window with the id survives, every other window stays in its bucket in order, and an id
      held nowhere leaves the map as it was. */
  lemma StrippedFacts(m: Buckets, id: Id)
    ensures !Holds(Stripped(m, id), id)
    ensures forall k, w :: k in m ==> (w in Stripped(m, id)[k] <==> w in m[k] && w.id != id)
    ensures !Holds(m, id) ==> Stripped(m, id) == m
  {
    var r: Buckets := Stripped(m, id);
    forall k | k in m
      ensures forall w :: w in r[k] <==> w in m[k] && w.id != id
      ensures WithoutId(m[k], id) == m[k] || Holds(m, id)
    {
      WithoutIdFacts(m[k], id);
      if WithoutId(m[k], id) != m[k] {
        var i :| 0 <= i < |m[k]| && m[k][i].id == id;
      }
    }
    if Holds(r, id) {
      assert false;
    }
  }

  // ---------------------------------------------------------------------------------------------
  // WindowOpenedOrChanged

  /** Drop every copy of the window, then append it to its (possibly new) bucket. */
  function Upserted(m: Buckets, w: Window): (r: Buckets)
    ensures r.Keys == m.Keys + {BucketKey(w)}
  {
    var s := Stripped(m, w.id);
    var k := BucketKey(w);
    s[k := (if k in s then s[k] else []) + [w]]
  }

  /** After an upsert the window's id occurs exactly once across all buckets, as the last element
      of its bucket, and every other window keeps its bucket and its relative order. */
  lemma UpsertedFacts(m: Buckets, w: Window)
    ensures var r := Upserted(m, w); var k := BucketKey(w);
      && k in r && |r[k]| > 0 && r[k][|r[k]| - 1] == w
      && (forall k', i :: k' in r && 0 <= i < |r[k']| && r[k'][i].id == w.id ==>
            k' == k && i == |r[k]| - 1)
      && (forall k' :: k' in m ==> WithoutId(r[k'], w.id) == WithoutId(m[k'], w.id))
  {
    var r: Buckets := Upserted(m, w);
    var s := Stripped(m, w.id);
    var k := BucketKey(w);
    StrippedFacts(m, w.id);
    forall k': Id, i: int | k' in r && 0 <= i < |r[k']| && r[k'][i].id == w.id
      ensures k' == k && i == |r[k]| - 1
    {
      if k' != k {
        assert false;
      } else if i < |r[k]| - 1 {
        assert false;
      }
    }
    forall k' | k' in m ensures WithoutId(r[k'], w.id) == WithoutId(m[k'], w.id) {
      WithoutIdFacts(m[k'], w.id);
      if k' == k {
        WithoutIdConcat(s[k], [w], w.id);
        assert WithoutId([w], w.id) == [];
      }
    }
  }

  // ---------------------------------------------------------------------------------------------
  // Uniqueness of window ids across buckets

  /** Every window id occurs in at most one place across all buckets. */
  predicate UniqueIds(m: Buckets) {
    forall k1, i1, k2, i2 ::
      k1 in m && k2 in m && 0 <= i1 < |m[k1]| && 0 <= i2 < |m[k2]| && m[k1][i1].id == m[k2][i2].id
      ==> k1 == k2 && i1 == i2
  }

  /** No two windows of the list share an id. */
  predicate DistinctWindowIds(wins: seq<Window>) {
    forall i, j :: 0 <= i < |wins| && 0 <= j < |wins| && wins[i].id == wins[j].id ==> i == j
  }

  /** The filter keeps exactly the windows with other ids (the first half of `WithoutIdFacts`). */
  lemma WithoutIdMembers(wins: seq<Window>, id: Id)
    ensures forall w :: w in WithoutId(wins, id) <==> w in wins && w.id != id
  {
    WithoutIdFacts(wins, id);
  }

  /** The tail of a list with distinct ids has distinct ids, none of them the head's. */
  lemma DistinctTail(wins: seq<Window>)
    requires wins != [] && DistinctWindowIds(wins)
    ensures DistinctWindowIds(wins[1..])
    ensures forall w :: w in wins[1..] ==> w.id != wins[0].id
  {
    var t := wins[1..];
    forall i, j | 0 <= i < |t| && 0 <= j < |t| && t[i].id == t[j].id ensures i == j {
      assert t[i] == wins[i + 1] && t[j] == wins[j + 1];
    }
    forall w | w in t ensures w.id != wins[0].id {
      var i :| 0 <= i < |t| && t[i] == w;
      assert wins[i + 1] == w;
    }
  }

  /** A window whose id the rest lacks can go in front of a list with distinct ids. */
  lemma DistinctCons(w: Window, rest: seq<Window>)
    requires DistinctWindowIds(rest) && forall x :: x in rest ==> x.id != w.id
    ensures DistinctWindowIds([w] + rest)
  {
    var r := [w] + rest;
    forall i, j | 0 <= i < |r| && 0 <= j < |r| && r[i].id == r[j].id ensures i == j {
      if i > 0 {
        assert r[i] == rest[i - 1] && r[i] in rest;
      }
      if j > 0 {
        assert r[j] == rest[j - 1] && r[j] in rest;
      }
    }
  }

  /** Removing windows cannot create a duplicate. */
  lemma {:induction false} WithoutIdKeepsDistinct(wins: seq<Window>, id: Id)
    requires DistinctWindowIds(wins)
    ensures DistinctWindowIds(WithoutId(wins, id))
    decreases |wins|
  {
    if wins != [] {
      var t := wins[1..];
      DistinctTail(wins);
      WithoutIdKeepsDistinct(t, id);
      if wins[0].id == id {
        assert WithoutId(wins, id) == WithoutId(t, id);
      } else {
        WithoutIdMembers(t, id);
        DistinctCons(wins[0], WithoutId(t, id));
      }
    }
  }

  /** Every window the filter keeps is a window of the input. */
  lemma WithoutIdFrom(wins: seq<Window>, id: Id, i: int)
    requires 0 <= i < |WithoutId(wins, id)|
    ensures exists j :: 0 <= j < |wins| && wins[j] == WithoutId(wins, id)[i]
  {
    WithoutIdFacts(wins, id);
    assert WithoutId(wins, id)[i] in WithoutId(wins, id);
  }

  /** With unique ids across buckets, each bucket on its own is free of duplicates. */
  lemma UniqueBucket(m: Buckets, k: Id)
    requires UniqueIds(m) && k in m
    ensures DistinctWindowIds(m[k])
  {
  }

  /** Closing keeps ids unique. */
  lemma StrippedKeepsUnique(m: Buckets, id: Id)
    requires UniqueIds(m)
    ensures UniqueIds(Stripped(m, id))
  {
    var r: Buckets := Stripped(m, id);
    forall k1: Id, i1: int, k2: Id, i2: int |
      k1 in r && k2 in r && 0 <= i1 < |r[k1]| && 0 <= i2 < |r[k2]| && r[k1][i1].id == r[k2][i2].id
      ensures k1 == k2 && i1 == i2
    {
      assert r[k1] == WithoutId(m[k1], id) && r[k2] == WithoutId(m[k2], id);
      WithoutIdFrom(m[k1], id, i1);
      WithoutIdFrom(m[k2], id, i2);
      var j1 :| 0 <= j1 < |m[k1]| && m[k1][j1] == r[k1][i1];
      var j2 :| 0 <= j2 < |m[k2]| && m[k2][j2] == r[k2][i2];
      assert k1 == k2;
      UniqueBucket(m, k1);
      WithoutIdKeepsDistinct(m[k1], id);
    }
  }

  /** An upsert keeps ids unique. */
  lemma UpsertedKeepsUnique(m: Buckets, w: Window)
    requires UniqueIds(m)
    ensures UniqueIds(Upserted(m, w))
  {
    var r: Buckets := Upserted(m, w);
    var s := Stripped(m, w.id);
    StrippedKeepsUnique(m, w.id);
    UpsertedFacts(m, w);
    var k := BucketKey(w);
    forall k1: Id, i1: int, k2: Id, i2: int |
      k1 in r && k2 in r && 0 <= i1 < |r[k1]| && 0 <= i2 < |r[k2]| && r[k1][i1].id == r[k2][i2].id
      ensures k1 == k2 && i1 == i2
    {
      if r[k1][i1].id != w.id {
        assert k1 in s && i1 < |s[k1]| && r[k1][i1] == s[k1][i1] by {
          if k1 == k {
            assert i1 != |r[k]| - 1;
          }
        }
        assert k2 in s && i2 < |s[k2]| && r[k2][i2] == s[k2][i2] by {
          if k2 == k {
            assert i2 != |r[k]| - 1;
          }
        }
      }
    }
  }

  // ---------------------------------------------------------------------------------------------
  // WindowFocusChanged

  /** Each window of a bucket is focused exactly when its id is the focus id. */
  function Refocused(wins: seq<Window>, focus: Option<Id>): (r: seq<Window>)
    ensures |r| == |wins|
  {
    seq(|wins|, i requires 0 <= i < |wins| => wins[i].(isFocused := Some(wins[i].id) == focus))
  }

  function FocusedOnly(m: Buckets, focus: Option<Id>): (r: Buckets)
    ensures r.Keys == m.Keys
  {
    map k | k in m :: Refocused(m[k], focus)
  }

  /** Buckets keep their windows in place, only the focus flag changes; with no focus id no window
      is focused; with unique ids at most one window is focused. */
  lemma FocusedOnlyFacts(m: Buckets, focus: Option<Id>)
    ensures var r := FocusedOnly(m, focus);
      && (forall k, i :: k in m && 0 <= i < |m[k]| ==>
            |r[k]| == |m[k]| && r[k][i] == m[k][i].(isFocused := r[k][i].isFocused)
            && (r[k][i].isFocused <==> Some(m[k][i].id) == focus))
      && (focus.None? ==> forall k, i :: k in r && 0 <= i < |r[k]| ==> !r[k][i].isFocused)
      && (UniqueIds(m) ==> UniqueIds(r))
      && (UniqueIds(m) ==> forall k1, i1, k2, i2 ::
            (k1 in r && k2 in r && 0 <= i1 < |r[k1]| && 0 <= i2 < |r[k2]|
             && r[k1][i1].isFocused && r[k2][i2].isFocused) ==> k1 == k2 && i1 == i2)
  {
  }

  // ---------------------------------------------------------------------------------------------
  // WindowsChanged

  /** One step of `groupByWorkspace` / `entry(ws_id).or_default().push(win)`. */
  function Pushed(m: Buckets, w: Window): Buckets {
    var k := BucketKey(w);
    m[k := (if k in m then m[k] else []) + [w]]
  }

  /** The grouping of a window list, built left to right. */
  function Grouped(wins: seq<Window>): Buckets
    decreases |wins|
  {
    if wins == [] then map[] else Pushed(Grouped(wins[..|wins| - 1]), wins[|wins| - 1])
  }

  /** The windows of a list that belong to bucket `k`, in list order. */
  function OnWorkspace(wins: seq<Window>, k: Id): seq<Window>
    decreases |wins|
  {
    if wins == [] then []
    else OnWorkspace(wins[..|wins| - 1], k) + (if BucketKey(wins[|wins| - 1]) == k then [wins[|wins| - 1]] else [])
  }

  /** Grouping loses and duplicates nothing: there is a bucket exactly for each key some window
      has, and each bucket is the input's windows with that key, in input order. */
  lemma {:induction false} GroupedFacts(wins: seq<Window>)
    ensures forall k :: k in Grouped(wins) <==> exists i :: 0 <= i < |wins| && BucketKey(wins[i]) == k
    ensures forall k :: k in Grouped(wins) ==> Grouped(wins)[k] == OnWorkspace(wins, k)
    decreases |wins|
  {
    if wins != [] {
      var init := wins[..|wins| - 1];
      var last := wins[|wins| - 1];
      GroupedFacts(init);
      OnWorkspaceEmpty(init);
      forall k ensures k in Grouped(wins) <==> exists i :: 0 <= i < |wins| && BucketKey(wins[i]) == k {
        if k in Grouped(init) {
          var i :| 0 <= i < |init| && BucketKey(init[i]) == k;
          assert wins[i] == init[i];
        }
        if exists i :: 0 <= i < |wins| && BucketKey(wins[i]) == k {
          var i :| 0 <= i < |wins| && BucketKey(wins[i]) == k;
          if i < |wins| - 1 {
            assert init[i] == wins[i];
          }
        }
      }
    }
  }

  /** A key no window of the list has gets an empty selection. */
  lemma {:induction false} OnWorkspaceEmpty(wins: seq<Window>)
    ensures forall k :: (forall i :: 0 <= i < |wins| ==> BucketKey(wins[i]) != k) ==> OnWorkspace(wins, k) == []
    decreases |wins|
  {
    if wins != [] {
      OnWorkspaceEmpty(wins[..|wins| - 1]);
      forall k | forall i :: 0 <= i < |wins| ==> BucketKey(wins[i]) != k
        ensures OnWorkspace(wins, k) == []
      {
        assert forall i :: 0 <= i < |wins| - 1 ==> wins[..|wins| - 1][i] == wins[i];
      }
    }
  }

  /** Every window placed by grouping comes from the input list. */
  lemma {:induction false} GroupedMembers(wins: seq<Window>)
    ensures forall k, w :: k in Grouped(wins) && w in Grouped(wins)[k] ==> w in wins && BucketKey(w) == k
    decreases |wins|
  {
    if wins != [] {
      var init := wins[..|wins| - 1];
      GroupedMembers(init);
      assert forall w :: w in init ==> w in wins;
    }
  }

  /** All but the last of a list with distinct ids have distinct ids. */
  lemma DistinctInit(wins: seq<Window>)
    requires wins != [] && DistinctWindowIds(wins)
    ensures DistinctWindowIds(wins[..|wins| - 1])
  {
    var init := wins[..|wins| - 1];
    forall i, j | 0 <= i < |init| && 0 <= j < |init| && init[i].id == init[j].id ensures i == j {
      assert init[i] == wins[i] && init[j] == wins[j];
    }
  }

  /** In a list with distinct ids, no window grouped from the earlier ones has the last one's id. */
  lemma LastIsNew(wins: seq<Window>, init: seq<Window>)
    requires wins != [] && DistinctWindowIds(wins) && init == wins[..|wins| - 1]
    ensures forall k: Id, w: Window :: k in Grouped(init) && w in Grouped(init)[k] ==> w.id != wins[|wins| - 1].id
  {
    var g := Grouped(init);
    GroupedMembers(init);
    forall k: Id, w: Window | k in g && w in g[k] ensures w.id != wins[|wins| - 1].id {
      assert w in init;
      var i :| 0 <= i < |init| && init[i] == w;
      assert wins[i] == w;
    }
  }

  /** Grouping a list with distinct ids yields unique ids across buckets. */
  lemma {:induction false} GroupedKeepsUnique(wins: seq<Window>)
    requires DistinctWindowIds(wins)
    ensures UniqueIds(Grouped(wins))
    decreases |wins|
  {
    if wins != [] {
      var init := wins[..|wins| - 1];
      var last := wins[|wins| - 1];
      DistinctInit(wins);
      GroupedKeepsUnique(init);
      LastIsNew(wins, init);
      var g := Grouped(init);
      var r: Buckets := Grouped(wins);
      var k := BucketKey(last);
      assert r == Pushed(g, last);
      forall k1: Id, i1: int, k2: Id, i2: int |
        k1 in r && k2 in r && 0 <= i1 < |r[k1]| && 0 <= i2 < |r[k2]| && r[k1][i1].id == r[k2][i2].id
        ensures k1 == k2 && i1 == i2
      {
        var isLast1 := k1 == k && i1 == |r[k]| - 1;
        var isLast2 := k2 == k && i2 == |r[k]| - 1;
        if !isLast1 {
          assert k1 in g && i1 < |g[k1]| && r[k1][i1] == g[k1][i1];
          assert g[k1][i1] in g[k1];
        }
        if !isLast2 {
          assert k2 in g && i2 < |g[k2]| && r[k2][i2] == g[k2][i2];
          assert g[k2][i2] in g[k2];
        }
      }
    }
  }
}
