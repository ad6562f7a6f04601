/**
 * The view's logic (render.js): the workspace the window grid shows, the keyboard navigation
 * list and its wrapping cursor, workspace selection with the arrow keys, the search filters, the
 * icon cache with its set of fetches in flight, and the string helpers used to build markup.
 * The markup itself is not modelled; what the view sends to the back end is a `Command`.
 */
module Render {
  import opened Wrappers
  import opened Text
  import opened Niri
  import Store
  import AppNames
  import Icons

  // ---------------------------------------------------------------------------------------------
  // The workspace on view

  /** `workspaces[0]?.id`. */
  function FirstWorkspaceId(wss: seq<Workspace>): Option<Id> {
    if wss == [] then None else Some(wss[0].id)
  }

  /** `selected_workspace_id || focused_workspace_id || workspaces[0]?.id`: the workspace whose
      windows the grid shows and the navigation list holds. A null id and an id of 0 both fall
      through to the next choice; there is none only when the list is empty as well. */
  function EffectiveWorkspace(s: Store.Snapshot): (r: Option<Id>)
    ensures Store.Truthy(s.selectedWorkspaceId) ==> r == s.selectedWorkspaceId
    ensures !Store.Truthy(s.selectedWorkspaceId) && Store.Truthy(s.focusedWorkspaceId) ==>
      r == s.focusedWorkspaceId
    ensures !Store.Truthy(s.selectedWorkspaceId) && !Store.Truthy(s.focusedWorkspaceId) ==>
      r == FirstWorkspaceId(s.workspaces)
    ensures r.None? <==>
      !Store.Truthy(s.selectedWorkspaceId) && !Store.Truthy(s.focusedWorkspaceId) && s.workspaces == []
  {
    Store.Or(Store.Or(s.selectedWorkspaceId, s.focusedWorkspaceId), FirstWorkspaceId(s.workspaces))
  }

  /** The selection the layout strip and the arrow keys go by: `selected_workspace_id ||
      focused_workspace_id`, without the fallback to the first workspace. */
  function StripSelection(s: Store.Snapshot): Option<Id> {
    Store.Or(s.selectedWorkspaceId, s.focusedWorkspaceId)
  }

  /** The strip and the workspace list agree whenever the strip's selection is truthy; when it is
      not, the list still shows the first workspace while (with non-zero ids) no strip column is
      marked active. */
  lemma StripAndList(s: Store.Snapshot)
    ensures Store.Truthy(StripSelection(s)) ==> EffectiveWorkspace(s) == StripSelection(s)
    ensures !Store.Truthy(StripSelection(s)) ==> EffectiveWorkspace(s) == FirstWorkspaceId(s.workspaces)
    ensures !Store.Truthy(StripSelection(s)) && (forall i :: 0 <= i < |s.workspaces| ==> s.workspaces[i].id != 0) ==>
      forall i :: 0 <= i < |s.workspaces| ==> StripSelection(s) != Some(s.workspaces[i].id)
  {
  }

  /** `state.windows_by_workspace[id] || []`: the bucket of a present id, else no windows. */
  function BucketOf(m: Buckets, k: Option<Id>): (r: seq<Window>)
    ensures k.Some? && k.value in m ==> r == m[k.value]
    ensures k.None? || k.value !in m ==> r == []
  {
    if k.Some? && k.value in m then m[k.value] else []
  }

  /** `rebuildNavItems`: the ids of the effective workspace's windows, in bucket order. */
  function NavItems(s: Store.Snapshot): (r: seq<Id>)
    ensures var b := BucketOf(s.windowsByWorkspace, EffectiveWorkspace(s));
      |r| == |b| && forall i :: 0 <= i < |b| ==> r[i] == b[i].id
  {
    var b := BucketOf(s.windowsByWorkspace, EffectiveWorkspace(s));
    seq(|b|, i requires 0 <= i < |b| => b[i].id)
  }

  // ---------------------------------------------------------------------------------------------
  // Search filters

  /** `xs.filter(p)`. */
  function Filter<T(!new)>(xs: seq<T>, p: T -> bool): (r: seq<T>)
    ensures |r| <= |xs|
    ensures forall x :: x in r <==> x in xs && p(x)
    decreases |xs|
  {
    if xs == [] then [] else (if p(xs[0]) then [xs[0]] else []) + Filter(xs[1..], p)
  }

  /** Filtering keeps the kept elements in their order: it distributes over concatenation. */
  lemma {:induction false} FilterConcat<T(!new)>(a: seq<T>, b: seq<T>, p: T -> bool)
    ensures Filter(a + b, p) == Filter(a, p) + Filter(b, p)
    decreases |a|
  {
    if a == [] {
      assert a + b == b;
    } else {
      assert (a + b)[0] == a[0];
      assert (a + b)[1..] == a[1..] + b;
      FilterConcat(a[1..], b, p);
    }
  }

  /** Filtering twice by the same test is filtering once. */
  lemma {:induction false} FilterIdempotent<T(!new)>(xs: seq<T>, p: T -> bool)
    ensures Filter(Filter(xs, p), p) == Filter(xs, p)
    decreases |xs|
  {
    if xs != [] {
      var head := if p(xs[0]) then [xs[0]] else [];
      FilterConcat(head, Filter(xs[1..], p), p);
      FilterIdempotent(xs[1..], p);
      if p(xs[0]) {
        assert Filter(head, p) == [xs[0]] + Filter(head[1..], p);
      }
    }
  }

  /** The display name the grid reads, `resolveApp(app_id).name` as written: undefined (None)
      when the lookup lands on `__proto__`. */
  function AppName(appId: Option<string>): Option<string> {
    AppNames.ResolveAsWritten(appId).name
  }

  /** Whether that name is undefined: the lowercased last segment of the id is `__proto__`. */
  predicate Nameless(appId: Option<string>) {
    appId.Some? && LastSegment(ToLower(appId.value), '.') == "__proto__"
  }

  /** The window filter's test (render.js:166-168) against the already lower-cased query `q`,
      evaluated left to right: the lower-cased title (or ""), then the lower-cased app name,
      then the lower-cased app id (or ""). None when it throws: a title that misses leads to
      lower-casing the name, which fails when the name is undefined. */
  function WindowTest(w: Window, q: string): (r: Option<bool>)
    ensures r.None? <==> !Contains(ToLower(w.title.GetOr("")), q) && Nameless(w.appId)
    ensures Contains(ToLower(w.title.GetOr("")), q) ==> r == Some(true)
  {
    if Contains(ToLower(w.title.GetOr("")), q) then Some(true)
    else
      match AppName(w.appId)
      case None => None
      case Some(name) => Some(Contains(ToLower(name), q) || Contains(ToLower(w.appId.GetOr("")), q))
  }

  /** The test as a function value, for `Filter`. */
  function HitBy(q: string): Window -> bool {
    w => WindowTest(w, q) == Some(true)
  }

  /** `wins.filter(test)` with a test that may throw: the first throw ends the whole filter,
      and otherwise the windows that pass are kept in their order. */
  function TryFilter(wins: seq<Window>, q: string): (r: Option<seq<Window>>)
    ensures r.None? <==> exists i :: 0 <= i < |wins| && WindowTest(wins[i], q).None?
    ensures r.Some? ==> r.value == Filter(wins, HitBy(q))
    decreases |wins|
  {
    if wins == [] then Some([])
    else
      match WindowTest(wins[0], q)
      case None => None
      case Some(hit) =>
        var rest := TryFilter(wins[1..], q);
        assert rest.None? <==> exists i :: 1 <= i < |wins| && WindowTest(wins[i], q).None? by {
          if rest.None? {
            var i :| 0 <= i < |wins[1..]| && WindowTest(wins[1..][i], q).None?;
            assert wins[i + 1] == wins[1..][i];
          }
          if exists i :: 1 <= i < |wins| && WindowTest(wins[i], q).None? {
            var i :| 1 <= i < |wins| && WindowTest(wins[i], q).None?;
            assert wins[1..][i - 1] == wins[i];
          }
        }
        if rest.None? then None else Some((if hit then [wins[0]] else []) + rest.value)
  }

  /** The grid's window filter: an empty query keeps the bucket as it is. Otherwise the filter
      throws exactly when some window's test does, and else keeps exactly the windows whose
      test passes, in their order. */
  function FilterWindows(wins: seq<Window>, query: string): (r: Option<seq<Window>>)
    ensures query == "" ==> r == Some(wins)
    ensures query != "" ==>
      (r.None? <==> exists i :: 0 <= i < |wins| && WindowTest(wins[i], ToLower(query)).None?)
    ensures query != "" && r.Some? ==> r.value == Filter(wins, HitBy(ToLower(query)))
    ensures query != "" && r.Some? ==>
      forall w :: w in r.value <==> w in wins && WindowTest(w, ToLower(query)) == Some(true)
  {
    if query == "" then Some(wins) else TryFilter(wins, ToLower(query))
  }

  /** The query's case does not matter, and filtering what is on view again changes nothing. */
  lemma FilterWindowsFacts(wins: seq<Window>, query: string)
    ensures FilterWindows(wins, ToLower(query)) == FilterWindows(wins, query)
    ensures FilterWindows(wins, query).Some? ==>
      FilterWindows(FilterWindows(wins, query).value, query) == FilterWindows(wins, query)
  {
    ToLowerFixpoints(query);
    if query != "" && FilterWindows(wins, query).Some? {
      var q := ToLower(query);
      var r := Filter(wins, HitBy(q));
      forall i | 0 <= i < |r|
        ensures WindowTest(r[i], q).Some?
      {
        assert r[i] in r;
        var j :| 0 <= j < |wins| && wins[j] == r[i];
      }
      FilterIdempotent(wins, HitBy(q));
    }
  }

  /** Whether building a card's title throws: the title is falsy and the name undefined. */
  predicate CardThrows(w: Window) {
    (w.title.None? || w.title == Some("")) && Nameless(w.appId)
  }

  /** The title line of a window card (render.js:218): the title, or when it is missing or
      empty the app's display name, cut to 26 characters. None when `truncate` throws, which is
      when the title is falsy and the name undefined. */
  function CardTitle(w: Window): (r: Option<string>)
    ensures r.None? <==> CardThrows(w)
    ensures r.Some? ==> r.value != "" && |r.value| <= 27
    ensures w.title.Some? && w.title.value != "" ==> r == Some(Truncate(w.title.value, 26))
  {
    var shown := if w.title.Some? && w.title.value != "" then Some(w.title.value) else AppName(w.appId);
    if shown.None? then None else Some(Truncate(shown.value, 26))
  }

  /** For a window whose app id reads no inherited member, neither the filter's test nor the
      card title throws, and both are what they would be with the own-property lookup. */
  lemma AsWrittenViewAgrees(w: Window, q: string)
    requires w.appId.Some? ==> !AppNames.ReadsInherited(ToLower(w.appId.value))
    ensures var name := AppNames.ResolveApp(w.appId).name;
      && WindowTest(w, q) == Some(|| Contains(ToLower(w.title.GetOr("")), q)
                                  || Contains(ToLower(name), q)
                                  || Contains(ToLower(w.appId.GetOr("")), q))
      && CardTitle(w) == Some(Truncate(if w.title.Some? && w.title.value != "" then w.title.value else name, 26))
  {
    AppNames.AsWrittenAgrees(w.appId);
  }

  /** A workspace's label: its name when that is non-empty, else "ws " and its index. */
  function WorkspaceLabel(ws: Workspace): (r: string)
    ensures ws.name.Some? && ws.name.value != "" ==> r == ws.name.value
    ensures ws.name.None? || ws.name == Some("") ==> r == "ws " + NatToString(ws.idx)
    ensures r != ""
  {
    if ws.name.Some? && ws.name.value != "" then ws.name.value else "ws " + NatToString(ws.idx)
  }

  /** The workspace test against the already lower-cased query, as a function value. */
  function LabelHitBy(q: string): Workspace -> bool {
    ws => Contains(ToLower(WorkspaceLabel(ws)), q)
  }

  /** The sidebar's workspace filter: an empty query keeps every workspace; otherwise exactly the
      workspaces whose lower-cased label contains the lower-cased query, in their order. */
  function FilterWorkspaces(wss: seq<Workspace>, query: string): (r: seq<Workspace>)
    ensures query == "" ==> r == wss
    ensures query != "" ==> r == Filter(wss, LabelHitBy(ToLower(query)))
    ensures query != "" ==> forall ws :: ws in r <==>
      ws in wss && Contains(ToLower(WorkspaceLabel(ws)), ToLower(query))
    ensures |r| <= |wss|
  {
    if query == "" then wss else Filter(wss, LabelHitBy(ToLower(query)))
  }

  /** The windows the grid shows: the effective bucket, filtered by the stored query; None when
      the filter throws. */
  function Visible(s: Store.Snapshot): Option<seq<Window>> {
    FilterWindows(BucketOf(s.windowsByWorkspace, EffectiveWorkspace(s)), s.query)
  }

  /** The navigation list ignores the query, and so holds the id of every window on view (and
      possibly of windows the filter hides). */
  lemma VisibleInNav(s: Store.Snapshot, q: string)
    ensures NavItems(s.(query := q)) == NavItems(s)
    ensures Visible(s).Some? ==> forall w :: w in Visible(s).value ==> w.id in NavItems(s)
  {
    var b := BucketOf(s.windowsByWorkspace, EffectiveWorkspace(s));
    if Visible(s).Some? {
      forall w | w in Visible(s).value
        ensures w.id in NavItems(s)
      {
        var i :| 0 <= i < |b| && b[i] == w;
        assert NavItems(s)[i] == w.id;
      }
    }
  }

  // ---------------------------------------------------------------------------------------------
  // Navigation cursor

  /** The quotient of `a / b` truncated toward zero, as `Math.trunc(a / b)` gives it. */
  function JsQuot(a: int, b: int): int
    requires b > 0
  {
    if a >= 0 then a / b else -((-a) / b)
  }

  /** JavaScript's `%`: what is left of `a` after the truncated quotient, with the sign of `a`. */
  function JsRem(a: int, b: int): (r: int)
    requires b > 0
    ensures a >= 0 ==> 0 <= r < b
    ensures a < 0 ==> -b < r <= 0
  {
    if a >= 0 then a % b else -((-a) % b)
  }

  /** The remainder is what the truncated quotient leaves: `a == b * trunc(a / b) + a % b`. */
  lemma JsRemValue(a: int, b: int)
    requires b > 0
    ensures a == b * JsQuot(a, b) + JsRem(a, b)
  {
  }

  /** ArrowRight moves the cursor by +1, ArrowLeft by -1. */
  datatype Direction = Left | Right

  function Delta(d: Direction): int {
    if d == Right then 1 else -1
  }

  /** `navMove`'s new index, `(i + delta + len) % len`, unchanged on an empty list. From any
      non-negative index it lands in the list, and inside the list it steps and wraps at both ends. */
  function NavMoved(i: int, len: nat, d: Direction): (r: int)
    ensures len == 0 ==> r == i
    ensures len > 0 && i >= 0 ==> 0 <= r < len && r == (i + Delta(d) + len) % len
    ensures len > 0 && 0 <= i < len && d == Right ==> r == if i == len - 1 then 0 else i + 1
    ensures len > 0 && 0 <= i < len && d == Left ==> r == if i == 0 then len - 1 else i - 1
  {
    if len == 0 then
      i
    else
      var x := i + Delta(d) + len;
      RemOfRange(x, len);
      JsRem(x, len)
  }

  /** Below `2 * n` the remainder of a non-negative number by `n` needs at most one subtraction. */
  lemma RemOfRange(x: int, n: int)
    requires n > 0
    ensures x >= 0 ==> JsRem(x, n) == x % n
    ensures 0 <= x < n ==> x % n == x
    ensures n <= x < 2 * n ==> x % n == x - n
  {
    if 0 <= x < n {
      ModOfSmall(x, n);
    } else if n <= x < 2 * n {
      ModOfSmall(x - n, n);
      assert (x - n) % n == x % n;
    }
  }

  lemma ModOfSmall(x: int, n: int)
    requires 0 <= x < n
    ensures x % n == x
  {
  }

  /** Left undoes Right and Right undoes Left. */
  lemma NavMoveInverse(i: int, len: nat)
    requires 0 <= i < len
    ensures NavMoved(NavMoved(i, len, Right), len, Left) == i
    ensures NavMoved(NavMoved(i, len, Left), len, Right) == i
  {
  }

  /** `_navItems[_navIndex]`: undefined outside the list. */
  function ItemAt(items: seq<Id>, i: int): (r: Option<Id>)
    ensures r.Some? <==> 0 <= i < |items|
    ensures r.Some? ==> r.value == items[i]
  {
    if 0 <= i < |items| then Some(items[i]) else None
  }

  // ---------------------------------------------------------------------------------------------
  // Workspace selection with ArrowDown and ArrowUp

  /** `findIndex(w => w.id === target)`: -1 when the target is absent (or null). */
  function FindWorkspace(wss: seq<Workspace>, target: Option<Id>): (r: int)
    ensures -1 <= r < |wss|
    ensures r == -1 <==> target.None? || forall i :: 0 <= i < |wss| ==> wss[i].id != target.value
    ensures r >= 0 ==> target.Some? && wss[r].id == target.value
                       && forall j :: 0 <= j < r ==> wss[j].id != target.value
    decreases |wss|
  {
    if target.None? || wss == [] then -1
    else if wss[0].id == target.value then 0
    else
      var k := FindWorkspace(wss[1..], target);
      if k == -1 then -1 else k + 1
  }

  /** With distinct ids, the position of a workspace's id is that workspace's index. */
  lemma FindDistinct(wss: seq<Workspace>, k: int)
    requires DistinctWorkspaceIds(wss) && 0 <= k < |wss|
    ensures FindWorkspace(wss, Some(wss[k].id)) == k
  {
  }

  /** The workspace ArrowDown (`down`) or ArrowUp selects, or None when the key changes nothing.
      ArrowDown from an unfound selection picks the first workspace and stops at the last;
      ArrowUp stops at the first and does nothing for an unfound selection. */
  function ArrowSelection(s: Store.Snapshot, down: bool): (r: Option<Id>)
    ensures r.Some? ==> exists i :: 0 <= i < |s.workspaces| && s.workspaces[i].id == r.value
    ensures var idx := FindWorkspace(s.workspaces, StripSelection(s));
      && (down && idx == -1 && s.workspaces != [] ==> r == Some(s.workspaces[0].id))
      && (down && idx == |s.workspaces| - 1 ==> r.None?)
      && (!down && idx <= 0 ==> r.None?)
      && (down && 0 <= idx < |s.workspaces| - 1 ==> r == Some(s.workspaces[idx + 1].id))
      && (!down && idx > 0 ==> r == Some(s.workspaces[idx - 1].id))
  {
    var wss := s.workspaces;
    var idx := FindWorkspace(wss, StripSelection(s));
    if down then (if idx < |wss| - 1 then Some(wss[idx + 1].id) else None)
    else (if idx > 0 then Some(wss[idx - 1].id) else None)
  }

  /** With distinct, non-zero ids, ArrowUp undoes ArrowDown. */
  lemma DownThenUp(s: Store.Snapshot, k: int)
    requires DistinctWorkspaceIds(s.workspaces)
    requires 0 <= k < |s.workspaces| - 1 && s.workspaces[k + 1].id != 0
    requires FindWorkspace(s.workspaces, StripSelection(s)) == k
    ensures ArrowSelection(s, true) == Some(s.workspaces[k + 1].id)
    ensures ArrowSelection(s.(selectedWorkspaceId := Some(s.workspaces[k + 1].id)), false)
            == Some(s.workspaces[k].id)
  {
    FindDistinct(s.workspaces, k + 1);
  }

  /** With distinct, non-zero ids, ArrowDown undoes ArrowUp. */
  lemma UpThenDown(s: Store.Snapshot, k: int)
    requires DistinctWorkspaceIds(s.workspaces)
    requires 0 < k < |s.workspaces| && s.workspaces[k - 1].id != 0
    requires FindWorkspace(s.workspaces, StripSelection(s)) == k
    ensures ArrowSelection(s, false) == Some(s.workspaces[k - 1].id)
    ensures ArrowSelection(s.(selectedWorkspaceId := Some(s.workspaces[k - 1].id)), true)
            == Some(s.workspaces[k].id)
  {
    FindDistinct(s.workspaces, k - 1);
  }

  /** When neither the selection nor the focus names a workspace, the grid already shows the
      first workspace, and the first ArrowDown selects that same workspace: the view does not move. */
  lemma FirstDownKeepsView(s: Store.Snapshot)
    requires !Store.Truthy(s.selectedWorkspaceId) && !Store.Truthy(s.focusedWorkspaceId)
    requires FindWorkspace(s.workspaces, StripSelection(s)) == -1 && s.workspaces != []
    ensures ArrowSelection(s, true) == Some(s.workspaces[0].id)
    ensures EffectiveWorkspace(s.(selectedWorkspaceId := Some(s.workspaces[0].id))) == EffectiveWorkspace(s)
  {
  }

  // ---------------------------------------------------------------------------------------------
  // The view's state: navigation and the icon cache

  /** `_navIndex`, `_navItems`, `_iconCache` (app id to a data URI, or None for the cached
      `null` of a failed fetch), `_iconLoading`, and the `get_app_icon` calls made so far. */
  datatype ViewValue = ViewValue(
    navIndex: int,
    navItems: seq<Id>,
    iconCache: map<string, Option<string>>,
    iconLoading: set<string>,
    requests: seq<string>)

  const InitialView := ViewValue(0, [], map[], {}, [])

  predicate NoRepeats(xs: seq<string>) {
    forall i, j :: 0 <= i < j < |xs| ==> xs[i] != xs[j]
  }

  function Elements(xs: seq<string>): set<string> {
    set x | x in xs
  }

  /** What the view keeps true: the cursor is never negative; each app id is fetched at most
      once and never for an empty id; every id ever fetched is either in flight or settled in the
      cache, and never both. */
  predicate ValidView(v: ViewValue) {
    && v.navIndex >= 0
    && NoRepeats(v.requests)
    && (forall x :: x in v.requests ==> x != "")
    && (forall x :: x in v.requests ==> x in v.iconLoading || x in v.iconCache)
    && (forall x :: x in v.iconLoading ==> x in v.requests)
    && (forall x :: x in v.iconCache ==> x in v.requests)
    && (forall x :: x in v.iconLoading ==> x !in v.iconCache)
  }

  lemma InitialViewValid()
    ensures ValidView(InitialView)
  {
  }

  /** The fetch trigger's test: a non-empty app id with no cache entry and no fetch in flight. A
      cached `null` is an entry, so a failed id is never fetched again. */
  predicate NeedsFetch(appId: Option<string>, cache: map<string, Option<string>>, loading: set<string>) {
    appId.Some? && appId.value != "" && appId.value !in cache && appId.value !in loading
  }

  /** The fetches one render starts, in window order; each start marks its id loading at once, so
      a later window with the same app id starts none. */
  function Fresh(wins: seq<Window>, cache: map<string, Option<string>>, loading: set<string>): seq<string>
    decreases |wins|
  {
    if wins == [] then []
    else if NeedsFetch(wins[0].appId, cache, loading) then
      var id := wins[0].appId.value;
      [id] + Fresh(wins[1..], cache, loading + {id})
    else Fresh(wins[1..], cache, loading)
  }

  /** The fetches of a non-empty list: its first window's, if it needs one, then the rest's. */
  lemma FreshCons(ws: seq<Window>, cache: map<string, Option<string>>, loading: set<string>)
    requires ws != []
    ensures NeedsFetch(ws[0].appId, cache, loading) ==>
      Fresh(ws, cache, loading) == [ws[0].appId.value] + Fresh(ws[1..], cache, loading + {ws[0].appId.value})
    ensures !NeedsFetch(ws[0].appId, cache, loading) ==> Fresh(ws, cache, loading) == Fresh(ws[1..], cache, loading)
  {
  }

  lemma AppendAssoc(a: seq<string>, b: seq<string>, c: seq<string>)
    ensures a + (b + c) == (a + b) + c
  {
  }

  lemma ElementsSnoc(xs: seq<string>, x: string)
    ensures Elements(xs + [x]) == Elements(xs) + {x}
  {
  }

  /** One render fetches each app id at most once, never one that is cached or loading, only
      the app ids of the given windows, and every one of them that needed fetching. */
  lemma {:induction false} FreshFacts(wins: seq<Window>, cache: map<string, Option<string>>, loading: set<string>)
    ensures var r := Fresh(wins, cache, loading);
      && NoRepeats(r)
      && (forall x :: x in r ==> x != "" && x !in cache && x !in loading)
      && (forall x :: x in r ==> exists i :: 0 <= i < |wins| && wins[i].appId == Some(x))
      && (forall i :: 0 <= i < |wins| && NeedsFetch(wins[i].appId, cache, loading) ==>
            wins[i].appId.value in r)
    decreases |wins|
  {
    if wins != [] {
      var r := Fresh(wins, cache, loading);
      var loading' := if NeedsFetch(wins[0].appId, cache, loading) then loading + {wins[0].appId.value}
                      else loading;
      var rest := Fresh(wins[1..], cache, loading');
      FreshFacts(wins[1..], cache, loading');
      forall x | x in rest
        ensures exists i :: 0 <= i < |wins| && wins[i].appId == Some(x)
      {
        var i :| 0 <= i < |wins[1..]| && wins[1..][i].appId == Some(x);
        assert wins[i + 1].appId == Some(x);
      }
      forall i | 1 <= i < |wins| && NeedsFetch(wins[i].appId, cache, loading)
        ensures wins[i].appId.value in r
      {
        assert wins[1..][i - 1] == wins[i];
      }
    }
  }

  /** The position of the first card whose title throws, or the number of cards when none does. */
  function FirstFailingCard(wins: seq<Window>): (k: nat)
    ensures k <= |wins|
    ensures forall i :: 0 <= i < k ==> !CardThrows(wins[i])
    ensures k < |wins| ==> CardThrows(wins[k])
    decreases |wins|
  {
    if wins == [] || CardThrows(wins[0]) then 0
    else
      var k := 1 + FirstFailingCard(wins[1..]);
      assert forall i :: 1 <= i < k ==> wins[i] == wins[1..][i - 1];
      k
  }

  /** The cards whose fetch trigger runs: all of them when no title throws, else those up to
      and including the first whose title does, since a card starts its fetch before its markup
      is built. */
  function Drawn(wins: seq<Window>): (r: seq<Window>)
    ensures var k := FirstFailingCard(wins);
      && |r| == (if k < |wins| then k + 1 else |wins|)
      && forall i :: 0 <= i < |r| ==> r[i] == wins[i]
  {
    var k := FirstFailingCard(wins);
    if k < |wins| then wins[..k + 1] else wins
  }

  /** Whether `renderState` runs to its end: neither the window filter nor a card title throws.
      When one does, the exception ends the render before `rebuildNavItems`. */
  predicate RenderCompletes(s: Store.Snapshot) {
    Visible(s).Some? && FirstFailingCard(Visible(s).value) == |Visible(s).value|
  }

  /** The fetches of the cards drawn, card by card as the grid's loop meets them: each card
      starts its fetch, and a card whose title throws ends the loop. */
  function FreshUntil(wins: seq<Window>, cache: map<string, Option<string>>, loading: set<string>): seq<string>
    decreases |wins|
  {
    if wins == [] then []
    else
      var fetched := NeedsFetch(wins[0].appId, cache, loading);
      var here := if fetched then [wins[0].appId.value] else [];
      var loading' := if fetched then loading + {wins[0].appId.value} else loading;
      here + (if CardThrows(wins[0]) then [] else FreshUntil(wins[1..], cache, loading'))
  }

  /** One card of the loop: with `started` the fetches so far and `total` all of them, the
      card's own fetch extends `started`, and unless its title throws the rest follow. */
  lemma FreshUntilStep(ws: seq<Window>, cache: map<string, Option<string>>, loading: set<string>,
                       started: seq<string>, total: seq<string>)
    requires ws != [] && total == started + FreshUntil(ws, cache, loading)
    ensures var fetched := NeedsFetch(ws[0].appId, cache, loading);
      var started' := if fetched then started + [ws[0].appId.value] else started;
      var loading' := if fetched then loading + {ws[0].appId.value} else loading;
      && (CardThrows(ws[0]) ==> total == started')
      && (!CardThrows(ws[0]) ==> total == started' + FreshUntil(ws[1..], cache, loading'))
  {
    var fetched := NeedsFetch(ws[0].appId, cache, loading);
    var here := if fetched then [ws[0].appId.value] else [];
    var loading' := if fetched then loading + {ws[0].appId.value} else loading;
    var after := if CardThrows(ws[0]) then [] else FreshUntil(ws[1..], cache, loading');
    assert FreshUntil(ws, cache, loading) == here + after;
    AppendAssoc(started, here, after);
  }

  /** The card-by-card fetches are the fetches of the cards drawn. */
  lemma {:induction false} FreshUntilDrawn(wins: seq<Window>, cache: map<string, Option<string>>, loading: set<string>)
    ensures FreshUntil(wins, cache, loading) == Fresh(Drawn(wins), cache, loading)
    decreases |wins|
  {
    if wins != [] {
      var d := Drawn(wins);
      assert d[0] == wins[0];
      var loading' := if NeedsFetch(wins[0].appId, cache, loading) then loading + {wins[0].appId.value} else loading;
      FreshCons(d, cache, loading);
      if CardThrows(wins[0]) {
        assert d == [wins[0]] && d[1..] == [];
      } else {
        FreshUntilDrawn(wins[1..], cache, loading');
        var d' := Drawn(wins[1..]);
        assert d[1..] == d' by {
          assert FirstFailingCard(wins) == 1 + FirstFailingCard(wins[1..]);
        }
      }
    }
  }

  /** The fetch triggers of the given cards, in order: only ids with no cache entry and no
      fetch in flight are fetched, after which every app id of those cards is cached or loading.
      The cursor, the list and the cache are untouched. */
  function Started(v: ViewValue, wins: seq<Window>): (r: ViewValue)
    ensures r.navItems == v.navItems && r.navIndex == v.navIndex && r.iconCache == v.iconCache
    ensures |r.requests| >= |v.requests| && r.requests[..|v.requests|] == v.requests
    ensures forall i :: |v.requests| <= i < |r.requests| ==>
      r.requests[i] !in v.iconCache && r.requests[i] !in v.iconLoading
    ensures forall w :: w in wins && w.appId.Some? && w.appId.value != "" ==>
      w.appId.value in r.iconCache || w.appId.value in r.iconLoading
    ensures ValidView(v) ==> ValidView(r)
  {
    var newIds := Fresh(wins, v.iconCache, v.iconLoading);
    FreshFacts(wins, v.iconCache, v.iconLoading);
    var r := v.(iconLoading := v.iconLoading + Elements(newIds), requests := v.requests + newIds);
    assert forall w :: w in wins && w.appId.Some? && w.appId.value != "" ==>
      w.appId.value in r.iconCache || w.appId.value in r.iconLoading by {
      forall w | w in wins && w.appId.Some? && w.appId.value != ""
        ensures w.appId.value in r.iconCache || w.appId.value in r.iconLoading
      {
        var i :| 0 <= i < |wins| && wins[i] == w;
      }
    }
    assert ValidView(v) ==> NoRepeats(r.requests) by {
      if ValidView(v) {
        forall i, j | 0 <= i < j < |r.requests|
          ensures r.requests[i] != r.requests[j]
        {
          if i < |v.requests| && j >= |v.requests| {
            assert r.requests[j] in newIds;
          }
        }
      }
    }
    r
  }

  /** A render (`renderState`). When the filter throws, nothing changes. Otherwise the cards
      drawn start their fetches (`Started`), and the navigation list is rebuilt when the render
      completes. The cursor is left where it was, even past the end of the new list, and the
      cache is untouched; after a completed render every app id on view is cached or loading. */
  function Rendered(v: ViewValue, s: Store.Snapshot): (r: ViewValue)
    ensures r.navItems == (if RenderCompletes(s) then NavItems(s) else v.navItems)
    ensures r.navIndex == v.navIndex && r.iconCache == v.iconCache
    ensures Visible(s).None? ==> r == v
    ensures |r.requests| >= |v.requests| && r.requests[..|v.requests|] == v.requests
    ensures forall i :: |v.requests| <= i < |r.requests| ==>
      r.requests[i] !in v.iconCache && r.requests[i] !in v.iconLoading
    ensures RenderCompletes(s) ==> forall w :: w in Visible(s).value && w.appId.Some? && w.appId.value != "" ==>
      w.appId.value in r.iconCache || w.appId.value in r.iconLoading
    ensures ValidView(v) ==> ValidView(r)
  {
    match Visible(s)
    case None => v
    case Some(wins) =>
      var r := Started(v, Drawn(wins));
      r.(navItems := if RenderCompletes(s) then NavItems(s) else v.navItems)
  }

  /** The end of `fetchIcon` once `get_app_icon` settles. On success the data URI is cached and
      then the placeholders are patched; they are found with a selector built from the raw id,
      and `patchThrows` says whether the page rejects that selector (an id with an unmatched `"`
      or a line feed, for instance), in which case the `catch` overwrites the entry with `null`.
      A failed call caches `null`. The id leaves the loading set either way. */
  function Settled(v: ViewValue, appId: string, outcome: Result<string, string>, patchThrows: bool): (r: ViewValue)
    ensures appId in r.iconCache && appId !in r.iconLoading
    ensures outcome.Ok? && !patchThrows ==> r.iconCache[appId] == Some(outcome.value)
    ensures outcome.Err? || patchThrows ==> r.iconCache[appId].None?
    ensures forall x :: x != appId ==>
      (x in r.iconCache <==> x in v.iconCache) && (x in v.iconCache ==> r.iconCache[x] == v.iconCache[x])
      && (x in r.iconLoading <==> x in v.iconLoading)
    ensures r.navIndex == v.navIndex && r.navItems == v.navItems && r.requests == v.requests
    ensures ValidView(v) && appId in v.iconLoading ==> ValidView(r)
  {
    var src := if outcome.Ok? && !patchThrows then Some(outcome.value) else None;
    v.(iconCache := v.iconCache[appId := src], iconLoading := v.iconLoading - {appId})
  }

  /** A fetch answered by the back end's `get_app_icon` leaves a cached image only as a data URI
      of an image type, and the cached `null` exactly when the back end reported an error or
      the placeholder patch threw. */
  lemma SettledFromBackend(v: ViewValue, appId: string, env: Icons.Env, fuel: nat, patchThrows: bool)
    ensures var r := Settled(v, appId, Icons.AppIcon(appId, env, fuel), patchThrows);
      && (r.iconCache[appId].Some? ==> "data:image/" <= r.iconCache[appId].value)
      && (r.iconCache[appId].None? <==> Icons.AppIcon(appId, env, fuel).Err? || patchThrows)
  {
    Icons.AppIconFacts(appId, env, fuel);
  }

  // ---------------------------------------------------------------------------------------------
  // Keys and what they send

  /** `e.key`, for the keys the handler tells apart; `Char` is a one-character key. */
  datatype Key =
    | Escape | ArrowRight | ArrowLeft | ArrowDown | ArrowUp | Enter | Delete | Backspace
    | Char(c: char)
    | Other(name: string)

  /** What the view asks of the back end or the window. `FocusWindow` and `FocusWorkspace` hide
      the overlay once the call succeeds. */
  datatype Command =
    | NoCommand
    | Hide
    | FocusWindow(window: Id)
    | CloseWindow(window: Id)
    | OpenMoveMenu(window: Id)
    | FocusWorkspace(index: nat)

  datatype Outcome = Outcome(view: ViewValue, state: Store.Snapshot, cmd: Command)

  /** A selection written into the state, with the cursor reset and a render. */
  function Reselected(v: ViewValue, s: Store.Snapshot, id: Id): (r: Outcome)
    ensures r.state == s.(selectedWorkspaceId := Some(id))
    ensures r.view.navIndex == 0 && r.view.iconCache == v.iconCache
    ensures r.view.navItems == (if RenderCompletes(r.state) then NavItems(r.state) else v.navItems)
    ensures r.cmd == NoCommand
    ensures ValidView(v) ==> ValidView(r.view)
  {
    var s' := s.(selectedWorkspaceId := Some(id));
    Outcome(Rendered(v.(navIndex := 0), s'), s', NoCommand)
  }

  /** ArrowDown / ArrowUp: a selection change, or nothing. */
  function Arrowed(v: ViewValue, s: Store.Snapshot, down: bool): Outcome {
    match ArrowSelection(s, down)
    case None => Outcome(v, s, NoCommand)
    case Some(id) => Reselected(v, s, id)
  }

  /** The keydown handler. Escape always hides the overlay; any other key does nothing while the
      search box has focus. ArrowRight and ArrowLeft move the cursor, ArrowDown and ArrowUp
      change the selection; every other key leaves the view and the state alone and sends
      `KeyCommand`'s command for the window under the cursor. */
  function KeyStep(v: ViewValue, s: Store.Snapshot, key: Key, searchFocused: bool): (r: Outcome)
    ensures ValidView(v) ==> ValidView(r.view)
    ensures key == Escape ==> r == Outcome(v, s, Hide)
    ensures key != Escape && searchFocused ==> r == Outcome(v, s, NoCommand)
    ensures !searchFocused && key == ArrowRight ==>
      r == Outcome(v.(navIndex := NavMoved(v.navIndex, |v.navItems|, Right)), s, NoCommand)
    ensures !searchFocused && key == ArrowLeft ==>
      r == Outcome(v.(navIndex := NavMoved(v.navIndex, |v.navItems|, Left)), s, NoCommand)
    ensures !searchFocused && key !in {Escape, ArrowRight, ArrowLeft, ArrowDown, ArrowUp} ==>
      r == Outcome(v, s, KeyCommand(ItemAt(v.navItems, v.navIndex), key))
    ensures !searchFocused && (key == ArrowDown || key == ArrowUp) ==>
      match ArrowSelection(s, key == ArrowDown)
      case None => r == Outcome(v, s, NoCommand)
      case Some(id) => r.state == s.(selectedWorkspaceId := Some(id)) && r.view.navIndex == 0
                       && r.cmd == NoCommand && r.view.iconCache == v.iconCache
                       && r.view.navItems == (if RenderCompletes(r.state) then NavItems(r.state) else v.navItems)
    ensures r.state == s.(selectedWorkspaceId := r.state.selectedWorkspaceId)
    ensures r.state != s ==> !searchFocused && (key == ArrowDown || key == ArrowUp)
    ensures r.view.navIndex != v.navIndex ==>
      !searchFocused && key in {ArrowLeft, ArrowRight, ArrowDown, ArrowUp}
    ensures r.cmd.FocusWindow? || r.cmd.CloseWindow? || r.cmd.OpenMoveMenu? ==>
      ItemAt(v.navItems, v.navIndex) == Some(r.cmd.window)
    ensures (!searchFocused && key in {Enter, Delete, Backspace, Char('m'), Char('M')}
             && ItemAt(v.navItems, v.navIndex).None?) ==> r == Outcome(v, s, NoCommand)
  {
    var item := ItemAt(v.navItems, v.navIndex);
    if searchFocused && key != Escape then Outcome(v, s, NoCommand)
    else
      match key
      case Escape => Outcome(v, s, Hide)
      case ArrowRight => Outcome(v.(navIndex := NavMoved(v.navIndex, |v.navItems|, Right)), s, NoCommand)
      case ArrowLeft => Outcome(v.(navIndex := NavMoved(v.navIndex, |v.navItems|, Left)), s, NoCommand)
      case ArrowDown => Arrowed(v, s, true)
      case ArrowUp => Arrowed(v, s, false)
      case _ => Outcome(v, s, KeyCommand(item, key))
  }

  /** Whether a key is one of the digits that focus a workspace. */
  predicate IsDigitKey(key: Key) {
    key.Char? && '1' <= key.c <= '9'
  }

  /** The command of a key that leaves the cursor and the state alone, given the window under the
      cursor: Enter focuses it, Delete and Backspace close it, m and M open its move menu, each
      only when there is one; 1 to 9 focus that workspace; any other key sends nothing. */
  function KeyCommand(item: Option<Id>, key: Key): (cmd: Command)
    ensures key == Enter ==> cmd == (if item.Some? then FocusWindow(item.value) else NoCommand)
    ensures key == Delete || key == Backspace ==>
      cmd == (if item.Some? then CloseWindow(item.value) else NoCommand)
    ensures key == Char('m') || key == Char('M') ==>
      cmd == (if item.Some? then OpenMoveMenu(item.value) else NoCommand)
    ensures IsDigitKey(key) ==> cmd == FocusWorkspace(key.c as int - '0' as int) && 1 <= cmd.index <= 9
    ensures key !in {Enter, Delete, Backspace, Char('m'), Char('M')} && !IsDigitKey(key) ==> cmd == NoCommand
    ensures cmd.FocusWindow? || cmd.CloseWindow? || cmd.OpenMoveMenu? ==> item == Some(cmd.window)
    ensures key in {Enter, Delete, Backspace, Char('m'), Char('M')} && item.None? ==> cmd == NoCommand
  {
    match key
    case Enter => if item.Some? then FocusWindow(item.value) else NoCommand
    case Delete => if item.Some? then CloseWindow(item.value) else NoCommand
    case Backspace => if item.Some? then CloseWindow(item.value) else NoCommand
    case Char(c) =>
      if c == 'm' || c == 'M' then (if item.Some? then OpenMoveMenu(item.value) else NoCommand)
      else if '1' <= c <= '9' then FocusWorkspace(c as int - '0' as int)
      else NoCommand
    case _ => NoCommand
  }

  /** A click on a workspace in the sidebar: the selection is written and the grid rendered;
      when that completes, the cursor is reset and the list rebuilt, and when it throws both stay
      as they were. */
  function Clicked(v: ViewValue, s: Store.Snapshot, id: Id): (r: Outcome)
    ensures r.state == s.(selectedWorkspaceId := Some(id)) && r.cmd == NoCommand
    ensures RenderCompletes(r.state) ==> r.view.navIndex == 0 && r.view.navItems == NavItems(r.state)
    ensures !RenderCompletes(r.state) ==> r.view.navIndex == v.navIndex && r.view.navItems == v.navItems
    ensures r.view.iconCache == v.iconCache
    ensures EffectiveWorkspace(r.state) == (if id == 0 then EffectiveWorkspace(s.(selectedWorkspaceId := None)) else Some(id))
    ensures ValidView(v) ==> ValidView(r.view)
  {
    var s' := s.(selectedWorkspaceId := Some(id));
    var w := Rendered(v, s');
    Outcome(if RenderCompletes(s') then w.(navIndex := 0) else w, s', NoCommand)
  }

  /** Typing in the search box: the trimmed text becomes the query, the cursor is reset and the
      view rendered. When the render completes, the navigation list is the unfiltered bucket,
      the same as for any other query. */
  function Searched(v: ViewValue, s: Store.Snapshot, text: string): (r: Outcome)
    ensures r.state == s.(query := Trim(JsSpaces, text)) && r.cmd == NoCommand
    ensures r.view.navIndex == 0 && r.view.iconCache == v.iconCache
    ensures r.view.navItems == (if RenderCompletes(r.state) then NavItems(s) else v.navItems)
    ensures ValidView(v) ==> ValidView(r.view)
  {
    var s' := s.(query := Trim(JsSpaces, text));
    VisibleInNav(s, Trim(JsSpaces, text));
    Outcome(Rendered(v.(navIndex := 0), s'), s', NoCommand)
  }

  // ---------------------------------------------------------------------------------------------
  // The view's module-level state and its handlers

  class View {
    var navIndex: int
    var navItems: seq<Id>
    var iconCache: map<string, Option<string>>
    var iconLoading: set<string>
    var requests: seq<string>

    function Value(): ViewValue
      reads this
    {
      ViewValue(navIndex, navItems, iconCache, iconLoading, requests)
    }

    constructor ()
      ensures Value() == InitialView
    {
      navIndex := 0;
      navItems := [];
      iconCache := map[];
      iconLoading := {};
      requests := [];
    }

    /** The synchronous start of `fetchIcon`: the id is marked loading and the back end is asked
        for the icon. */
    method StartFetch(appId: string)
      modifies this`iconLoading, this`requests
      ensures iconLoading == old(iconLoading) + {appId}
      ensures requests == old(requests) + [appId]
    {
      iconLoading := iconLoading + {appId};
      requests := requests + [appId];
    }

    /** The rest of `fetchIcon`, once the call settles: the cache write, the placeholder patch
        that may throw into the `catch`, and the `finally`. */
    method FinishFetch(appId: string, outcome: Result<string, string>, patchThrows: bool)
      modifies this`iconCache, this`iconLoading
      ensures Value() == Settled(old(Value()), appId, outcome, patchThrows)
    {
      match outcome {
        case Ok(src) =>
          iconCache := iconCache[appId := Some(src)];
          if patchThrows {
            iconCache := iconCache[appId := None];
          }
        case Err(_) => iconCache := iconCache[appId := None];
      }
      iconLoading := iconLoading - {appId};
    }

    /** The fetch trigger of one window card: a fetch starts exactly when the id needs one. */
    method TriggerFetch(appId: Option<string>) returns (fetched: bool)
      modifies this`iconLoading, this`requests
      ensures fetched == NeedsFetch(appId, iconCache, old(iconLoading))
      ensures fetched ==> iconLoading == old(iconLoading) + {appId.value} && requests == old(requests) + [appId.value]
      ensures !fetched ==> iconLoading == old(iconLoading) && requests == old(requests)
    {
      fetched := NeedsFetch(appId, iconCache, iconLoading);
      if fetched {
        StartFetch(appId.value);
      }
    }

    /** One card of the grid's `wins.map`: its fetch trigger, then its title, which may throw.
        The ghost parameters carry the loop's account: `started` is what the earlier cards
        fetched since `requests0` and `loading0`, and `total` what all the cards from `rest`'s
        first one on fetch. */
    method DrawCard(rest: seq<Window>, ghost requests0: seq<string>, ghost loading0: set<string>,
                    ghost started: seq<string>, ghost total: seq<string>)
      returns (throws: bool, ghost started': seq<string>)
      requires rest != []
      requires requests == requests0 + started && iconLoading == loading0 + Elements(started)
      requires total == started + FreshUntil(rest, iconCache, iconLoading)
      modifies this`iconLoading, this`requests
      ensures requests == requests0 + started' && iconLoading == loading0 + Elements(started')
      ensures throws == CardThrows(rest[0]) && throws == (FirstFailingCard(rest) == 0)
      ensures !throws ==> FirstFailingCard(rest) == 1 + FirstFailingCard(rest[1..])
      ensures throws ==> total == started'
      ensures !throws ==> total == started' + FreshUntil(rest[1..], iconCache, iconLoading)
    {
      FreshUntilStep(rest, iconCache, iconLoading, started, total);
      var fetched := TriggerFetch(rest[0].appId);
      started' := started;
      if fetched {
        ElementsSnoc(started, rest[0].appId.value);
        started' := started + [rest[0].appId.value];
      }
      var title := CardTitle(rest[0]);
      throws := title.None?;
    }

    /** The cards of the grid's `wins.map`, one by one, until the first title that throws. */
    method DrawCards(wins: seq<Window>) returns (completed: bool)
      modifies this`iconLoading, this`requests
      ensures completed == (FirstFailingCard(wins) == |wins|)
      ensures var newIds := FreshUntil(wins, iconCache, old(iconLoading));
        iconLoading == old(iconLoading) + Elements(newIds) && requests == old(requests) + newIds
    {
      ghost var total := FreshUntil(wins, iconCache, iconLoading);
      ghost var started: seq<string> := [];
      var i := 0;
      while i < |wins|
        invariant 0 <= i <= |wins|
        invariant FirstFailingCard(wins) == i + FirstFailingCard(wins[i..])
        invariant requests == old(requests) + started
        invariant iconLoading == old(iconLoading) + Elements(started)
        invariant total == started + FreshUntil(wins[i..], iconCache, iconLoading)
      {
        assert wins[i..][0] == wins[i] && wins[i..][1..] == wins[i + 1..];
        var throws;
        throws, started := DrawCard(wins[i..], old(requests), old(iconLoading), started, total);
        if throws {
          return false;
        }
        i := i + 1;
      }
      assert wins[i..] == [];
      return true;
    }

    /** `renderWindows`: the filter, then the cards. */
    method RenderWindows(s: Store.Snapshot) returns (completed: bool)
      modifies this`iconLoading, this`requests
      ensures completed == RenderCompletes(s)
      ensures var newIds := if Visible(s).None? then [] else Fresh(Drawn(Visible(s).value), iconCache, old(iconLoading));
        iconLoading == old(iconLoading) + Elements(newIds) && requests == old(requests) + newIds
    {
      var shown := FilterWindows(BucketOf(s.windowsByWorkspace, EffectiveWorkspace(s)), s.query);
      if shown.None? {
        return false;
      }
      FreshUntilDrawn(shown.value, iconCache, iconLoading);
      completed := DrawCards(shown.value);
    }

    /** `renderState`: the workspace list, the grid (with its fetch trigger), the strip, then
        `rebuildNavItems`. */
    method Render(s: Store.Snapshot) returns (completed: bool)
      modifies this`navItems, this`iconLoading, this`requests
      ensures Value() == Rendered(old(Value()), s) && completed == RenderCompletes(s)
    {
      completed := RenderWindows(s);
      if completed {
        navItems := NavItems(s);
      }
    }

    /** `navMove`. */
    method NavMove(d: Direction)
      modifies this`navIndex
      ensures navIndex == NavMoved(old(navIndex), |navItems|, d)
    {
      if |navItems| == 0 {
        return;
      }
      navIndex := JsRem(navIndex + Delta(d) + |navItems|, |navItems|);
    }

    /** `navActivate`: focus the window under the cursor, if there is one. */
    method NavActivate() returns (cmd: Command)
      ensures cmd != NoCommand <==> 0 <= navIndex < |navItems|
      ensures cmd != NoCommand ==> cmd == FocusWindow(navItems[navIndex])
    {
      var item := ItemAt(navItems, navIndex);
      if item.Some? {
        cmd := FocusWindow(item.value);
      } else {
        cmd := NoCommand;
      }
    }

    /** The ArrowDown / ArrowUp branch: the selection is written straight into the store's state
        object, then the cursor is reset and the view rendered. */
    method SelectByArrow(store: Store.Store, down: bool)
      modifies this, store`state
      ensures var o := Arrowed(old(Value()), old(store.state), down);
        Value() == o.view && store.state == o.state
    {
      var s := store.state;
      ghost var v := Value();
      var wss := s.workspaces;
      var idx := FindWorkspace(wss, Store.Or(s.selectedWorkspaceId, s.focusedWorkspaceId));
      if down && idx < |wss| - 1 {
        assert ArrowSelection(s, down) == Some(wss[idx + 1].id);
        store.WriteSelection(Some(wss[idx + 1].id));
        navIndex := 0;
        assert Value() == v.(navIndex := 0);
        var completed := Render(store.state);
      } else if !down && idx > 0 {
        assert ArrowSelection(s, down) == Some(wss[idx - 1].id);
        store.WriteSelection(Some(wss[idx - 1].id));
        navIndex := 0;
        assert Value() == v.(navIndex := 0);
        var completed := Render(store.state);
      } else {
        assert ArrowSelection(s, down).None?;
      }
    }

    /** The keydown listener. */
    method HandleKey(key: Key, searchFocused: bool, store: Store.Store) returns (cmd: Command)
      modifies this, store`state
      ensures var o := KeyStep(old(Value()), old(store.state), key, searchFocused);
        Value() == o.view && store.state == o.state && cmd == o.cmd
    {
      if key == Escape {
        return Hide;
      }
      if searchFocused {
        return NoCommand;
      }
      cmd := NoCommand;
      var item := ItemAt(navItems, navIndex);
      match key {
        case ArrowRight => NavMove(Right);
        case ArrowLeft => NavMove(Left);
        case ArrowDown => SelectByArrow(store, true);
        case ArrowUp => SelectByArrow(store, false);
        case Enter => cmd := NavActivate();
        case Delete =>
          if item.Some? {
            cmd := CloseWindow(item.value);
          }
        case Backspace =>
          if item.Some? {
            cmd := CloseWindow(item.value);
          }
        case Char(c) =>
          if c == 'm' || c == 'M' {
            if item.Some? {
              cmd := OpenMoveMenu(item.value);
            }
          } else if '1' <= c <= '9' {
            cmd := FocusWorkspace(c as int - '0' as int);
          }
        case Escape =>
        case Other(_) =>
      }
    }

    /** A click on a workspace in the sidebar. */
    method ClickWorkspace(id: Id, store: Store.Store)
      modifies this, store`state
      ensures var o := Clicked(old(Value()), old(store.state), id);
        Value() == o.view && store.state == o.state
    {
      store.WriteSelection(Some(id));
      var completed := Render(store.state);
      if completed {
        navIndex := 0;
      }
    }

    /** The search box's input listener. */
    method SearchInput(text: string, store: Store.Store)
      modifies this, store`state
      ensures var o := Searched(old(Value()), old(store.state), text);
        Value() == o.view && store.state == o.state
    {
      store.WriteQuery(Trim(JsSpaces, text));
      navIndex := 0;
      var completed := Render(store.state);
    }
  }

  // ---------------------------------------------------------------------------------------------
  // String helpers

  /** The entity `escHtml` writes for one character. */
  function EscapeChar(c: char): string {
    if c == '&' then "&amp;"
    else if c == '<' then "&lt;"
    else if c == '>' then "&gt;"
    else if c == '"' then "&quot;"
    else [c]
  }

  /** Escaping character by character: the reference for `escHtml`. */
  function EscapeEach(s: string): string
    decreases |s|
  {
    if s == [] then [] else EscapeChar(s[0]) + EscapeEach(s[1..])
  }

  /** Decoding the four entities `escHtml` writes, as the page shows them. */
  function Unescape(t: string): string
    decreases |t|
  {
    if t == [] then []
    else if "&amp;" <= t then "&" + Unescape(t[5..])
    else if "&lt;" <= t then "<" + Unescape(t[4..])
    else if "&gt;" <= t then ">" + Unescape(t[4..])
    else if "&quot;" <= t then "\"" + Unescape(t[6..])
    else [t[0]] + Unescape(t[1..])
  }

  /** One step of replacing a single character: the first character, replaced or kept, then
      the rest. */
  lemma ReplaceCharStep(s: string, c: char, rep: string)
    requires s != []
    ensures ReplaceAll(s, [c], rep) == (if s[0] == c then rep else [s[0]]) + ReplaceAll(s[1..], [c], rep)
  {
    assert [c] <= s <==> s[0] == c;
  }

  /** Replacing a single character distributes over concatenation. */
  lemma {:induction false} ReplaceCharConcat(a: string, b: string, c: char, rep: string)
    ensures ReplaceAll(a + b, [c], rep) == ReplaceAll(a, [c], rep) + ReplaceAll(b, [c], rep)
    decreases |a|
  {
    if a == [] {
      assert a + b == b;
    } else {
      var head := if a[0] == c then rep else [a[0]];
      assert (a + b)[0] == a[0];
      assert (a + b)[1..] == a[1..] + b;
      ReplaceCharStep(a + b, c, rep);
      ReplaceCharStep(a, c, rep);
      ReplaceCharConcat(a[1..], b, c, rep);
      calc {
        ReplaceAll(a + b, [c], rep);
        head + ReplaceAll(a[1..] + b, [c], rep);
        head + (ReplaceAll(a[1..], [c], rep) + ReplaceAll(b, [c], rep));
        (head + ReplaceAll(a[1..], [c], rep)) + ReplaceAll(b, [c], rep);
        ReplaceAll(a, [c], rep) + ReplaceAll(b, [c], rep);
      }
    }
  }

  lemma ReplaceCharAbsent(s: string, c: char, rep: string)
    requires c !in s
    ensures ReplaceAll(s, [c], rep) == s
  {
    NotContainsFirst(s, [c]);
    ReplaceAllFacts(s, [c], rep);
  }

  /** The four replacement passes of `escHtml`, `&` first. */
  function Passes(s: string): string {
    ReplaceAll(ReplaceAll(ReplaceAll(ReplaceAll(s, "&", "&amp;"), "<", "&lt;"), ">", "&gt;"), "\"", "&quot;")
  }

  lemma PassesConcat(a: string, b: string)
    ensures Passes(a + b) == Passes(a) + Passes(b)
  {
    ReplaceCharConcat(a, b, '&', "&amp;");
    var a1, b1 := ReplaceAll(a, "&", "&amp;"), ReplaceAll(b, "&", "&amp;");
    ReplaceCharConcat(a1, b1, '<', "&lt;");
    var a2, b2 := ReplaceAll(a1, "<", "&lt;"), ReplaceAll(b1, "<", "&lt;");
    ReplaceCharConcat(a2, b2, '>', "&gt;");
    var a3, b3 := ReplaceAll(a2, ">", "&gt;"), ReplaceAll(b2, ">", "&gt;");
    ReplaceCharConcat(a3, b3, '"', "&quot;");
  }

  lemma PassesOne(c: char)
    ensures Passes([c]) == EscapeChar(c)
  {
    var s := [c];
    if c == '&' {
      assert ReplaceAll(s, "&", "&amp;") == "&amp;";
      ReplaceCharAbsent("&amp;", '<', "&lt;");
      ReplaceCharAbsent("&amp;", '>', "&gt;");
      ReplaceCharAbsent("&amp;", '"', "&quot;");
    } else if c == '<' {
      ReplaceCharAbsent(s, '&', "&amp;");
      assert ReplaceAll(s, "<", "&lt;") == "&lt;";
      ReplaceCharAbsent("&lt;", '>', "&gt;");
      ReplaceCharAbsent("&lt;", '"', "&quot;");
    } else if c == '>' {
      ReplaceCharAbsent(s, '&', "&amp;");
      ReplaceCharAbsent(s, '<', "&lt;");
      assert ReplaceAll(s, ">", "&gt;") == "&gt;";
      ReplaceCharAbsent("&gt;", '"', "&quot;");
    } else if c == '"' {
      ReplaceCharAbsent(s, '&', "&amp;");
      ReplaceCharAbsent(s, '<', "&lt;");
      ReplaceCharAbsent(s, '>', "&gt;");
      assert ReplaceAll(s, "\"", "&quot;") == "&quot;";
    } else {
      ReplaceCharAbsent(s, '&', "&amp;");
      ReplaceCharAbsent(s, '<', "&lt;");
      ReplaceCharAbsent(s, '>', "&gt;");
      ReplaceCharAbsent(s, '"', "&quot;");
    }
  }

  /** The chained passes escape each character on its own: `&` goes first, so the `&` of an
      entity written by a later pass is never escaped again. */
  lemma {:induction false} PassesPerChar(s: string)
    ensures Passes(s) == EscapeEach(s)
    decreases |s|
  {
    if s != [] {
      assert s == [s[0]] + s[1..];
      PassesConcat([s[0]], s[1..]);
      PassesOne(s[0]);
      PassesPerChar(s[1..]);
    }
  }

  lemma UnescapeOne(c: char, rest: string)
    ensures Unescape(EscapeChar(c) + rest) == [c] + Unescape(rest)
  {
    var t := EscapeChar(c) + rest;
    if c == '&' {
      assert "&amp;" <= t && t[5..] == rest;
    } else if c == '<' {
      assert t[1] == 'l';
      assert "&lt;" <= t && t[4..] == rest;
    } else if c == '>' {
      assert t[1] == 'g';
      assert "&gt;" <= t && t[4..] == rest;
    } else if c == '"' {
      assert t[1] == 'q';
      assert "&quot;" <= t && t[6..] == rest;
    } else {
      assert t[0] == c && t[1..] == rest;
    }
  }

  lemma EscapeCharSafe(c: char)
    ensures '<' !in EscapeChar(c) && '>' !in EscapeChar(c) && '"' !in EscapeChar(c)
  {
  }

  /** Escaping leaves no raw `<`, `>` or `"`. */
  lemma {:induction false} EscapeEachSafe(s: string)
    ensures '<' !in EscapeEach(s) && '>' !in EscapeEach(s) && '"' !in EscapeEach(s)
    decreases |s|
  {
    if s != [] {
      EscapeEachSafe(s[1..]);
      EscapeCharSafe(s[0]);
    }
  }

  /** Decoding the entities gives back the text. */
  lemma {:induction false} EscapeEachRoundTrip(s: string)
    ensures Unescape(EscapeEach(s)) == s
    decreases |s|
  {
    if s != [] {
      EscapeEachRoundTrip(s[1..]);
      UnescapeOne(s[0], EscapeEach(s[1..]));
      assert s == [s[0]] + s[1..];
    }
  }

  /** `escHtml`. */
  function EscHtml(s: string): (r: string)
    ensures r == EscapeEach(s)
    ensures '<' !in r && '>' !in r && '"' !in r
    ensures Unescape(r) == s
  {
    PassesPerChar(s);
    EscapeEachSafe(s);
    EscapeEachRoundTrip(s);
    Passes(s)
  }

  /** `truncate`: at most `max` characters are kept, and a cut is marked with an ellipsis. */
  function Truncate(s: string, max: nat): (r: string)
    ensures |s| <= max ==> r == s
    ensures |s| > max ==> |r| == max + 1 && r[..max] == s[..max] && r[max] == '…'
    ensures |r| <= max + 1
  {
    if |s| > max then s[..max] + "…" else s
  }

  /** Truncating what was truncated changes nothing. */
  lemma TruncateIdempotent(s: string, max: nat)
    ensures Truncate(Truncate(s, max), max) == Truncate(s, max)
  {
    if |s| > max {
      var r := Truncate(s, max);
      assert r[..max] + "…" == r;
    }
  }

  /** `appSlug`: "unknown" for a missing or empty id, else the lower-cased id's text after its
      last dot, which is lower-case, dot-free and a suffix of the lower-cased id. */
  function AppSlug(appId: Option<string>): (r: string)
    ensures appId.None? || appId == Some("") ==> r == "unknown"
    ensures appId.Some? && appId.value != "" ==>
      var lower := ToLower(appId.value);
      && '.' !in r && IsLower(r) && |r| <= |lower| && lower[|lower| - |r|..] == r
      && (|r| < |lower| ==> lower[|lower| - |r| - 1] == '.')
  {
    if appId.None? || appId.value == "" then "unknown"
    else
      var lower := ToLower(appId.value);
      var r := LastSegment(lower, '.');
      LastSegmentIsMaximalSuffix(lower, '.');
      ToLowerFixpoints(appId.value);
      SuffixOfLower(lower, r);
      r
  }

  /** The slug is the second name the back end's icon search tries for the same id. */
  lemma SlugIsIconCandidate(appId: string)
    requires appId != ""
    ensures AppSlug(Some(appId)) == Icons.Candidates(appId)[1]
  {
  }
}
