# nirioverlay core, modelled in Dafny

nirioverlay is a full-screen overview for the niri window manager. A Rust back end reads the
window manager's event stream and keeps a `NiriState`. It also looks up application icons and
returns them as data URIs. A JavaScript front end keeps its own copy of the state in a store and
renders a workspace list, a window grid and a layout strip. It handles keyboard navigation and
resolves app ids to display names.

This project models the core of both halves and proves properties of the model:

| file | models |
|---|---|
| `wrappers.dfy` | `Option` and `Result` |
| `text.dfy` | the string operations the sources use: lower-casing, `includes`, `split`, last segment, `replace`, `trim`, `lines`, `strip_prefix`, number formatting; lower-casing is ASCII only, `trim` removes the whitespace of the calling language |
| `niri.dfy` | windows, workspaces and events shared by both halves; the bucket operations (grouping by workspace, removing a window, upserting, refocusing, activation) as functions with their lemmas |
| `store.dfy` | the front-end store (`createStore`): `setState`, `applyEvent`, subscribers and `notify`, `groupByWorkspace`; a class `Store` whose methods are proved against the functions `Seeded` and `Step` |
| `client.dfy` | the back end's `NiriState` as a class and `apply_event` with its loops, proved against the function `Client.Step` |
| `copies.dfy` | how the two copies of the state relate over any event stream, and where they diverge |
| `appnames.dfy` | the `APP_NAMES` table and `resolveApp`, and the lookup as written, which can reach `Object.prototype` |
| `icons.dfy` | `get_app_icon`, `find_icon_path` and `find_desktop_icon`: candidate names, search order, `Icon=` parsing, the directory scan, the MIME type and the data URI. Loop methods are proved against functions, and a guarded variant ends where the source recurses forever |
| `render.dfy` | the view: the workspace on view, the navigation list, the filters, the cursor, the arrow keys, the keydown handler, the icon cache and its fetch trigger (a class `View`), `escHtml`, `truncate`, `appSlug` |

Some operations in the sources update state in place. These are classes with `modifies` clauses:

- `Store.Store`;
- `Client.NiriState`;
- `Render.View`, which holds the module variables `_navIndex`, `_navItems`, `_iconCache` and `_iconLoading`.

Every such method is stated against a function of the old state, and the properties are proved about those functions. The pure parts are functions and lemmas.

These are modelled as parameters:

- the window manager's events;
- the filesystem and environment: the `Icons.Env` datatype holds the existing paths, readable text files, directory listings, the base64 text of readable icons, `HOME` and `XDG_DATA_DIRS`;
- the outcome of an asynchronous `get_app_icon` call;
- whether the search box has focus.

In a few places the code behaves differently from what one might expect, and the model follows the code:

- the navigation list is built from the unfiltered bucket, not the filtered grid (render.js lines 306-312);
- the cursor is not clamped or reset when the list changes on an ordinary re-render;
- the workspace on view uses `||` (not `??`), so an id of 0 falls through like `null`;
- neither copy of the state enforces a single focused window or workspace on list events and upserts;
- the grid reads app names through `resolveApp` as written, so the name of "constructor" is "Object", and an app id whose last segment is `__proto__` has no name: the window filter then throws on a title that misses the query, and the card title throws on an empty title. Such a throw ends `renderState` before `rebuildNavItems`, and the card loop stops at the card that threw, after that card's fetch trigger;
- the icon fetch writes the image into the cache before it patches the placeholders, and a failure of that patch lands in the `catch`, which overwrites the entry with `null`.

## Model

| member | source | states |
|---|---|---|
| Niri.FirstFocusedWorkspace | src/lib/store.js:36 | None exactly when no workspace is flagged focused; otherwise the id of the first flagged one |
| Niri.FirstFocusedWindow | src/lib/store.js:57 | None exactly when no window is flagged focused; otherwise the id of the first flagged one |
| Niri.Activated | src/lib/store.js:43-47 | activation keeps the length of the workspace list |
| Niri.ActivatedFacts | src/lib/store.js:43-47 | every other field and the order are kept; the matching workspace alone is active; focus flags move only when `focused` is set; with distinct ids at most one workspace is focused, and one is exactly when the id is present |
| Niri.WithoutId | src/lib/store.js:67 | removing a window never makes a bucket longer |
| Niri.WithoutIdFacts | src/lib/store.js:67 | keeps exactly the windows with other ids; an absent id changes nothing; idempotent |
| Niri.WithoutIdConcat | src-tauri/src/ipc/client.rs:117 | the filter distributes over concatenation, so relative order is kept |
| Niri.Stripped | src/lib/store.js:75-79 | closing keeps the set of bucket keys |
| Niri.StrippedFacts | src/lib/store.js:74-81 | no window with the id survives; every other window stays in its bucket; an id held nowhere leaves the map unchanged |
| Niri.Upserted | src/lib/store.js:62-72 | the keys after an upsert are the old keys plus the window's bucket |
| Niri.UpsertedFacts | src/lib/store.js:62-72 | the id occurs exactly once across buckets, as the last window of its bucket; other windows keep their bucket and order |
| Niri.WithoutIdKeepsDistinct | src/lib/store.js:67 | removing windows cannot create a duplicate id |
| Niri.StrippedKeepsUnique | src/lib/store.js:74-81 | closing keeps window ids unique across buckets |
| Niri.UpsertedKeepsUnique | src/lib/store.js:62-72 | an upsert keeps window ids unique across buckets |
| Niri.Refocused | src/lib/store.js:90 | refocusing keeps the bucket's length |
| Niri.FocusedOnly | src/lib/store.js:87-92 | refocusing keeps the set of bucket keys |
| Niri.FocusedOnlyFacts | src/lib/store.js:83-94 | windows stay in place and only the focus flag changes; no focus id means no window is focused; with unique ids at most one window is focused |
| Niri.Grouped | src/lib/store.js:106-112 | `groupByWorkspace` as a fold over the list; `GroupedFacts` states its buckets against `OnWorkspace` |
| Niri.OnWorkspace | src/lib/store.js:106-112 | the windows of one bucket key, in list order: the independent reference that `GroupedFacts` compares the grouping with |
| Niri.GroupedFacts | src/lib/store.js:106-112 | there is a bucket exactly for each workspace key some window has; each bucket is the input's windows with that key, in input order |
| Niri.OnWorkspaceEmpty | src/lib/store.js:106-112 | a key that no window has selects no windows |
| Niri.GroupedMembers | src/lib/store.js:106-112 | every grouped window comes from the input list |
| Niri.GroupedKeepsUnique | src-tauri/src/ipc/client.rs:109-112 | grouping a list with distinct ids gives unique ids across buckets |
| Store.Or | src/lib/store.js:18 | definition of JavaScript `a \|\| b` on nullable ids: `a` when truthy (not null and not 0), else `b` |
| Store.Seeded | src/lib/store.js:16-22 | the shallow merge of the patch into the state; a falsy selection takes a truthy focused workspace, and a truthy focus always leaves a truthy selection |
| Store.SeededIdempotent | src/lib/store.js:16-22 | setting the same fields twice equals setting them once |
| Store.SeededEmptyPatch | src/lib/store.js:16-22 | an empty patch only seeds the selection and is a no-op when the selection is already truthy or the focus is falsy |
| Store.Step | src/lib/store.js:27-95 | per variant, the new workspaces, buckets and focused ids; a list event with nothing flagged keeps the old focused id; no event touches the selection or the query; unknown variants change nothing |
| Store.Run | src/lib/store.js:27-95 | `applyEvent` over a stream of events; `RunKeepsUniqueIds` and `Copies.RunsAgree` state what a run keeps |
| Store.RunKeepsUniqueIds | src/lib/store.js:27-95 | through any run of well-formed events, window ids stay unique across buckets, and the selection and query are never changed |
| Store.CloseAbsentIsNoOp | src/lib/store.js:74-81 | closing an id that no window has leaves the state as it was |
| Store.GroupByWorkspace | src/lib/store.js:106-112 | the reduce loop builds exactly the grouping of the list |
| Store.StripWindow | src/lib/store.js:65-68 | the key loop over a copy of the map gives every bucket filtered by the id |
| Store.Broadcast | src/lib/store.js:11 | one notify round delivers the snapshot to each subscriber in order, one delivery per subscriber |
| Store.BroadcastOnce | src/lib/store.js:10-11 | with a set of subscribers, a round reaches each subscriber exactly once and only subscribers |
| Store.Removed | src/lib/store.js:101 | deleting a callback leaves exactly the other subscribers, still without duplicates |
| Store.Store.constructor | src/lib/store.js:1-10 | a new store holds the initial state and no subscribers |
| Store.Store.GetState | src/lib/store.js:14 | returns the current state |
| Store.Store.Notify | src/lib/store.js:11 | appends one broadcast of the current state to the delivery log |
| Store.Store.SetState | src/lib/store.js:16-22 | the state becomes `Seeded` of the old state; subscribers are kept and notified once with the new state |
| Store.Store.ApplyEvent | src/lib/store.js:27-97 | the state becomes `Step` of the old state; subscribers are kept and notified once with the new state |
| Store.Store.Subscribe | src/lib/store.js:99-100 | adds a new callback at the end; an existing one changes nothing |
| Store.Store.Unsubscribe | src/lib/store.js:101 | the returned function removes the callback |
| Store.Store.WriteSelection | src/lib/render.js:386 | the view writes the selection into the state object; nothing else changes and no subscriber is called |
| Store.Store.WriteQuery | src/lib/render.js:432 | the view writes the query into the state object; nothing else changes and no subscriber is called |
| Store.GroupedSeed | src/lib/store.js:106-112 | a concrete example: grouping windows 10 and 11 gives one bucket per workspace |
| Store.Seed | src/lib/store.js:16-58 | a concrete example: workspace 1 focused, so it is selected; one window per workspace |
| Store.MoveThenActivate | src/lib/store.js:40-72 | a concrete example: moving window 10 empties bucket 1 and appends it to bucket 2; activating workspace 2 with focus moves the focus flags and the focused id |
| Client.Step | src-tauri/src/ipc/client.rs:84-136 | per variant, the new state; a list event with nothing flagged clears the focused id |
| Client.Run | src-tauri/src/ipc/client.rs:84-136 | `apply_event` over a stream of events; `Copies.RunsAgree` relates it to the front end's run |
| Client.FocusNeverStale | src-tauri/src/ipc/client.rs:89 | after a list event, a focused id held by the back end names a flagged member of the new list |
| Client.ActivateAll | src-tauri/src/ipc/client.rs:95-100 | the in-place loop over the workspaces computes `Activated` |
| Client.RefocusBucket | src-tauri/src/ipc/client.rs:129-131 | the in-place loop over one bucket computes `Refocused` |
| Client.NiriState.constructor | src-tauri/src/ipc/types.rs:33-39 | `NiriState::default()`: empty lists and maps, no focused ids |
| Client.NiriState.Regroup | src-tauri/src/ipc/client.rs:106-112 | clearing the map and then pushing each window yields the grouping of the list |
| Client.NiriState.RetainOthers | src-tauri/src/ipc/client.rs:122-124 | the loop over the buckets, in any order, strips the id from every bucket |
| Client.NiriState.SetFocusFlags | src-tauri/src/ipc/client.rs:128-132 | the nested loop refocuses every bucket |
| Client.NiriState.ApplyEvent | src-tauri/src/ipc/client.rs:84-136 | the state becomes `Client.Step` of the old state |
| Copies.StepsAgree | src-tauri/src/ipc/client.rs:87-113 | on one event both copies build the same workspaces and buckets; they differ exactly when a list event flags nothing while an id is held, and then the front end keeps the old id and the back end has none |
| Copies.RunsAgree | src/lib/store.js:27-95 | over any event stream, copies that start in agreement keep the same workspaces and buckets, and every focused id the back end holds is the front end's too |
| Copies.FirstFlagged | src/lib/store.js:36 | for any flag, a flagged element means a first flagged one exists; used for the focused workspace here and the focused window at store.js:57 |
| Copies.FocusDivergence | src-tauri/src/ipc/client.rs:89 | a concrete stream on which the front end keeps focus on workspace 1 and the back end has none |
| AppNames.MapOfFacts | src/lib/app-names.js:6-99 | the object literal's keys are the keys written, each holding the last info written with it |
| AppNames.TerminalsWellFormed | src/lib/app-names.js:7-17 | every terminal entry has a non-empty, non-inherited key, a name and an icon |
| AppNames.BrowsersWellFormed | src/lib/app-names.js:18-32 | the same for browsers |
| AppNames.EditorsWellFormed | src/lib/app-names.js:33-47 | the same for editors |
| AppNames.FileManagersWellFormed | src/lib/app-names.js:48-56 | the same for file managers |
| AppNames.CommunicationWellFormed | src/lib/app-names.js:57-69 | the same for communication apps |
| AppNames.MediaWellFormed | src/lib/app-names.js:70-79 | the same for media apps |
| AppNames.GraphicsWellFormed | src/lib/app-names.js:80-89 | the same for graphics apps |
| AppNames.SystemWellFormed | src/lib/app-names.js:90-98 | the same for system apps |
| AppNames.TableWellFormed | src/lib/app-names.js:6-99 | every key of the table is non-empty, lower-case and not an inherited member name, with a non-empty name and icon |
| AppNames.Spaced | src/lib/app-names.js:119 | every `-` and `_` becomes a space and nothing else changes |
| AppNames.Capitalized | src/lib/app-names.js:120 | capitalising keeps the length |
| AppNames.Prettify | src/lib/app-names.js:118-120 | the fallback's two `replace` passes; it keeps the length, and `PrettifyFacts` gives the contents |
| AppNames.PrettifyFacts | src/lib/app-names.js:118-120 | the prettified name has its source's length and no `-` or `_`; word starts are not lower-case; other characters are the spaced source's |
| AppNames.ResolveApp | src/lib/app-names.js:105-123 | Unknown for a missing or empty id; else the entry of the lower-cased id, else of its last segment, else `Prettify` of the last segment (of the whole id when that segment is empty) with the placeholder icon; the name and icon are never empty |
| AppNames.EveryEntryReachable | src/lib/app-names.js:108-111 | looking up a table key finds its own entry, so no entry is unreachable |
| AppNames.ResolveIgnoresCase | src/lib/app-names.js:108 | ids that differ only in ASCII case resolve alike |
| AppNames.PropertyOf | src/lib/app-names.js:111 | a property read finds an own entry exactly for table keys, and an inherited member exactly for `constructor` and `__proto__` |
| AppNames.ResolveAsWritten | src/lib/app-names.js:105-123 | `resolveApp` with property reads that reach `Object.prototype`: a name it yields is never empty, and there is no name exactly when the lower-cased last segment is `__proto__` |
| AppNames.AsWrittenAgrees | src/lib/app-names.js:105-123 | the lookup as written equals the own-property lookup whenever no key it reads is an inherited member name |
| AppNames.ConstructorFinding | src/lib/app-names.js:111 | as written, "constructor" resolves to the name "Object" with no icon, where the intended result is "Constructor" with the placeholder |
| AppNames.PrettifyConstructor | src/lib/app-names.js:118-120 | "constructor" prettifies to "Constructor" |
| AppNames.ProtoFinding | src/lib/app-names.js:111 | as written, `__proto__` resolves to an object with no name |
| Text.ToLower | src/lib/app-names.js:108 | definition of ASCII lower-casing; it keeps the length and maps each character on its own |
| Text.ToLowerFixpoints | src/lib/app-names.js:108 | lower-casing yields a lower-case string and leaves exactly the lower-case strings alone |
| Text.ContainsIffOccurs | src/lib/render.js:166-168 | `includes` holds exactly when the sub-string occurs at some position |
| Text.Split | src/lib/app-names.js:114 | `split` always yields at least one piece |
| Text.SplitJoin | src/lib/app-names.js:114 | joining the pieces gives back the input, and no piece holds the separator |
| Text.LastSegmentIsMaximalSuffix | src-tauri/src/commands/mod.rs:94 | the last segment is the longest separator-free suffix |
| Text.LastSegmentAfter | src/lib/app-names.js:114 | whatever precedes the final separator, the last segment is what follows it |
| Text.ReplaceAllFacts | src-tauri/src/commands/mod.rs:98-99 | replacing an absent pattern changes nothing, and removing a pattern never lengthens the string |
| Text.ReplaceAllLeftmost | src-tauri/src/commands/mod.rs:98-99 | the leftmost occurrence is replaced and the scan resumes after it: when nothing before `pat` (or straddling its start) matches, `a + pat + b` becomes `a + rep` and the replaced `b`; with `ReplaceAllFacts` this determines every result, as Rust's `str::replace` does |
| Text.ReplaceAllChars | src-tauri/src/commands/mod.rs:98-99 | every character of the result comes from the input or the replacement |
| Text.TrimFacts | src/lib/render.js:432 | the input is leading whitespace, the trimmed string and trailing whitespace; the trimmed string neither starts nor ends with whitespace; trimming twice is trimming once; whitespace is JavaScript's or Rust's set, per `Spaces` |
| Text.StripPrefix | src-tauri/src/commands/mod.rs:180 | yields the rest exactly when the string starts with the prefix |
| Text.LinesFacts | src-tauri/src/commands/mod.rs:179 | no line holds a line feed, and there are no lines exactly for the empty string |
| Text.NatToString | src/lib/render.js:116 | decimal rendering: a non-empty string of digits whose value (`DigitsValue`) is the number, with no leading zero except for 0 itself |
| Icons.Join | src-tauri/src/commands/mod.rs:133-134 | `Path::join` on strings: an absolute name replaces the directory; `FileNameOfJoin` states that a plain name becomes the file name |
| Icons.Suffixed | src-tauri/src/commands/mod.rs:110-112 | each directory gets the suffix, in order |
| Icons.ExtOf | src-tauri/src/commands/mod.rs:193 | the extension of a file name; `ExtOfIff` characterises it both ways |
| Icons.Extension | src-tauri/src/commands/mod.rs:73-74 | `Path::extension` of a path's file name; `MimeFor` and `ExtOfIff` state its uses |
| Icons.ExtOfIff | src-tauri/src/commands/mod.rs:73-74 | a name has extension `x` exactly when it is a non-empty stem, a dot and a dot-free `x` |
| Icons.FileNameOfJoin | src-tauri/src/commands/mod.rs:177 | joining a plain name to a directory gives a path whose file name is that name |
| Icons.Candidates | src-tauri/src/commands/mod.rs:93-100 | the four names `find_icon_path` tries; `CandidatesFacts` states them |
| Icons.CandidatesFacts | src-tauri/src/commands/mod.rs:93-100 | four lower-case candidates: the lower-cased id, then a suffix of it that equals it when the id has no dot; the last three are dot-free and no longer than the second; the third and fourth equal the second when `-desktop`, respectively `-bin`, does not occur |
| Icons.MimeFor | src-tauri/src/commands/mod.rs:73-83 | svg and svgz give `image/svg+xml`, xpm gives `image/x-xpixmap`, anything else or a missing extension gives `image/png` |
| Icons.MimeIgnoresCase | src-tauri/src/commands/mod.rs:76 | the MIME type ignores the extension's case |
| Icons.FirstExistingFacts | src-tauri/src/commands/mod.rs:127-144 | the first existing path exists and no earlier one does; there is none exactly when no path exists |
| Icons.FirstExistingConcat | src-tauri/src/commands/mod.rs:127-144 | the first existing path of a concatenation is the first of the front, else of the back |
| Icons.InDirIsFirst | src-tauri/src/commands/mod.rs:132-136 | the extension loop finds the first existing probe |
| Icons.InSizesIsFirst | src-tauri/src/commands/mod.rs:131-137 | the size loop finds the first existing probe |
| Icons.InThemesIsFirst | src-tauri/src/commands/mod.rs:130-138 | the theme loop finds the first existing probe |
| Icons.SearchOrder | src-tauri/src/commands/mod.rs:128-144 | the nested search finds the first existing path of the flat probe order: per existing base, every theme, size and extension, then the flat files |
| Icons.FirstIconFacts | src-tauri/src/commands/mod.rs:178-186 | a named file yields the value, trimmed of Rust's Unicode whitespace, of its first non-blank `Icon=` line, and nothing when there is none |
| Icons.ScanFacts | src-tauri/src/commands/mod.rs:195-208 | a scanned file matches exactly when one of its `Exec=` or `StartupWMClass=` lines does; its icon is the value of its last `Icon=` line, trimmed of Rust's Unicode whitespace |
| Icons.IconPath | src-tauri/src/commands/mod.rs:92-156 | `find_icon_path` up to a recursion depth; `SearchOrder`, `IconPathExists` and `NoRecursionOnSameName` state what it finds |
| Icons.DesktopIcon | src-tauri/src/commands/mod.rs:159-213 | `find_desktop_icon` over the search directories; `DesktopIconNamed`, `FirstIconFacts` and `ScanFacts` state what it returns |
| Icons.IconPathExists | src-tauri/src/commands/mod.rs:92-156 | whatever the search returns exists |
| Icons.FromCandidatesExist | src-tauri/src/commands/mod.rs:127-155 | whatever the candidate loop returns exists |
| Icons.FromCandidateExists | src-tauri/src/commands/mod.rs:128-153 | whatever one candidate yields exists |
| Icons.DesktopOnlyAfterMiss | src-tauri/src/commands/mod.rs:146-153 | when the first candidate is found in a base, no `.desktop` file or listing changes the result |
| Icons.NoRecursionOnSameName | src-tauri/src/commands/mod.rs:148 | when no `.desktop` file renames a candidate, the result does not depend on the recursion depth |
| Icons.IconData | src-tauri/src/commands/mod.rs:73-89 | success exactly for readable paths, as a `data:image/` URI; otherwise the read error naming the path |
| Icons.AppIconFacts | src-tauri/src/commands/mod.rs:67-90 | a success is an image data URI carrying the base64 of an existing, readable path; a miss is the error naming the id; any other error names a found path that cannot be read |
| Icons.AppCandidates | src-tauri/src/commands/mod.rs:93-100 | a concrete example: the id "App" gives the candidate "app" four times |
| Icons.SelfRecursion | src-tauri/src/commands/mod.rs:147-149 | with `Icon=App` in `app.desktop` and no icon file, `find_icon_path("App")` calls itself with the same argument |
| Icons.DesktopIconNamed | src-tauri/src/commands/mod.rs:159-213 | every icon name `find_desktop_icon` returns comes, lower-cased, from an `Icon=` line of a readable file |
| Icons.FixedIconPathEnds | src-tauri/src/commands/mod.rs:147-153 | the guarded lookup ends, with no path, on the environment where the source recurses forever |
| Icons.FixedAgreesWithoutRenames | src-tauri/src/commands/mod.rs:127-155 | when no `.desktop` file renames a candidate, the guarded lookup gives what the source gives |
| Icons.FixedIconPathExists | src-tauri/src/commands/mod.rs:92-156 | whatever the guarded lookup returns exists |
| Icons.IconBases | src-tauri/src/commands/mod.rs:102-113 | the icon base directories; `BuildIconBases` proves the push loop builds them |
| Icons.SearchDirs | src-tauri/src/commands/mod.rs:160-169 | the `.desktop` directories; `BuildSearchDirs` proves the push loop builds them |
| Icons.BuildIconBases | src-tauri/src/commands/mod.rs:106-113 | the push loop builds the base list: two under HOME, one per data directory, then the pixmaps directory |
| Icons.BuildSearchDirs | src-tauri/src/commands/mod.rs:164-169 | the push loop builds the `.desktop` search directories |
| Icons.ProbeDir | src-tauri/src/commands/mod.rs:132-136 | the extension loop returns the first existing probe |
| Icons.SearchSizes | src-tauri/src/commands/mod.rs:131-137 | the size loop returns the first existing probe |
| Icons.SearchThemes | src-tauri/src/commands/mod.rs:130-138 | the theme loop returns the first existing probe |
| Icons.SearchBases | src-tauri/src/commands/mod.rs:128-144 | the base loop skips missing bases and returns the first hit |
| Icons.FirstIconIn | src-tauri/src/commands/mod.rs:179-186 | the line loop returns the file's first non-blank `Icon=` value |
| Icons.ScanContent | src-tauri/src/commands/mod.rs:195-205 | the line loop computes the scan state of the file's lines |
| Icons.IconInFiles | src-tauri/src/commands/mod.rs:173-188 | the two named files of a directory are tried in order, and the first that yields an icon wins |
| Icons.ScanDir | src-tauri/src/commands/mod.rs:190-211 | the first matching `.desktop` file in the listing that has an icon wins; non-`.desktop` and unreadable entries are skipped |
| Icons.FindDesktopIcon | src-tauri/src/commands/mod.rs:159-213 | the directory loop returns the model's desktop icon |
| Icons.FindIconPath | src-tauri/src/commands/mod.rs:92-156 | the candidate loop returns the model's icon path at the given depth |
| Icons.TryCandidate | src-tauri/src/commands/mod.rs:128-153 | the loop body for one candidate returns the model's result for it |
| Icons.GetAppIcon | src-tauri/src/commands/mod.rs:67-90 | returns the model's `get_app_icon` result |
| Render.EffectiveWorkspace | src/lib/render.js:307-309 | the selection when truthy, else the focus when truthy, else the first workspace; none exactly when both are falsy and there are no workspaces |
| Render.StripAndList | src/lib/render.js:281 | the strip and the list agree when the strip's selection is truthy; otherwise the list shows the first workspace while no strip column is active |
| Render.BucketOf | src/lib/render.js:161 | definition of the lookup: the bucket of a present id, else no windows |
| Render.NavItems | src/lib/render.js:306-312 | the navigation list holds the ids of the effective workspace's windows, in bucket order |
| Render.Filter | src/lib/render.js:165 | the kept elements are exactly those passing the test, and the result is no longer than the input |
| Render.FilterConcat | src/lib/render.js:165 | filtering distributes over concatenation, so order is kept |
| Render.FilterIdempotent | src/lib/render.js:165 | filtering twice is filtering once |
| Render.WindowTest | src/lib/render.js:166-168 | the filter's test on one window: true when the title contains the query; otherwise it throws exactly when the app id has no name, and else tests the as-written app name and the app id |
| Render.TryFilter | src/lib/render.js:166-168 | `Array.filter` with a test that can throw: it throws exactly when some window's test throws, and else keeps the windows that pass, in order |
| Render.FilterWindows | src/lib/render.js:163-170 | an empty query keeps the bucket; otherwise the filter throws exactly when some window's test throws, and else keeps, in order, exactly the windows whose title, app name or app id contains the lower-cased query |
| Render.FilterWindowsFacts | src/lib/render.js:163-170 | the query's case does not matter, and filtering again changes nothing |
| Render.AsWrittenViewAgrees | src/lib/render.js:166-168 | when no key the lookup reads is an inherited member name, the filter's test and the card title are those of the own-property `ResolveApp` |
| Render.WorkspaceLabel | src/lib/render.js:116 | the name when non-empty, else "ws " and the index |
| Render.FilterWorkspaces | src/lib/render.js:111-113 | an empty query keeps every workspace; otherwise exactly those whose lower-cased label contains the lower-cased query, in order |
| Render.Visible | src/lib/render.js:157-170 | the grid's windows, or nothing when the filter throws; `VisibleInNav` relates them to the navigation list |
| Render.VisibleInNav | src/lib/render.js:306-312 | the navigation list ignores the query and so holds the id of every window on view whenever the filter does not throw |
| Render.JsRem | src/lib/render.js:316 | JavaScript `%`: the result has the dividend's sign and is smaller in size than the divisor |
| Render.JsRemValue | src/lib/render.js:316 | the remainder is what the quotient truncated toward zero leaves: `a == b * trunc(a / b) + a % b` |
| Render.NavMoved | src/lib/render.js:314-316 | an empty list leaves the cursor; a non-negative cursor, even a stale one past the end, becomes `(i + delta + len) mod len`, inside the list; inside the list it steps and wraps at both ends |
| Render.NavMoveInverse | src/lib/render.js:378-379 | ArrowLeft undoes ArrowRight and the reverse |
| Render.ItemAt | src/lib/render.js:326 | definition of the lookup: the item under the cursor, undefined outside the list |
| Render.FindWorkspace | src/lib/render.js:384 | `findIndex`: the first matching position, or -1 exactly when no workspace has the id |
| Render.FindDistinct | src/lib/render.js:384 | with distinct ids, looking up a workspace's id finds its index |
| Render.ArrowSelection | src/lib/render.js:381-402 | ArrowDown from an unfound selection picks the first workspace, steps down and stops at the last; ArrowUp steps up, stops at the first and ignores an unfound selection; always a listed workspace |
| Render.DownThenUp | src/lib/render.js:381-402 | with distinct, non-zero ids, ArrowUp undoes ArrowDown |
| Render.UpThenDown | src/lib/render.js:381-402 | with distinct, non-zero ids, ArrowDown undoes ArrowUp |
| Render.FirstDownKeepsView | src/lib/render.js:381-391 | with no selection or focus, the first ArrowDown selects the workspace already shown |
| Render.InitialViewValid | src/lib/render.js:7-13 | the initial view keeps the view invariant |
| Render.Fresh | src/lib/render.js:189-194 | the fetches the cards start, in order; `FreshFacts` states which they are |
| Render.FreshFacts | src/lib/render.js:189-194 | one render fetches each app id at most once, never a cached or loading one, only ids of the windows on view, and every one that needed fetching |
| Render.CardTitle | src/lib/render.js:218 | the title, or the as-written app name when the title is empty, truncated to 26 characters; it throws exactly when the title is empty and the app id has no name; a title is never empty and at most 27 characters long |
| Render.FirstFailingCard | src/lib/render.js:183-218 | the position of the first card whose title throws: no earlier card throws, and that one does, or no card throws |
| Render.Drawn | src/lib/render.js:183-218 | the cards that get as far as their fetch trigger: the prefix up to and including the first card that throws, or every card |
| Render.Started | src/lib/render.js:189-194 | the fetches of the given cards: earlier requests are kept, new ones are neither cached nor loading, afterwards every card's app id is cached or loading; the invariant is kept |
| Render.FreshUntilDrawn | src/lib/render.js:183-218 | stopping the card loop at the first card that throws starts the fetches of exactly the drawn cards |
| Render.Rendered | src/lib/render.js:86-101 | when the render completes the navigation list is rebuilt, else it is kept; a filter that throws changes nothing; the cursor and cache are kept; only uncached, non-loading ids are fetched; after a completed render every app id on view is cached or loading; the view invariant is kept |
| Render.Settled | src/lib/render.js:259-274 | the URI is cached on success when the placeholder patch does not throw, and `null` on failure or when it throws; the id leaves the loading set; nothing else changes; the invariant is kept |
| Render.SettledFromBackend | src/lib/render.js:259-271 | a cached image from the back end is always an image data URI, and `null` is cached exactly when the back end erred or the placeholder patch threw |
| Render.Reselected | src/lib/render.js:386-388 | the selection is written and the cursor reset to 0, with no command; the list is rebuilt when the render completes and kept otherwise |
| Render.KeyStep | src/lib/render.js:368-427 | Escape always hides; other keys do nothing while searching; ArrowRight and ArrowLeft move the cursor by `NavMoved`; ArrowDown and ArrowUp select per `ArrowSelection`, reset the cursor and re-render; every other key leaves the view and the state and gives `KeyCommand` of the item under the cursor; the invariant is kept |
| Render.Clicked | src/lib/render.js:133-140 | the clicked workspace is selected and shown; when the grid renders without a throw the cursor is reset and the list rebuilt, else both are kept |
| Render.Searched | src/lib/render.js:430-435 | the text, trimmed of JavaScript's whitespace, becomes the query and the cursor is reset; when the render completes the navigation list is the unfiltered bucket, else it is kept |
| Render.View.constructor | src/lib/render.js:7-13 | an empty cursor, list, cache and loading set |
| Render.View.StartFetch | src/lib/render.js:255-259 | the id is marked loading and requested |
| Render.View.FinishFetch | src/lib/render.js:259-274 | the view becomes `Settled`: the cache write, the `catch` when the patch throws, and the `finally` |
| Render.View.TriggerFetch | src/lib/render.js:192-194 | one window card starts a fetch exactly when its app id is non-empty, not cached and not loading; the id is then loading and requested, and otherwise nothing changes |
| Render.View.DrawCard | src/lib/render.js:183-218 | one card: its fetch per `TriggerFetch`, then whether its title throws, with the loop's account of the fetches carried forward |
| Render.View.DrawCards | src/lib/render.js:183-218 | the card loop completes exactly when no card throws, and starts the fetches of the cards up to the first that throws, in order |
| Render.View.RenderWindows | src/lib/render.js:155-218 | completes exactly when `RenderCompletes`; starts the fetches of the drawn cards, none when the filter throws |
| Render.View.Render | src/lib/render.js:86-101 | the view becomes `Rendered`, and the result says whether the render completed |
| Render.View.NavMove | src/lib/render.js:314-316 | the cursor becomes `NavMoved` |
| Render.View.NavActivate | src/lib/render.js:325-331 | a focus command for the item under the cursor exactly when there is one |
| Render.View.SelectByArrow | src/lib/render.js:381-402 | the view and the store's state become `Arrowed` of the old ones |
| Render.KeyCommand | src/lib/render.js:403-426 | Enter focuses, Delete and Backspace close, m and M open the move menu of the window under the cursor, and give no command when there is none; 1 to 9 focus that workspace; any other key gives no command |
| Render.View.HandleKey | src/lib/render.js:368-427 | the view, the store's state and the command become `KeyStep` of the old ones |
| Render.View.ClickWorkspace | src/lib/render.js:133-140 | the view and the store's state become `Clicked` of the old ones |
| Render.View.SearchInput | src/lib/render.js:430-435 | the view and the store's state become `Searched` of the old ones |
| Render.EscapeEachSafe | src/lib/render.js:449-453 | escaping leaves no raw `<`, `>` or `"` |
| Render.EscapeEachRoundTrip | src/lib/render.js:449-453 | decoding the entities gives back the text |
| Render.PassesPerChar | src/lib/render.js:451-452 | the chained passes escape each character on its own, because `&` goes first |
| Render.EscHtml | src/lib/render.js:449-453 | each character is escaped on its own; no raw `<`, `>` or `"` remains; decoding gives back the input |
| Render.Truncate | src/lib/render.js:454-456 | a string within `max` is kept; a longer one keeps its first `max` characters and ends with an ellipsis |
| Render.TruncateIdempotent | src/lib/render.js:454-456 | truncating a truncated string changes nothing |
| Render.AppSlug | src/lib/render.js:446-448 | "unknown" for a missing or empty id; else a lower-case, dot-free suffix of the lower-cased id that follows a dot or is the whole id |
| Render.SlugIsIconCandidate | src/lib/render.js:446-448 | the slug is the second name the back end's icon search tries |

## Left out

- Rendering markup is not modelled: the DOM, `innerHTML`, the header counts (render.js lines 87-95), the strip and list markup, card classes, scrolling and the move popup. Only the state the view keeps and the strings it computes are modelled.
- Event listeners and timers are not modelled. The keydown, click and input handlers are methods called with the key or value, and `isSearchFocused` is a parameter.
- Double-clicks, strip clicks and card buttons are not modelled. They only invoke a back-end command.
- Asynchronous calls are not modelled as such. `fetchIcon` is split into a start (`StartFetch`) and a settle (`FinishFetch`). Fetches in flight interleave only in the order the caller chooses. What the placeholder patch does to the DOM is left out; only whether it throws is modelled (see `Render.Settled`).
- Store subscribers are handles with a delivery log. The callbacks themselves, and a callback that re-enters the store, are not modelled.
- Store.Store.Notify: every subscriber is delivered to. In the source a subscriber that throws, such as a render that throws (see `Render.RenderCompletes`), ends the `forEach` and skips the later subscribers.
- Render.Settled: whether the placeholder patch throws is the parameter `patchThrows`. The patch builds a CSS selector from the raw app id, and the selector grammar is not modelled, so the model does not say which ids make `querySelectorAll` throw (one holding `"` or a line feed, for example).
- Render.WindowTest: the only exceptions the view models are the ones a missing app name causes. Exceptions from the DOM are not modelled.
- Render.KeyStep: keys are a datatype. A multi-character key name is compared with the digit range as a whole string in JavaScript, and the model treats it as no command.
- Render.KeyStep: M issues the move command whenever there is an item under the cursor. The source also needs the card's move button in the DOM.
- Render.Clicked: the click handler filters with the query captured at the last render. The model uses the query in the state, which is the same unless the state object was changed in between.
- Render.Truncate: counts characters, where JavaScript counts UTF-16 code units.
- Text.ToLower: lower-cases ASCII letters only. Unicode case mapping is not modelled.
- Text.ReplaceAllChars: states only where the characters of the result come from; what the result is, is stated by Text.ReplaceAllFacts and Text.ReplaceAllLeftmost.
- Icons.IconData: base64 encoding is a field of the environment (the encoded text of each readable file). Reading bytes and the encoder are not modelled.
- Icons.IconPath: follows `.desktop` recursion for at most `fuel` levels, where the source has no bound (see Findings). `GetAppIcon` and `FindIconPath` keep the source's behaviour up to that depth.
- Icons.ScanEntries: the directory listing order is a field of the environment. `read_dir` order is not specified.
- Icons.Join: paths are strings and `Path::exists` is membership of a set. The filesystem does no normalisation, symbolic links or permissions.
- Client.NiriState.RetainOthers: HashMap iteration order is left open (any order gives the same result). The lock and the `async` context are not modelled.
- The event stream reader, the Tauri commands other than `get_app_icon`, the window-manager socket and the remaining Rust files are not part of this model.
- Integer widths are not modelled. Ids are natural numbers, and the `u64` range is not modelled.

## Findings

| source | as written | input that shows it | evidently intended | confidence | as-written member | corrected member |
|---|---|---|---|---|---|---|
| src/lib/app-names.js:111,115 | `APP_NAMES[lower]` and `APP_NAMES[last]` read inherited properties of `Object.prototype` | app id "constructor" resolves to name "Object" with no icon; "__proto__" resolves to an object with no name, and in the grid such an id makes the window filter or the card title throw (`Render.WindowTest`, `Render.CardTitle`) | only the table's own entries match, so "constructor" falls back to "Constructor" with the placeholder icon | not executed | AppNames.ConstructorFinding | AppNames.AsWrittenAgrees |
| src-tauri/src/commands/mod.rs:147-153 | the `.desktop` icon name is compared with the lower-cased candidate before recursing | app id "App", an `app.desktop` with `Icon=App` and no icon file: `find_icon_path("App")` calls itself with the same argument forever | each icon name is followed at most once, so the lookup ends with no path | not executed | Icons.SelfRecursion | Icons.FixedIconPathEnds |
