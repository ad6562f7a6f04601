/**
 * The display-name resolver of the front end (`resolveApp` over the `APP_NAMES` table in
 * app-names.js): a case-insensitive lookup of the whole app id, then of its last dot-segment,
 * then a prettified form of that segment.
 */
module AppNames {
  import opened Wrappers
  import opened Text

  /** A display name and an emoji icon. */
  datatype AppInfo = AppInfo(name: string, icon: string)

  /** The placeholder icon of every app that is not in the table. */
  const Placeholder := "⬜"

  const Unknown := AppInfo("Unknown", Placeholder)

  // ---------------------------------------------------------------------------------------------
  // APP_NAMES

  /** A character that is neither an ASCII capital nor `_`. Table keys are written in these
      alone, so the type of a key already says that lower-casing leaves it alone and that no
      segment of it is `__proto__`. */
  type KeyChar = c: char | !IsUpperAscii(c) && c != '_' witness 'a'

  /** One `key: { name, icon }` property of the object literal. */
  datatype Entry = Entry(key: seq<KeyChar>, info: AppInfo)

  /** Terminals. */
  const Terminals: seq<Entry> := [
    Entry("kitty",                        AppInfo("Kitty", "🐱")),
    Entry("alacritty",                    AppInfo("Alacritty", "⬛")),
    Entry("foot",                         AppInfo("Foot", "🦶")),
    Entry("wezterm",                      AppInfo("WezTerm", "💻")),
    Entry("org.wezfurlong.wezterm",       AppInfo("WezTerm", "💻")),
    Entry("com.mitchellh.ghostty",        AppInfo("Ghostty", "👻")),
    Entry("ghostty",                      AppInfo("Ghostty", "👻")),
    Entry("blackbox",                     AppInfo("Black Box", "📦")),
    Entry("com.raggesilver.blackbox",     AppInfo("Black Box", "📦"))
  ]

  /** Browsers. */
  const Browsers: seq<Entry> := [
    Entry("firefox",                      AppInfo("Firefox", "🦊")),
    Entry("org.mozilla.firefox",          AppInfo("Firefox", "🦊")),
    Entry("floorp",                       AppInfo("Floorp", "🌊")),
    Entry("org.mozilla.floorp",           AppInfo("Floorp", "🌊")),
    Entry("chromium",                     AppInfo("Chromium", "🌐")),
    Entry("org.chromium.chromium",        AppInfo("Chromium", "🌐")),
    Entry("brave-browser",                AppInfo("Brave", "🦁")),
    Entry("com.brave.browser",            AppInfo("Brave", "🦁")),
    Entry("google-chrome",                AppInfo("Chrome", "🔵")),
    Entry("com.google.chrome",            AppInfo("Chrome", "🔵")),
    Entry("qutebrowser",                  AppInfo("qutebrowser", "⌨️")),
    Entry("zen",                          AppInfo("Zen", "🧘")),
    Entry("app.zen-browser.zen",          AppInfo("Zen", "🧘"))
  ]

  /** Editors / IDEs. */
  const Editors: seq<Entry> := [
    Entry("code",                         AppInfo("VS Code", "⚡")),
    Entry("code-oss",                     AppInfo("VS Code OSS", "⚡")),
    Entry("com.visualstudio.code",        AppInfo("VS Code", "⚡")),
    Entry("neovide",                      AppInfo("Neovide", "💚")),
    Entry("nvim",                         AppInfo("Neovim", "💚")),
    Entry("neovim",                       AppInfo("Neovim", "💚")),
    Entry("helix",                        AppInfo("Helix", "🌀")),
    Entry("emacs",                        AppInfo("Emacs", "🟣")),
    Entry("zed",                          AppInfo("Zed", "⚡")),
    Entry("dev.zed.zed",                  AppInfo("Zed", "⚡")),
    Entry("jetbrains-idea",               AppInfo("IntelliJ", "🧠")),
    Entry("jetbrains-clion",              AppInfo("CLion", "🦁")),
    Entry("jetbrains-rider",              AppInfo("Rider", "🎯"))
  ]

  /** File managers. */
  const FileManagers: seq<Entry> := [
    Entry("thunar",                       AppInfo("Thunar", "📁")),
    Entry("nautilus",                     AppInfo("Files", "📁")),
    Entry("org.gnome.nautilus",           AppInfo("Files", "📁")),
    Entry("dolphin",                      AppInfo("Dolphin", "🐬")),
    Entry("org.kde.dolphin",              AppInfo("Dolphin", "🐬")),
    Entry("nemo",                         AppInfo("Nemo", "📁")),
    Entry("org.nemo.nemo",                AppInfo("Nemo", "📁"))
  ]

  /** Communication. */
  const Communication: seq<Entry> := [
    Entry("discord",                      AppInfo("Discord", "💬")),
    Entry("com.discordapp.discord",       AppInfo("Discord", "💬")),
    Entry("vesktop",                      AppInfo("Vesktop", "💬")),
    Entry("telegram-desktop",             AppInfo("Telegram", "✈️")),
    Entry("org.telegram.desktop",         AppInfo("Telegram", "✈️")),
    Entry("slack",                        AppInfo("Slack", "💼")),
    Entry("com.slack.slack",              AppInfo("Slack", "💼")),
    Entry("element",                      AppInfo("Element", "🔷")),
    Entry("im.riot.riot",                 AppInfo("Element", "🔷")),
    Entry("signal-desktop",               AppInfo("Signal", "🔒")),
    Entry("org.signal.signal",            AppInfo("Signal", "🔒"))
  ]

  /** Media. */
  const Media: seq<Entry> := [
    Entry("spotify",                      AppInfo("Spotify", "🎵")),
    Entry("com.spotify.client",           AppInfo("Spotify", "🎵")),
    Entry("mpv",                          AppInfo("mpv", "▶️")),
    Entry("io.mpv.mpv",                   AppInfo("mpv", "▶️")),
    Entry("vlc",                          AppInfo("VLC", "🎬")),
    Entry("org.videolan.vlc",             AppInfo("VLC", "🎬")),
    Entry("rhythmbox",                    AppInfo("Rhythmbox", "🎵")),
    Entry("org.gnome.rhythmbox3",         AppInfo("Rhythmbox", "🎵"))
  ]

  /** Graphics / Design. */
  const Graphics: seq<Entry> := [
    Entry("gimp",                         AppInfo("GIMP", "🎨")),
    Entry("org.gimp.gimp",                AppInfo("GIMP", "🎨")),
    Entry("inkscape",                     AppInfo("Inkscape", "✒️")),
    Entry("org.inkscape.inkscape",        AppInfo("Inkscape", "✒️")),
    Entry("blender",                      AppInfo("Blender", "🔶")),
    Entry("org.blender.blender",          AppInfo("Blender", "🔶")),
    Entry("krita",                        AppInfo("Krita", "🖌️")),
    Entry("org.kde.krita",                AppInfo("Krita", "🖌️"))
  ]

  /** System. */
  const System: seq<Entry> := [
    Entry("pavucontrol",                  AppInfo("PulseAudio", "🔊")),
    Entry("org.pulseaudio.pavucontrol",   AppInfo("PulseAudio", "🔊")),
    Entry("org.gnome.settings",           AppInfo("Settings", "⚙️")),
    Entry("nm-connection-editor",         AppInfo("Network", "🌐")),
    Entry("org.kde.systemsettings",       AppInfo("Settings", "⚙️")),
    Entry("org.kde.plasma-systemmonitor", AppInfo("System Monitor", "📊")),
    Entry("htop",                         AppInfo("htop", "📊")),
    Entry("btop",                         AppInfo("btop", "📊"))
  ]
  /** The properties of `APP_NAMES` in the order they are written. */
  const Entries: seq<Entry> := Terminals + Browsers + Editors + FileManagers + Communication + Media + Graphics + System

  /** The object an object literal builds: each property in turn, a later duplicate key
      overwriting an earlier one. */
  function MapOf(es: seq<Entry>): map<string, AppInfo>
    decreases |es|
  {
    if es == [] then map[]
    else MapOf(es[..|es| - 1])[es[|es| - 1].key := es[|es| - 1].info]
  }

  const Table: map<string, AppInfo> := MapOf(Entries)

  /** The keys of the object are the keys written, and each holds the info of the last
      property written with it. */
  lemma MapOfFacts(es: seq<Entry>)
    ensures forall k :: k in MapOf(es) <==> exists i :: 0 <= i < |es| && es[i].key == k
    ensures forall k :: k in MapOf(es) ==>
      exists i :: 0 <= i < |es| && es[i].key == k && es[i].info == MapOf(es)[k]
                  && forall j :: i < j < |es| ==> es[j].key != k
  {
    MapOfKeys(es);
    MapOfValues(es);
  }

  lemma {:induction false} MapOfKeys(es: seq<Entry>)
    ensures forall k :: k in MapOf(es) <==> exists i :: 0 <= i < |es| && es[i].key == k
    decreases |es|
  {
    if es != [] {
      var init := es[..|es| - 1];
      var n := |es| - 1;
      MapOfKeys(init);
      forall k ensures k in MapOf(es) <==> exists i :: 0 <= i < |es| && es[i].key == k {
        if k == es[n].key {
        } else if k in MapOf(init) {
          var i :| 0 <= i < |init| && init[i].key == k;
          assert es[i] == init[i];
        } else {
          forall i | 0 <= i < |es| ensures es[i].key != k {
            if i < n {
              assert es[i] == init[i];
            }
          }
        }
      }
    }
  }

  lemma MapOfValues(es: seq<Entry>)
    ensures forall k :: k in MapOf(es) ==>
      exists i :: 0 <= i < |es| && es[i].key == k && es[i].info == MapOf(es)[k]
                  && forall j :: i < j < |es| ==> es[j].key != k
  {
    forall k | k in MapOf(es)
      ensures exists i :: 0 <= i < |es| && es[i].key == k && es[i].info == MapOf(es)[k]
                && forall j :: i < j < |es| ==> es[j].key != k
    {
      var i := LastWritten(es, k);
    }
  }

  /** The index of the last property written with key `k`, whose info the object holds. */
  lemma {:induction false} LastWritten(es: seq<Entry>, k: string) returns (i: int)
    requires k in MapOf(es)
    ensures 0 <= i < |es| && es[i].key == k && es[i].info == MapOf(es)[k]
    ensures forall j :: i < j < |es| ==> es[j].key != k
    decreases |es|
  {
    var n := |es| - 1;
    var init := es[..n];
    if es[n].key == k {
      i := n;
    } else {
      assert k in MapOf(init);
      i := LastWritten(init, k);
      assert es[i] == init[i];
      forall j | i < j < |es| ensures es[j].key != k {
        if j < n {
          assert es[j] == init[j];
        }
      }
    }
  }

  /** A property read that no member of Object.prototype can answer: no all-lowercase member
      name such as `constructor` or `__proto__`. */
  predicate NotInherited(k: string) {
    k != "constructor" && k != "__proto__"
  }

  /** The facts of one property that the resolver relies on: a non-empty key that no inherited
      member shares, and a non-empty name and icon. */
  predicate WellFormed(e: Entry) {
    e.key != [] && NotInherited(e.key) && e.info.name != "" && e.info.icon != ""
  }

  lemma TerminalsWellFormed()
    ensures forall e :: e in Terminals ==> WellFormed(e)
  {
    forall i | 0 <= i < |Terminals| ensures WellFormed(Terminals[i]) {
    }
  }

  lemma BrowsersWellFormed()
    ensures forall e :: e in Browsers ==> WellFormed(e)
  {
    forall i | 0 <= i < |Browsers| ensures WellFormed(Browsers[i]) {
    }
  }

  lemma EditorsWellFormed()
    ensures forall e :: e in Editors ==> WellFormed(e)
  {
    forall i | 0 <= i < |Editors| ensures WellFormed(Editors[i]) {
    }
  }

  lemma FileManagersWellFormed()
    ensures forall e :: e in FileManagers ==> WellFormed(e)
  {
    forall i | 0 <= i < |FileManagers| ensures WellFormed(FileManagers[i]) {
    }
  }

  lemma CommunicationWellFormed()
    ensures forall e :: e in Communication ==> WellFormed(e)
  {
    forall i | 0 <= i < |Communication| ensures WellFormed(Communication[i]) {
    }
  }

  lemma MediaWellFormed()
    ensures forall e :: e in Media ==> WellFormed(e)
  {
    forall i | 0 <= i < |Media| ensures WellFormed(Media[i]) {
    }
  }

  lemma GraphicsWellFormed()
    ensures forall e :: e in Graphics ==> WellFormed(e)
  {
    forall i | 0 <= i < |Graphics| ensures WellFormed(Graphics[i]) {
    }
  }

  lemma SystemWellFormed()
    ensures forall e :: e in System ==> WellFormed(e)
  {
    forall i | 0 <= i < |System| ensures WellFormed(System[i]) {
    }
  }
  /** Every key of the table is lowercase, non-empty and not an inherited member name, and
      every entry has a name and an icon. */
  lemma TableWellFormed()
    ensures forall k :: k in Table ==>
      k != "" && IsLower(k) && NotInherited(k) && Table[k].name != "" && Table[k].icon != ""
    ensures forall k :: k in Table ==> '_' !in k
  {
    TerminalsWellFormed();
    BrowsersWellFormed();
    EditorsWellFormed();
    FileManagersWellFormed();
    CommunicationWellFormed();
    MediaWellFormed();
    GraphicsWellFormed();
    SystemWellFormed();
    assert forall e :: e in Entries ==> WellFormed(e);
    MapOfFacts(Entries);
    forall k | k in Table
      ensures k != "" && IsLower(k) && NotInherited(k) && Table[k].name != "" && Table[k].icon != ""
    {
      var i :| 0 <= i < |Entries| && Entries[i].key == k && Entries[i].info == Table[k];
      assert Entries[i] in Entries;
    }
    forall k | k in Table
      ensures '_' !in k
    {
      var i :| 0 <= i < |Entries| && Entries[i].key == k;
      var key: seq<KeyChar> := Entries[i].key;
      assert forall j :: 0 <= j < |key| ==> key[j] != '_';
    }
  }

  // ---------------------------------------------------------------------------------------------
  // Prettifying an unknown id

  /** `\w`: an ASCII letter, digit or underscore. */
  predicate IsWordChar(c: char) {
    'a' <= c <= 'z' || 'A' <= c <= 'Z' || '0' <= c <= '9' || c == '_'
  }

  /** `.replace(/[-_]/g, " ")`. */
  function Spaced(s: string): (r: string)
    ensures |r| == |s| && '-' !in r && '_' !in r
    ensures forall i :: 0 <= i < |s| ==> r[i] == (if s[i] == '-' || s[i] == '_' then ' ' else s[i])
  {
    seq(|s|, i requires 0 <= i < |s| => if s[i] == '-' || s[i] == '_' then ' ' else s[i])
  }

  /** Position `i` of `t` is where `\b\w` matches: a word character not preceded by one. */
  predicate WordStart(t: string, i: int)
    requires 0 <= i < |t|
  {
    IsWordChar(t[i]) && (i == 0 || !IsWordChar(t[i - 1]))
  }

  /** `.replace(/\b\w/g, c => c.toUpperCase())`. */
  function Capitalized(t: string): (r: string)
    ensures |r| == |t|
  {
    seq(|t|, i requires 0 <= i < |t| => if WordStart(t, i) then UpperChar(t[i]) else t[i])
  }

  /** The fallback display name: `-` and `_` made spaces, then every word capitalised; the
      length is kept (`PrettifyFacts` says the rest). */
  function Prettify(s: string): (r: string)
    ensures |r| == |s|
  {
    Capitalized(Spaced(s))
  }

  /** The prettified name has the length of its source and no `-` or `_`; word starts are not
      lower case, every other character is the spaced source's, and apart from case the whole
      name is the source with `-` and `_` made spaces. */
  lemma PrettifyFacts(s: string)
    ensures var r := Prettify(s);
      && |r| == |s| && '-' !in r && '_' !in r
      && ToLower(r) == ToLower(Spaced(s))
      && (forall i :: 0 <= i < |r| && WordStart(Spaced(s), i) ==> !IsLowerAscii(r[i]))
      && (forall i :: 0 <= i < |r| && !WordStart(Spaced(s), i) ==> r[i] == Spaced(s)[i])
  {
    var t := Spaced(s);
    var r := Capitalized(t);
    forall i | 0 <= i < |r| ensures r[i] != '-' && r[i] != '_' && LowerChar(r[i]) == LowerChar(t[i]) {
      assert t[i] != '-' && t[i] != '_';
    }
  }

  // ---------------------------------------------------------------------------------------------
  // resolveApp

  /** What the fallback prettifies: the lowercased last segment, or the original id when that
      segment is empty. */
  function FallbackSource(appId: string): string {
    var last := LastSegment(ToLower(appId), '.');
    if last == "" then appId else last
  }

  /** Display info for a window's app id: Unknown for a missing or empty id, else the entry of
      the lowercased id, else the entry of its last segment, else a prettified name with the
      placeholder icon. It is total and never yields an empty name or icon. */
  function ResolveApp(appId: Option<string>): (r: AppInfo)
    ensures r.name != "" && r.icon != ""
    ensures appId.None? || appId == Some("") ==> r == Unknown
    ensures appId.Some? && appId.value != "" ==>
      var lower := ToLower(appId.value);
      var last := LastSegment(lower, '.');
      && (lower in Table ==> r == Table[lower])
      && (lower !in Table && last in Table ==> r == Table[last])
      && (lower !in Table && last !in Table ==>
            r.icon == Placeholder && r.name == Prettify(FallbackSource(appId.value))
            && |r.name| == |FallbackSource(appId.value)| && '-' !in r.name && '_' !in r.name)
  {
    if appId.None? || appId.value == "" then Unknown
    else
      var lower := ToLower(appId.value);
      TableWellFormed();
      if lower in Table then Table[lower]
      else
        var last := LastSegment(lower, '.');
        if last in Table then Table[last]
        else
          assert FallbackSource(appId.value) != "";
          AppInfo(Prettify(FallbackSource(appId.value)), Placeholder)
  }

  /** Because every key is lowercase, looking a key up by itself finds its own entry: no entry
      of the table is unreachable. */
  lemma EveryEntryReachable(k: string)
    requires k in Table
    ensures ResolveApp(Some(k)) == Table[k]
  {
    TableWellFormed();
    ToLowerFixpoints(k);
  }

  /** Case does not matter: ids that differ only in ASCII case resolve alike. */
  lemma ResolveIgnoresCase(a: string, b: string)
    requires ToLower(a) == ToLower(b)
    requires LastSegment(ToLower(a), '.') != ""
    ensures ResolveApp(Some(a)) == ResolveApp(Some(b))
  {
    if a == "" || b == "" {
      assert |a| == |ToLower(a)| == |ToLower(b)| == |b|;
    }
  }

  // ---------------------------------------------------------------------------------------------
  // The lookup as written: property reads that reach Object.prototype

  /** What the property read `APP_NAMES[key]` yields: an own entry, a member every object
      inherits from Object.prototype, or undefined. Of the inherited members only two have an
      all-lowercase name: `constructor` (the Object function, whose `name` is "Object") and
      `__proto__` (Object.prototype, which has no `name`). Neither has an `icon`. */
  datatype Property = Own(info: AppInfo) | Inherited(name: Option<string>) | Missing

  function PropertyOf(key: string): (r: Property)
    ensures r.Own? <==> key in Table
    ensures r.Inherited? <==> key !in Table && !NotInherited(key)
  {
    if key in Table then Own(Table[key])
    else if key == "constructor" then Inherited(Some("Object"))
    else if key == "__proto__" then Inherited(None)
    else Missing
  }

  /** The object `resolveApp` returns as written, with fields that may be undefined. */
  datatype Resolved = Resolved(name: Option<string>, icon: Option<string>)

  function FromInfo(info: AppInfo): Resolved {
    Resolved(Some(info.name), Some(info.icon))
  }

  /** Whether the lookup as written of a lowercased id reads an inherited member: the id itself
      names one, or the id is no property at all and its last segment names one. */
  predicate ReadsInherited(lower: string) {
    !NotInherited(lower) || (lower !in Table && !NotInherited(LastSegment(lower, '.')))
  }

  /** `resolveApp` as written. A name it yields is never empty, and the name is undefined
      exactly when the id's lowercased last segment is `__proto__`: a table key has no `_`, so
      such an id is no key, and the read of it or of its last segment lands on Object.prototype. */
  function ResolveAsWritten(appId: Option<string>): (r: Resolved)
    ensures r.name.Some? ==> r.name.value != ""
    ensures r.name.None? <==> appId.Some? && LastSegment(ToLower(appId.value), '.') == "__proto__"
  {
    TableWellFormed();
    if appId.None? || appId.value == "" then
      LastSegmentWhole("", '.');
      FromInfo(Unknown)
    else
      var lower := ToLower(appId.value);
      match PropertyOf(lower)
      case Own(info) =>
        NoProtoSegment(lower);
        FromInfo(info)
      case Inherited(name) =>
        LastSegmentWhole(lower, '.');
        Resolved(name, None)
      case Missing =>
        var last := LastSegment(lower, '.');
        match PropertyOf(last)
        case Own(info) => FromInfo(info)
        case Inherited(name) => Resolved(name, None)
        case Missing => FromInfo(AppInfo(Prettify(FallbackSource(appId.value)), Placeholder))
  }

  /** A string without `_` has no last segment `__proto__`. */
  lemma NoProtoSegment(s: string)
    requires '_' !in s
    ensures LastSegment(s, '.') != "__proto__"
  {
    LastSegmentIsMaximalSuffix(s, '.');
    var r := LastSegment(s, '.');
    if r != [] {
      assert r[0] == s[|s| - |r|] && r[0] in s;
    }
  }

  /** The lookup as written and the own-property lookup agree on every id whose lookup reads no
      inherited member. */
  lemma AsWrittenAgrees(appId: Option<string>)
    requires appId.Some? ==> !ReadsInherited(ToLower(appId.value))
    ensures ResolveAsWritten(appId) == FromInfo(ResolveApp(appId))
  {
  }

  /** The id "constructor" as written resolves to the name "Object" and no icon, where the
      intended fallback is the prettified "Constructor" with the placeholder icon. */
  lemma ConstructorFinding()
    ensures ResolveAsWritten(Some("constructor")) == Resolved(Some("Object"), None)
    ensures ResolveApp(Some("constructor")) == AppInfo("Constructor", Placeholder)
  {
    var id := "constructor";
    assert IsLower(id);
    ToLowerFixpoints(id);
    LastSegmentWhole(id, '.');
    TableWellFormed();
    assert id !in Table;
    PrettifyConstructor();
  }

  lemma PrettifyConstructor()
    ensures Prettify("constructor") == "Constructor"
  {
    var t := Spaced("constructor");
    assert t == "constructor";
    assert WordStart(t, 0);
    assert forall i :: 1 <= i < |t| ==> !WordStart(t, i);
  }

  /** The id `__proto__` resolves, as written, to an object without a name. */
  lemma ProtoFinding()
    ensures ResolveAsWritten(Some("__proto__")).name == None
  {
    assert IsLower("__proto__");
    ToLowerFixpoints("__proto__");
    TableWellFormed();
  }
}
