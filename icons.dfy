/**
 * The back end's icon lookup (`get_app_icon`, `find_icon_path`, `find_desktop_icon`): derive
 * candidate names from an app id, probe the XDG icon directories in a fixed order, fall back to
 * the `Icon=` entry of a `.desktop` file, and turn the file found into a data URI.
 *
 * The process environment and the filesystem are a value `Env`; nothing is read for real.
 */
module Icons {
  import opened Wrappers
  import opened Text

  /** What the lookup can observe of the process environment and the filesystem. */
  datatype Env = Env(
    home: Option<string>,                 // HOME, when set
    xdgDataDirs: Option<string>,          // XDG_DATA_DIRS, when set
    existing: set<string>,                // the paths for which `Path::exists` holds
    texts: map<string, string>,           // the files `read_to_string` can read, with their text
    listings: map<string, seq<string>>,   // the directories `read_dir` can open: entry names
    encoded: map<string, string>,         // the files `fs::read` can read: base64 of their bytes
    readError: string)                    // how the io error of a failed `fs::read` displays

  const DefaultDataDirs := "/usr/local/share:/usr/share"

  /** `var("HOME").unwrap_or_default()`. */
  function Home(env: Env): string {
    env.home.GetOr("")
  }

  /** The pieces of XDG_DATA_DIRS, or of its default, split at ':'. */
  function DataDirs(env: Env): seq<string> {
    Split(env.xdgDataDirs.GetOr(DefaultDataDirs), ':')
  }

  /** Each directory with `suffix` appended (`format!("{d}{suffix}")`). */
  function Suffixed(dirs: seq<string>, suffix: string): (r: seq<string>)
    ensures |r| == |dirs|
    ensures forall i :: 0 <= i < |dirs| ==> r[i] == dirs[i] + suffix
  {
    seq(|dirs|, i requires 0 <= i < |dirs| => dirs[i] + suffix)
  }

  // ---------------------------------------------------------------------------------------------
  // Paths

  /** `PathBuf::join` on Unix: an absolute name replaces the path, an empty path or one ending in
      '/' gets the name appended as is, any other path gets a '/' in between. */
  function Join(dir: string, name: string): string {
    if name != [] && name[0] == '/' then name
    else if dir == [] || dir[|dir| - 1] == '/' then dir + name
    else dir + "/" + name
  }

  /** The path without trailing separators and trailing "." components, which
      `Path::file_name` ignores. */
  function Trimmed(p: string): string
    decreases |p|
  {
    if p != [] && p[|p| - 1] == '/' then Trimmed(p[..|p| - 1])
    else if |p| >= 2 && p[|p| - 2..] == "/." then Trimmed(p[..|p| - 2])
    else p
  }

  /** `Path::file_name`: the last component, unless there is none or it is "." or "..". */
  function FileName(p: string): Option<string> {
    var n := LastSegment(Trimmed(p), '/');
    if n == "" || n == "." || n == ".." then None else Some(n)
  }

  /** A file name's extension as `Path::extension` reads it: the text after the last '.', when
      that dot is not the name's first character. */
  function ExtOf(name: string): Option<string> {
    var e := LastSegment(name, '.');
    if |e| + 1 >= |name| then None else Some(e)
  }

  /** `Path::extension`. */
  function Extension(p: string): Option<string> {
    match FileName(p)
    case None => None
    case Some(n) => ExtOf(n)
  }

  /** A name has extension `x` exactly when it is a non-empty stem, a dot and `x`, with no dot
      in `x`: "firefox.desktop" has extension "desktop", ".desktop" has none. */
  lemma ExtOfIff(name: string, x: string)
    ensures ExtOf(name) == Some(x) <==>
      '.' !in x && |name| > |x| + 1 && name == name[..|name| - |x| - 1] + "." + x
  {
    var e := LastSegment(name, '.');
    LastSegmentIsMaximalSuffix(name, '.');
    if '.' !in x && |name| > |x| + 1 && name == name[..|name| - |x| - 1] + "." + x {
      LastSegmentAfter(name[..|name| - |x| - 1], '.', x);
    }
    if ExtOf(name) == Some(x) {
      assert name == name[..|name| - |x| - 1] + [name[|name| - |x| - 1]] + name[|name| - |x|..];
    }
  }

  /** Joining a plain name (non-empty, no '/', not "." or "..") to a directory gives a path
      whose file name is that name. */
  lemma FileNameOfJoin(dir: string, name: string)
    requires name != [] && '/' !in name && name != "." && name != ".."
    ensures FileName(Join(dir, name)) == Some(name)
  {
    var p := Join(dir, name);
    assert p[|p| - 1] == name[|name| - 1];
    if |p| >= 2 {
      if |name| >= 2 {
        assert p[|p| - 2] == name[|name| - 2];
      } else {
        assert p[|p| - 1] == name[0];
      }
    }
    assert Trimmed(p) == p;
    if dir == [] {
      assert p == name;
      LastSegmentWhole(name, '/');
    } else if dir[|dir| - 1] == '/' {
      assert p == dir[..|dir| - 1] + ['/'] + name;
      LastSegmentAfter(dir[..|dir| - 1], '/', name);
    } else {
      LastSegmentAfter(dir, '/', name);
    }
  }

  // ---------------------------------------------------------------------------------------------
  // Candidates and MIME type

  /** The names tried for an app id, in order: the lower-cased id, its text after the last '.',
      and that text with every "-desktop", respectively every "-bin", removed. */
  function Candidates(appId: string): seq<string> {
    var lower := ToLower(appId);
    var last := LastSegment(lower, '.');
    [lower, last, ReplaceAll(last, "-desktop", ""), ReplaceAll(last, "-bin", "")]
  }

  /** Removing a pattern from a lower-case, dot-free name keeps it lower-case and dot-free, never
      lengthens it, and leaves it alone when the pattern does not occur. */
  lemma RemovedFacts(last: string, pat: string)
    requires pat != "" && IsLower(last) && '.' !in last
    ensures var d := ReplaceAll(last, pat, "");
      && IsLower(d) && '.' !in d && |d| <= |last|
      && (!Contains(last, pat) ==> d == last)
  {
    ReplaceAllChars(last, pat, "");
    ReplaceAllFacts(last, pat, "");
    var d := ReplaceAll(last, pat, "");
    forall i | 0 <= i < |d| ensures !IsUpperAscii(d[i]) {
      assert d[i] in d;
      var j :| 0 <= j < |last| && last[j] == d[i];
    }
  }

  /** The last segment of a lower-cased id is lower-case, dot-free and a suffix of it, and is
      the whole of it when the id has no dot. */
  lemma LastOfLowerFacts(appId: string)
    ensures var lower := ToLower(appId); var last := LastSegment(lower, '.');
      && IsLower(lower) && IsLower(last) && '.' !in last
      && |last| <= |lower| && lower[|lower| - |last|..] == last
      && ('.' !in appId ==> last == lower)
  {
    var lower := ToLower(appId);
    var last := LastSegment(lower, '.');
    ToLowerFixpoints(appId);
    LastSegmentIsMaximalSuffix(lower, '.');
    forall i | 0 <= i < |last| ensures !IsUpperAscii(last[i]) {
      assert last[i] == lower[|lower| - |last| + i];
    }
    if '.' !in appId {
      assert '.' !in lower by {
        forall i | 0 <= i < |lower| ensures lower[i] != '.' {
          assert appId[i] != '.';
        }
      }
      LastSegmentWhole(lower, '.');
    }
  }

  /** All candidates are lower-case; the last three are dot-free and no longer than the second,
      which is a suffix of the first and equals it when the id has no dot; a suffix absent from
      the second leaves the third or fourth equal to it. */
  lemma CandidatesFacts(appId: string)
    ensures var cs := Candidates(appId);
      && |cs| == 4 && cs[0] == ToLower(appId)
      && (forall i :: 0 <= i < 4 ==> IsLower(cs[i]))
      && (forall i :: 1 <= i < 4 ==> '.' !in cs[i] && |cs[i]| <= |cs[1]|)
      && |cs[1]| <= |cs[0]| && cs[0][|cs[0]| - |cs[1]|..] == cs[1]
      && ('.' !in appId ==> cs[1] == cs[0])
      && (!Contains(cs[1], "-desktop") ==> cs[2] == cs[1])
      && (!Contains(cs[1], "-bin") ==> cs[3] == cs[1])
  {
    var lower := ToLower(appId);
    var last := LastSegment(lower, '.');
    var d := ReplaceAll(last, "-desktop", "");
    var b := ReplaceAll(last, "-bin", "");
    var cs := Candidates(appId);
    assert cs == [lower, last, d, b];
    LastOfLowerFacts(appId);
    RemovedFacts(last, "-desktop");
    RemovedFacts(last, "-bin");
    forall i | 0 <= i < 4 ensures IsLower(cs[i]) {
      if i == 0 { } else if i == 1 { } else if i == 2 { } else { }
    }
    forall i | 1 <= i < 4 ensures '.' !in cs[i] && |cs[i]| <= |cs[1]| {
      if i == 1 { } else if i == 2 { } else { }
    }
  }

  /** The MIME type for an extension, lower-cased, a missing one read as "png". */
  function MimeFor(ext: Option<string>): (mime: string)
    ensures var e := ToLower(ext.GetOr("png"));
      && (mime == "image/svg+xml" <==> e == "svg" || e == "svgz")
      && (mime == "image/x-xpixmap" <==> e == "xpm")
      && (mime == "image/png" <==> e != "svg" && e != "svgz" && e != "xpm")
      && "image/" <= mime
  {
    var e := ToLower(ext.GetOr("png"));
    if e == "svg" || e == "svgz" then "image/svg+xml"
    else if e == "png" then "image/png"
    else if e == "xpm" then "image/x-xpixmap"
    else "image/png"
  }

  /** The MIME type ignores the case of the extension. */
  lemma MimeIgnoresCase(x: string)
    ensures MimeFor(Some(x)) == MimeFor(Some(ToLower(x)))
    ensures MimeFor(None) == "image/png"
  {
    ToLowerFixpoints(x);
    assert IsLower("png");
    ToLowerFixpoints("png");
  }

  // ---------------------------------------------------------------------------------------------
  // The icon theme search

  const Themes: seq<string> := ["hicolor", "breeze", "Adwaita", "AdwaitaLegacy", "Papirus", "gnome"]

  /** Scalable first, then the raster sizes from the largest down. */
  const SizeDirs: seq<string> := ["scalable/apps", "256x256/apps", "256x256@2/apps",
    "128x128/apps", "128x128@2/apps", "64x64/apps", "48x48/apps", "32x32/apps"]

  const Extensions: seq<string> := ["svg", "png", "xpm"]

  /** The icon base directories, in order: two under HOME, one per data directory, then the
      pixmaps directory. */
  function IconBases(env: Env): seq<string> {
    [Home(env) + "/.local/share/icons", Home(env) + "/.icons"]
      + Suffixed(DataDirs(env), "/icons") + ["/usr/share/pixmaps"]
  }

  /** The first existing `dir/c.ext`, trying `exts` in order. */
  function InDir(dir: string, c: string, exts: seq<string>, existing: set<string>): Option<string>
    decreases |exts|
  {
    if exts == [] then None
    else if Join(dir, c + "." + exts[0]) in existing then Some(Join(dir, c + "." + exts[0]))
    else InDir(dir, c, exts[1..], existing)
  }

  /** The first hit in `themeDir/size` over the size directories `sizes`, in order. */
  function InSizes(themeDir: string, c: string, sizes: seq<string>, existing: set<string>)
    : Option<string>
    decreases |sizes|
  {
    if sizes == [] then None
    else InDir(Join(themeDir, sizes[0]), c, Extensions, existing)
           .OrElse(InSizes(themeDir, c, sizes[1..], existing))
  }

  /** The first hit in `base/theme` over the themes `themes`, in order. */
  function InThemes(base: string, c: string, themes: seq<string>, existing: set<string>)
    : Option<string>
    decreases |themes|
  {
    if themes == [] then None
    else InSizes(Join(base, themes[0]), c, SizeDirs, existing)
           .OrElse(InThemes(base, c, themes[1..], existing))
  }

  /** One base: skipped when it does not exist, else its themes, then the flat `base/c.ext`. */
  function InBase(base: string, c: string, existing: set<string>): Option<string> {
    if base !in existing then None
    else InThemes(base, c, Themes, existing).OrElse(InDir(base, c, Extensions, existing))
  }

  function InBases(bases: seq<string>, c: string, existing: set<string>): Option<string>
    decreases |bases|
  {
    if bases == [] then None
    else InBase(bases[0], c, existing).OrElse(InBases(bases[1..], c, existing))
  }

  // The same search as one flat list of probed paths.

  function FirstExisting(paths: seq<string>, existing: set<string>): Option<string>
    decreases |paths|
  {
    if paths == [] then None
    else if paths[0] in existing then Some(paths[0])
    else FirstExisting(paths[1..], existing)
  }

  function DirProbes(dir: string, c: string, exts: seq<string>): seq<string>
    decreases |exts|
  {
    if exts == [] then [] else [Join(dir, c + "." + exts[0])] + DirProbes(dir, c, exts[1..])
  }

  function SizeProbes(themeDir: string, c: string, sizes: seq<string>): seq<string>
    decreases |sizes|
  {
    if sizes == [] then []
    else DirProbes(Join(themeDir, sizes[0]), c, Extensions) + SizeProbes(themeDir, c, sizes[1..])
  }

  function ThemeProbes(base: string, c: string, themes: seq<string>): seq<string>
    decreases |themes|
  {
    if themes == [] then []
    else SizeProbes(Join(base, themes[0]), c, SizeDirs) + ThemeProbes(base, c, themes[1..])
  }

  /** The paths probed under one base: none when the base does not exist; otherwise every themed
      path, then the flat ones. */
  function BaseProbes(base: string, c: string, existing: set<string>): seq<string> {
    if base !in existing then []
    else ThemeProbes(base, c, Themes) + DirProbes(base, c, Extensions)
  }

  function Probes(bases: seq<string>, c: string, existing: set<string>): seq<string>
    decreases |bases|
  {
    if bases == [] then [] else BaseProbes(bases[0], c, existing) + Probes(bases[1..], c, existing)
  }

  /** The first existing path of a list: it exists, and no path before it does; there is none
      exactly when no path of the list exists. */
  lemma {:induction false} FirstExistingFacts(paths: seq<string>, existing: set<string>)
    ensures var r := FirstExisting(paths, existing);
      && (r.None? <==> forall i :: 0 <= i < |paths| ==> paths[i] !in existing)
      && (r.Some? ==> exists i :: 0 <= i < |paths| && paths[i] == r.value && r.value in existing
                                  && forall j :: 0 <= j < i ==> paths[j] !in existing)
    decreases |paths|
  {
    if paths != [] && paths[0] !in existing {
      FirstExistingFacts(paths[1..], existing);
      var r := FirstExisting(paths, existing);
      if r.Some? {
        var i :| 0 <= i < |paths[1..]| && paths[1..][i] == r.value
                 && forall j :: 0 <= j < i ==> paths[1..][j] !in existing;
        assert paths[i + 1] == r.value;
        assert forall j :: 0 <= j < i + 1 ==> paths[j] !in existing by {
          forall j | 0 <= j < i + 1 ensures paths[j] !in existing {
            if j > 0 {
              assert paths[j] == paths[1..][j - 1];
            }
          }
        }
      }
      forall i | 0 <= i < |paths[1..]| ensures paths[1..][i] == paths[i + 1] {
      }
    }
  }

  lemma {:induction false} FirstExistingConcat(a: seq<string>, b: seq<string>, existing: set<string>)
    ensures FirstExisting(a + b, existing) == FirstExisting(a, existing).OrElse(FirstExisting(b, existing))
    decreases |a|
  {
    if a == [] {
      assert a + b == b;
    } else {
      assert (a + b)[1..] == a[1..] + b;
      FirstExistingConcat(a[1..], b, existing);
    }
  }

  lemma {:induction false} InDirIsFirst(dir: string, c: string, exts: seq<string>, existing: set<string>)
    ensures InDir(dir, c, exts, existing) == FirstExisting(DirProbes(dir, c, exts), existing)
    decreases |exts|
  {
    if exts != [] {
      InDirIsFirst(dir, c, exts[1..], existing);
      FirstExistingConcat([Join(dir, c + "." + exts[0])], DirProbes(dir, c, exts[1..]), existing);
    }
  }

  lemma {:induction false} InSizesIsFirst(d: string, c: string, sizes: seq<string>, existing: set<string>)
    ensures InSizes(d, c, sizes, existing) == FirstExisting(SizeProbes(d, c, sizes), existing)
    decreases |sizes|
  {
    if sizes != [] {
      InSizesIsFirst(d, c, sizes[1..], existing);
      InDirIsFirst(Join(d, sizes[0]), c, Extensions, existing);
      FirstExistingConcat(DirProbes(Join(d, sizes[0]), c, Extensions), SizeProbes(d, c, sizes[1..]), existing);
    }
  }

  lemma {:induction false} InThemesIsFirst(b: string, c: string, themes: seq<string>, existing: set<string>)
    ensures InThemes(b, c, themes, existing) == FirstExisting(ThemeProbes(b, c, themes), existing)
    decreases |themes|
  {
    if themes != [] {
      InThemesIsFirst(b, c, themes[1..], existing);
      InSizesIsFirst(Join(b, themes[0]), c, SizeDirs, existing);
      FirstExistingConcat(SizeProbes(Join(b, themes[0]), c, SizeDirs), ThemeProbes(b, c, themes[1..]), existing);
    }
  }

  /** The nested search finds exactly the first existing path of the flat probe list: the first
      in the order base, theme, size directory, extension, with the themed paths of a base before
      its flat ones and nothing probed under a base that does not exist. */
  lemma {:induction false} SearchOrder(bases: seq<string>, c: string, existing: set<string>)
    ensures InBases(bases, c, existing) == FirstExisting(Probes(bases, c, existing), existing)
    decreases |bases|
  {
    if bases != [] {
      SearchOrder(bases[1..], c, existing);
      var b := bases[0];
      if b in existing {
        InThemesIsFirst(b, c, Themes, existing);
        InDirIsFirst(b, c, Extensions, existing);
        FirstExistingConcat(ThemeProbes(b, c, Themes), DirProbes(b, c, Extensions), existing);
      }
      FirstExistingConcat(BaseProbes(b, c, existing), Probes(bases[1..], c, existing), existing);
    }
  }

  // ---------------------------------------------------------------------------------------------
  // `.desktop` files

  /** The directories searched for `.desktop` files, in order. */
  function SearchDirs(env: Env): seq<string> {
    [Home(env) + "/.local/share/applications"] + Suffixed(DataDirs(env), "/applications")
  }

  /** The value of an `Icon=` line, trimmed, when it is not empty. */
  function IconValue(line: string): Option<string> {
    match StripPrefix(line, "Icon=")
    case Some(v) => if Trim(RustSpaces, v) != "" then Some(Trim(RustSpaces, v)) else None
    case None => None
  }

  /** The first non-empty `Icon=` value among `lines`. */
  function FirstIcon(lines: seq<string>): Option<string>
    decreases |lines|
  {
    if lines == [] then None
    else if IconValue(lines[0]).Some? then IconValue(lines[0])
    else FirstIcon(lines[1..])
  }

  /** The icon a named `.desktop` file yields, trying the file names in order. */
  function InFiles(dir: string, files: seq<string>, env: Env): Option<string>
    decreases |files|
  {
    if files == [] then None
    else
      var p := Join(dir, files[0]);
      var here := if p in env.texts then FirstIcon(Lines(env.texts[p])) else None;
      here.OrElse(InFiles(dir, files[1..], env))
  }

  /** What the scan of one `.desktop` file has seen so far. */
  datatype ScanState = ScanState(icon: Option<string>, matches: bool)

  /** One line of the scan: an `Icon=` line replaces the icon; an `Exec=` value whose lower-cased
      form contains the name, or a `StartupWMClass=` value that lower-cases to the name, makes
      the file match. */
  function ScanLine(st: ScanState, line: string, name: string): ScanState {
    var icon := match StripPrefix(line, "Icon=")
      case Some(v) => Some(Trim(RustSpaces, v))
      case None => st.icon;
    var byExec := match StripPrefix(line, "Exec=")
      case Some(v) => Contains(ToLower(v), name)
      case None => false;
    var byClass := match StripPrefix(line, "StartupWMClass=")
      case Some(v) => ToLower(v) == name
      case None => false;
    ScanState(icon, st.matches || byExec || byClass)
  }

  /** The scan state after `lines`, read front to back. */
  function ScanLines(lines: seq<string>, name: string): ScanState
    decreases |lines|
  {
    if lines == [] then ScanState(None, false)
    else ScanLine(ScanLines(lines[..|lines| - 1], name), lines[|lines| - 1], name)
  }

  /** A line that makes a scanned file match `name`. */
  predicate LineMatches(line: string, name: string) {
    || ("Exec=" <= line && Contains(ToLower(line[5..]), name))
    || ("StartupWMClass=" <= line && ToLower(line[15..]) == name)
  }

  /** A named file yields the trimmed value of its first `Icon=` line whose value is not blank,
      and nothing when there is no such line. */
  lemma {:induction false} FirstIconFacts(lines: seq<string>)
    ensures var r := FirstIcon(lines);
      && (r.None? <==> forall i :: 0 <= i < |lines| ==> IconValue(lines[i]).None?)
      && (r.Some? ==> exists i :: 0 <= i < |lines| && "Icon=" <= lines[i]
                                  && r.value == Trim(RustSpaces, lines[i][5..]) && r.value != ""
                                  && forall j :: 0 <= j < i ==> IconValue(lines[j]).None?)
    decreases |lines|
  {
    if lines != [] {
      if IconValue(lines[0]).Some? {
        assert "Icon=" <= lines[0];
      } else {
        FirstIconFacts(lines[1..]);
        assert forall i :: 0 <= i < |lines[1..]| ==> lines[1..][i] == lines[i + 1];
        var r := FirstIcon(lines);
        if r.Some? {
          var i :| 0 <= i < |lines[1..]| && "Icon=" <= lines[1..][i]
                   && r.value == Trim(RustSpaces, lines[1..][i][5..]) && r.value != ""
                   && forall j :: 0 <= j < i ==> IconValue(lines[1..][j]).None?;
          assert forall j :: 0 <= j < i + 1 ==> IconValue(lines[j]).None? by {
            forall j | 0 <= j < i + 1 ensures IconValue(lines[j]).None? {
              if j > 0 {
                assert lines[j] == lines[1..][j - 1];
              }
            }
          }
        }
      }
    }
  }

  /** One line of the scan: the match flag grows exactly by `LineMatches`, and the icon changes
      exactly on an `Icon=` line, to its trimmed value. */
  lemma ScanLineFacts(st: ScanState, line: string, name: string)
    ensures ScanLine(st, line, name).matches == (st.matches || LineMatches(line, name))
    ensures "Icon=" <= line ==> ScanLine(st, line, name).icon == Some(Trim(RustSpaces, line[5..]))
    ensures !("Icon=" <= line) ==> ScanLine(st, line, name).icon == st.icon
  {
    assert StripPrefix(line, "Exec=").Some? ==> StripPrefix(line, "Exec=").value == line[5..];
    assert StripPrefix(line, "StartupWMClass=").Some? ==>
      StripPrefix(line, "StartupWMClass=").value == line[15..];
  }

  lemma {:induction false} ScanMatchFacts(lines: seq<string>, name: string)
    ensures ScanLines(lines, name).matches <==> exists i :: 0 <= i < |lines| && LineMatches(lines[i], name)
    decreases |lines|
  {
    if lines != [] {
      var n := |lines| - 1;
      var init := lines[..n];
      ScanMatchFacts(init, name);
      ScanLineFacts(ScanLines(init, name), lines[n], name);
      assert forall i :: 0 <= i < n ==> init[i] == lines[i];
    }
  }

  lemma {:induction false} ScanIconFacts(lines: seq<string>, name: string)
    ensures var st := ScanLines(lines, name);
      && (st.icon.None? <==> forall i :: 0 <= i < |lines| ==> !("Icon=" <= lines[i]))
      && (st.icon.Some? ==> exists i :: 0 <= i < |lines| && "Icon=" <= lines[i]
                                        && st.icon.value == Trim(RustSpaces, lines[i][5..])
                                        && forall j :: i < j < |lines| ==> !("Icon=" <= lines[j]))
    decreases |lines|
  {
    if lines != [] {
      var n := |lines| - 1;
      var init := lines[..n];
      ScanIconFacts(init, name);
      var before := ScanLines(init, name);
      ScanLineFacts(before, lines[n], name);
      assert forall i :: 0 <= i < n ==> init[i] == lines[i];
      var st := ScanLines(lines, name);
      if !("Icon=" <= lines[n]) && st.icon.Some? {
        var i :| 0 <= i < n && "Icon=" <= init[i] && st.icon.value == Trim(RustSpaces, init[i][5..])
                 && forall j :: i < j < n ==> !("Icon=" <= init[j]);
        assert "Icon=" <= lines[i];
      }
    }
  }

  /** A scanned file matches exactly when one of its lines does; its icon is the trimmed value of
      its last `Icon=` line (blank or not), and there is none exactly when no line starts with
      `Icon=`. */
  lemma ScanFacts(lines: seq<string>, name: string)
    ensures var st := ScanLines(lines, name);
      && (st.matches <==> exists i :: 0 <= i < |lines| && LineMatches(lines[i], name))
      && (st.icon.None? <==> forall i :: 0 <= i < |lines| ==> !("Icon=" <= lines[i]))
      && (st.icon.Some? ==> exists i :: 0 <= i < |lines| && "Icon=" <= lines[i]
                                        && st.icon.value == Trim(RustSpaces, lines[i][5..])
                                        && forall j :: i < j < |lines| ==> !("Icon=" <= lines[j]))
  {
    ScanMatchFacts(lines, name);
    ScanIconFacts(lines, name);
  }

  /** What scanning one directory entry yields: the icon of a matching `.desktop` file. */
  function EntryIcon(dir: string, entry: string, name: string, env: Env): Option<string> {
    var p := Join(dir, entry);
    if Extension(p) != Some("desktop") || p !in env.texts then None
    else
      var st := ScanLines(Lines(env.texts[p]), name);
      if st.matches then st.icon else None
  }

  function ScanEntries(dir: string, entries: seq<string>, name: string, env: Env): Option<string>
    decreases |entries|
  {
    if entries == [] then None
    else EntryIcon(dir, entries[0], name, env).OrElse(ScanEntries(dir, entries[1..], name, env))
  }

  /** The two file names tried first in each directory. */
  function DesktopFileNames(name: string): seq<string> {
    [name + ".desktop", ToLower(name) + ".desktop"]
  }

  /** One search directory: the named files first, then the scan of its listing. */
  function DirIcon(dir: string, name: string, env: Env): Option<string> {
    InFiles(dir, DesktopFileNames(name), env)
      .OrElse(if dir in env.listings then ScanEntries(dir, env.listings[dir], name, env) else None)
  }

  function InDirs(dirs: seq<string>, name: string, env: Env): Option<string>
    decreases |dirs|
  {
    if dirs == [] then None else DirIcon(dirs[0], name, env).OrElse(InDirs(dirs[1..], name, env))
  }

  /** `find_desktop_icon(name)`. */
  function DesktopIcon(name: string, env: Env): Option<string> {
    InDirs(SearchDirs(env), name, env)
  }

  // ---------------------------------------------------------------------------------------------
  // The whole lookup

  /** `find_icon_path(appId)`, following at most `fuel` levels of `.desktop` recursion. */
  function IconPath(appId: string, env: Env, fuel: nat): Option<string>
    decreases fuel, 2
  {
    FromCandidates(Candidates(appId), env, fuel)
  }

  /** The candidates in order, the first that yields a path winning. */
  function FromCandidates(cs: seq<string>, env: Env, fuel: nat): Option<string>
    decreases fuel, 1, |cs|
  {
    if cs == [] then None
    else FromCandidate(cs[0], env, fuel).OrElse(FromCandidates(cs[1..], env, fuel))
  }

  /** One candidate: the theme search over every base; only when that misses, the `.desktop`
      icon name, searched in turn when it differs from the candidate. */
  function FromCandidate(c: string, env: Env, fuel: nat): Option<string>
    decreases fuel, 0
  {
    var viaDesktop := match DesktopIcon(c, env)
      case Some(icon) => if icon != c && fuel > 0 then IconPath(icon, env, fuel - 1) else None
      case None => None;
    InBases(IconBases(env), c, env.existing).OrElse(viaDesktop)
  }

  /** Whatever the search returns is an existing path. */
  lemma {:induction false} IconPathExists(appId: string, env: Env, fuel: nat)
    ensures IconPath(appId, env, fuel).Some? ==> IconPath(appId, env, fuel).value in env.existing
    decreases fuel, 2
  {
    FromCandidatesExist(Candidates(appId), env, fuel);
  }

  lemma {:induction false} FromCandidatesExist(cs: seq<string>, env: Env, fuel: nat)
    ensures FromCandidates(cs, env, fuel).Some? ==> FromCandidates(cs, env, fuel).value in env.existing
    decreases fuel, 1, |cs|
  {
    if cs != [] {
      FromCandidateExists(cs[0], env, fuel);
      FromCandidatesExist(cs[1..], env, fuel);
    }
  }

  /** Whatever the theme search finds exists. */
  lemma InBasesExists(bases: seq<string>, c: string, existing: set<string>)
    ensures InBases(bases, c, existing).Some? ==> InBases(bases, c, existing).value in existing
  {
    SearchOrder(bases, c, existing);
    FirstExistingFacts(Probes(bases, c, existing), existing);
  }

  lemma {:induction false} FromCandidateExists(c: string, env: Env, fuel: nat)
    ensures FromCandidate(c, env, fuel).Some? ==> FromCandidate(c, env, fuel).value in env.existing
    decreases fuel, 0
  {
    InBasesExists(IconBases(env), c, env.existing);
    var d := DesktopIcon(c, env);
    if d.Some? && d.value != c && fuel > 0 {
      IconPathExists(d.value, env, fuel - 1);
    }
  }

  /** The `.desktop` files are consulted only after the theme search misses: when the first
      candidate is found in a base, no `.desktop` file or directory listing changes the result. */
  lemma DesktopOnlyAfterMiss(appId: string, env: Env, fuel: nat,
                             texts: map<string, string>, listings: map<string, seq<string>>)
    requires InBases(IconBases(env), Candidates(appId)[0], env.existing).Some?
    ensures IconPath(appId, env.(texts := texts, listings := listings), fuel)
         == IconPath(appId, env, fuel)
         == InBases(IconBases(env), Candidates(appId)[0], env.existing)
  {
    var env2 := env.(texts := texts, listings := listings);
    var cs := Candidates(appId);
    assert IconBases(env2) == IconBases(env);
    var hit := InBases(IconBases(env), cs[0], env.existing);
    assert FromCandidate(cs[0], env2, fuel) == hit;
    assert FromCandidate(cs[0], env, fuel) == hit;
    assert FromCandidates(cs, env2, fuel) == hit;
    assert FromCandidates(cs, env, fuel) == hit;
  }

  /** The search recurses only on an icon name different from the candidate: when every
      candidate's `.desktop` icon is missing or the candidate itself, the result does not depend
      on the recursion depth. */
  lemma {:induction false} NoRecursionOnSameName(cs: seq<string>, env: Env, fuel: nat)
    requires forall i :: 0 <= i < |cs| ==> DesktopIcon(cs[i], env) in {None, Some(cs[i])}
    ensures FromCandidates(cs, env, fuel) == FromCandidates(cs, env, 0)
    decreases |cs|
  {
    if cs != [] {
      assert DesktopIcon(cs[0], env) in {None, Some(cs[0])};
      NoRecursionOnSameName(cs[1..], env, fuel);
    }
  }

  /** `get_app_icon(appId)`: an error naming the id when no path is found, an error naming the
      path when it cannot be read, else the data URI. */
  function AppIcon(appId: string, env: Env, fuel: nat): Result<string, string> {
    match IconPath(appId, env, fuel)
    case None => Err("no icon found for " + appId)
    case Some(path) => IconData(path, env)
  }

  /** The data URI for a found path: its MIME type and the base64 text of its bytes. */
  function IconData(path: string, env: Env): (r: Result<string, string>)
    ensures r.Ok? <==> path in env.encoded
    ensures r.Ok? ==> "data:image/" <= r.value
                      && r.value == "data:" + MimeFor(Extension(path)) + ";base64," + env.encoded[path]
    ensures r.Err? ==> r.error == "failed to read icon " + path + ": " + env.readError
  {
    if path in env.encoded
    then
      var mime := MimeFor(Extension(path));
      var uri := "data:" + mime + ";base64," + env.encoded[path];
      assert uri[..11] == "data:" + mime[..6];
      Ok(uri)
    else Err("failed to read icon " + path + ": " + env.readError)
  }

  /** A success is a data URI of an image type carrying the base64 text of an existing,
      readable file; the "no icon found" error is returned exactly when the search misses; the
      other error names a found path that cannot be read. */
  lemma AppIconFacts(appId: string, env: Env, fuel: nat)
    ensures var r := AppIcon(appId, env, fuel);
      && (r.Ok? ==> "data:image/" <= r.value
                    && exists p :: p in env.existing && p in env.encoded
                                   && r.value == "data:" + MimeFor(Extension(p)) + ";base64," + env.encoded[p])
      && (r == Err("no icon found for " + appId) <==> IconPath(appId, env, fuel).None?)
      && (r.Err? && IconPath(appId, env, fuel).Some? ==>
            var p := IconPath(appId, env, fuel).value;
            p in env.existing && p !in env.encoded
            && r.error == "failed to read icon " + p + ": " + env.readError)
  {
    IconPathExists(appId, env, fuel);
    var found := IconPath(appId, env, fuel);
    if found.Some? {
      var r := IconData(found.value, env);
      assert r.Err? ==> r.error[0] == 'f';
    }
  }

  // ---------------------------------------------------------------------------------------------
  // The `.desktop` recursion does not terminate on a renaming cycle

  /** Where the source's `find_icon_path(appId)` first calls itself, if it does before returning:
      the first candidate whose theme search misses and whose `.desktop` icon differs from it. */
  function FirstRecursiveCall(appId: string, env: Env): Option<string> {
    RecursiveCallFrom(Candidates(appId), env)
  }

  function RecursiveCallFrom(cs: seq<string>, env: Env): Option<string>
    decreases |cs|
  {
    if cs == [] then None
    else if InBases(IconBases(env), cs[0], env.existing).Some? then None
    else match DesktopIcon(cs[0], env)
      case Some(icon) => if icon != cs[0] then Some(icon) else RecursiveCallFrom(cs[1..], env)
      case None => RecursiveCallFrom(cs[1..], env)
  }

  /** No icon file, and a `.desktop` file for "app" whose `Icon=` value is "App". */
  const CapitalIconEnv := Env(None, Some("/d"), {}, map["/d/applications/app.desktop" := "Icon=App"],
                              map[], map[], "")

  lemma CapitalIconDirs()
    ensures SearchDirs(CapitalIconEnv) == ["/.local/share/applications", "/d/applications"]
  {
    var env := CapitalIconEnv;
    SplitWithoutSep("/d", ':');
    assert DataDirs(env) == ["/d"];
    assert Home(env) == "";
    var tail := Suffixed(DataDirs(env), "/applications");
    assert |tail| == 1 && tail[0] == "/d/applications";
    assert tail == ["/d/applications"];
    assert "" + "/.local/share/applications" == "/.local/share/applications";
  }

  lemma CapitalIconFile()
    ensures FirstIcon(Lines("Icon=App")) == Some("App")
  {
    OneLine("Icon=App");
    assert StripPrefix("Icon=App", "Icon=") == Some("App");
    assert Trim(RustSpaces, "App") == "App";
    assert IconValue("Icon=App") == Some("App");
  }

  lemma CapitalIconNames()
    ensures DesktopFileNames("app") == ["app.desktop", "app.desktop"]
  {
    ToLowerFixpoints("app");
    assert IsLower("app");
    assert ToLower("app") == "app";
    assert "app" + ".desktop" == "app.desktop";
  }

  lemma CapitalHomeDir()
    ensures DirIcon("/.local/share/applications", "app", CapitalIconEnv) == None
  {
    var env := CapitalIconEnv;
    CapitalIconNames();
    var files := ["app.desktop", "app.desktop"];
    assert Join("/.local/share/applications", "app.desktop") !in env.texts;
    assert InFiles("/.local/share/applications", files[1..], env) == None;
    assert InFiles("/.local/share/applications", files, env) == None;
  }

  lemma CapitalDataFile()
    ensures Join("/d/applications", "app.desktop") == "/d/applications/app.desktop"
  {
  }

  lemma CapitalDataDir()
    ensures DirIcon("/d/applications", "app", CapitalIconEnv) == Some("App")
  {
    var env := CapitalIconEnv;
    var dir := "/d/applications";
    var p := "/d/applications/app.desktop";
    CapitalIconFile();
    CapitalIconNames();
    CapitalDataFile();
    assert p in env.texts && env.texts[p] == "Icon=App";
    var files := DesktopFileNames("app");
    assert Join(dir, files[0]) == p;
    assert InFiles(dir, files, env) == Some("App");
  }

  lemma CapitalIconDesktop()
    ensures DesktopIcon("app", CapitalIconEnv) == Some("App")
  {
    var env := CapitalIconEnv;
    CapitalIconDirs();
    CapitalHomeDir();
    CapitalDataDir();
    var dirs := ["/.local/share/applications", "/d/applications"];
    assert InDirs(dirs[1..][1..], "app", env) == None;
    assert InDirs(dirs[1..], "app", env) == Some("App");
  }

  lemma AppCandidates()
    ensures Candidates("App") == ["app", "app", "app", "app"]
  {
    assert ToLower("App") == "app";
    LastSegmentWhole("app", '.');
    NotContainsFirst("app", "-desktop");
    NotContainsFirst("app", "-bin");
    ReplaceAllFacts("app", "-desktop", "");
    ReplaceAllFacts("app", "-bin", "");
  }

  /** `find_icon_path("App")` calls `find_icon_path("App")` again, with the same environment,
      before it can return: the recursion never ends and overflows the stack. The icon name "App"
      differs from the lower-cased candidate "app", and the recursive call lower-cases it back. */
  lemma SelfRecursion()
    ensures FirstRecursiveCall("App", CapitalIconEnv) == Some("App")
  {
    var env := CapitalIconEnv;
    AppCandidates();
    CapitalIconDesktop();
    NothingExists(IconBases(env), "app", env.existing);
  }

  lemma {:induction false} NothingExists(bases: seq<string>, c: string, existing: set<string>)
    requires existing == {}
    ensures InBases(bases, c, existing) == None
    decreases |bases|
  {
    if bases != [] {
      NothingExists(bases[1..], c, existing);
    }
  }

  /** Every icon name a `.desktop` file can yield, lower-cased: a finite set. */
  function IconNames(env: Env): set<string> {
    set p, i | p in env.texts && 0 <= i < |Lines(env.texts[p])| && "Icon=" <= Lines(env.texts[p])[i]
      :: ToLower(Trim(RustSpaces, Lines(env.texts[p])[i][5..]))
  }

  lemma {:induction false} InFilesNamed(dir: string, files: seq<string>, env: Env)
    ensures InFiles(dir, files, env).Some? ==> ToLower(InFiles(dir, files, env).value) in IconNames(env)
    decreases |files|
  {
    if files != [] {
      var p := Join(dir, files[0]);
      if p in env.texts && FirstIcon(Lines(env.texts[p])).Some? {
        var lines := Lines(env.texts[p]);
        FirstIconFacts(lines);
        var i :| 0 <= i < |lines| && "Icon=" <= lines[i] && FirstIcon(lines).value == Trim(RustSpaces, lines[i][5..]);
        assert ToLower(Trim(RustSpaces, lines[i][5..])) in IconNames(env);
      } else {
        InFilesNamed(dir, files[1..], env);
      }
    }
  }

  lemma {:induction false} ScanEntriesNamed(dir: string, entries: seq<string>, name: string, env: Env)
    ensures ScanEntries(dir, entries, name, env).Some? ==>
      ToLower(ScanEntries(dir, entries, name, env).value) in IconNames(env)
    decreases |entries|
  {
    if entries != [] {
      var p := Join(dir, entries[0]);
      if EntryIcon(dir, entries[0], name, env).Some? {
        var lines := Lines(env.texts[p]);
        ScanFacts(lines, name);
        var v := ScanLines(lines, name).icon.value;
        var i :| 0 <= i < |lines| && "Icon=" <= lines[i] && v == Trim(RustSpaces, lines[i][5..]);
        assert ToLower(Trim(RustSpaces, lines[i][5..])) in IconNames(env);
      } else {
        ScanEntriesNamed(dir, entries[1..], name, env);
      }
    }
  }

  lemma {:induction false} InDirsNamed(dirs: seq<string>, name: string, env: Env)
    ensures InDirs(dirs, name, env).Some? ==> ToLower(InDirs(dirs, name, env).value) in IconNames(env)
    decreases |dirs|
  {
    if dirs != [] {
      var dir := dirs[0];
      InFilesNamed(dir, DesktopFileNames(name), env);
      if dir in env.listings {
        ScanEntriesNamed(dir, env.listings[dir], name, env);
      }
      InDirsNamed(dirs[1..], name, env);
    }
  }

  /** Every icon name `find_desktop_icon` returns comes from an `Icon=` line of a readable file. */
  lemma DesktopIconNamed(name: string, env: Env)
    ensures DesktopIcon(name, env).Some? ==> ToLower(DesktopIcon(name, env).value) in IconNames(env)
  {
    InDirsNamed(SearchDirs(env), name, env);
  }

  lemma Shrinks(names: set<string>, seen: set<string>, x: string)
    requires x in names && x !in seen
    ensures |names - (seen + {x})| < |names - seen|
  {
    assert names - (seen + {x}) == (names - seen) - {x};
  }

  /** The lookup with the recursion guarded by the lower-cased names already followed on the way
      down: a name is followed at most once per path, so the search always ends. */
  function FixedIconPath(appId: string, env: Env, seen: set<string>): Option<string>
    decreases |IconNames(env) - seen|, 2
  {
    FixedFromCandidates(Candidates(appId), env, seen)
  }

  function FixedFromCandidates(cs: seq<string>, env: Env, seen: set<string>): Option<string>
    decreases |IconNames(env) - seen|, 1, |cs|
  {
    if cs == [] then None
    else FixedFromCandidate(cs[0], env, seen).OrElse(FixedFromCandidates(cs[1..], env, seen))
  }

  function FixedFromCandidate(c: string, env: Env, seen: set<string>): Option<string>
    decreases |IconNames(env) - seen|, 0
  {
    var viaDesktop := match DesktopIcon(c, env)
      case Some(icon) =>
        if icon != c && ToLower(icon) !in seen then
          DesktopIconNamed(c, env);
          Shrinks(IconNames(env), seen, ToLower(icon));
          FixedIconPath(icon, env, seen + {ToLower(icon)})
        else None
      case None => None;
    InBases(IconBases(env), c, env.existing).OrElse(viaDesktop)
  }

  /** On the environment where the source recurses forever, the guarded lookup ends and finds
      nothing. */
  lemma FixedIconPathEnds()
    ensures FixedIconPath("App", CapitalIconEnv, {}) == None
  {
    var env := CapitalIconEnv;
    var cs := Candidates("App");
    AppCandidates();
    CapitalIconDesktop();
    NothingExists(IconBases(env), "app", env.existing);
    assert ToLower("App") == "app";
    assert FixedFromCandidate("app", env, {"app"}) == None;
    assert FixedFromCandidates(cs[3..], env, {"app"}) == None;
    assert FixedFromCandidates(cs[2..], env, {"app"}) == None;
    assert FixedFromCandidates(cs[1..], env, {"app"}) == None;
    assert FixedIconPath("App", env, {"app"}) == None;
    var none: set<string> := {};
    assert none + {ToLower("App")} == {"app"};
    assert FixedFromCandidate("app", env, none) == None;
    assert FixedFromCandidates(cs[3..], env, {}) == None;
    assert FixedFromCandidates(cs[2..], env, {}) == None;
    assert FixedFromCandidates(cs[1..], env, {}) == None;
  }

  /** Where no `.desktop` file renames a candidate, the guard changes nothing: the guarded lookup
      gives what the source gives at any depth. */
  lemma {:induction false} FixedAgreesWithoutRenames(cs: seq<string>, env: Env, seen: set<string>, fuel: nat)
    requires forall i :: 0 <= i < |cs| ==> DesktopIcon(cs[i], env) in {None, Some(cs[i])}
    ensures FixedFromCandidates(cs, env, seen) == FromCandidates(cs, env, fuel)
    decreases |cs|
  {
    if cs != [] {
      assert DesktopIcon(cs[0], env) in {None, Some(cs[0])};
      FixedAgreesWithoutRenames(cs[1..], env, seen, fuel);
    }
  }

  /** Whatever the guarded lookup returns is an existing path. */
  lemma {:induction false} FixedIconPathExists(appId: string, env: Env, seen: set<string>)
    ensures FixedIconPath(appId, env, seen).Some? ==> FixedIconPath(appId, env, seen).value in env.existing
    decreases |IconNames(env) - seen|, 2
  {
    FixedFromCandidatesExist(Candidates(appId), env, seen);
  }

  lemma {:induction false} FixedFromCandidatesExist(cs: seq<string>, env: Env, seen: set<string>)
    ensures FixedFromCandidates(cs, env, seen).Some? ==> FixedFromCandidates(cs, env, seen).value in env.existing
    decreases |IconNames(env) - seen|, 1, |cs|
  {
    if cs != [] {
      FixedFromCandidateExists(cs[0], env, seen);
      FixedFromCandidatesExist(cs[1..], env, seen);
    }
  }

  lemma {:induction false} FixedFromCandidateExists(c: string, env: Env, seen: set<string>)
    ensures FixedFromCandidate(c, env, seen).Some? ==> FixedFromCandidate(c, env, seen).value in env.existing
    decreases |IconNames(env) - seen|, 0
  {
    InBasesExists(IconBases(env), c, env.existing);
    match DesktopIcon(c, env) {
      case Some(icon) =>
        if icon != c && ToLower(icon) !in seen {
          DesktopIconNamed(c, env);
          Shrinks(IconNames(env), seen, ToLower(icon));
          FixedIconPathExists(icon, env, seen + {ToLower(icon)});
        }
      case None =>
    }
  }

  // ---------------------------------------------------------------------------------------------
  // The loops of the source

  /** `icon_bases`: two pushes under HOME, one per data directory, then the pixmaps directory. */
  method BuildIconBases(env: Env) returns (bases: seq<string>)
    ensures bases == IconBases(env)
  {
    var home := Home(env);
    var dataDirs := DataDirs(env);
    var head := [home + "/.local/share/icons", home + "/.icons"];
    bases := head;
    var i := 0;
    while i < |dataDirs|
      invariant 0 <= i <= |dataDirs|
      invariant bases == head + Suffixed(dataDirs[..i], "/icons")
    {
      bases := bases + [dataDirs[i] + "/icons"];
      assert Suffixed(dataDirs[..i + 1], "/icons") == Suffixed(dataDirs[..i], "/icons") + [dataDirs[i] + "/icons"];
      i := i + 1;
    }
    assert dataDirs[..i] == dataDirs;
    bases := bases + ["/usr/share/pixmaps"];
  }

  /** `search_dirs`: one under HOME, then one per data directory. */
  method BuildSearchDirs(env: Env) returns (dirs: seq<string>)
    ensures dirs == SearchDirs(env)
  {
    var dataDirs := DataDirs(env);
    var head := [Home(env) + "/.local/share/applications"];
    dirs := head;
    var i := 0;
    while i < |dataDirs|
      invariant 0 <= i <= |dataDirs|
      invariant dirs == head + Suffixed(dataDirs[..i], "/applications")
    {
      dirs := dirs + [dataDirs[i] + "/applications"];
      assert Suffixed(dataDirs[..i + 1], "/applications")
          == Suffixed(dataDirs[..i], "/applications") + [dataDirs[i] + "/applications"];
      i := i + 1;
    }
    assert dataDirs[..i] == dataDirs;
  }

  /** The loop over the extensions in one directory. */
  method ProbeDir(dir: string, c: string, exts: seq<string>, existing: set<string>)
    returns (r: Option<string>)
    ensures r == InDir(dir, c, exts, existing)
  {
    var i := 0;
    while i < |exts|
      invariant 0 <= i <= |exts|
      invariant InDir(dir, c, exts, existing) == InDir(dir, c, exts[i..], existing)
    {
      var p := Join(dir, c + "." + exts[i]);
      if p in existing {
        return Some(p);
      }
      assert exts[i..][1..] == exts[i + 1..];
      i := i + 1;
    }
    return None;
  }

  /** The size-directory loop under one theme directory. */
  method SearchSizes(themeDir: string, c: string, sizes: seq<string>, existing: set<string>)
    returns (r: Option<string>)
    ensures r == InSizes(themeDir, c, sizes, existing)
  {
    var s := 0;
    while s < |sizes|
      invariant 0 <= s <= |sizes|
      invariant InSizes(themeDir, c, sizes, existing) == InSizes(themeDir, c, sizes[s..], existing)
    {
      var p := ProbeDir(Join(themeDir, sizes[s]), c, Extensions, existing);
      if p.Some? {
        return p;
      }
      assert sizes[s..][1..] == sizes[s + 1..];
      s := s + 1;
    }
    return None;
  }

  /** The theme loop under one base. */
  method SearchThemes(base: string, c: string, themes: seq<string>, existing: set<string>)
    returns (r: Option<string>)
    ensures r == InThemes(base, c, themes, existing)
  {
    var t := 0;
    while t < |themes|
      invariant 0 <= t <= |themes|
      invariant InThemes(base, c, themes, existing) == InThemes(base, c, themes[t..], existing)
    {
      var p := SearchSizes(Join(base, themes[t]), c, SizeDirs, existing);
      if p.Some? {
        return p;
      }
      assert themes[t..][1..] == themes[t + 1..];
      t := t + 1;
    }
    return None;
  }

  /** The loop over the bases for one candidate, skipping those that do not exist. */
  method SearchBases(bases: seq<string>, c: string, existing: set<string>) returns (r: Option<string>)
    ensures r == InBases(bases, c, existing)
  {
    var i := 0;
    while i < |bases|
      invariant 0 <= i <= |bases|
      invariant InBases(bases, c, existing) == InBases(bases[i..], c, existing)
    {
      var base := bases[i];
      assert bases[i..][1..] == bases[i + 1..];
      if base in existing {
        var themed := SearchThemes(base, c, Themes, existing);
        if themed.Some? {
          return themed;
        }
        var flat := ProbeDir(base, c, Extensions, existing);
        if flat.Some? {
          return flat;
        }
      }
      i := i + 1;
    }
    return None;
  }

  /** The line loop over a named `.desktop` file. */
  method FirstIconIn(content: string) returns (r: Option<string>)
    ensures r == FirstIcon(Lines(content))
  {
    var lines := Lines(content);
    var i := 0;
    while i < |lines|
      invariant 0 <= i <= |lines|
      invariant FirstIcon(lines) == FirstIcon(lines[i..])
    {
      var v := StripPrefix(lines[i], "Icon=");
      if v.Some? {
        var icon := Trim(RustSpaces, v.value);
        if icon != "" {
          return Some(icon);
        }
      }
      assert lines[i..][1..] == lines[i + 1..];
      i := i + 1;
    }
    return None;
  }

  /** The line loop of the scan, updating `icon_val` and `matches`. */
  method ScanContent(content: string, name: string) returns (st: ScanState)
    ensures st == ScanLines(Lines(content), name)
  {
    var lines := Lines(content);
    var iconVal: Option<string> := None;
    var matches := false;
    var i := 0;
    while i < |lines|
      invariant 0 <= i <= |lines|
      invariant ScanState(iconVal, matches) == ScanLines(lines[..i], name)
    {
      var line := lines[i];
      ghost var before := ScanState(iconVal, matches);
      var v := StripPrefix(line, "Icon=");
      if v.Some? {
        iconVal := Some(Trim(RustSpaces, v.value));
      }
      v := StripPrefix(line, "Exec=");
      if v.Some? && Contains(ToLower(v.value), name) {
        matches := true;
      }
      v := StripPrefix(line, "StartupWMClass=");
      if v.Some? && ToLower(v.value) == name {
        matches := true;
      }
      assert ScanState(iconVal, matches) == ScanLine(before, line, name);
      assert lines[..i + 1][..i] == lines[..i];
      i := i + 1;
    }
    assert lines[..i] == lines;
    st := ScanState(iconVal, matches);
  }

  /** `find_desktop_icon`: per search directory, the named files, then the directory scan. */
  method FindDesktopIcon(name: string, env: Env) returns (r: Option<string>)
    ensures r == DesktopIcon(name, env)
  {
    var dirs := BuildSearchDirs(env);
    var d := 0;
    while d < |dirs|
      invariant 0 <= d <= |dirs|
      invariant DesktopIcon(name, env) == InDirs(dirs[d..], name, env)
    {
      var dir := dirs[d];
      assert dirs[d..][1..] == dirs[d + 1..];
      var here := IconInFiles(dir, DesktopFileNames(name), env);
      if here.Some? {
        return here;
      }
      if dir in env.listings {
        here := ScanDir(dir, env.listings[dir], name, env);
        if here.Some? {
          return here;
        }
      }
      d := d + 1;
    }
    return None;
  }

  /** The named files of one directory, in order: the first that yields an icon. */
  method IconInFiles(dir: string, files: seq<string>, env: Env) returns (r: Option<string>)
    ensures r == InFiles(dir, files, env)
  {
    var f := 0;
    while f < |files|
      invariant 0 <= f <= |files|
      invariant InFiles(dir, files, env) == InFiles(dir, files[f..], env)
    {
      assert files[f..][1..] == files[f + 1..];
      var path := Join(dir, files[f]);
      if path in env.texts {
        var icon := FirstIconIn(env.texts[path]);
        if icon.Some? {
          return icon;
        }
      }
      f := f + 1;
    }
    return None;
  }

  /** The scan of one directory listing: the first matching `.desktop` file with an icon. */
  method ScanDir(dir: string, entries: seq<string>, name: string, env: Env) returns (r: Option<string>)
    ensures r == ScanEntries(dir, entries, name, env)
  {
    var k := 0;
    while k < |entries|
      invariant 0 <= k <= |entries|
      invariant ScanEntries(dir, entries, name, env) == ScanEntries(dir, entries[k..], name, env)
    {
      assert entries[k..][1..] == entries[k + 1..];
      var p := Join(dir, entries[k]);
      if Extension(p) == Some("desktop") && p in env.texts {
        var st := ScanContent(env.texts[p], name);
        if st.matches && st.icon.Some? {
          return st.icon;
        }
      }
      k := k + 1;
    }
    return None;
  }

  /** `find_icon_path`: the candidate loop, with the `.desktop` recursion followed while fuel
      remains. */
  method FindIconPath(appId: string, env: Env, fuel: nat) returns (r: Option<string>)
    ensures r == IconPath(appId, env, fuel)
    decreases fuel, 1
  {
    var lower := ToLower(appId);
    var last := LastSegment(lower, '.');
    var candidates := [lower, last, ReplaceAll(last, "-desktop", ""), ReplaceAll(last, "-bin", "")];
    assert candidates == Candidates(appId);
    var bases := BuildIconBases(env);
    var i := 0;
    while i < |candidates|
      invariant 0 <= i <= |candidates|
      invariant IconPath(appId, env, fuel) == FromCandidates(candidates[i..], env, fuel)
    {
      assert candidates[i..][1..] == candidates[i + 1..];
      assert FromCandidates(candidates[i..], env, fuel)
        == FromCandidate(candidates[i], env, fuel).OrElse(FromCandidates(candidates[i + 1..], env, fuel));
      var p := TryCandidate(candidates[i], bases, env, fuel);
      if p.Some? {
        return p;
      }
      i := i + 1;
    }
    return None;
  }

  /** The body of the candidate loop: every base, then the `.desktop` fallback. */
  method TryCandidate(c: string, bases: seq<string>, env: Env, fuel: nat) returns (r: Option<string>)
    requires bases == IconBases(env)
    ensures r == FromCandidate(c, env, fuel)
    decreases fuel, 0
  {
    var found := SearchBases(bases, c, env.existing);
    if found.Some? {
      return found;
    }
    var icon := FindDesktopIcon(c, env);
    if icon.Some? && icon.value != c && fuel > 0 {
      r := FindIconPath(icon.value, env, fuel - 1);
      return r;
    }
    return None;
  }

  /** `get_app_icon`. */
  method GetAppIcon(appId: string, env: Env, fuel: nat) returns (r: Result<string, string>)
    ensures r == AppIcon(appId, env, fuel)
  {
    var path := FindIconPath(appId, env, fuel);
    if path.None? {
      return Err("no icon found for " + appId);
    }
    var mime := MimeFor(Extension(path.value));
    if path.value !in env.encoded {
      return Err("failed to read icon " + path.value + ": " + env.readError);
    }
    return Ok("data:" + mime + ";base64," + env.encoded[path.value]);
  }
}
