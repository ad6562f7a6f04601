/**
 * String helpers shared by the JavaScript front end and the Rust back end, on a character
 * model where `toLowerCase`/`to_lowercase` touch only 'A'..'Z'; `trim` removes the whitespace
 * of the language it is called from.
 */
module Text {
  import opened Wrappers

  predicate IsUpperAscii(c: char) { 'A' <= c <= 'Z' }

  predicate IsLowerAscii(c: char) { 'a' <= c <= 'z' }

  function LowerChar(c: char): char {
    if IsUpperAscii(c) then (c as int + 32) as char else c
  }

  function UpperChar(c: char): char {
    if IsLowerAscii(c) then (c as int - 32) as char else c
  }

  /** `s.toLowerCase()` / `s.to_lowercase()`. */
  function ToLower(s: string): (r: string)
    ensures |r| == |s|
    ensures forall i :: 0 <= i < |s| ==> r[i] == LowerChar(s[i])
  {
    seq(|s|, i requires 0 <= i < |s| => LowerChar(s[i]))
  }

  /** No upper-case ASCII letter occurs in `s`. */
  predicate IsLower(s: string) {
    forall i :: 0 <= i < |s| ==> !IsUpperAscii(s[i])
  }

  /** Lower-casing yields a lower-case string, and a string is lower-case exactly when lower-casing
      leaves it alone; in particular lower-casing is idempotent. */
  lemma ToLowerFixpoints(s: string)
    ensures IsLower(ToLower(s))
    ensures IsLower(s) <==> ToLower(s) == s
    ensures ToLower(ToLower(s)) == ToLower(s)
  {
    if !IsLower(s) {
      var i :| 0 <= i < |s| && IsUpperAscii(s[i]);
      assert ToLower(s)[i] != s[i];
    }
    assert IsLower(ToLower(s));
  }

  /** A suffix of a lower-case string is lower-case. */
  lemma SuffixOfLower(s: string, r: string)
    requires IsLower(s) && |r| <= |s| && s[|s| - |r|..] == r
    ensures IsLower(r)
  {
    forall i | 0 <= i < |r| ensures !IsUpperAscii(r[i]) {
      assert r[i] == s[|s| - |r| + i];
    }
  }

  /** `s.includes(sub)` / `s.contains(sub)`. */
  predicate Contains(s: string, sub: string)
    decreases |s|
  {
    sub <= s || (s != [] && Contains(s[1..], sub))
  }

  /** `sub` occurs in `s` starting at index `i`. */
  predicate OccursAt(s: string, sub: string, i: int) {
    0 <= i && i + |sub| <= |s| && s[i..i + |sub|] == sub
  }

  lemma OccursAtZero(s: string, sub: string)
    ensures OccursAt(s, sub, 0) <==> sub <= s
  {
  }

  /** An occurrence in the tail is an occurrence one position later in the whole. */
  lemma OccursShift(s: string, sub: string, i: int)
    requires s != [] && 0 <= i
    ensures OccursAt(s[1..], sub, i) <==> OccursAt(s, sub, i + 1)
  {
    if i + |sub| <= |s| - 1 {
      assert s[1..][i..i + |sub|] == s[i + 1..i + 1 + |sub|];
    }
  }

  /** The recursive substring test agrees with the positional definition. */
  lemma {:induction false} ContainsIffOccurs(s: string, sub: string)
    ensures Contains(s, sub) <==> exists i :: OccursAt(s, sub, i)
    decreases |s|
  {
    OccursAtZero(s, sub);
    if sub <= s {
    } else if s == [] {
    } else {
      ContainsIffOccurs(s[1..], sub);
      forall i | OccursAt(s[1..], sub, i) ensures OccursAt(s, sub, i + 1) {
        OccursShift(s, sub, i);
      }
      forall i | OccursAt(s, sub, i) ensures OccursAt(s[1..], sub, i - 1) {
        OccursShift(s, sub, i - 1);
      }
    }
  }

  /** `s.split(sep)` for a one-character separator: always at least one piece. */
  function Split(s: string, sep: char): (parts: seq<string>)
    ensures |parts| >= 1
    decreases |s|
  {
    if s == [] then [""]
    else
      var rest := Split(s[1..], sep);
      if s[0] == sep then [""] + rest else [[s[0]] + rest[0]] + rest[1..]
  }

  /** A string without the separator splits into itself alone. */
  lemma {:induction false} SplitWithoutSep(s: string, sep: char)
    requires sep !in s
    ensures Split(s, sep) == [s]
    decreases |s|
  {
    if s != [] {
      SplitWithoutSep(s[1..], sep);
      assert [s[0]] + s[1..] == s;
    }
  }

  /** A string holding neither `pat`'s first character nor, hence, `pat` itself. */
  lemma {:induction false} NotContainsFirst(s: string, pat: string)
    requires pat != [] && pat[0] !in s
    ensures !Contains(s, pat)
    decreases |s|
  {
    if s != [] {
      NotContainsFirst(s[1..], pat);
    }
  }

  /** `parts.join(sep)`. */
  function JoinWith(parts: seq<string>, sep: char): string
    decreases |parts|
  {
    if |parts| == 0 then ""
    else if |parts| == 1 then parts[0]
    else parts[0] + [sep] + JoinWith(parts[1..], sep)
  }

  /** Splitting loses nothing (joining the pieces gives back the input) and no piece holds the
      separator. */
  lemma {:induction false} SplitJoin(s: string, sep: char)
    ensures JoinWith(Split(s, sep), sep) == s
    ensures forall i :: 0 <= i < |Split(s, sep)| ==> sep !in Split(s, sep)[i]
    decreases |s|
  {
    if s != [] {
      var rest := Split(s[1..], sep);
      SplitJoin(s[1..], sep);
      var parts := Split(s, sep);
      if s[0] == sep {
        assert parts == [""] + rest;
        assert parts[1..] == rest;
        assert JoinWith(parts, sep) == "" + [sep] + JoinWith(rest, sep);
        assert [sep] + s[1..] == s;
      } else {
        assert parts == [[s[0]] + rest[0]] + rest[1..];
        if |rest| == 1 {
          assert JoinWith(parts, sep) == [s[0]] + rest[0];
          assert [s[0]] + s[1..] == s;
        } else {
          assert parts[1..] == rest[1..];
          assert JoinWith(rest, sep) == rest[0] + [sep] + JoinWith(rest[1..], sep);
          assert JoinWith(parts, sep) == [s[0]] + rest[0] + [sep] + JoinWith(rest[1..], sep);
          assert [s[0]] + s[1..] == s;
        }
        forall i | 0 <= i < |parts| ensures sep !in parts[i] {
          if i > 0 {
            assert parts[i] == rest[i];
          }
        }
      }
    }
  }

  /** `s.split(sep).pop()` in JavaScript, `s.split(sep).last()` in Rust. */
  function LastSegment(s: string, sep: char): string {
    var parts := Split(s, sep);
    parts[|parts| - 1]
  }

  /** Joining the pieces of a split gives back the input. */
  lemma SplitJoinsBack(s: string, sep: char)
    ensures JoinWith(Split(s, sep), sep) == s
  {
    SplitJoin(s, sep);
  }

  /** One step of the last segment: a leading separator is dropped; otherwise the first character
      joins the last segment when the rest holds no separator at all. */
  lemma LastSegmentStep(s: string, sep: char)
    requires s != []
    ensures |Split(s[1..], sep)| == 1 ==> LastSegment(s[1..], sep) == s[1..]
    ensures s[0] == sep || |Split(s[1..], sep)| > 1 ==> LastSegment(s, sep) == LastSegment(s[1..], sep)
    ensures s[0] != sep && |Split(s[1..], sep)| == 1 ==> LastSegment(s, sep) == s
    ensures |Split(s[1..], sep)| > 1 ==> |LastSegment(s[1..], sep)| < |s[1..]|
  {
    var t := s[1..];
    var rest := Split(t, sep);
    var parts := Split(s, sep);
    SplitJoinsBack(t, sep);
    if |rest| == 1 {
      assert rest[0] == t;
      if s[0] != sep {
        assert parts == [[s[0]] + t];
        assert [s[0]] + t == s;
      } else {
        assert parts == [""] + rest;
      }
    } else {
      JoinLongerThanLast(rest, sep);
      if s[0] == sep {
        assert parts == [""] + rest;
      } else {
        assert parts == [[s[0]] + rest[0]] + rest[1..];
      }
      assert parts[|parts| - 1] == rest[|rest| - 1];
    }
  }

  /** The last segment is the longest suffix of `s` that holds no separator: it is a suffix, it
      holds no separator, and the character before it (if any) is the separator. */
  lemma {:induction false} LastSegmentIsMaximalSuffix(s: string, sep: char)
    ensures var r := LastSegment(s, sep);
      && |r| <= |s|
      && s[|s| - |r|..] == r
      && sep !in r
      && (|r| < |s| ==> s[|s| - |r| - 1] == sep)
    decreases |s|
  {
    if s != [] {
      LastSegmentStep(s, sep);
      LastSegmentIsMaximalSuffix(s[1..], sep);
      var t := s[1..];
      var r' := LastSegment(t, sep);
      if s[0] != sep && |Split(t, sep)| == 1 {
        assert r' == t;
        assert s == [s[0]] + t;
      } else {
        assert s[|s| - |r'|..] == t[|t| - |r'|..];
        if |r'| < |t| {
          assert s[|s| - |r'| - 1] == t[|t| - |r'| - 1];
        }
      }
    }
  }

  /** A string without the separator is its own last segment. */
  lemma LastSegmentWhole(s: string, sep: char)
    requires sep !in s
    ensures LastSegment(s, sep) == s
  {
    LastSegmentIsMaximalSuffix(s, sep);
  }

  /** Whatever precedes the final separator, the last segment is what follows it. */
  lemma LastSegmentAfter(a: string, sep: char, x: string)
    requires sep !in x
    ensures LastSegment(a + [sep] + x, sep) == x
  {
    var s := a + [sep] + x;
    LastSegmentIsMaximalSuffix(s, sep);
    assert s[|s| - |x| - 1] == sep;
  }

  /** Joining two or more pieces gives a string longer than the last piece. */
  lemma {:induction false} JoinLongerThanLast(parts: seq<string>, sep: char)
    requires |parts| >= 2
    ensures |JoinWith(parts, sep)| > |parts[|parts| - 1]|
    decreases |parts|
  {
    if |parts| > 2 {
      JoinLongerThanLast(parts[1..], sep);
    }
  }

  /** Rust's `s.replace(pat, rep)`: every non-overlapping occurrence of `pat`, left to right. */
  function ReplaceAll(s: string, pat: string, rep: string): string
    requires pat != ""
    decreases |s|
  {
    if s == [] then []
    else if pat <= s then rep + ReplaceAll(s[|pat|..], pat, rep)
    else [s[0]] + ReplaceAll(s[1..], pat, rep)
  }

  /** Replacing a pattern that does not occur changes nothing; removing (replacing by "") never
      makes a string longer. */
  lemma {:induction false} ReplaceAllFacts(s: string, pat: string, rep: string)
    requires pat != ""
    ensures !Contains(s, pat) ==> ReplaceAll(s, pat, rep) == s
    ensures rep == "" ==> |ReplaceAll(s, pat, rep)| <= |s|
    decreases |s|
  {
    if s != [] {
      if pat <= s {
        ReplaceAllFacts(s[|pat|..], pat, rep);
      } else {
        ReplaceAllFacts(s[1..], pat, rep);
        assert [s[0]] + s[1..] == s;
      }
    }
  }

  /** The leftmost occurrence is replaced first: when `pat` starts after `a` and nowhere
      earlier (no occurrence in `a` or straddling its end), the result is `a`, the replacement,
      and the replaced rest. With the first ensures of `ReplaceAllFacts` this fixes the result. */
  lemma {:induction false} ReplaceAllLeftmost(a: string, pat: string, b: string, rep: string)
    requires pat != ""
    requires !Contains(a + pat[..|pat| - 1], pat)
    ensures ReplaceAll(a + pat + b, pat, rep) == a + rep + ReplaceAll(b, pat, rep)
    decreases |a|
  {
    if a == [] {
      assert a + pat + b == pat + b;
      assert (pat + b)[..|pat|] == pat && (pat + b)[|pat|..] == b;
      assert ReplaceAll(pat + b, pat, rep) == rep + ReplaceAll(b, pat, rep);
      assert a + rep + ReplaceAll(b, pat, rep) == rep + ReplaceAll(b, pat, rep);
    } else {
      var s, early := a + pat + b, a + pat[..|pat| - 1];
      LeftmostShapes(a, pat, b);
      assert !(pat <= early);
      assert !(pat <= s);
      assert !Contains(early[1..], pat);
      ReplaceAllLeftmost(a[1..], pat, b, rep);
      assert ReplaceAll(s, pat, rep) == [a[0]] + ReplaceAll(a[1..] + pat + b, pat, rep);
      ConsAppend(a, rep, ReplaceAll(b, pat, rep));
    }
  }

  /** The sequence facts behind one step of `ReplaceAllLeftmost`. */
  lemma LeftmostShapes(a: string, pat: string, b: string)
    requires a != [] && pat != ""
    ensures (a + pat + b)[..|pat|] == (a + pat[..|pat| - 1])[..|pat|]
    ensures (a + pat[..|pat| - 1])[1..] == a[1..] + pat[..|pat| - 1]
    ensures (a + pat + b)[1..] == a[1..] + pat + b
    ensures (a + pat + b)[0] == a[0]
  {
  }

  lemma ConsAppend(a: string, u: string, t: string)
    requires a != []
    ensures [a[0]] + (a[1..] + u + t) == a + u + t
  {
    assert a == [a[0]] + a[1..];
  }

  /** Every character of the result comes from `s` or from the replacement. */
  lemma {:induction false} ReplaceAllChars(s: string, pat: string, rep: string)
    requires pat != ""
    ensures forall ch :: ch in ReplaceAll(s, pat, rep) ==> ch in s || ch in rep
    decreases |s|
  {
    if s != [] {
      if pat <= s {
        ReplaceAllChars(s[|pat|..], pat, rep);
        assert forall ch :: ch in s[|pat|..] ==> ch in s;
      } else {
        ReplaceAllChars(s[1..], pat, rep);
        assert forall ch :: ch in s[1..] ==> ch in s;
      }
    }
  }

  /** Which language's `trim` is meant: the two agree except on U+FEFF, which only
      JavaScript strips, and U+0085, which only Rust strips. */
  datatype Spaces = JsSpaces | RustSpaces

  /** The characters `trim` removes. JavaScript's `String.prototype.trim` removes WhiteSpace
      and LineTerminator (ECMA-262 sections 12.2 and 12.3): tab, vertical tab, form feed,
      U+FEFF, every Zs character, line feed, carriage return, U+2028 and U+2029. Rust's
      `str::trim` removes the Unicode White_Space characters: U+0009 to U+000D, U+0085, every Zs
      character, U+2028 and U+2029. Zs is U+0020, U+00A0, U+1680, U+2000 to U+200A, U+202F,
      U+205F and U+3000. */
  predicate IsSpace(ws: Spaces, c: char) {
    || c == '\t' || c == '\n' || c == '\U{000B}' || c == '\U{000C}' || c == '\r'
    || c == ' ' || c == '\U{00A0}' || c == '\U{1680}' || '\U{2000}' <= c <= '\U{200A}'
    || c == '\U{202F}' || c == '\U{205F}' || c == '\U{3000}'
    || c == '\U{2028}' || c == '\U{2029}'
    || (ws == JsSpaces && c == '\U{FEFF}')
    || (ws == RustSpaces && c == '\U{0085}')
  }

  /** Every character of `t` is whitespace. */
  predicate AllSpace(ws: Spaces, t: string) {
    forall k :: 0 <= k < |t| ==> IsSpace(ws, t[k])
  }

  function TrimStart(ws: Spaces, s: string): string
    decreases |s|
  {
    if s != [] && IsSpace(ws, s[0]) then TrimStart(ws, s[1..]) else s
  }

  function TrimEnd(ws: Spaces, s: string): string
    decreases |s|
  {
    if s != [] && IsSpace(ws, s[|s| - 1]) then TrimEnd(ws, s[..|s| - 1]) else s
  }

  /** `s.trim()`. */
  function Trim(ws: Spaces, s: string): string {
    TrimEnd(ws, TrimStart(ws, s))
  }

  /** Trimming removes whitespace only, and all of it at both ends: `s` is some whitespace, the
      trimmed string and some whitespace, and the trimmed string neither starts nor ends with
      whitespace. Trimming twice is trimming once. */
  lemma TrimFacts(ws: Spaces, s: string)
    ensures exists i, j :: (0 <= i <= j <= |s| && s[i..j] == Trim(ws, s)
                            && AllSpace(ws, s[..i]) && AllSpace(ws, s[j..]))
    ensures Trim(ws, s) != [] ==> !IsSpace(ws, Trim(ws, s)[0]) && !IsSpace(ws, Trim(ws, s)[|Trim(ws, s)| - 1])
    ensures Trim(ws, Trim(ws, s)) == Trim(ws, s)
  {
    TrimSplits(ws, s);
    TrimEnds(ws, s);
    TrimIdempotent(ws, s);
  }

  /** The input is leading whitespace, the trimmed string, and trailing whitespace. */
  lemma TrimSplits(ws: Spaces, s: string)
    ensures exists i, j :: (0 <= i <= j <= |s| && s[i..j] == Trim(ws, s)
                            && AllSpace(ws, s[..i]) && AllSpace(ws, s[j..]))
  {
    var a := TrimStart(ws, s);
    TrimStartFacts(ws, s);
    TrimEndFacts(ws, a);
    var t := TrimEnd(ws, a);
    var i :| 0 <= i <= |s| && s[i..] == a && AllSpace(ws, s[..i]);
    var j := i + |t|;
    assert s[i..j] == a[..|t|];
    assert s[j..] == a[|t|..];
  }

  /** The trimmed string neither starts nor ends with whitespace. */
  lemma TrimEnds(ws: Spaces, s: string)
    ensures Trim(ws, s) != [] ==> !IsSpace(ws, Trim(ws, s)[0]) && !IsSpace(ws, Trim(ws, s)[|Trim(ws, s)| - 1])
  {
    var a := TrimStart(ws, s);
    TrimStartFacts(ws, s);
    TrimEndFacts(ws, a);
    var t := TrimEnd(ws, a);
    if t != [] {
      assert t[0] == a[0];
    }
  }

  /** Trimming twice is trimming once. */
  lemma TrimIdempotent(ws: Spaces, s: string)
    ensures Trim(ws, Trim(ws, s)) == Trim(ws, s)
  {
    var a := TrimStart(ws, s);
    var t := TrimEnd(ws, a);
    TrimEnds(ws, s);
    TrimEndFacts(ws, a);
    if t != [] {
      TrimStartFacts(ws, t);
      assert TrimStart(ws, t) == t;
    }
    assert TrimEnd(ws, t) == t;
  }

  lemma {:induction false} TrimStartFacts(ws: Spaces, s: string)
    ensures var t := TrimStart(ws, s);
      && (exists i :: 0 <= i <= |s| && s[i..] == t && AllSpace(ws, s[..i]))
      && (t != [] ==> !IsSpace(ws, t[0]))
      && (s != [] && !IsSpace(ws, s[0]) ==> t == s)
    decreases |s|
  {
    if s != [] && IsSpace(ws, s[0]) {
      TrimStartFacts(ws, s[1..]);
      var i :| 0 <= i <= |s[1..]| && s[1..][i..] == TrimStart(ws, s[1..]) && AllSpace(ws, s[1..][..i]);
      SpaceThenSuffix(ws, s, i);
    } else {
      assert s[0..] == s;
      assert s[..0] == [];
    }
  }

  /** One more leading space: if `s[1..]` is `i` spaces and then `t`, `s` is `i + 1` spaces
      and then `t`. */
  lemma SpaceThenSuffix(ws: Spaces, s: string, i: int)
    requires s != [] && IsSpace(ws, s[0]) && 0 <= i <= |s| - 1
    requires AllSpace(ws, s[1..][..i])
    ensures s[i + 1..] == s[1..][i..]
    ensures AllSpace(ws, s[..i + 1])
  {
    assert s[..i + 1] == [s[0]] + s[1..][..i];
    AllSpaceCons(ws, s[0], s[1..][..i]);
  }

  lemma AllSpaceCons(ws: Spaces, c: char, t: string)
    requires IsSpace(ws, c) && AllSpace(ws, t)
    ensures AllSpace(ws, [c] + t)
  {
    forall k | 0 <= k < |[c] + t|
      ensures IsSpace(ws, ([c] + t)[k])
    {
      if k > 0 {
        assert ([c] + t)[k] == t[k - 1];
      }
    }
  }

  lemma {:induction false} TrimEndFacts(ws: Spaces, s: string)
    ensures var t := TrimEnd(ws, s);
      && |t| <= |s| && s[..|t|] == t && AllSpace(ws, s[|t|..])
      && (t != [] ==> !IsSpace(ws, t[|t| - 1]))
      && TrimEnd(ws, t) == t
    decreases |s|
  {
    if s != [] && IsSpace(ws, s[|s| - 1]) {
      var s' := s[..|s| - 1];
      TrimEndFacts(ws, s');
      var t := TrimEnd(ws, s');
      assert forall k :: 0 <= k < |s| - 1 - |t| ==> s[|t|..][k] == s'[|t|..][k];
    }
  }

  /** Rust's `s.strip_prefix(p)`. */
  function StripPrefix(s: string, p: string): (r: Option<string>)
    ensures r.Some? <==> p <= s
    ensures r.Some? ==> p + r.value == s
  {
    if p <= s then Some(s[|p|..]) else None
  }

  /** A line of Rust's `lines()`: the piece before a "\n" loses one trailing "\r". */
  function DropCr(line: string): string {
    if line != [] && line[|line| - 1] == '\r' then line[..|line| - 1] else line
  }

  /** Rust's `s.lines()`: split at "\n" or "\r\n"; a final line ending is optional and yields no
      empty line; the last line keeps a bare trailing "\r". */
  function Lines(s: string): seq<string> {
    var parts := Split(s, '\n');
    var ended := seq(|parts| - 1, i requires 0 <= i < |parts| - 1 => DropCr(parts[i]));
    var last := parts[|parts| - 1];
    if last == "" then ended else ended + [last]
  }

  /** No line holds a line feed, and there are no lines at all exactly when `s` is empty. */
  lemma LinesFacts(s: string)
    ensures forall i :: 0 <= i < |Lines(s)| ==> '\n' !in Lines(s)[i]
    ensures Lines(s) == [] <==> s == ""
  {
    var parts := Split(s, '\n');
    SplitJoin(s, '\n');
    forall i | 0 <= i < |parts| - 1 ensures '\n' !in DropCr(parts[i]) {
      assert '\n' !in parts[i];
    }
    if s != "" && |parts| == 1 {
      assert parts[0] == s;
    }
    if s != "" && |parts| > 1 {
      assert |Lines(s)| >= 1;
    }
  }

  /** A non-empty string without a line feed is one line. */
  lemma OneLine(s: string)
    requires s != "" && '\n' !in s
    ensures Lines(s) == [s]
  {
    SplitWithoutSep(s, '\n');
  }

  function DigitChar(d: nat): char
    requires d < 10
  {
    ('0' as int + d) as char
  }

  /** The number a string of decimal digits denotes, most significant digit first. */
  function DigitsValue(r: string): int
    decreases |r|
  {
    if r == [] then 0 else DigitsValue(r[..|r| - 1]) * 10 + (r[|r| - 1] as int - '0' as int)
  }

  /** Decimal rendering of a natural number, as template strings render `${n}`: digits that
      denote `n`, with no leading zero. */
  function NatToString(n: nat): (r: string)
    ensures |r| >= 1
    ensures forall i :: 0 <= i < |r| ==> '0' <= r[i] <= '9'
    ensures DigitsValue(r) == n
    ensures r[0] == '0' ==> n == 0 && r == "0"
    decreases n
  {
    if n < 10 then
      [DigitChar(n)]
    else
      var front := NatToString(n / 10);
      var r := front + [DigitChar(n % 10)];
      assert r[..|r| - 1] == front;
      r
  }

}
