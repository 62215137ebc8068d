/** The Kotlin string operations the catalog code relies on, stated over `seq<char>`.
    Case mapping and diacritic stripping are library-defined for all of Unicode;
    here they are exact for ASCII and cover the Latin-1 letters. */
module Text {

  import opened Wrappers

  // ---------------------------------------------------------------------------
  // Whitespace, isBlank, trim
  // ---------------------------------------------------------------------------

  /** Kotlin `Char.isWhitespace()` on the JVM: `Character.isWhitespace` (the ASCII
      controls 9-13 and 28-31, space separators except no-break ones, line and
      paragraph separators) or `Character.isSpaceChar` (all space separators). */
  predicate IsWhitespace(c: char) {
    || ('\t' <= c <= '\r')
    || ('\U{1C}' <= c <= '\U{1F}')
    || c == ' ' || c == '\U{A0}' || c == '\U{1680}'
    || ('\U{2000}' <= c <= '\U{200A}')
    || c == '\U{2028}' || c == '\U{2029}' || c == '\U{202F}' || c == '\U{205F}' || c == '\U{3000}'
  }

  /** Kotlin `isBlank()`: empty or whitespace only. */
  predicate IsBlank(s: string) {
    forall i :: 0 <= i < |s| ==> IsWhitespace(s[i])
  }

  /** Drops leading whitespace: the result is a suffix of `s`, everything dropped is
      whitespace, and what remains does not start with whitespace. */
  function TrimStart(s: string): (r: string)
    ensures |r| <= |s| && r == s[|s| - |r|..]
    ensures forall i :: 0 <= i < |s| - |r| ==> IsWhitespace(s[i])
    ensures |r| == 0 || !IsWhitespace(r[0])
  {
    if |s| > 0 && IsWhitespace(s[0]) then TrimStart(s[1..]) else s
  }

  /** Drops trailing whitespace: the result is a prefix of `s`, everything dropped is
      whitespace, and what remains does not end with whitespace. */
  function TrimEnd(s: string): (r: string)
    ensures |r| <= |s| && r == s[..|r|]
    ensures forall i :: |r| <= i < |s| ==> IsWhitespace(s[i])
    ensures |r| == 0 || !IsWhitespace(r[|r| - 1])
  {
    if |s| > 0 && IsWhitespace(s[|s| - 1]) then TrimEnd(s[..|s| - 1]) else s
  }

  /** Kotlin `trim()`. */
  function Trim(s: string): (r: string)
    ensures |r| <= |s|
    ensures IsBlank(s) <==> r == ""
    ensures |r| > 0 ==> !IsWhitespace(r[0]) && !IsWhitespace(r[|r| - 1])
  {
    var a := TrimStart(s);
    var r := TrimEnd(a);
    r
  }

  /** `trim()` keeps a text blank exactly when it was blank. */
  lemma TrimKeepsBlankness(s: string)
    ensures IsBlank(Trim(s)) <==> IsBlank(s)
  {
  }

  /** `Trim(s)` is the slice `s[a..b]` and everything outside it is whitespace. */
  lemma TrimIsSlice(s: string) returns (a: nat, b: nat)
    ensures a <= b <= |s| && Trim(s) == s[a..b]
    ensures forall i :: 0 <= i < a ==> IsWhitespace(s[i])
    ensures forall i :: b <= i < |s| ==> IsWhitespace(s[i])
  {
    var t := TrimStart(s);
    var e := TrimEnd(t);
    a := |s| - |t|;
    b := a + |e|;
    SliceOfSuffix(s, t, e, IsWhitespace);
  }

  /** A prefix `e` of a suffix `t` of `s` is a slice of `s`; when the characters cut
      off on either side have a property in `t` and `s`, they have it in `s`. */
  lemma SliceOfSuffix(s: string, t: string, e: string, P: char -> bool)
    requires |t| <= |s| && t == s[|s| - |t|..]
    requires forall i :: 0 <= i < |s| - |t| ==> P(s[i])
    requires |e| <= |t| && e == t[..|e|]
    requires forall j :: |e| <= j < |t| ==> P(t[j])
    ensures e == s[|s| - |t|..|s| - |t| + |e|]
    ensures forall i :: 0 <= i < |s| - |t| ==> P(s[i])
    ensures forall i :: |s| - |t| + |e| <= i < |s| ==> P(s[i])
  {
    var a := |s| - |t|;
    assert forall i :: a <= i < |s| ==> s[i] == t[i - a];
  }

  // ---------------------------------------------------------------------------
  // Prefix and substring tests
  // ---------------------------------------------------------------------------

  /** Kotlin `startsWith(prefix)`. */
  predicate StartsWith(s: string, prefix: string) {
    |prefix| <= |s| && s[..|prefix|] == prefix
  }

  /** `sub` occurs in `s` starting at index `i`. */
  predicate OccursAt(s: string, sub: string, i: int) {
    0 <= i && i + |sub| <= |s| && s[i..i + |sub|] == sub
  }

  /** Kotlin `contains(other)`, as a scan: `sub` starts here or further on. */
  predicate Contains(s: string, sub: string)
    decreases |s|
  {
    StartsWith(s, sub) || (|s| > 0 && Contains(s[1..], sub))
  }

  /** The scan finds exactly the occurrences: `contains` holds when `sub` occurs at
      some index. */
  lemma {:induction false} ContainsIsOccurrence(s: string, sub: string)
    ensures Contains(s, sub) <==> exists i :: 0 <= i <= |s| - |sub| && OccursAt(s, sub, i)
  {
    if StartsWith(s, sub) {
      assert OccursAt(s, sub, 0);
    }
    if |s| > 0 {
      ContainsIsOccurrence(s[1..], sub);
      forall i | 0 <= i
        ensures OccursAt(s[1..], sub, i) <==> OccursAt(s, sub, i + 1)
      {
        if i + |sub| <= |s| - 1 {
          assert s[1..][i..i + |sub|] == s[i + 1..i + 1 + |sub|];
        }
      }
      if exists i :: 0 <= i <= |s| - |sub| && OccursAt(s, sub, i) {
        var i :| 0 <= i <= |s| - |sub| && OccursAt(s, sub, i);
        if i > 0 {
          assert OccursAt(s[1..], sub, i - 1);
        }
      }
    }
  }

  // ---------------------------------------------------------------------------
  // Case mapping and diacritics
  // ---------------------------------------------------------------------------

  /** Upper-case ASCII letters and the Latin-1 capitals U+00C0..U+00DE (except the
      multiplication sign U+00D7) lower-case by adding 32; other characters are kept. */
  function LowerChar(c: char): char {
    if 'A' <= c <= 'Z' || ('\U{C0}' <= c <= '\U{DE}' && c != '\U{D7}') then (c as int + 32) as char
    else c
  }

  /** Kotlin `lowercase()`, character by character. */
  function Lower(s: string): (r: string)
    ensures |r| == |s|
    ensures forall i :: 0 <= i < |r| ==> r[i] == LowerChar(s[i])
  {
    seq(|s|, i requires 0 <= i < |s| => LowerChar(s[i]))
  }

  /** Text without upper-case ASCII letters and without non-ASCII characters is
      already in lower case. */
  lemma LowerKeepsLowerAscii(s: string)
    requires forall i :: 0 <= i < |s| ==> s[i] < 'A' || ('Z' < s[i] < '\U{80}')
    ensures Lower(s) == s
  {
  }

  /** Combining diacritical marks U+0300..U+036F: what remains of an accent once a
      precomposed letter is decomposed. */
  predicate IsCombiningMark(c: char) {
    '\U{300}' <= c <= '\U{36F}'
  }

  /** The base letter of a precomposed Latin-1 letter (the first character of its
      canonical decomposition); other characters are kept. */
  function BaseLetter(c: char): char {
    if '\U{E0}' <= c <= '\U{E5}' then 'a'
    else if c == '\U{E7}' then 'c'
    else if '\U{E8}' <= c <= '\U{EB}' then 'e'
    else if '\U{EC}' <= c <= '\U{EF}' then 'i'
    else if c == '\U{F1}' then 'n'
    else if '\U{F2}' <= c <= '\U{F6}' then 'o'
    else if '\U{F9}' <= c <= '\U{FC}' then 'u'
    else if c == '\U{FD}' || c == '\U{FF}' then 'y'
    else if '\U{C0}' <= c <= '\U{C5}' then 'A'
    else if c == '\U{C7}' then 'C'
    else if '\U{C8}' <= c <= '\U{CB}' then 'E'
    else if '\U{CC}' <= c <= '\U{CF}' then 'I'
    else if c == '\U{D1}' then 'N'
    else if '\U{D2}' <= c <= '\U{D6}' then 'O'
    else if '\U{D9}' <= c <= '\U{DC}' then 'U'
    else if c == '\U{DD}' then 'Y'
    else c
  }

  /** Diacritic stripping: decompose, then drop the combining marks. The result holds
      no combining mark and is never longer than the input. */
  function RemoveDiacritics(s: string): (r: string)
    ensures |r| <= |s|
    ensures forall i :: 0 <= i < |r| ==> !IsCombiningMark(r[i])
  {
    if |s| == 0 then ""
    else
      var rest := RemoveDiacritics(s[..|s| - 1]);
      var c := s[|s| - 1];
      if IsCombiningMark(c) then rest else rest + [BaseLetter(c)]
  }

  /** ASCII text has no diacritics to strip. */
  lemma {:induction false} RemoveDiacriticsKeepsAscii(s: string)
    requires forall i :: 0 <= i < |s| ==> s[i] < '\U{80}'
    ensures RemoveDiacritics(s) == s
  {
    if |s| > 0 {
      RemoveDiacriticsKeepsAscii(s[..|s| - 1]);
    }
  }

  // ---------------------------------------------------------------------------
  // Joining and splitting
  // ---------------------------------------------------------------------------

  /** Kotlin `joinToString(sep)`. */
  function Join(parts: seq<string>, sep: string): string
  {
    if |parts| == 0 then ""
    else if |parts| == 1 then parts[0]
    else Join(parts[..|parts| - 1], sep) + sep + parts[|parts| - 1]
  }

  /** Joining four parts puts the separator between neighbours only. */
  lemma JoinFour(p: seq<string>, sep: string)
    requires |p| == 4
    ensures Join(p, sep) == p[0] + sep + p[1] + sep + p[2] + sep + p[3]
  {
    var p3 := p[..3];
    var p2 := p3[..2];
    var p1 := p2[..1];
    assert Join(p1, sep) == p[0];
    assert Join(p2, sep) == Join(p1, sep) + sep + p[1];
    assert Join(p3, sep) == Join(p2, sep) + sep + p[2];
    assert Join(p, sep) == Join(p3, sep) + sep + p[3];
  }

  /** Appending a character to the last part appends it to the joined text. */
  lemma JoinExtendLast(parts: seq<string>, sep: string, c: char)
    requires |parts| >= 1
    ensures Join(parts[..|parts| - 1] + [parts[|parts| - 1] + [c]], sep) == Join(parts, sep) + [c]
  {
    var n := |parts|;
    var q := parts[..n - 1] + [parts[n - 1] + [c]];
    if n > 1 {
      assert q[..n - 1] == parts[..n - 1];
    }
  }

  /** Starting a new empty part appends one separator to the joined text. */
  lemma JoinNewPart(parts: seq<string>, sep: string)
    requires |parts| >= 1
    ensures Join(parts + [""], sep) == Join(parts, sep) + sep
  {
    assert (parts + [""])[..|parts|] == parts;
  }

  /** Number of occurrences of `c` in `s`. */
  function Count(s: string, c: char): nat
  {
    if |s| == 0 then 0
    else Count(s[..|s| - 1], c) + (if s[|s| - 1] == c then 1 else 0)
  }

  /** `s` with every occurrence of `c` removed. */
  function Without(s: string, c: char): (r: string)
    ensures c !in r
  {
    if |s| == 0 then ""
    else
      var rest := Without(s[..|s| - 1], c);
      if s[|s| - 1] == c then rest else rest + [s[|s| - 1]]
  }

  /** Kotlin `split(sep)` with a one-character delimiter and no limit: every
      delimiter ends a part, empty parts (including trailing ones) are kept. */
  function Split(s: string, sep: char): (r: seq<string>)
    ensures |r| >= 1
  {
    if |s| == 0 then [""]
    else
      SplitStep(Split(s[..|s| - 1], sep), s[|s| - 1], sep)
  }

  /** `split` yields one more part than there are delimiters. */
  lemma {:induction false} SplitCount(s: string, sep: char)
    ensures |Split(s, sep)| == Count(s, sep) + 1
  {
    if |s| > 0 {
      SplitCount(s[..|s| - 1], sep);
    }
  }

  /** No part of a split holds the delimiter. */
  lemma {:induction false} SplitPartsAreClean(s: string, sep: char)
    ensures forall k :: 0 <= k < |Split(s, sep)| ==> sep !in Split(s, sep)[k]
  {
    if |s| > 0 {
      SplitPartsAreClean(s[..|s| - 1], sep);
    }
  }

  /** Joining the parts with the delimiter gives the line back. */
  lemma {:induction false} SplitJoinRoundTrip(s: string, sep: char)
    ensures Join(Split(s, sep), [sep]) == s
  {
    if |s| > 0 {
      var p := s[..|s| - 1];
      SplitJoinRoundTrip(p, sep);
      var parts := Split(p, sep);
      if s[|s| - 1] == sep {
        JoinNewPart(parts, [sep]);
      } else {
        JoinExtendLast(parts, [sep], s[|s| - 1]);
      }
      assert p + [s[|s| - 1]] == s;
    }
  }

  /** Splitting at one delimiter splits the two sides independently. */
  lemma {:induction false} SplitConcat(a: string, b: string, sep: char)
    ensures Split(a + [sep] + b, sep) == Split(a, sep) + Split(b, sep)
  {
    var s := a + [sep] + b;
    if |b| == 0 {
      assert s == a + [sep];
      assert s[..|s| - 1] == a;
    } else {
      var b' := b[..|b| - 1];
      var c := b[|b| - 1];
      assert s[..|s| - 1] == a + [sep] + b';
      assert s[|s| - 1] == c;
      SplitConcat(a, b', sep);
      var x := Split(a, sep);
      var y := Split(b', sep);
      assert Split(s, sep) == SplitStep(x + y, c, sep);
      assert Split(b, sep) == SplitStep(y, c, sep);
      SplitStepConcat(x, y, c, sep);
    }
  }

  /** One step of `Split`: the delimiter opens a new part, any other character
      extends the last one. */
  function SplitStep(parts: seq<string>, c: char, sep: char): seq<string>
    requires |parts| >= 1
  {
    if c == sep then parts + [""]
    else parts[..|parts| - 1] + [parts[|parts| - 1] + [c]]
  }

  lemma SplitStepConcat(x: seq<string>, y: seq<string>, c: char, sep: char)
    requires |y| >= 1
    ensures SplitStep(x + y, c, sep) == x + SplitStep(y, c, sep)
  {
    if c != sep {
      var xy := x + y;
      assert xy[..|xy| - 1] == x + y[..|y| - 1];
      assert xy[|xy| - 1] == y[|y| - 1];
    }
  }

  /** Text without the delimiter is a single part. */
  lemma {:induction false} SplitClean(s: string, sep: char)
    requires sep !in s
    ensures Split(s, sep) == [s]
  {
    if |s| > 0 {
      SplitClean(s[..|s| - 1], sep);
      assert s[..|s| - 1] + [s[|s| - 1]] == s;
    }
  }

  /** Splitting what `Join` produced gives the parts back, when no part holds the
      delimiter. */
  lemma {:induction false} JoinSplitRoundTrip(parts: seq<string>, sep: char)
    requires |parts| >= 1
    requires forall k :: 0 <= k < |parts| ==> sep !in parts[k]
    ensures Split(Join(parts, [sep]), sep) == parts
  {
    if |parts| == 1 {
      SplitClean(parts[0], sep);
    } else {
      var init := parts[..|parts| - 1];
      var last := parts[|parts| - 1];
      assert forall k :: 0 <= k < |init| ==> init[k] == parts[k];
      JoinSplitRoundTrip(init, sep);
      assert Join(parts, [sep]) == Join(init, [sep]) + [sep] + last;
      SplitConcat(Join(init, [sep]), last, sep);
      SplitClean(last, sep);
      assert init + [last] == parts;
    }
  }

  /** A character counted at least once occurs. */
  lemma {:induction false} CountedCharOccurs(s: string, c: char)
    requires Count(s, c) > 0
    ensures c in s
  {
    if s[|s| - 1] != c {
      CountedCharOccurs(s[..|s| - 1], c);
    }
  }

  // ---------------------------------------------------------------------------
  // Kotlin `lines()`: split on CRLF, LF and CR
  // ---------------------------------------------------------------------------

  /** State of a left-to-right line split: finished lines, the current line, and
      whether the previous character was a CR (so a following LF ends nothing). */
  datatype LineScan = LineScan(done: seq<string>, current: string, afterCR: bool)

  function ScanLines(s: string): LineScan
  {
    if |s| == 0 then LineScan([], "", false)
    else
      var st := ScanLines(s[..|s| - 1]);
      var c := s[|s| - 1];
      if c == '\n' then
        if st.afterCR then LineScan(st.done, st.current, false)
        else LineScan(st.done + [st.current], "", false)
      else if c == '\r' then LineScan(st.done + [st.current], "", true)
      else LineScan(st.done, st.current + [c], false)
  }

  /** Kotlin `lines()`: never empty; the text after the last terminator is the last line. */
  function Lines(s: string): (r: seq<string>)
    ensures |r| >= 1
  {
    var st := ScanLines(s);
    st.done + [st.current]
  }

  /** `BufferedReader.readLine()` until the end of the stream: the lines of `lines()`,
      except that text which is empty or ends in a terminator has no final empty line. */
  function ReaderLines(s: string): (r: seq<string>)
    ensures r + [""] == Lines(s) <==> EndsLine(s)
    ensures !EndsLine(s) ==> r == Lines(s)
  {
    ScanLinesCurrent(s);
    var st := ScanLines(s);
    if st.current == "" then st.done else st.done + [st.current]
  }

  /** The text is empty or its last character is a line terminator. */
  predicate EndsLine(s: string) {
    |s| == 0 || s[|s| - 1] == '\n' || s[|s| - 1] == '\r'
  }

  /** The line being scanned is empty exactly when the text scanned so far is empty
      or ends in a terminator; right after a CR it is always empty. */
  lemma {:induction false} ScanLinesCurrent(s: string)
    ensures ScanLines(s).afterCR ==> ScanLines(s).current == ""
    ensures ScanLines(s).current == "" <==> EndsLine(s)
  {
    if |s| > 0 {
      ScanLinesCurrent(s[..|s| - 1]);
    }
  }

  /** A line free of both terminators. */
  predicate IsLineText(l: string) {
    '\n' !in l && '\r' !in l
  }

  lemma {:induction false} ScanLinesClean(s: string)
    ensures forall k :: 0 <= k < |ScanLines(s).done| ==> IsLineText(ScanLines(s).done[k])
    ensures IsLineText(ScanLines(s).current)
  {
    if |s| > 0 {
      ScanLinesClean(s[..|s| - 1]);
    }
  }

  /** No line holds a line terminator. */
  lemma LinesHaveNoTerminators(s: string)
    ensures forall k :: 0 <= k < |Lines(s)| ==> IsLineText(Lines(s)[k])
  {
    ScanLinesClean(s);
  }

  /** For text without CR the scan never waits on a CR, and the finished lines plus
      the current one, joined with LF, are the text scanned so far. */
  lemma {:induction false} ScanLinesJoin(s: string)
    requires '\r' !in s
    ensures !ScanLines(s).afterCR
    ensures Join(ScanLines(s).done + [ScanLines(s).current], "\n") == s
  {
    if |s| > 0 {
      var p := s[..|s| - 1];
      var c := s[|s| - 1];
      assert p + [c] == s;
      assert '\r' !in p;
      ScanLinesJoin(p);
      var st := ScanLines(p);
      var parts := st.done + [st.current];
      if c == '\n' {
        JoinNewPart(parts, "\n");
        assert parts + [""] == ScanLines(s).done + [ScanLines(s).current];
      } else {
        JoinExtendLast(parts, "\n", c);
        assert parts[..|parts| - 1] + [parts[|parts| - 1] + [c]]
            == ScanLines(s).done + [ScanLines(s).current];
      }
    }
  }

  /** For text without CR, joining the lines with LF restores the text. */
  lemma LinesJoinRoundTrip(s: string)
    requires '\r' !in s
    ensures Join(Lines(s), "\n") == s
  {
    ScanLinesJoin(s);
  }

  // ---------------------------------------------------------------------------
  // Substrings used for file names and URIs
  // ---------------------------------------------------------------------------

  /** Kotlin `equals(other, ignoreCase = true)`, with the case mapping above. */
  predicate EqualsIgnoreCase(a: string, b: string) {
    Lower(a) == Lower(b)
  }

  /** Kotlin `endsWith(suffix, ignoreCase = true)`. */
  predicate EndsWithIgnoreCase(s: string, suffix: string) {
    |suffix| <= |s| && EqualsIgnoreCase(s[|s| - |suffix|..], suffix)
  }

  /** Index of the last occurrence of `c`, if any. */
  function LastIndexOf(s: string, c: char): (r: Option<nat>)
    ensures r.None? <==> c !in s
    ensures r.Some? ==> r.value < |s| && s[r.value] == c && c !in s[r.value + 1..]
  {
    if |s| == 0 then None
    else if s[|s| - 1] == c then Some(|s| - 1)
    else
      var r := LastIndexOf(s[..|s| - 1], c);
      assert s == s[..|s| - 1] + [s[|s| - 1]];
      r
  }

  /** Kotlin `substringAfterLast(c, missing)`. */
  function SubstringAfterLast(s: string, c: char, missing: string): (r: string)
  {
    match LastIndexOf(s, c)
    case None => missing
    case Some(i) => s[i + 1..]
  }

  /** Index of the first occurrence of `sub` at or after `from`, if any. */
  function IndexOf(s: string, sub: string, from: nat): (r: Option<nat>)
    ensures r.Some? ==> from <= r.value && OccursAt(s, sub, r.value)
    ensures r.Some? ==> forall j :: from <= j < r.value ==> !OccursAt(s, sub, j)
    ensures r.None? ==> forall j :: from <= j ==> !OccursAt(s, sub, j)
    decreases |s| - from
  {
    if from + |sub| > |s| then None
    else if OccursAt(s, sub, from) then Some(from)
    else IndexOf(s, sub, from + 1)
  }

  /** Kotlin `substringAfter(delimiter)`: the text after the first occurrence, or the
      whole string when the delimiter does not occur. */
  function SubstringAfter(s: string, delim: string): string
  {
    match IndexOf(s, delim, 0)
    case None => s
    case Some(i) => s[i + |delim|..]
  }

  // ---------------------------------------------------------------------------
  // String.compareTo: lexicographic order on UTF-16 code units
  // ---------------------------------------------------------------------------

  /** The UTF-16 code units of one character: itself below U+10000, else its
      surrogate pair. */
  function CharUnits(c: char): (u: seq<int>)
    ensures 1 <= |u| <= 2
    ensures |u| == 1 <==> (c as int) < 0x1_0000
    ensures |u| == 2 ==> 0xD800 <= u[0] < 0xDC00 && 0xDC00 <= u[1] < 0xE000
    ensures |u| == 2 ==> (c as int) == 0x1_0000 + (u[0] - 0xD800) * 0x400 + (u[1] - 0xDC00)
  {
    if (c as int) < 0x1_0000 then [c as int]
    else
      var v := c as int - 0x1_0000;
      [0xD800 + v / 0x400, 0xDC00 + v % 0x400]
  }

  /** The UTF-16 code units of a string, as Kotlin stores it. */
  function CodeUnits(s: string): seq<int>
  {
    if |s| == 0 then [] else CharUnits(s[0]) + CodeUnits(s[1..])
  }

  /** Lexicographic order on code unit sequences: Kotlin's `compareTo(...) <= 0`. */
  predicate UnitsLe(x: seq<int>, y: seq<int>)
  {
    |x| == 0 || (|y| > 0 && (x[0] < y[0] || (x[0] == y[0] && UnitsLe(x[1..], y[1..]))))
  }

  /** Where a character's code units sort among all characters' code units: the
      characters from U+E000 to U+FFFF come after every surrogate pair. */
  function Utf16Rank(c: char): (k: int)
    ensures (c as int) < 0xD800 ==> k == c as int
    ensures (c as int) >= 0x1_0000 ==> k == c as int
    ensures 0xE000 <= (c as int) < 0x1_0000 ==> k > 0x10_FFFF
  {
    if (c as int) < 0xD800 || (c as int) >= 0x1_0000 then c as int
    else c as int + 0x11_0000
  }

  /** `a.compareTo(b) <= 0`, one character at a time: the first differing
      character decides by its code units. */
  predicate LexLe(a: string, b: string)
  {
    |a| == 0 || (|b| > 0 && (Utf16Rank(a[0]) < Utf16Rank(b[0]) || (a[0] == b[0] && LexLe(a[1..], b[1..]))))
  }

  /** Equal leading code units do not decide the comparison. */
  lemma {:induction false} UnitsLeCancel(u: seq<int>, x: seq<int>, y: seq<int>)
    ensures UnitsLe(u + x, u + y) <==> UnitsLe(x, y)
  {
    if |u| > 0 {
      assert (u + x)[1..] == u[1..] + x;
      assert (u + y)[1..] == u[1..] + y;
      UnitsLeCancel(u[1..], x, y);
    } else {
      assert u + x == x && u + y == y;
    }
  }

  /** Two different characters are ordered by their first differing code unit,
      whatever follows them, and that order is the order of their ranks. */
  lemma DifferentCharsDecide(c: char, d: char, x: seq<int>, y: seq<int>)
    requires c != d
    ensures UnitsLe(CharUnits(c) + x, CharUnits(d) + y) <==> Utf16Rank(c) < Utf16Rank(d)
  {
    var u, w := CharUnits(c), CharUnits(d);
    var ux, wy := u + x, w + y;
    assert ux[0] == u[0] && wy[0] == w[0];
    if |u| == 2 && |w| == 2 && u[0] == w[0] {
      assert u[1] != w[1];
      assert ux[1..][0] == u[1] && wy[1..][0] == w[1];
    }
  }

  /** The character-by-character comparison is the comparison of the code units. */
  lemma {:induction false} LexLeIsCodeUnitOrder(a: string, b: string)
    ensures LexLe(a, b) <==> UnitsLe(CodeUnits(a), CodeUnits(b))
  {
    if |a| > 0 && |b| > 0 {
      if a[0] == b[0] {
        LexLeIsCodeUnitOrder(a[1..], b[1..]);
        UnitsLeCancel(CharUnits(a[0]), CodeUnits(a[1..]), CodeUnits(b[1..]));
      } else {
        DifferentCharsDecide(a[0], b[0], CodeUnits(a[1..]), CodeUnits(b[1..]));
      }
    }
  }

  /** Kotlin's order and the order of scalar values disagree: U+FF21 (fullwidth
      `Ａ`) sorts after U+1F600, whose first code unit is 0xD83D. */
  lemma CodeUnitOrderIsNotScalarOrder()
    ensures !LexLe("\U{FF21}", "\U{1F600}") && LexLe("\U{1F600}", "\U{FF21}")
  {
  }

  lemma {:induction false} LexLeRefl(a: string)
    ensures LexLe(a, a)
  {
    if |a| > 0 {
      LexLeRefl(a[1..]);
    }
  }

  lemma {:induction false} LexLeTotal(a: string, b: string)
    ensures LexLe(a, b) || LexLe(b, a)
  {
    if |a| > 0 && |b| > 0 && a[0] == b[0] {
      LexLeTotal(a[1..], b[1..]);
    }
  }

  lemma {:induction false} LexLeAntisym(a: string, b: string)
    requires LexLe(a, b) && LexLe(b, a)
    ensures a == b
  {
    if |a| > 0 && |b| > 0 {
      LexLeAntisym(a[1..], b[1..]);
      assert a == [a[0]] + a[1..];
      assert b == [b[0]] + b[1..];
    }
  }

  lemma {:induction false} LexLeTrans(a: string, b: string, c: string)
    requires LexLe(a, b) && LexLe(b, c)
    ensures LexLe(a, c)
  {
    if |a| > 0 && |b| > 0 && |c| > 0 && a[0] == b[0] && b[0] == c[0] {
      LexLeTrans(a[1..], b[1..], c[1..]);
    }
  }

}
