/** The Python string operations the services rely on: splitting into lines, stripping, joining, printing numbers. */
module PyText {

  // ── Whitespace and line boundaries ────────────────────────────────────────

  /** The characters `str.splitlines` breaks at. */
  predicate IsBreak(c: char) {
    c in {'\n', '\r', '\U{0B}', '\U{0C}', '\U{1C}', '\U{1D}', '\U{1E}', '\U{85}', '\U{2028}', '\U{2029}'}
  }

  /** The characters `str.strip` removes. */
  predicate IsSpace(c: char) {
    || IsBreak(c)
    || c in {' ', '\t', '\U{1F}', '\U{A0}', '\U{1680}', '\U{202F}', '\U{205F}', '\U{3000}'}
    || '\U{2000}' <= c <= '\U{200A}'
  }

  // ── splitlines ────────────────────────────────────────────────────────────

  /** The length of the first line, without its break. */
  function LineLength(s: string): (k: nat)
    ensures k <= |s|
  {
    if s == "" || IsBreak(s[0]) then 0 else 1 + LineLength(s[1..])
  }

  /** Where the second line starts: a carriage return and a line feed form one break. */
  function NextLine(s: string): (n: nat)
    ensures LineLength(s) <= n <= |s|
    ensures s != "" ==> n > 0
  {
    var k := LineLength(s);
    if k == |s| then k
    else if s[k] == '\r' && k + 1 < |s| && s[k + 1] == '\n' then k + 2
    else k + 1
  }

  function SplitLines(s: string): seq<string>
    decreases |s|
  {
    if s == "" then [] else [s[..LineLength(s)]] + SplitLines(s[NextLine(s)..])
  }

  /** `splitlines(keepends=True)`. */
  function SplitKeepEnds(s: string): seq<string>
    decreases |s|
  {
    if s == "" then [] else [s[..NextLine(s)]] + SplitKeepEnds(s[NextLine(s)..])
  }

  // ── join and strip ────────────────────────────────────────────────────────

  /** `"".join(parts)`. */
  function Concat(parts: seq<string>): string {
    if parts == [] then "" else parts[0] + Concat(parts[1..])
  }

  /** `sep.join(parts)`. */
  function Join(parts: seq<string>, sep: string): string {
    if parts == [] then ""
    else if |parts| == 1 then parts[0]
    else parts[0] + sep + Join(parts[1..], sep)
  }

  function StripLeft(s: string): string {
    if s != "" && IsSpace(s[0]) then StripLeft(s[1..]) else s
  }

  function StripRight(s: string): string {
    if s != "" && IsSpace(s[|s| - 1]) then StripRight(s[..|s| - 1]) else s
  }

  function Strip(s: string): string {
    StripRight(StripLeft(s))
  }

  /** `s.lstrip(c)`. */
  function StripLeftChar(s: string, c: char): string {
    if s != "" && s[0] == c then StripLeftChar(s[1..], c) else s
  }

  /** `s.rstrip(c)`. */
  function StripRightChar(s: string, c: char): string {
    if s != "" && s[|s| - 1] == c then StripRightChar(s[..|s| - 1], c) else s
  }

  predicate StartsWith(s: string, prefix: string) {
    prefix <= s
  }

  predicate EndsWith(s: string, suffix: string) {
    |suffix| <= |s| && s[|s| - |suffix|..] == suffix
  }

  predicate Contains(s: string, part: string) {
    StartsWith(s, part) || (s != "" && Contains(s[1..], part))
  }

  // ── Decimal numerals ──────────────────────────────────────────────────────

  /** `str(n)` of a natural number. */
  function NatToString(n: nat): string {
    if n < 10 then [DIGITS[n]] else NatToString(n / 10) + [DIGITS[n % 10]]
  }

  const DIGITS := ['0', '1', '2', '3', '4', '5', '6', '7', '8', '9']

  /** `str(n)`. */
  function IntToString(n: int): string {
    if n < 0 then "-" + NatToString(-n) else NatToString(n)
  }

  // ── Laws ──────────────────────────────────────────────────────────────────

  lemma {:induction false} ConcatAppend(a: seq<string>, b: seq<string>)
    ensures Concat(a + b) == Concat(a) + Concat(b)
  {
    if a == [] {
      assert a + b == b;
    } else {
      assert (a + b)[1..] == a[1..] + b;
      ConcatAppend(a[1..], b);
    }
  }

  lemma ConcatSnoc(a: seq<string>, s: string)
    ensures Concat(a + [s]) == Concat(a) + s
  {
    ConcatAppend(a, [s]);
    assert [s][1..] == [] && Concat([s]) == s + "";
  }

  /** Of the ASCII characters, those that break lines and those that are white space. */
  lemma AsciiWhitespace(c: char)
    requires c as int < 128
    ensures IsBreak(c) <==> 10 <= c as int <= 13 || 28 <= c as int <= 30
    ensures IsSpace(c) <==> 9 <= c as int <= 13 || 28 <= c as int <= 32
  {
  }

  lemma {:induction false} LeftIsExact(s: string)
    ensures var r := StripLeft(s);
            && |r| <= |s| && s[|s| - |r|..] == r && (r != "" ==> !IsSpace(r[0]))
            && forall i :: 0 <= i < |s| - |r| ==> IsSpace(s[i])
  {
    hide IsSpace;
    if s != "" && IsSpace(s[0]) {
      LeftIsExact(s[1..]);
      var r := StripLeft(s);
      hide StripLeft;
      assert s[1..][|s| - 1 - |r|..] == s[|s| - |r|..];
      forall i | 0 <= i < |s| - |r| ensures IsSpace(s[i]) {
        assert i > 0 ==> s[i] == s[1..][i - 1];
      }
    } else {
      assert s[0..] == s;
    }
  }

  lemma {:induction false} RightIsExact(s: string)
    ensures var r := StripRight(s);
            && r <= s && (r != "" ==> !IsSpace(r[|r| - 1])) && forall i :: |r| <= i < |s| ==> IsSpace(s[i])
  {
    hide IsSpace;
    if s != "" && IsSpace(s[|s| - 1]) {
      RightIsExact(s[..|s| - 1]);
    }
  }

  /** Stripping takes the white space at both ends and nothing else. */
  lemma StripIsExact(s: string) returns (left: nat)
    ensures var r := Strip(s);
            && left + |r| <= |s| && s[left..left + |r|] == r
            && (forall i :: 0 <= i < left ==> IsSpace(s[i]))
            && (forall i :: left + |r| <= i < |s| ==> IsSpace(s[i]))
            && (r != "" ==> !IsSpace(r[0]) && !IsSpace(r[|r| - 1]))
  {
    LeftIsExact(s);
    RightIsExact(StripLeft(s));
    hide IsSpace;
    left := |s| - |StripLeft(s)|;
    forall i | left + |Strip(s)| <= i < |s| ensures IsSpace(s[i]) {
      assert s[i] == StripLeft(s)[i - left];
    }
  }

  lemma {:induction false} LineLengthIsExact(s: string)
    ensures forall i :: 0 <= i < LineLength(s) ==> !IsBreak(s[i])
    ensures LineLength(s) < |s| ==> IsBreak(s[LineLength(s)])
  {
    hide IsBreak;
    if s != "" && !IsBreak(s[0]) {
      LineLengthIsExact(s[1..]);
    }
  }

  /** The first line runs up to the first break; the next starts after it, or after a return and a line feed. */
  lemma FirstBreak(s: string)
    requires s != ""
    ensures var k := LineLength(s);
            && SplitLines(s)[0] == s[..k] && SplitLines(s)[1..] == SplitLines(s[NextLine(s)..])
            && (forall i :: 0 <= i < k ==> !IsBreak(s[i]))
            && (k < |s| ==> IsBreak(s[k]))
            && NextLine(s) == (if k == |s| then k
                               else if k + 1 < |s| && s[k] == '\r' && s[k + 1] == '\n' then k + 2 else k + 1)
            && SplitKeepEnds(s) == [s[..NextLine(s)]] + SplitKeepEnds(s[NextLine(s)..])
  {
    LineLengthIsExact(s);
    hide IsBreak;
  }

  /** Splitting loses nothing when the breaks are kept. */
  lemma {:induction false} KeepEndsConcat(s: string)
    ensures Concat(SplitKeepEnds(s)) == s
    decreases |s|
  {
    if s != "" {
      KeepEndsHead(s);
      KeepEndsConcat(s[NextLine(s)..]);
      hide SplitKeepEnds, NextLine;
      var n := NextLine(s);
      assert ([s[..n]] + SplitKeepEnds(s[n..]))[1..] == SplitKeepEnds(s[n..]);
      assert s[..n] + s[n..] == s;
    }
  }

  lemma KeepEndsHead(s: string)
    requires s != ""
    ensures SplitKeepEnds(s) == [s[..NextLine(s)]] + SplitKeepEnds(s[NextLine(s)..])
  {
  }

  lemma SplitHead(s: string)
    requires s != ""
    ensures SplitLines(s) == [s[..LineLength(s)]] + SplitLines(s[NextLine(s)..])
  {
  }

  lemma ThreeParts(a: seq<string>, b: seq<string>, c: seq<string>)
    ensures a + b + c == a + (b + c)
  {
  }

  lemma TakeDropAppend(s: string, t: string, k: nat)
    requires k <= |s|
    ensures (s + t)[..k] == s[..k] && (s + t)[k..] == s[k..] + t
  {
  }

  /** A line feed ends a line: what follows it is split on its own. */
  lemma {:induction false} SplitAtLineFeed(s: string, rest: string)
    ensures SplitLines(s + "\n" + rest) == SplitLines(s + "\n") + SplitLines(rest)
    decreases |s|
  {
    var b := s + "\n";
    FirstLine(s, rest);
    var k, n := LineLength(b), NextLine(b);
    SplitHead(b);
    SplitHead(b + rest);
    assert SplitLines("") == [];
    if n < |b| {
      TakeDropAppend(s, "\n", n);
      SplitAtLineFeed(s[n..], rest);
    }
    hide *;
    TakeDropAppend(b, rest, k);
    TakeDropAppend(b, rest, n);
    var more, others := SplitLines(b[n..]), SplitLines(rest);
    assert SplitLines(b[n..] + rest) == more + others by {
      if n == |b| {
        assert b[n..] == "" && b[n..] + rest == rest && [] + others == others;
      }
    }
    ThreeParts([b[..k]], more, others);
  }

  /** The first line of a text and the start of the next are settled by the first line feed. */
  lemma {:induction false} FirstLine(s: string, rest: string)
    ensures LineLength(s + "\n" + rest) == LineLength(s) == LineLength(s + "\n") <= |s|
    ensures NextLine(s + "\n" + rest) == NextLine(s + "\n") <= |s| + 1
    ensures NextLine(s + "\n") <= |s| ==> NextLine(s) == NextLine(s + "\n")
  {
    var b := s + "\n";
    var a := b + rest;
    assert a[|s|] == '\n' && b[|s|] == '\n';
    if s != "" {
      assert a[0] == s[0] && b[0] == s[0];
      if !IsBreak(s[0]) {
        assert a[1..] == s[1..] + "\n" + rest && b[1..] == s[1..] + "\n";
        FirstLine(s[1..], rest);
      }
    }
    assert forall i :: 0 <= i < |s| ==> a[i] == s[i] && b[i] == s[i];
  }

  /** A text without line breaks is one line. */
  lemma {:induction false} OneLine(s: string)
    requires forall i :: 0 <= i < |s| ==> !IsBreak(s[i])
    ensures SplitLines(s + "\n") == [s]
  {
    FirstLine(s, "");
    NoBreakLength(s);
    var b := s + "\n";
    assert b[..|s|] == s && b[|s|] == '\n' && b[|s| + 1..] == "";
  }

  lemma {:induction false} NoBreakLength(s: string)
    requires forall i :: 0 <= i < |s| ==> !IsBreak(s[i])
    ensures LineLength(s) == |s|
  {
    if s != "" {
      NoBreakLength(s[1..]);
    }
  }

  /** Ending a text with a line feed adds at most an empty line. */
  lemma {:induction false} LinesOfTerminated(s: string, line: string)
    requires line in SplitLines(s + "\n") && line != ""
    ensures line in SplitLines(s)
    decreases |s|
  {
    FirstLine(s, "");
    var b := s + "\n";
    var k, n := LineLength(b), NextLine(b);
    assert b[..k] == s[..k];
    assert n == |s| + 1 ==> b[n..] == "";
    if line != s[..k] {
      assert b[n..] == s[n..] + "\n";
      LinesOfTerminated(s[n..], line);
    }
  }

  // ── Line breaks made uniform ──────────────────────────────────────────────

  /** The text with every line break turned into a line feed. */
  function Normalise(s: string): string {
    if s == "" then ""
    else if s[0] == '\r' && |s| > 1 && s[1] == '\n' then Normalise(s[1..])
    else [if IsBreak(s[0]) then '\n' else s[0]] + Normalise(s[1..])
  }

  predicate OnlyLineFeeds(s: string) {
    forall i :: 0 <= i < |s| && IsBreak(s[i]) ==> s[i] == '\n'
  }

  lemma {:induction false} NormaliseChangesNothing(s: string)
    ensures |Normalise(s)| <= |s|
    ensures Normalise(s) == s <==> OnlyLineFeeds(s)
  {
    if s != "" {
      NormaliseChangesNothing(s[1..]);
      assert OnlyLineFeeds(s) <==> OnlyLineFeeds(s[1..]) && (IsBreak(s[0]) ==> s[0] == '\n') by {
        if OnlyLineFeeds(s[1..]) && (IsBreak(s[0]) ==> s[0] == '\n') {
          forall i | 0 <= i < |s| && IsBreak(s[i]) ensures s[i] == '\n' {
            if i > 0 { assert s[1..][i - 1] == s[i]; }
          }
        }
      }
      if s[0] == '\r' && |s| > 1 && s[1] == '\n' {
        assert |Normalise(s)| < |s|;
      } else if Normalise(s) == s {
        assert Normalise(s)[0] == s[0] && Normalise(s)[1..] == s[1..];
      }
    }
  }

  lemma {:induction false} NormaliseFirstLine(s: string)
    ensures var k := LineLength(s);
            Normalise(s) == s[..k] + if k == |s| then "" else "\n" + Normalise(s[NextLine(s)..])
  {
    var k := LineLength(s);
    if s == "" {
    } else if !IsBreak(s[0]) {
      NormaliseFirstLine(s[1..]);
      FirstLineTail(s);
      NormaliseHead(s);
      hide *;
      TakeMore(s, k - 1, if k == |s| then "" else "\n" + Normalise(s[NextLine(s)..]));
    } else {
      NormaliseHead(s);
      hide Normalise;
      assert s[..0] == "";
    }
  }

  lemma TakeMore(s: string, k: nat, rest: string)
    requires k < |s|
    ensures [s[0]] + (s[1..][..k] + rest) == s[..k + 1] + rest
  {
    assert [s[0]] + s[1..][..k] == s[..k + 1];
  }

  lemma FirstLineTail(s: string)
    requires s != "" && !IsBreak(s[0])
    ensures LineLength(s) == LineLength(s[1..]) + 1
    ensures s[1..][NextLine(s[1..])..] == s[NextLine(s)..]
  {
  }

  lemma NormaliseHead(s: string)
    requires s != ""
    ensures Normalise(s) == if !IsBreak(s[0]) then [s[0]] + Normalise(s[1..]) else "\n" + Normalise(s[NextLine(s)..])
  {
    if s[0] == '\r' && |s| > 1 && s[1] == '\n' {
      assert s[1..][1..] == s[2..];
      assert Normalise(s[1..]) == "\n" + Normalise(s[2..]);
    }
  }

  predicate EndsInReturn(s: string) {
    s != "" && s[|s| - 1] == '\r'
  }

  /** Splitting a terminated text and joining the lines with line feeds makes its breaks uniform. */
  lemma {:induction false} JoinedLines(s: string)
    ensures Join(SplitLines(s + "\n"), "\n") + (if EndsInReturn(s) then "\n" else "") == Normalise(s)
    decreases |s|
  {
    FirstLine(s, "");
    NormaliseFirstLine(s);
    hide Normalise, LineLength;
    var b := s + "\n";
    var k, n := LineLength(b), NextLine(b);
    assert b[..k] == s[..k];
    if n <= |s| {
      assert b[n..] == s[n..] + "\n";
      JoinedLines(s[n..]);
      var rest := SplitLines(b[n..]);
      assert SplitLines(b) == [s[..k]] + rest && rest != [] && SplitLines(b)[1..] == rest;
      assert Join(SplitLines(b), "\n") == s[..k] + "\n" + Join(rest, "\n");
      ReturnAtEnd(s);
    } else {
      assert b[n..] == "" && SplitLines(b) == [s[..k]];
      LastLine(s);
    }
  }

  /** Past its first line a text ends as before. */
  lemma ReturnAtEnd(s: string)
    requires NextLine(s + "\n") <= |s|
    ensures EndsInReturn(s) <==> EndsInReturn(s[NextLine(s + "\n")..])
  {
    FirstLine(s, "");
    var b := s + "\n";
    var k, n := LineLength(b), NextLine(b);
    assert b[|s|] == '\n' && b[|s| - 1] == s[|s| - 1];
    assert n < |s| ==> s[n..][|s| - n - 1] == s[|s| - 1];
  }

  lemma LastLine(s: string)
    requires NextLine(s + "\n") == |s| + 1
    ensures var k := LineLength(s);
            if k == |s| then s[..k] == s && !EndsInReturn(s)
            else k == |s| - 1 && EndsInReturn(s) && s[NextLine(s)..] == "" && Normalise("") == ""
  {
    FirstLine(s, "");
    LineLengthIsExact(s);
    var b, k := s + "\n", LineLength(s);
    assert forall i :: 0 <= i < |s| ==> b[i] == s[i];
    assert Normalise("") == "";
    hide LineLength, Normalise;
    assert k < |s| ==> b[k] == '\r';
  }

  // ── strip ─────────────────────────────────────────────────────────────────

  lemma {:induction false} StripLeftAppend(s: string, t: string)
    ensures StripLeft(s + t) == if StripLeft(s) != "" then StripLeft(s) + t else StripLeft(t)
  {
    if s == "" {
      assert s + t == t;
    } else {
      assert (s + t)[1..] == s[1..] + t;
      StripLeftAppend(s[1..], t);
    }
  }

  lemma StripLineFeed(s: string)
    ensures Strip(s + "\n") == Strip(s)
  {
    StripLeftAppend(s, "\n");
    var t := StripLeft(s) + "\n";
    assert t[..|t| - 1] == StripLeft(s);
    assert "\n"[1..] == "";
  }

  lemma {:induction false} NormaliseAppend(s: string, t: string)
    requires !(EndsInReturn(s) && t != "" && t[0] == '\n')
    ensures Normalise(s + t) == Normalise(s) + Normalise(t)
  {
    if s == "" {
      assert s + t == t;
    } else {
      assert (s + t)[1..] == s[1..] + t && (s + t)[0] == s[0];
      assert |s| > 1 ==> (s + t)[1] == s[1];
      NormaliseAppend(s[1..], t);
    }
  }

  lemma {:induction false} StripLeftNormalise(s: string)
    ensures StripLeft(Normalise(s)) == Normalise(StripLeft(s))
  {
    if s != "" && IsSpace(s[0]) {
      StripLeftNormalise(s[1..]);
    }
  }

  lemma StripRightSnoc(s: string, c: char)
    ensures StripRight(s + [c]) == if IsSpace(c) then StripRight(s) else s + [c]
  {
    assert (s + [c])[..|s|] == s;
  }

  lemma NormaliseSnoc(s: string, c: char)
    requires !(EndsInReturn(s) && c == '\n')
    ensures Normalise(s + [c]) == Normalise(s) + [if IsBreak(c) then '\n' else c]
  {
    NormaliseAppend(s, [c]);
    NormaliseOne(c);
  }

  /** A carriage return and a line feed become one line feed. */
  lemma NormaliseReturn(s: string)
    ensures Normalise(s + ['\r'] + ['\n']) == Normalise(s + ['\r'])
  {
    assert s + ['\r'] + ['\n'] == s + "\r\n";
    NormaliseAppend(s, "\r\n");
    NormaliseSnoc(s, '\r');
    NormaliseOne('\n');
    assert "\r\n"[1..] == ['\n'];
  }

  lemma {:induction false} StripRightNormalise(s: string)
    ensures StripRight(Normalise(s)) == Normalise(StripRight(s))
  {
    if s != "" {
      var t, c := s[..|s| - 1], s[|s| - 1];
      assert s == t + [c];
      StripRightNormalise(t);
      if EndsInReturn(t) && c == '\n' {
        assert t == t[..|t| - 1] + ['\r'];
        NormaliseReturn(t[..|t| - 1]);
      } else {
        NormaliseSnoc(t, c);
        hide Normalise, StripRight;
        StripRightSnoc(Normalise(t), if IsBreak(c) then '\n' else c);
      }
      StripRightSnoc(t, c);
    }
  }

  lemma NormaliseOne(c: char)
    ensures Normalise([c]) == [if IsBreak(c) then '\n' else c]
  {
    assert [c][1..] == "";
  }

  /** Stripping and making line breaks uniform do not disturb each other. */
  lemma StripNormalise(s: string)
    ensures Strip(Normalise(s)) == Normalise(Strip(s))
  {
    StripLeftNormalise(s);
    StripRightNormalise(StripLeft(s));
  }
}
