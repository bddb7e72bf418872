/**
 The command line sent to the control node, read back by the shell.

 `Tokenize` is the shell's reading of a simple command: the quoting of sections 2.2.1 (escape character) and
 2.2.2 (single-quotes), and the token recognition of section 2.3, of the POSIX.1-2017 Shell Command Language.
 Words are read as they stand before the expansions of section 2.6: braces, pattern characters and tildes stand for
 themselves, as they do in bash where they form no expansion.  `NoExpansionChars` is a sufficient test that nothing
 expands: the characters that take part in those expansions do not occur outside quotes.
 */
module ShellCommand {
  import opened Options
  import opened PyText

  // ── Reading ───────────────────────────────────────────────────────────────

  predicate IsBlank(c: char) {
    c == ' ' || c == '\t'
  }

  /** Unquoted, the character starts a substitution, and what it does depends on what follows and the environment. */
  predicate Substitutes(c: char) {
    c == '$' || c == '`'
  }

  /**
   Unquoted, the shell does not keep the character as it is: an operator or a line end ends the command or redirects
   it, a double quote is removed, and a substitution may bring anything.
   */
  predicate HasMeaning(c: char) {
    Substitutes(c) || c in {'|', '&', ';', '<', '>', '(', ')', '"', '\n'}
  }

  /** Unquoted at the start of a word, the character begins a comment. */
  predicate MeansAtStart(c: char) {
    c == '#'
  }

  /**
   Expansions of braces, home directories and file names need one of these characters outside quotes.  Not every
   occurrence is an expansion: bash leaves `{}` and `a~b` alone.
   */
  predicate IsExpansionChar(c: char) {
    c in {'{', '~', '*', '?', '['}
  }

  /**
   What a reading finds: the words of one simple command; or something else, such as an operator, a double quote, a
   comment or an open quote; or a dollar sign or back quote, whose effect is outside this model.
   */
  datatype Reading = Words(words: seq<string>) | Broken | Unread

  function Text(cur: Option<string>): string {
    if cur.Some? then cur.value else ""
  }

  function Push(cur: Option<string>, c: char): Option<string> {
    Some(Text(cur) + [c])
  }

  /** Put a word, if there is one, before those of a reading. */
  function Before(cur: Option<string>, r: Reading): Reading {
    if r.Words? && cur.Some? then Words([cur.value] + r.words) else r
  }

  /** The words of s, when the current word so far is cur and single quotes are open or not. */
  function Scan(s: string, cur: Option<string>, quoted: bool): Reading
    decreases |s|
  {
    if s == "" then
      if quoted then Broken else Words(if cur.Some? then [cur.value] else [])
    else if quoted then
      if s[0] == '\'' then Scan(s[1..], cur, false) else Scan(s[1..], Push(cur, s[0]), true)
    else if s[0] == '\'' then Scan(s[1..], Some(Text(cur)), true)
    else if s[0] == '\\' then
      if |s| == 1 then Broken
      else if s[1] == '\n' then Scan(s[2..], cur, false)
      else Scan(s[2..], Push(cur, s[1]), false)
    else if IsBlank(s[0]) then Before(cur, Scan(s[1..], None, false))
    else if Substitutes(s[0]) then Unread
    else if HasMeaning(s[0]) || (cur.None? && MeansAtStart(s[0])) then Broken
    else Scan(s[1..], Push(cur, s[0]), false)
  }

  function Tokenize(s: string): Reading {
    Scan(s, None, false)
  }

  /** No expansion character stands outside quotes, when single quotes are open or not. */
  predicate NoExpansionChars(s: string, quoted: bool)
    decreases |s|
  {
    if s == "" then true
    else if s[0] == '\'' then NoExpansionChars(s[1..], !quoted)
    else if quoted then NoExpansionChars(s[1..], true)
    else if s[0] == '\\' then |s| == 1 || NoExpansionChars(s[2..], false)
    else !IsExpansionChar(s[0]) && NoExpansionChars(s[1..], false)
  }

  // ── Printing ──────────────────────────────────────────────────────────────

  /** `s.replace("'", "'\\''")`. */
  function EscapeQuotes(s: string): string {
    if s == "" then "" else (if s[0] == '\'' then "'\\''" else [s[0]]) + EscapeQuotes(s[1..])
  }

  /** `_q`: single-quote a string for the shell. */
  function Q(s: string): string {
    "'" + EscapeQuotes(s) + "'"
  }

  /** An argument that is printed as it stands, or one that is quoted. */
  datatype Arg = Bare(text: string) | Quoted(text: string)

  function PrintArg(a: Arg): string {
    match a case Bare(t) => t case Quoted(t) => Q(t)
  }

  function Printed(args: seq<Arg>): seq<string> {
    if args == [] then [] else [PrintArg(args[0])] + Printed(args[1..])
  }

  /** The argument vector the caller means. */
  function Texts(args: seq<Arg>): seq<string> {
    if args == [] then [] else [args[0].text] + Texts(args[1..])
  }

  function CommandLine(args: seq<Arg>): string {
    Join(Printed(args), " ")
  }

  // ── Words that need no quoting ────────────────────────────────────────────

  /** Outside quotes the character is kept, at least inside a word and where nothing expands. */
  predicate IsLiteral(c: char) {
    c != '\'' && c != '\\' && !IsBlank(c) && !HasMeaning(c)
  }

  predicate AllLiteral(s: string) {
    forall i :: 0 <= i < |s| ==> IsLiteral(s[i])
  }

  /** A text that is read as one word without quotes. */
  predicate IsWord(s: string) {
    s != "" && AllLiteral(s) && !MeansAtStart(s[0])
  }

  /** No expansion character occurs. */
  predicate Fixed(s: string) {
    forall i :: 0 <= i < |s| ==> !IsExpansionChar(s[i])
  }

  /** A non-empty word made only of characters with no shell meaning. */
  predicate IsPlainWord(s: string) {
    IsWord(s) && Fixed(s)
  }

  /** What the code prints without quoting is plain. */
  predicate BareArgsArePlain(args: seq<Arg>) {
    forall i :: 0 <= i < |args| && args[i].Bare? ==> IsPlainWord(args[i].text)
  }

  predicate BareArgsAreWords(args: seq<Arg>) {
    forall i :: 0 <= i < |args| && args[i].Bare? ==> IsWord(args[i].text)
  }

  // ── Reading back what was printed ─────────────────────────────────────────

  /** The printed form of an apostrophe: close, escaped apostrophe, open. */
  lemma ScanEscapedQuote(tail: string, w: string)
    ensures Scan("'\\''" + tail, Some(w), true) == Scan(tail, Some(w + "'"), true)
  {
    var s0, s1, s2 := "'\\''" + tail, "\\''" + tail, "'" + tail;
    assert s0[1..] == s1 && s1[2..] == s2 && s2[1..] == tail;
    assert Scan(s0, Some(w), true) == Scan(s1, Some(w), false);
    assert Scan(s1, Some(w), false) == Scan(s2, Push(Some(w), '\''), false);
    assert Scan(s2, Some(w + "'"), false) == Scan(tail, Some(w + "'"), true);
  }

  lemma {:induction false} ScanEscaped(v: string, rest: string, w: string)
    ensures Scan(EscapeQuotes(v) + "'" + rest, Some(w), true) == Scan(rest, Some(w + v), false)
    decreases |v|
  {
    if v == "" {
      assert EscapeQuotes(v) + "'" + rest == "'" + rest;
      assert ("'" + rest)[1..] == rest && w + v == w;
    } else {
      var tail := EscapeQuotes(v[1..]) + "'" + rest;
      assert w + v == w + [v[0]] + v[1..];
      ScanEscaped(v[1..], rest, w + [v[0]]);
      if v[0] == '\'' {
        assert EscapeQuotes(v) + "'" + rest == "'\\''" + tail;
        hide Scan;
        ScanEscapedQuote(tail, w);
        assert w + "'" == w + [v[0]];
      } else {
        assert EscapeQuotes(v) + "'" + rest == [v[0]] + tail;
        assert ([v[0]] + tail)[1..] == tail;
      }
    }
  }

  /** A quoted string is read as itself, whatever it contains. */
  lemma ScanQuoted(v: string, rest: string)
    ensures Scan(Q(v) + rest, None, false) == Scan(rest, Some(v), false)
  {
    assert Q(v) + rest == "'" + (EscapeQuotes(v) + "'" + rest);
    assert (Q(v) + rest)[1..] == EscapeQuotes(v) + "'" + rest;
    ScanEscaped(v, rest, "");
    assert "" + v == v;
  }

  lemma {:induction false} ScanLiteral(v: string, rest: string, cur: Option<string>)
    requires AllLiteral(v) && (cur.None? ==> IsWord(v))
    ensures Scan(v + rest, cur, false) == Scan(rest, Some(Text(cur) + v), false)
    decreases |v|
  {
    if v == "" {
      assert v + rest == rest && Text(cur) + v == Text(cur);
    } else {
      assert (v + rest)[1..] == v[1..] + rest;
      assert Text(cur) + v == Text(cur) + [v[0]] + v[1..];
      assert IsLiteral(v[0]);
      ScanLiteral(v[1..], rest, Push(cur, v[0]));
    }
  }

  lemma ScanArg(a: Arg, rest: string)
    requires a.Bare? ==> IsWord(a.text)
    ensures Scan(PrintArg(a) + rest, None, false) == Scan(rest, Some(a.text), false)
  {
    match a
    case Bare(t) =>
      ScanLiteral(t, rest, None);
      assert "" + t == t;
    case Quoted(t) =>
      ScanQuoted(t, rest);
  }

  lemma EscapedQuoteIsFixed(tail: string)
    ensures NoExpansionChars("'\\''" + tail, true) == NoExpansionChars(tail, true)
  {
    hide IsExpansionChar;
    var s0, s1, s2 := "'\\''" + tail, "\\''" + tail, "'" + tail;
    assert s0[1..] == s1 && s1[2..] == s2 && s2[1..] == tail;
    assert NoExpansionChars(s0, true) == NoExpansionChars(s1, false);
    assert NoExpansionChars(s1, false) == NoExpansionChars(s2, false);
    assert NoExpansionChars(s2, false) == NoExpansionChars(tail, true);
  }

  lemma {:induction false} EscapedIsFixed(v: string, rest: string)
    ensures NoExpansionChars(EscapeQuotes(v) + "'" + rest, true) == NoExpansionChars(rest, false)
    decreases |v|
  {
    hide IsExpansionChar;
    if v == "" {
      assert EscapeQuotes(v) + "'" + rest == "'" + rest;
      assert ("'" + rest)[1..] == rest;
    } else {
      var tail := EscapeQuotes(v[1..]) + "'" + rest;
      EscapedIsFixed(v[1..], rest);
      if v[0] == '\'' {
        assert EscapeQuotes(v) + "'" + rest == "'\\''" + tail;
        hide NoExpansionChars;
        EscapedQuoteIsFixed(tail);
      } else {
        assert EscapeQuotes(v) + "'" + rest == [v[0]] + tail;
        assert ([v[0]] + tail)[1..] == tail;
      }
    }
  }

  /** A quoted string has no expansion character outside its quotes. */
  lemma QuotedIsFixed(v: string, rest: string)
    ensures NoExpansionChars(Q(v) + rest, false) == NoExpansionChars(rest, false)
  {
    assert Q(v) + rest == "'" + (EscapeQuotes(v) + "'" + rest);
    assert (Q(v) + rest)[1..] == EscapeQuotes(v) + "'" + rest;
    EscapedIsFixed(v, rest);
  }

  /** Unquoted, a literal text passes the test exactly if it has no expansion character. */
  lemma {:induction false} LiteralIsFixed(v: string, rest: string)
    requires AllLiteral(v)
    ensures NoExpansionChars(v + rest, false) == (Fixed(v) && NoExpansionChars(rest, false))
    decreases |v|
  {
    if v == "" {
      assert v + rest == rest;
    } else {
      assert (v + rest)[1..] == v[1..] + rest && IsLiteral(v[0]);
      LiteralIsFixed(v[1..], rest);
      assert Fixed(v) <==> !IsExpansionChar(v[0]) && Fixed(v[1..]) by {
        assert v == [v[0]] + v[1..];
      }
    }
  }

  /** Round trip of one quoted string, for every string. */
  lemma QuoteRoundTrip(s: string)
    ensures Tokenize(Q(s)) == Words([s]) && NoExpansionChars(Q(s), false)
  {
    ScanQuoted(s, "");
    QuotedIsFixed(s, "");
    assert Q(s) + "" == Q(s);
  }

  /** Round trip of a command line: the shell reads exactly the intended argument vector, whatever the values. */
  lemma {:induction false} CommandRoundTrip(args: seq<Arg>)
    requires BareArgsAreWords(args)
    ensures Tokenize(CommandLine(args)) == Words(Texts(args))
    decreases |args|
  {
    if args == [] {
    } else if |args| == 1 {
      assert Printed(args[1..]) == [] && CommandLine(args) == PrintArg(args[0]);
      ScanArg(args[0], "");
      assert PrintArg(args[0]) + "" == PrintArg(args[0]);
      assert Texts(args[1..]) == [] && Texts(args) == [args[0].text];
    } else {
      var rest := CommandLine(args[1..]);
      assert Printed(args)[1..] == Printed(args[1..]) && |Printed(args[1..])| > 0;
      assert CommandLine(args) == PrintArg(args[0]) + (" " + rest);
      CommandRoundTrip(args[1..]);
      hide PrintArg, CommandLine, Printed;
      ScanArg(args[0], " " + rest);
      assert (" " + rest)[1..] == rest;
    }
  }

  /** And a printed command line has no expansion character outside its quotes. */
  lemma {:induction false} PrintedPassesTest(args: seq<Arg>)
    requires BareArgsArePlain(args)
    ensures NoExpansionChars(CommandLine(args), false)
    decreases |args|
  {
    if args != [] {
      var rest := if |args| == 1 then "" else " " + CommandLine(args[1..]);
      assert Printed(args)[1..] == Printed(args[1..]) && |Printed(args[1..])| == 0 <==> |args| == 1;
      assert CommandLine(args) == PrintArg(args[0]) + rest;
      if |args| > 1 {
        PrintedPassesTest(args[1..]);
        assert rest[1..] == CommandLine(args[1..]);
      }
      match args[0]
      case Bare(t) => LiteralIsFixed(t, rest);
      case Quoted(t) => QuotedIsFixed(t, rest);
    }
  }
}
