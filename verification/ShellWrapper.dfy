/**
 The command inside `bash -c '...'`.  The wrapper adds single quotes around a text that already contains them, so
 the login shell removes the quotes of every value and bash reads the remainder a second time.
 */
module ShellWrapper {
  import opened Options
  import opened PyText
  import opened ShellCommand

  const PRELUDE := "echo \"LOP_PID:$$\"; exec "
  const OPENING := "ANSIBLE_FORCE_COLOR=1 bash -c '"

  /** What the channel executes. */
  function Sent(cmd: string): string {
    OPENING + PRELUDE + cmd + "'"
  }

  /** The text that is sent, and that it announces the process id under the marker the worker filters. */
  lemma SentText(cmd: string)
    ensures Sent(cmd) == "ANSIBLE_FORCE_COLOR=1 bash -c 'echo \"LOP_PID:$$\"; exec " + cmd + "'"
  {
  }

  /** The login shell reads the wrapper's words and passes bash a script. */
  ghost predicate Passes(args: seq<Arg>, script: string) {
    Tokenize(Sent(CommandLine(args))) == Words(["ANSIBLE_FORCE_COLOR=1", "bash", "-c", PRELUDE + script])
  }

  ghost predicate RunsAs(args: seq<Arg>, script: string) {
    Passes(args, script) && Tokenize(script) == Words(Texts(args))
  }

  /** Where nothing expands, the script executes exactly the intended vector. */
  ghost predicate Survives(args: seq<Arg>) {
    exists script :: RunsAs(args, script)
  }

  /** A sufficient test that it does so in every environment: neither shell meets an expansion character unquoted. */
  ghost predicate Certain(args: seq<Arg>) {
    exists script ::
      RunsAs(args, script) && NoExpansionChars(Sent(CommandLine(args)), false) && NoExpansionChars(script, false)
  }

  /** One of the two shells meets a dollar sign or a back quote outside quotes: the model does not say what happens. */
  ghost predicate NotRead(args: seq<Arg>) {
    || Tokenize(Sent(CommandLine(args))).Unread?
    || exists script :: Passes(args, script) && Tokenize(script).Unread?
  }

  /** Both shells are read, and not even without expansions do they come to the intended vector. */
  ghost predicate Changed(args: seq<Arg>) {
    !NotRead(args) && !Survives(args)
  }

  /** Every value is read as one word without its quotes. */
  predicate AllWords(args: seq<Arg>) {
    forall i :: 0 <= i < |args| ==> IsWord(args[i].text)
  }

  /** Every value is a word without expansion characters. */
  predicate AllPlain(args: seq<Arg>) {
    forall i :: 0 <= i < |args| ==> IsPlainWord(args[i].text)
  }

  predicate NoSubstitution(s: string) {
    DOLLAR !in s && BACKQUOTE !in s
  }

  predicate NoSubstitutions(args: seq<Arg>) {
    forall i :: 0 <= i < |args| ==> NoSubstitution(args[i].text)
  }

  const DOLLAR := '$'
  const BACKQUOTE := '`'

  // ── Counting a character ──────────────────────────────────────────────────

  function Count(c: char, s: string): nat {
    if s == "" then 0 else (if s[0] == c then 1 else 0) + Count(c, s[1..])
  }

  function CountAll(c: char, words: seq<string>): nat {
    if words == [] then 0 else Count(c, words[0]) + CountAll(c, words[1..])
  }

  lemma {:induction false} CountAppend(c: char, a: string, b: string)
    ensures Count(c, a + b) == Count(c, a) + Count(c, b)
  {
    if a == "" {
      assert a + b == b;
    } else {
      assert (a + b)[1..] == a[1..] + b;
      CountAppend(c, a[1..], b);
    }
  }

  lemma {:induction false} CountNone(c: char, s: string)
    requires c !in s
    ensures Count(c, s) == 0
  {
    if s != "" {
      CountNone(c, s[1..]);
    }
  }

  lemma {:induction false} CountSome(c: char, s: string)
    requires c in s
    ensures Count(c, s) > 0
  {
    if s[0] != c {
      CountSome(c, s[1..]);
    }
  }

  lemma CountPush(c: char, cur: Option<string>, x: char)
    ensures Count(c, Push(cur, x).value) == Count(c, Text(cur)) + if x == c then 1 else 0
  {
    CountAppend(c, Text(cur), [x]);
    assert [x][1..] == "";
  }

  const APOSTROPHE := '\''
  const BACKSLASH := '\\'

  /**
   What reading cannot do: an apostrophe reaches a word only through a backslash that is used up, and a backslash
   reaches a word only from a backslash.
   */
  lemma {:induction false} ScanBudget(s: string, cur: Option<string>, quoted: bool)
    requires Scan(s, cur, quoted).Words?
    ensures var words := Scan(s, cur, quoted).words;
            && CountAll(APOSTROPHE, words) + CountAll(BACKSLASH, words)
               <= Count(BACKSLASH, s) + Count(APOSTROPHE, Text(cur)) + Count(BACKSLASH, Text(cur))
            && CountAll(BACKSLASH, words) <= Count(BACKSLASH, s) + Count(BACKSLASH, Text(cur))
            && CountAll(APOSTROPHE, words) <= Count(APOSTROPHE, s) + Count(APOSTROPHE, Text(cur))
    decreases |s|
  {
    if s == "" {
      assert cur.Some? ==> [cur.value][1..] == [];
    } else {
      CountPush(APOSTROPHE, cur, s[0]);
      CountPush(BACKSLASH, cur, s[0]);
      if quoted {
        if s[0] == APOSTROPHE { ScanBudget(s[1..], cur, false); } else { ScanBudget(s[1..], Push(cur, s[0]), true); }
      } else if s[0] == APOSTROPHE {
        ScanBudget(s[1..], Some(Text(cur)), true);
      } else if s[0] == BACKSLASH {
        assert s[1..][1..] == s[2..];
        CountPush(APOSTROPHE, cur, s[1]);
        CountPush(BACKSLASH, cur, s[1]);
        if s[1] == '\n' { ScanBudget(s[2..], cur, false); } else { ScanBudget(s[2..], Push(cur, s[1]), false); }
      } else if IsBlank(s[0]) {
        ScanBudget(s[1..], None, false);
        var rest := Scan(s[1..], None, false).words;
        assert cur.Some? ==> ([cur.value] + rest)[1..] == rest;
      } else {
        ScanBudget(s[1..], Push(cur, s[0]), false);
      }
    }
  }

  // ── Inside the wrapper's quotes, quoting is inside out ────────────────────

  lemma {:induction false} ScanInQuotes(v: string, rest: string, w: string)
    requires APOSTROPHE !in v
    ensures Scan(v + rest, Some(w), true) == Scan(rest, Some(w + v), true)
    decreases |v|
  {
    if v == "" {
      assert v + rest == rest && w + v == w;
    } else {
      assert (v + rest)[1..] == v[1..] + rest && w + v == w + [v[0]] + v[1..];
      ScanInQuotes(v[1..], rest, w + [v[0]]);
    }
  }

  lemma {:induction false} EscapeNothing(v: string)
    requires APOSTROPHE !in v
    ensures EscapeQuotes(v) == v
  {
    if v != "" {
      EscapeNothing(v[1..]);
    }
  }

  /** The quotes around a value close and reopen those of the wrapper. */
  lemma ScanValueInside(v: string, rest: string, w: string)
    requires APOSTROPHE !in v
    ensures Scan(Q(v) + rest, Some(w), true) == Scan(v + ("'" + rest), Some(w), false)
  {
    EscapeNothing(v);
    assert Q(v) + rest == "'" + (v + ("'" + rest));
    assert (Q(v) + rest)[1..] == v + ("'" + rest);
  }

  lemma FlipArg(a: Arg, rest: string, w: string)
    requires AllLiteral(a.text)
    ensures Scan(PrintArg(a) + rest, Some(w), true) == Scan(rest, Some(w + a.text), true)
  {
    assert APOSTROPHE !in a.text;
    match a
    case Bare(t) => ScanInQuotes(t, rest, w);
    case Quoted(t) =>
      ScanValueInside(t, rest, w);
      ScanLiteral(t, "'" + rest, Some(w));
      assert ("'" + rest)[1..] == rest;
  }

  lemma Heads(args: seq<Arg>)
    requires |args| > 1
    ensures CommandLine(args) == PrintArg(args[0]) + (" " + CommandLine(args[1..]))
    ensures Join(Texts(args), " ") == args[0].text + (" " + Join(Texts(args[1..]), " "))
  {
    assert Printed(args)[1..] == Printed(args[1..]) && |Printed(args[1..])| > 0;
    assert Texts(args)[1..] == Texts(args[1..]) && |Texts(args[1..])| > 0;
    var p, t := PrintArg(args[0]), args[0].text;
    Associates(p, " ", CommandLine(args[1..]));
    Associates(t, " ", Join(Texts(args[1..]), " "));
  }

  lemma Associates(a: string, b: string, c: string)
    ensures a + b + c == a + (b + c)
  {
  }

  /** One more argument: its text, then a space, joins the script. */
  lemma FlipHead(args: seq<Arg>, rest: string, w: string)
    requires |args| > 1 && AllLiteral(args[0].text)
    ensures Scan(CommandLine(args) + rest, Some(w), true)
         == Scan(CommandLine(args[1..]) + rest, Some(w + args[0].text + " "), true)
  {
    Heads(args);
    hide Scan, CommandLine;
    var p, tail := PrintArg(args[0]), CommandLine(args[1..]);
    Associates(p, " " + tail, rest);
    Associates(" ", tail, rest);
    FlipArg(args[0], " " + (tail + rest), w);
    ScanInQuotes(" ", tail + rest, w + args[0].text);
  }

  lemma OneArg(args: seq<Arg>)
    requires |args| == 1
    ensures CommandLine(args) == PrintArg(args[0]) && Join(Texts(args), " ") == args[0].text
    ensures Texts(args) == [args[0].text]
  {
    assert Printed(args[1..]) == [] && Texts(args[1..]) == [];
  }

  lemma {:induction false} FlipArgs(args: seq<Arg>, rest: string, w: string)
    requires args != [] && forall i :: 0 <= i < |args| ==> AllLiteral(args[i].text)
    ensures Scan(CommandLine(args) + rest, Some(w), true) == Scan(rest, Some(w + Join(Texts(args), " ")), true)
    decreases |args|
  {
    if |args| == 1 {
      OneArg(args);
      FlipArg(args[0], rest, w);
    } else {
      assert forall i :: 0 <= i < |args| - 1 ==> args[1..][i] == args[i + 1];
      hide Scan, Join, AllLiteral, CommandLine, Texts;
      Heads(args);
      FlipHead(args, rest, w);
      FlipArgs(args[1..], rest, w + args[0].text + " ");
      var t := Join(Texts(args[1..]), " ");
      Associates(w + args[0].text, " ", t);
      Associates(w, args[0].text, " " + t);
    }
  }

  // ── What the login shell reads ────────────────────────────────────────────

  /** The words before the script are fixed. */
  lemma OpeningWords(cmd: string)
    ensures Tokenize(Sent(cmd)) ==
            match Scan(cmd + "'", Some(PRELUDE), true)
            case Words(words) => Words(["ANSIBLE_FORCE_COLOR=1", "bash", "-c"] + words)
            case Broken => Broken
            case Unread => Unread
  {
    var a, b, c := "ANSIBLE_FORCE_COLOR=1", "bash", "-c";
    var inner := cmd + "'";
    var s2 := "'" + (PRELUDE + inner);
    hide Scan, Tokenize, IsWord;
    OpeningIsPlain(a);
    OpeningIsPlain(b);
    OpeningIsPlain(c);
    OpeningWord(a, b + (" " + (c + (" " + s2))));
    OpeningWord(b, c + (" " + s2));
    OpeningWord(c, s2);
    OpeningQuote(inner);
    SentShape(cmd);
    hide Sent;
    match Scan(inner, Some(PRELUDE), true)
    case Words(words) => assert [a] + ([b] + ([c] + words)) == [a, b, c] + words;
    case Broken =>
    case Unread =>
  }

  lemma SentShape(cmd: string)
    ensures Sent(cmd)
            == "ANSIBLE_FORCE_COLOR=1" + (" " + ("bash" + (" " + ("-c" + (" " + ("'" + (PRELUDE + (cmd + "'"))))))))
  {
    assert OPENING == "ANSIBLE_FORCE_COLOR=1" + (" " + ("bash" + (" " + ("-c" + (" " + "'")))));
  }

  lemma OpeningQuote(rest: string)
    ensures Tokenize("'" + (PRELUDE + rest)) == Scan(rest, Some(PRELUDE), true)
  {
    assert ("'" + (PRELUDE + rest))[1..] == PRELUDE + rest;
    ScanInQuotes(PRELUDE, rest, "");
    assert "" + PRELUDE == PRELUDE;
  }

  lemma OpeningIsPlain(a: string)
    requires a in {"ANSIBLE_FORCE_COLOR=1", "bash", "-c"}
    ensures IsWord(a) && Fixed(a)
  {
    assert a != "" && forall i :: 0 <= i < |a| ==> IsOpeningChar(a[i]);
    hide IsOpeningChar, IsWord, Fixed;
    OpeningCharsArePlain(a);
  }

  predicate IsOpeningChar(c: char) {
    c == '-' || c == '_' || c == '=' || c == '1' || 'A' <= c <= 'Z' || 'a' <= c <= 'z'
  }

  lemma OpeningCharsArePlain(a: string)
    requires a != "" && forall i :: 0 <= i < |a| ==> IsOpeningChar(a[i])
    ensures IsWord(a) && Fixed(a)
  {
  }

  lemma OpeningWord(a: string, rest: string)
    requires IsWord(a)
    ensures Tokenize(a + (" " + rest)) == Before(Some(a), Tokenize(rest))
  {
    ScanLiteral(a, " " + rest, None);
    assert "" + a == a && (" " + rest)[1..] == rest;
  }

  // ── Words survive ──────────────────────────────────────────────────

  function AsBare(args: seq<Arg>): seq<Arg> {
    if args == [] then [] else [Bare(args[0].text)] + AsBare(args[1..])
  }

  lemma {:induction false} AsBarePrintsTexts(args: seq<Arg>)
    requires AllWords(args)
    ensures Printed(AsBare(args)) == Texts(args) == Texts(AsBare(args)) && BareArgsAreWords(AsBare(args))
  {
    if args != [] {
      AsBarePrintsTexts(args[1..]);
      assert AsBare(args)[1..] == AsBare(args[1..]);
    }
  }

  lemma WordsSurvive(args: seq<Arg>)
    requires args != [] && AllWords(args)
    ensures RunsAs(args, Join(Texts(args), " "))
  {
    var script := Join(Texts(args), " ");
    AsBarePrintsTexts(args);
    CommandRoundTrip(AsBare(args));
    OpeningWords(CommandLine(args));
    FlipArgs(args, "'", PRELUDE);
    ScanClosing(PRELUDE + script);
    var opening := ["ANSIBLE_FORCE_COLOR=1", "bash", "-c"];
    assert opening + [PRELUDE + script] == ["ANSIBLE_FORCE_COLOR=1", "bash", "-c", PRELUDE + script];
  }

  lemma ScanClosing(w: string)
    ensures Scan("'", Some(w), true) == Words([w])
  {
    assert "'"[1..] == "";
  }

  // ── Nothing else survives ─────────────────────────────────────────────────

  /** A text with an apostrophe in it yields at least one word. */
  lemma {:induction false} SomeWord(s: string, cur: Option<string>, quoted: bool)
    requires Scan(s, cur, quoted).Words? && (APOSTROPHE in s || cur.Some?) && (quoted ==> cur.Some?)
    ensures Scan(s, cur, quoted).words != []
    decreases |s|
  {
    if s == "" {
    } else if quoted {
      if s[0] == APOSTROPHE { SomeWord(s[1..], cur, false); } else { SomeWord(s[1..], Push(cur, s[0]), true); }
    } else if s[0] == APOSTROPHE {
      SomeWord(s[1..], Some(Text(cur)), true);
    } else if s[0] == BACKSLASH {
      if s[1] == '\n' { SomeWord(s[2..], cur, false); } else { SomeWord(s[2..], Push(cur, s[1]), false); }
    } else if IsBlank(s[0]) {
      if cur.None? { SomeWord(s[1..], None, false); }
    } else {
      SomeWord(s[1..], Push(cur, s[0]), false);
    }
  }

  /** An unquoted value that is not literal spoils the script: no reading, a second word, or a lost backslash. */
  lemma {:induction false} NonLiteralSpoils(v: string, rest: string, w: string)
    requires APOSTROPHE !in v && !AllLiteral(v) && APOSTROPHE in rest
    ensures match Scan(v + rest, Some(w), false)
      case Words(words) => |words| > 1 || CountAll(BACKSLASH, words) < Count(BACKSLASH, w) + Count(BACKSLASH, v + rest)
      case Broken => true
      case Unread => true
    decreases |v|
  {
    var s := v + rest;
    assert s[1..] == v[1..] + rest && s[0] == v[0];
    if !Scan(s, Some(w), false).Words? {
      return;
    }
    if s[0] == BACKSLASH {
      assert s[1..][1..] == s[2..];
      CountPush(BACKSLASH, Some(w), s[1]);
      if s[1] == '\n' { ScanBudget(s[2..], Some(w), false); } else { ScanBudget(s[2..], Push(Some(w), s[1]), false); }
    } else if IsBlank(s[0]) {
      assert APOSTROPHE in s[1..] by {
        var i :| 0 <= i < |rest| && rest[i] == APOSTROPHE;
        assert s[1..][|v| - 1 + i] == APOSTROPHE;
      }
      SomeWord(s[1..], None, false);
    } else {
      CountPush(BACKSLASH, Some(w), s[0]);
      var i :| 0 <= i < |v| && !IsLiteral(v[i]);
      assert v[1..][i - 1] == v[i];
      NonLiteralSpoils(v[1..], rest, w + [v[0]]);
    }
  }

  lemma {:induction false} BackslashesOfEscaped(v: string)
    ensures Count(BACKSLASH, EscapeQuotes(v)) == Count(APOSTROPHE, v) + Count(BACKSLASH, v)
  {
    if v != "" {
      BackslashesOfEscaped(v[1..]);
      CountAppend(BACKSLASH, if v[0] == APOSTROPHE then "'\\''" else [v[0]], EscapeQuotes(v[1..]));
      assert Count(BACKSLASH, "'\\''") == 1 by {
        assert "'\\''"[1..] == "\\''" && "\\''"[1..] == "''" && "''"[1..] == "'" && "'"[1..] == "";
      }
      assert [v[0]][1..] == "";
    }
  }

  lemma BackslashesOfArg(a: Arg)
    requires a.Bare? ==> IsPlainWord(a.text)
    ensures Count(BACKSLASH, PrintArg(a)) == Count(APOSTROPHE, a.text) + Count(BACKSLASH, a.text)
  {
    match a
    case Bare(t) =>
      CountNone(APOSTROPHE, t);
      CountNone(BACKSLASH, t);
    case Quoted(t) =>
      BackslashesOfEscaped(t);
      CountAppend(BACKSLASH, "'" + EscapeQuotes(t), "'");
      CountAppend(BACKSLASH, "'", EscapeQuotes(t));
      CountNone(BACKSLASH, "'");
  }

  /** A printed command has one backslash per apostrophe and per backslash of its values. */
  lemma {:induction false} BackslashesOfCommand(args: seq<Arg>)
    requires args != [] && BareArgsArePlain(args)
    ensures Count(BACKSLASH, CommandLine(args)) == CountAll(APOSTROPHE, Texts(args)) + CountAll(BACKSLASH, Texts(args))
    decreases |args|
  {
    BackslashesOfArg(args[0]);
    if |args| == 1 {
      OneArg(args);
      assert [args[0].text][1..] == [];
    } else {
      var tail := CommandLine(args[1..]);
      Heads(args);
      CountAppend(BACKSLASH, PrintArg(args[0]), " " + tail);
      CountAppend(BACKSLASH, " ", tail);
      CountNone(BACKSLASH, " ");
      BackslashesOfCommand(args[1..]);
      assert Texts(args)[1..] == Texts(args[1..]);
    }
  }

  /** The login shell reads the command as the rest of the script word. */
  lemma OuterReading(cmd: string, script: string)
    requires Tokenize(Sent(cmd)) == Words(["ANSIBLE_FORCE_COLOR=1", "bash", "-c", PRELUDE + script])
    ensures Scan(cmd + "'", Some(PRELUDE), true) == Words([PRELUDE + script])
  {
    OpeningWords(cmd);
    hide Scan, Tokenize, Sent;
    var words := Scan(cmd + "'", Some(PRELUDE), true).words;
    var all := ["ANSIBLE_FORCE_COLOR=1", "bash", "-c"] + words;
    assert all[3..] == words && all[3..] == [PRELUDE + script];
  }

  lemma CountAllOne(c: char, w: string)
    ensures CountAll(c, [w]) == Count(c, w)
  {
    assert [w][1..] == [];
  }

  lemma PreludeIsClean()
    ensures Count(APOSTROPHE, PRELUDE) == 0 && Count(BACKSLASH, PRELUDE) == 0
  {
    hide Count;
    CountNone(APOSTROPHE, PRELUDE);
    CountNone(BACKSLASH, PRELUDE);
  }

  /** Two readings leave no backslash to spare: no value has an apostrophe, and the login shell removes no backslash. */
  lemma TwoReadings(args: seq<Arg>, prelude: string, script: string)
    requires args != [] && BareArgsArePlain(args)
    requires Count(APOSTROPHE, prelude) == 0 && Count(BACKSLASH, prelude) == 0
    requires Scan(CommandLine(args) + "'", Some(prelude), true) == Words([prelude + script])
    requires Scan(script, None, false) == Words(Texts(args))
    ensures CountAll(APOSTROPHE, Texts(args)) == 0
    ensures Count(BACKSLASH, prelude + script) == Count(BACKSLASH, prelude) + Count(BACKSLASH, CommandLine(args))
  {
    assert Count(APOSTROPHE, "") == 0 && Count(BACKSLASH, "") == 0;
    CountNone(BACKSLASH, "'");
    hide Scan, Count, CountAll, Texts, CommandLine, BareArgsArePlain;
    CountAllOne(APOSTROPHE, prelude + script);
    CountAllOne(BACKSLASH, prelude + script);
    ScanBudget(CommandLine(args) + "'", Some(prelude), true);
    ScanBudget(script, None, false);
    BackslashesOfCommand(args);
    CountAppend(BACKSLASH, CommandLine(args), "'");
    CountAppend(APOSTROPHE, prelude, script);
    CountAppend(BACKSLASH, prelude, script);
  }

  lemma {:induction false} NoneCounted(c: char, words: seq<string>, i: nat)
    requires CountAll(c, words) == 0 && i < |words|
    ensures c !in words[i]
  {
    if i > 0 {
      NoneCounted(c, words[1..], i - 1);
    } else if c in words[0] {
      CountSome(c, words[0]);
    }
  }

  /**
   The login shell reads the command as a single word without losing a backslash only if every value is literal:
   the first value that is not would spoil the script.
   */
  lemma {:induction false} OneWordMeansLiteral(args: seq<Arg>, w: string, script: string, i: nat)
    requires i < |args| && BareArgsArePlain(args)
    requires forall j :: 0 <= j < |args| ==> APOSTROPHE !in args[j].text
    requires Scan(CommandLine(args) + "'", Some(w), true) == Words([script])
    requires Count(BACKSLASH, script) == Count(BACKSLASH, w) + Count(BACKSLASH, CommandLine(args))
    ensures AllLiteral(args[i].text)
    decreases |args|
  {
    FirstIsLiteral(args, w, script);
    if i > 0 {
      var w' := w + args[0].text + " ";
      FlipHead(args, "'", w);
      HeadBackslashes(args, w);
      hide Scan, CommandLine, Count;
      OneWordMeansLiteral(args[1..], w', script, i - 1);
    }
  }

  /** A literal first argument keeps its backslash count when its quotes go. */
  lemma HeadBackslashes(args: seq<Arg>, w: string)
    requires |args| > 1 && AllLiteral(args[0].text)
    ensures Count(BACKSLASH, w + args[0].text + " ") + Count(BACKSLASH, CommandLine(args[1..]))
         == Count(BACKSLASH, w) + Count(BACKSLASH, CommandLine(args))
  {
    var t, tail := args[0].text, CommandLine(args[1..]);
    Heads(args);
    hide CommandLine, Join;
    assert APOSTROPHE !in t && BACKSLASH !in t;
    assert BACKSLASH !in PrintArg(args[0]) by {
      EscapeNothing(t);
    }
    CountNone(BACKSLASH, t);
    CountNone(BACKSLASH, PrintArg(args[0]));
    CountNone(BACKSLASH, " ");
    CountAppend(BACKSLASH, w + t, " ");
    CountAppend(BACKSLASH, w, t);
    CountAppend(BACKSLASH, PrintArg(args[0]), " " + tail);
    CountAppend(BACKSLASH, " ", tail);
  }

  lemma FirstIsLiteral(args: seq<Arg>, w: string, script: string)
    requires args != [] && BareArgsArePlain(args) && APOSTROPHE !in args[0].text
    requires Scan(CommandLine(args) + "'", Some(w), true) == Words([script])
    requires Count(BACKSLASH, script) == Count(BACKSLASH, w) + Count(BACKSLASH, CommandLine(args))
    ensures AllLiteral(args[0].text)
  {
    if args[0].Quoted? {
      var v := args[0].text;
      var after := if |args| == 1 then "" else " " + CommandLine(args[1..]);
      assert CommandLine(args) == Q(v) + after by {
        if |args| == 1 { OneArg(args); } else { Heads(args); }
      }
      hide Scan, Count, CommandLine, Q;
      assert (Q(v) + after) + "'" == Q(v) + (after + "'");
      ValueInScriptIsLiteral(v, after, w, script);
    }
  }

  lemma QuoteShape(v: string, after: string)
    requires EscapeQuotes(v) == v
    ensures "'" + (v + ("'" + (after + "'"))) == (Q(v) + after) + "'"
  {
  }

  lemma ValueInScriptIsLiteral(v: string, after: string, w: string, script: string)
    requires APOSTROPHE !in v
    requires Scan(Q(v) + (after + "'"), Some(w), true) == Words([script])
    requires Count(BACKSLASH, script) == Count(BACKSLASH, w) + Count(BACKSLASH, Q(v) + after)
    ensures AllLiteral(v)
  {
    var rest := "'" + (after + "'");
    assert rest[0] == APOSTROPHE;
    CountAllOne(BACKSLASH, script);
    CountNone(BACKSLASH, "'");
    EscapeNothing(v);
    ScanValueInside(v, after + "'", w);
    hide Scan, Count, CountAll, AllLiteral;
    CountAppend(BACKSLASH, "'", v + rest);
    CountAppend(BACKSLASH, Q(v) + after, "'");
    QuoteShape(v, after);
    hide Q;
    if !AllLiteral(v) {
      NonLiteralSpoils(v, rest, w);
    }
  }

  // ── What bash reads ───────────────────────────────────────────────────────

  /** A text without apostrophes has no empty word. */
  lemma {:induction false} NoEmptyWords(s: string, cur: Option<string>, i: nat)
    requires Scan(s, cur, false).Words? && i < |Scan(s, cur, false).words|
    requires APOSTROPHE !in s && (cur.Some? ==> cur.value != "")
    ensures Scan(s, cur, false).words[i] != ""
    decreases |s|
  {
    if s == "" {
    } else if s[0] == BACKSLASH {
      if s[1] == '\n' { NoEmptyWords(s[2..], cur, i); } else { NoEmptyWords(s[2..], Push(cur, s[1]), i); }
    } else if IsBlank(s[0]) {
      if cur.None? { NoEmptyWords(s[1..], None, i); } else if i > 0 { NoEmptyWords(s[1..], None, i - 1); }
    } else {
      NoEmptyWords(s[1..], Push(cur, s[0]), i);
    }
  }

  /** Read again without quotes, a word must not begin with a comment character. */
  lemma ReadableHead(t: string, tail: string)
    requires AllLiteral(t) && t != "" && Scan(t + (" " + tail), None, false).Words?
    ensures IsWord(t) && Scan(tail, None, false).Words?
  {
    assert (t + (" " + tail))[0] == t[0] && IsLiteral(t[0]);
    assert !MeansAtStart(t[0]);
    ScanLiteral(t, " " + tail, None);
    assert (" " + tail)[1..] == tail;
  }

  lemma {:induction false} ReadableAreWords(args: seq<Arg>, i: nat)
    requires i < |args| && Scan(Join(Texts(args), " "), None, false).Words?
    requires forall j :: 0 <= j < |args| ==> AllLiteral(args[j].text) && args[j].text != ""
    ensures IsWord(args[i].text)
    decreases |args|
  {
    var t := args[0].text;
    if |args| == 1 {
      OneArg(args);
      assert IsLiteral(t[0]);
    } else {
      Heads(args);
      assert forall j :: 0 <= j < |args| - 1 ==> args[1..][j] == args[j + 1];
      hide Scan, Join, Texts, CommandLine, AllLiteral, IsWord;
      var tail := Join(Texts(args[1..]), " ");
      ReadableHead(t, tail);
      if i > 0 {
        ReadableAreWords(args[1..], i - 1);
      }
    }
  }

  lemma {:induction false} TextsAt(args: seq<Arg>, i: nat)
    requires i < |args|
    ensures |Texts(args)| == |args| && Texts(args)[i] == args[i].text
  {
    if i > 0 {
      TextsAt(args[1..], i - 1);
    } else if |args| > 1 {
      TextsAt(args[1..], 0);
    }
  }

  lemma SurvivorsAreWords(args: seq<Arg>, script: string)
    requires args != [] && BareArgsArePlain(args) && RunsAs(args, script)
    ensures AllWords(args)
  {
    OuterReading(CommandLine(args), script);
    PreludeIsClean();
    TwoReadings(args, PRELUDE, script);
    forall i | 0 <= i < |args| ensures APOSTROPHE !in args[i].text {
      TextsAt(args, i);
      NoneCounted(APOSTROPHE, Texts(args), i);
    }
    forall i | 0 <= i < |args| ensures AllLiteral(args[i].text) {
      OneWordMeansLiteral(args, PRELUDE, PRELUDE + script, i);
    }
    LiteralScript(args, PRELUDE, script);
    assert Scan(script, None, false) == Words(Texts(args));
    hide Scan, Join, Texts, CommandLine, Sent;
    forall i | 0 <= i < |args| ensures IsWord(args[i].text) {
      LiteralWord(args, script, i);
    }
  }

  /** Literal values make the script the intended words with spaces between them. */
  lemma LiteralScript(args: seq<Arg>, prelude: string, script: string)
    requires args != [] && Scan(CommandLine(args) + "'", Some(prelude), true) == Words([prelude + script])
    requires forall i :: 0 <= i < |args| ==> AllLiteral(args[i].text)
    ensures script == Join(Texts(args), " ") && APOSTROPHE !in script
  {
    hide Scan, CommandLine, Texts, Join;
    FlipArgs(args, "'", prelude);
    ScanClosing(prelude + Join(Texts(args), " "));
    assert [prelude + script][0] == [prelude + Join(Texts(args), " ")][0];
    assert (prelude + script)[|prelude|..] == script;
    assert (prelude + Join(Texts(args), " "))[|prelude|..] == Join(Texts(args), " ");
    NoApostropheJoined(args);
  }

  lemma {:induction false} NoApostropheJoined(args: seq<Arg>)
    requires forall i :: 0 <= i < |args| ==> AllLiteral(args[i].text)
    ensures APOSTROPHE !in Join(Texts(args), " ")
  {
    if |args| == 1 {
      OneArg(args);
    } else if |args| > 1 {
      NoApostropheJoined(args[1..]);
      Heads(args);
    }
  }

  lemma LiteralWord(args: seq<Arg>, script: string, i: nat)
    requires i < |args| && APOSTROPHE !in script && script == Join(Texts(args), " ")
    requires Scan(script, None, false) == Words(Texts(args))
    requires forall j :: 0 <= j < |args| ==> AllLiteral(args[j].text)
    ensures IsWord(args[i].text)
  {
    forall j | 0 <= j < |args| ensures args[j].text != "" {
      TextsAt(args, j);
      NoEmptyWords(script, None, j);
    }
    ReadableAreWords(args, i);
  }

  // ── What may expand ───────────────────────────────────────────────────────

  lemma {:induction false} QuotedTextIsFixed(v: string, rest: string)
    requires APOSTROPHE !in v
    ensures NoExpansionChars(v + rest, true) == NoExpansionChars(rest, true)
    decreases |v|
  {
    if v == "" {
      assert v + rest == rest;
    } else {
      assert (v + rest)[1..] == v[1..] + rest;
      QuotedTextIsFixed(v[1..], rest);
    }
  }

  /** Inside the wrapper the quoted values are the only unquoted text. */
  lemma ArgExpands(a: Arg, rest: string)
    requires AllLiteral(a.text) && (a.Bare? ==> Fixed(a.text))
    ensures NoExpansionChars(PrintArg(a) + rest, true) == (Fixed(a.text) && NoExpansionChars(rest, true))
  {
    assert APOSTROPHE !in a.text;
    match a
    case Bare(t) => QuotedTextIsFixed(t, rest);
    case Quoted(t) =>
      EscapeNothing(t);
      var inner := t + ("'" + rest);
      assert Q(t) + rest == "'" + inner && ("'" + inner)[1..] == inner;
      LiteralIsFixed(t, "'" + rest);
      assert ("'" + rest)[1..] == rest;
  }

  lemma {:induction false} CommandExpands(args: seq<Arg>, rest: string)
    requires args != [] && BareArgsArePlain(args)
    requires forall i :: 0 <= i < |args| ==> AllLiteral(args[i].text)
    ensures NoExpansionChars(CommandLine(args) + rest, true)
            <==> (forall i :: 0 <= i < |args| ==> Fixed(args[i].text)) && NoExpansionChars(rest, true)
    decreases |args|
  {
    if |args| == 1 {
      OneArg(args);
      ArgExpands(args[0], rest);
    } else {
      Heads(args);
      assert forall i :: 0 <= i < |args| - 1 ==> args[1..][i] == args[i + 1];
      assert args == [args[0]] + args[1..];
      hide CommandLine, AllLiteral, Fixed, NoExpansionChars, Join;
      var p, tail := PrintArg(args[0]), CommandLine(args[1..]);
      Associates(p, " " + tail, rest);
      Associates(" ", tail, rest);
      ArgExpands(args[0], " " + (tail + rest));
      QuotedTextIsFixed(" ", tail + rest);
      CommandExpands(args[1..], rest);
    }
  }

  lemma {:induction false} ScriptExpands(args: seq<Arg>)
    requires args != [] && forall i :: 0 <= i < |args| ==> AllLiteral(args[i].text)
    ensures NoExpansionChars(Join(Texts(args), " "), false) <==> forall i :: 0 <= i < |args| ==> Fixed(args[i].text)
    decreases |args|
  {
    if |args| == 1 {
      OneArg(args);
      LiteralIsFixed(args[0].text, "");
      assert args[0].text + "" == args[0].text;
    } else {
      Heads(args);
      assert forall i :: 0 <= i < |args| - 1 ==> args[1..][i] == args[i + 1];
      assert args == [args[0]] + args[1..];
      var tail := Join(Texts(args[1..]), " ");
      LiteralIsFixed(args[0].text, " " + tail);
      assert (" " + tail)[1..] == tail;
      ScriptExpands(args[1..]);
      hide *;
    }
  }

  /** Before the command, only the opening words stand outside quotes. */
  lemma SentExpands(cmd: string)
    ensures NoExpansionChars(Sent(cmd), false) == NoExpansionChars(cmd + "'", true)
  {
    var inner := cmd + "'";
    var s2 := "'" + (PRELUDE + inner);
    SentShape(cmd);
    hide Sent, NoExpansionChars, Fixed, IsWord;
    OpeningExpands("ANSIBLE_FORCE_COLOR=1", "bash" + (" " + ("-c" + (" " + s2))));
    OpeningExpands("bash", "-c" + (" " + s2));
    OpeningExpands("-c", s2);
    OpenedExpands(inner);
  }

  lemma OpeningExpands(a: string, rest: string)
    requires a in {"ANSIBLE_FORCE_COLOR=1", "bash", "-c"}
    ensures NoExpansionChars(a + (" " + rest), false) == NoExpansionChars(rest, false)
  {
    OpeningIsPlain(a);
    LiteralIsFixed(a, " " + rest);
    assert (" " + rest)[1..] == rest;
  }

  lemma OpenedExpands(inner: string)
    ensures NoExpansionChars("'" + (PRELUDE + inner), false) == NoExpansionChars(inner, true)
  {
    assert ("'" + (PRELUDE + inner))[1..] == PRELUDE + inner;
    QuotedTextIsFixed(PRELUDE, inner);
  }

  // ── Substitutions ─────────────────────────────────────────────────────────

  lemma {:induction false} UnreadSubstitutes(s: string, cur: Option<string>, quoted: bool)
    requires Scan(s, cur, quoted).Unread?
    ensures !NoSubstitution(s)
    decreases |s|
  {
    if quoted {
      if s[0] == APOSTROPHE {
        UnreadSubstitutes(s[1..], cur, false);
      } else {
        UnreadSubstitutes(s[1..], Push(cur, s[0]), true);
      }
    } else if s[0] == APOSTROPHE {
      UnreadSubstitutes(s[1..], Some(Text(cur)), true);
    } else if s[0] == BACKSLASH {
      UnreadSubstitutes(s[2..], if s[1] == '\n' then cur else Push(cur, s[1]), false);
    } else if IsBlank(s[0]) {
      UnreadSubstitutes(s[1..], None, false);
    } else if !Substitutes(s[0]) {
      UnreadSubstitutes(s[1..], Push(cur, s[0]), false);
    }
  }

  /** Reading makes no character. */
  lemma {:induction false} NothingIsMade(c: char, s: string, cur: Option<string>, quoted: bool)
    requires Scan(s, cur, quoted).Words?
    ensures CountAll(c, Scan(s, cur, quoted).words) <= Count(c, s) + Count(c, Text(cur))
    decreases |s|
  {
    if s == "" {
      assert cur.Some? ==> [cur.value][1..] == [];
    } else {
      CountPush(c, cur, s[0]);
      if quoted {
        if s[0] == APOSTROPHE {
          NothingIsMade(c, s[1..], cur, false);
        } else {
          NothingIsMade(c, s[1..], Push(cur, s[0]), true);
        }
      } else if s[0] == APOSTROPHE {
        NothingIsMade(c, s[1..], Some(Text(cur)), true);
      } else if s[0] == BACKSLASH {
        assert s[1..][1..] == s[2..];
        CountPush(c, cur, s[1]);
        if s[1] == '\n' {
          NothingIsMade(c, s[2..], cur, false);
        } else {
          NothingIsMade(c, s[2..], Push(cur, s[1]), false);
        }
      } else if IsBlank(s[0]) {
        NothingIsMade(c, s[1..], None, false);
        var rest := Scan(s[1..], None, false).words;
        assert cur.Some? ==> ([cur.value] + rest)[1..] == rest;
      } else {
        NothingIsMade(c, s[1..], Push(cur, s[0]), false);
      }
    }
  }

  lemma {:induction false} EscapedWithoutSubstitution(v: string)
    requires NoSubstitution(v)
    ensures NoSubstitution(EscapeQuotes(v))
  {
    if v != "" {
      EscapedWithoutSubstitution(v[1..]);
    }
  }

  lemma {:induction false} PrintedWithoutSubstitution(args: seq<Arg>)
    requires NoSubstitutions(args)
    ensures NoSubstitution(CommandLine(args))
    decreases |args|
  {
    if args != [] {
      EscapedWithoutSubstitution(args[0].text);
      assert NoSubstitution(PrintArg(args[0]));
      if |args| == 1 {
        OneArg(args);
      } else {
        assert forall i :: 0 <= i < |args| - 1 ==> args[1..][i] == args[i + 1];
        Heads(args);
        PrintedWithoutSubstitution(args[1..]);
      }
    }
  }

  /** Without a dollar sign or back quote in a value both readings are within the model. */
  lemma NoSubstitutionsAreRead(args: seq<Arg>)
    requires NoSubstitutions(args)
    ensures !NotRead(args)
  {
    var cmd := CommandLine(args);
    PrintedWithoutSubstitution(args);
    OpeningWords(cmd);
    if Tokenize(Sent(cmd)).Unread? {
      UnreadSubstitutes(cmd + "'", Some(PRELUDE), true);
    }
    forall script | Passes(args, script) ensures !Tokenize(script).Unread? {
      OuterReading(cmd, script);
      NotInScript(DOLLAR, cmd, script);
      NotInScript(BACKQUOTE, cmd, script);
      ReadWithoutSubstitution(script);
    }
  }

  lemma NotInScript(c: char, cmd: string, script: string)
    requires c != APOSTROPHE && c !in cmd && Scan(cmd + "'", Some(PRELUDE), true) == Words([PRELUDE + script])
    ensures c !in script
  {
    NothingIsMade(c, cmd + "'", Some(PRELUDE), true);
    CountNone(c, cmd + "'");
    CountAllOne(c, PRELUDE + script);
    hide Count, CountAll, Scan;
    NotAdded(c, PRELUDE, script);
  }

  lemma NotAdded(c: char, prelude: string, script: string)
    requires Count(c, prelude + script) <= Count(c, prelude)
    ensures c !in script
  {
    CountAppend(c, prelude, script);
    if c in script {
      CountSome(c, script);
    }
  }

  lemma ReadWithoutSubstitution(script: string)
    requires NoSubstitution(script)
    ensures !Tokenize(script).Unread?
  {
    if Tokenize(script).Unread? {
      UnreadSubstitutes(script, None, false);
    }
  }

  // ── The three outcomes ────────────────────────────────────────────────────

  /** Where nothing expands, the command runs as intended exactly when every value is a word without its quotes. */
  lemma WrapperKeepsExactlyWords(args: seq<Arg>)
    requires args != [] && BareArgsArePlain(args)
    ensures Survives(args) <==> AllWords(args)
  {
    if AllWords(args) {
      WordsSurvive(args);
    }
    if Survives(args) {
      var script :| RunsAs(args, script);
      SurvivorsAreWords(args, script);
    }
  }

  /**
   The sufficient test, looked up on the values: it passes exactly when every value is plain.  A value that fails it may
   still run as intended, if its expansion characters form no expansion.
   */
  lemma CertainExactlyForPlainValues(args: seq<Arg>)
    requires args != [] && BareArgsArePlain(args)
    ensures Certain(args) <==> AllPlain(args)
  {
    if AllPlain(args) {
      WordsSurvive(args);
      WordsExpand(args);
    }
    if Certain(args) {
      var script :| RunsAs(args, script)
                    && NoExpansionChars(Sent(CommandLine(args)), false) && NoExpansionChars(script, false);
      SurvivorsAreWords(args, script);
      WordsExpand(args);
    }
  }

  lemma WordsExpand(args: seq<Arg>)
    requires args != [] && BareArgsArePlain(args) && AllWords(args)
    ensures NoExpansionChars(Sent(CommandLine(args)), false) <==> AllPlain(args)
    ensures NoExpansionChars(Join(Texts(args), " "), false) <==> AllPlain(args)
  {
    assert NoExpansionChars("'", true) by { assert "'"[1..] == ""; }
    SentExpands(CommandLine(args));
    CommandExpands(args, "'");
    ScriptExpands(args);
    hide NoExpansionChars, Sent, CommandLine, Join, Texts, Fixed;
  }

  /**
   Without dollar signs and back quotes, a value that is no word changes the command where nothing expands; without
   expansion characters too, the command runs as intended or is changed, whatever the environment.
   */
  lemma OtherValuesChangeTheCommand(args: seq<Arg>)
    requires args != [] && BareArgsArePlain(args) && NoSubstitutions(args)
    ensures Changed(args) <==> !AllWords(args)
    ensures (forall i :: 0 <= i < |args| ==> Fixed(args[i].text)) ==> (Certain(args) <==> !Changed(args))
  {
    NoSubstitutionsAreRead(args);
    WrapperKeepsExactlyWords(args);
    CertainExactlyForPlainValues(args);
    hide Certain, Changed, Survives, NotRead, Fixed, IsWord;
    assert Changed(args) <==> !AllWords(args) by { ChangedMeans(args); }
  }

  lemma ChangedMeans(args: seq<Arg>)
    ensures Changed(args) <==> !NotRead(args) && !Survives(args)
  {
  }
}
