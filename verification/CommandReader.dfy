/**
 An `ansible-playbook` command read back: a reader of argument vectors, which knows the options by name, recovers every
 field of the job that the command was built for.
 */
module CommandReader {
  import opened Options
  import opened PyText
  import opened ShellCommand
  import opened AnsibleCommand

  /** What `ansible-playbook` is asked to do; the empty string stands for an option that is not given. */
  datatype Request = Request(
    playbook: string, inventory: string, limit: string, become: bool, check: bool, diff: bool, forks: Option<int>,
    verbosity: nat, tags: string, skipTags: string, extraVars: string)

  // ── Numerals ──────────────────────────────────────────────────────────────

  /** The value of a string of decimal digits. */
  function ValueOf(s: string): int {
    if s == "" then 0 else 10 * ValueOf(s[..|s| - 1]) + (s[|s| - 1] as int - '0' as int)
  }

  function ReadInt(s: string): int {
    if s != "" && s[0] == '-' then -ValueOf(s[1..]) else ValueOf(s)
  }

  lemma {:induction false} NumeralReads(n: nat)
    ensures ValueOf(NatToString(n)) == n && NatToString(n) != "" && NatToString(n)[0] != '-'
  {
    if n >= 10 {
      NumeralReads(n / 10);
      var s := NatToString(n);
      assert s[..|s| - 1] == NatToString(n / 10) && s[|s| - 1] == DIGITS[n % 10] && s[0] == NatToString(n / 10)[0];
    } else {
      assert NatToString(n)[..0] == "";
    }
  }

  lemma IntReads(n: int)
    ensures ReadInt(IntToString(n)) == n
  {
    NumeralReads(if n < 0 then -n else n);
    assert n < 0 ==> IntToString(n)[1..] == NatToString(-n);
  }

  // ── Reading arguments ─────────────────────────────────────────────────────

  /** A switch, read by its name. */
  function ReadSwitch(r: Request, word: string): Option<Request> {
    if word == "--become" then Some(r.(become := true))
    else if word == "--check" then Some(r.(check := true))
    else if word == "--diff" then Some(r.(diff := true))
    else if word == "-v" then Some(r.(verbosity := 1))
    else if word == "-vv" then Some(r.(verbosity := 2))
    else if word == "-vvv" then Some(r.(verbosity := 3))
    else if word == "-vvvv" then Some(r.(verbosity := 4))
    else None
  }

  /** An option and its value. */
  function ReadOption(r: Request, name: string, value: string): Option<Request> {
    if name == "-i" then Some(r.(inventory := value))
    else if name == "--limit" then Some(r.(limit := value))
    else if name == "--forks" then Some(r.(forks := Some(ReadInt(value))))
    else if name == "--tags" then Some(r.(tags := value))
    else if name == "--skip-tags" then Some(r.(skipTags := value))
    else if name == "--extra-vars" then Some(r.(extraVars := value))
    else None
  }

  function ReadRest(words: seq<string>, r: Request): Option<Request> {
    if words == [] then Some(r)
    else if ReadSwitch(r, words[0]).Some? then ReadRest(words[1..], ReadSwitch(r, words[0]).value)
    else if |words| >= 2 && ReadOption(r, words[0], words[1]).Some? then
      ReadRest(words[2..], ReadOption(r, words[0], words[1]).value)
    else None
  }

  /** The program's name, the playbook, then switches and options. */
  function ReadCommand(words: seq<string>): Option<Request> {
    if |words| >= 2 && words[0] == "ansible-playbook"
    then ReadRest(words[2..], Request(words[1], "", "", false, false, false, None, 0, "", "", ""))
    else None
  }

  // ── Each group of arguments reads as what it was built from ───────────────

  lemma {:induction false} TextsAppend(a: seq<Arg>, b: seq<Arg>)
    ensures Texts(a + b) == Texts(a) + Texts(b)
  {
    if a == [] {
      assert a + b == b;
    } else {
      assert (a + b)[1..] == a[1..] + b;
      TextsAppend(a[1..], b);
    }
  }

  lemma TextsOfTwo(a: Arg, b: Arg)
    ensures Texts([a, b]) == [a.text, b.text] && Texts([a]) == [a.text]
  {
    assert [a, b][1..] == [b] && [b][1..] == [] && [a][1..] == [];
    assert Texts([b]) == [b.text] && Texts([a]) == [a.text];
  }

  lemma OptionReads(name: string, value: string, rest: seq<string>, r: Request, r': Request)
    requires ReadSwitch(r, name).None?
    requires if value != "" then ReadOption(r, name, value) == Some(r') else r' == r
    ensures ReadRest(Texts(Option2(name, value)) + rest, r) == ReadRest(rest, r')
  {
    var words := Texts(Option2(name, value)) + rest;
    if value != "" {
      TextsOfTwo(Bare(name), Quoted(value));
      assert words[0] == name && words[1] == value && words[2..] == rest;
      hide ReadSwitch, ReadOption;
    } else {
      assert words == rest;
    }
  }

  lemma SwitchReads(on: bool, name: string, rest: seq<string>, r: Request, r': Request)
    requires if on then ReadSwitch(r, name) == Some(r') else r' == r
    ensures ReadRest(Texts(Flag(on, name)) + rest, r) == ReadRest(rest, r')
  {
    var words := Texts(Flag(on, name)) + rest;
    if on {
      TextsOfTwo(Bare(name), Bare(name));
      assert words[0] == name && words[1..] == rest;
      hide ReadSwitch, ReadOption;
    } else {
      assert words == rest;
    }
  }

  lemma ForksRead(forks: int, rest: seq<string>, r: Request)
    requires r.forks == None
    ensures ReadRest(Texts(ForksArgs(forks)) + rest, r)
            == ReadRest(rest, r.(forks := if forks == 0 || forks == 5 then None else Some(forks)))
  {
    var words := Texts(ForksArgs(forks)) + rest;
    if forks == 0 || forks == 5 {
      assert words == rest;
    } else {
      IntReads(forks);
      hide IntToString, ReadInt;
      TextsOfTwo(Bare("--forks"), Bare(IntToString(forks)));
      assert words[0] == "--forks" && words[1] == IntToString(forks) && words[2..] == rest;
    }
  }

  lemma VerbosityReads(verbosity: int, rest: seq<string>, r: Request)
    requires r.verbosity == 0
    ensures ReadRest(Texts(VerbosityFlag(verbosity)) + rest, r)
            == ReadRest(rest, r.(verbosity := if 1 <= verbosity <= 4 then verbosity else 0))
  {
    if 1 <= verbosity <= 4 {
      var flag := VERBOSITY_FLAGS[verbosity];
      assert VerbosityFlag(verbosity) == Flag(true, flag);
      SwitchReads(true, flag, rest, r, r.(verbosity := verbosity));
    } else {
      assert Texts(VerbosityFlag(verbosity)) + rest == rest;
    }
  }

  // ── The whole command ─────────────────────────────────────────────────────

  /** The request a job stands for, field by field. */
  function Meant(job: Job, playbookDir: string): Request {
    Request(
      PlaybookFile(job, playbookDir),
      if job.inventoryType == "file" || job.inventoryType == "dynamic" then job.inventoryValue else "",
      job.limitExpression, job.become, job.checkMode, job.diffMode,
      if job.forks == 0 || job.forks == 5 then None else Some(job.forks),
      if 1 <= job.verbosity <= 4 then job.verbosity else 0,
      job.tags, job.skipTags, Strip(job.extraVars))
  }

  lemma OptionsRead(job: Job, rest: seq<string>, r: Request)
    requires r.inventory == "" && r.limit == ""
    ensures ReadRest(Texts(Option2("-i", Inventory(job))) + (Texts(Option2("--limit", job.limitExpression)) + rest), r)
            == ReadRest(rest, r.(inventory := if job.inventoryType == "file" || job.inventoryType == "dynamic"
                                              then job.inventoryValue else "",
                                 limit := job.limitExpression))
  {
    var r1 := r.(inventory := Inventory(job));
    var r2 := r1.(limit := job.limitExpression);
    OptionReads("-i", Inventory(job), Texts(Option2("--limit", job.limitExpression)) + rest, r, r1);
    OptionReads("--limit", job.limitExpression, rest, r1, r2);
  }

  lemma SwitchesRead(job: Job, rest: seq<string>, r: Request)
    requires !r.become && !r.check && !r.diff && r.forks == None && r.verbosity == 0
    ensures ReadRest(Texts(Flag(job.become, "--become"))
                     + (Texts(Flag(job.checkMode, "--check"))
                        + (Texts(Flag(job.diffMode, "--diff"))
                           + (Texts(ForksArgs(job.forks)) + (Texts(VerbosityFlag(job.verbosity)) + rest)))), r)
            == ReadRest(rest, r.(become := job.become, check := job.checkMode, diff := job.diffMode,
                                 forks := if job.forks == 0 || job.forks == 5 then None else Some(job.forks),
                                 verbosity := if 1 <= job.verbosity <= 4 then job.verbosity else 0))
  {
    hide ReadRest, Texts, Flag, ForksArgs, VerbosityFlag;
    var v := Texts(VerbosityFlag(job.verbosity)) + rest;
    var f := Texts(ForksArgs(job.forks)) + v;
    var d := Texts(Flag(job.diffMode, "--diff")) + f;
    var c := Texts(Flag(job.checkMode, "--check")) + d;
    var r1 := r.(become := job.become);
    var r2 := r1.(check := job.checkMode);
    var r3 := r2.(diff := job.diffMode);
    SwitchReads(job.become, "--become", c, r, r1);
    SwitchReads(job.checkMode, "--check", d, r1, r2);
    SwitchReads(job.diffMode, "--diff", f, r2, r3);
    ForksRead(job.forks, v, r3);
    var forks := if job.forks == 0 || job.forks == 5 then None else Some(job.forks);
    VerbosityReads(job.verbosity, rest, r3.(forks := forks));
  }

  lemma TailReads(job: Job, r: Request)
    requires r.tags == r.skipTags == r.extraVars == ""
    ensures ReadRest(Texts(Option2("--tags", job.tags))
                     + (Texts(Option2("--skip-tags", job.skipTags))
                        + (Texts(Option2("--extra-vars", Strip(job.extraVars))) + [])), r)
            == Some(r.(tags := job.tags, skipTags := job.skipTags, extraVars := Strip(job.extraVars)))
  {
    hide Texts, Option2, Strip;
    var e := Texts(Option2("--extra-vars", Strip(job.extraVars))) + [];
    var s := Texts(Option2("--skip-tags", job.skipTags)) + e;
    var r1 := r.(tags := job.tags);
    var r2 := r1.(skipTags := job.skipTags);
    OptionReads("--tags", job.tags, s, r, r1);
    OptionReads("--skip-tags", job.skipTags, e, r1, r2);
    OptionReads("--extra-vars", Strip(job.extraVars), [], r2, r2.(extraVars := Strip(job.extraVars)));
  }

  /** The vector group by group. */
  lemma ArgumentTexts(job: Job, playbookDir: string)
    ensures Texts(Arguments(job, playbookDir))
            == ["ansible-playbook", PlaybookFile(job, playbookDir)]
               + (Texts(Option2("-i", Inventory(job))) + (Texts(Option2("--limit", job.limitExpression))
               + (Texts(Flag(job.become, "--become"))
               + (Texts(Flag(job.checkMode, "--check"))
               + (Texts(Flag(job.diffMode, "--diff"))
               + (Texts(ForksArgs(job.forks)) + (Texts(VerbosityFlag(job.verbosity))
               + (Texts(Option2("--tags", job.tags))
               + (Texts(Option2("--skip-tags", job.skipTags))
               + (Texts(Option2("--extra-vars", Strip(job.extraVars))) + []))))))))))
  {
    var head := [Bare("ansible-playbook"), Quoted(PlaybookFile(job, playbookDir))];
    var i, l := Option2("-i", Inventory(job)), Option2("--limit", job.limitExpression);
    var b, c, d := Flag(job.become, "--become"), Flag(job.checkMode, "--check"), Flag(job.diffMode, "--diff");
    var f, v := ForksArgs(job.forks), VerbosityFlag(job.verbosity);
    var t, s := Option2("--tags", job.tags), Option2("--skip-tags", job.skipTags);
    var e := Option2("--extra-vars", Strip(job.extraVars));
    assert Arguments(job, playbookDir) == head + i + l + b + c + d + f + v + t + s + e;
    TextsOfTwo(head[0], head[1]);
    hide *;
    TextsAppend(head, i);
    TextsAppend(head + i, l);
    TextsAppend(head + i + l, b);
    TextsAppend(head + i + l + b, c);
    TextsAppend(head + i + l + b + c, d);
    TextsAppend(head + i + l + b + c + d, f);
    TextsAppend(head + i + l + b + c + d + f, v);
    TextsAppend(head + i + l + b + c + d + f + v, t);
    TextsAppend(head + i + l + b + c + d + f + v + t, s);
    TextsAppend(head + i + l + b + c + d + f + v + t + s, e);
    Associate(Texts(head), Texts(i), Texts(l), Texts(b), Texts(c), Texts(d), Texts(f), Texts(v), Texts(t), Texts(s),
              Texts(e));
  }

  lemma Associate(
    h: seq<string>, i: seq<string>, l: seq<string>, b: seq<string>, c: seq<string>, d: seq<string>, f: seq<string>,
    v: seq<string>, t: seq<string>, s: seq<string>, e: seq<string>)
    ensures h + i + l + b + c + d + f + v + t + s + e
            == h + (i + (l + (b + (c + (d + (f + (v + (t + (s + (e + []))))))))))
  {
    var x3, x2 := t + (s + (e + [])), v + (t + (s + (e + [])));
    assert h + i + l + b + c + d + f + v + t + s + e == h + i + l + b + c + d + f + x2;
    assert h + i + l + b + c + d + f + x2 == h + (i + (l + (b + (c + (d + (f + x2))))));
  }

  /** The round trip: whatever the job, its argument vector reads back as what the job asks for. */
  lemma ArgumentsReadBack(job: Job, playbookDir: string)
    ensures ReadCommand(Texts(Arguments(job, playbookDir))) == Some(Meant(job, playbookDir))
  {
    ArgumentTexts(job, playbookDir);
    hide Texts, Option2, Flag, ForksArgs, VerbosityFlag, Strip, PlaybookFile, Arguments, ReadRest;
    var tail := Texts(Option2("--tags", job.tags))
                + (Texts(Option2("--skip-tags", job.skipTags))
                   + (Texts(Option2("--extra-vars", Strip(job.extraVars))) + []));
    var switches := Texts(Flag(job.become, "--become"))
                    + (Texts(Flag(job.checkMode, "--check"))
                       + (Texts(Flag(job.diffMode, "--diff"))
                          + (Texts(ForksArgs(job.forks)) + (Texts(VerbosityFlag(job.verbosity)) + tail))));
    var options := Texts(Option2("-i", Inventory(job))) + (Texts(Option2("--limit", job.limitExpression)) + switches);
    var head := ["ansible-playbook", PlaybookFile(job, playbookDir)];
    assert (head + options)[2..] == options;
    var m := Meant(job, playbookDir);
    var r0 := Request(PlaybookFile(job, playbookDir), "", "", false, false, false, None, 0, "", "", "");
    var r1 := r0.(inventory := m.inventory, limit := m.limit);
    var r2 := r1.(become := m.become, check := m.check, diff := m.diff, forks := m.forks, verbosity := m.verbosity);
    OptionsRead(job, switches, r0);
    SwitchesRead(job, tail, r1);
    TailReads(job, r2);
  }

  /** So whoever reads the built command as a shell does finds every field of the job. */
  lemma BuiltCommandReadsBack(job: Job, playbookDir: string)
    ensures var line := CommandLine(Arguments(job, playbookDir));
            Tokenize(line).Words? && ReadCommand(Tokenize(line).words) == Some(Meant(job, playbookDir))
  {
    BareArgumentsArePlain(job, playbookDir);
    PlainIsWord(Arguments(job, playbookDir));
    hide Arguments, ReadCommand, Meant, Tokenize, CommandLine, Texts;
    CommandRoundTrip(Arguments(job, playbookDir));
    ArgumentsReadBack(job, playbookDir);
  }

  lemma PlainIsWord(args: seq<Arg>)
    requires BareArgsArePlain(args)
    ensures BareArgsAreWords(args)
  {
  }

  // ── The playbook's path ───────────────────────────────────────────────────

  predicate OnlySlashes(s: string) {
    forall i :: 0 <= i < |s| ==> s[i] == '/'
  }

  lemma {:induction false} LeftStripped(s: string, c: char)
    ensures var r := StripLeftChar(s, c);
            && |r| <= |s| && s == s[..|s| - |r|] + r && (r != "" ==> r[0] != c)
            && forall i :: 0 <= i < |s| - |r| ==> s[i] == c
  {
    if s != "" && s[0] == c {
      LeftStripped(s[1..], c);
    }
  }

  lemma {:induction false} RightStripped(s: string, c: char)
    ensures var r := StripRightChar(s, c);
            && r <= s && (r != "" ==> r[|r| - 1] != c) && forall i :: |r| <= i < |s| ==> s[i] == c
  {
    if s != "" && s[|s| - 1] == c {
      RightStripped(s[..|s| - 1], c);
    }
  }

  /** Exactly one slash joins the directory, or the default one, and the job's path. */
  lemma PlaybookFileJoins(job: Job, playbookDir: string) returns (dir: string, path: string)
    ensures PlaybookFile(job, playbookDir) == dir + "/" + path
    ensures dir == "" || dir[|dir| - 1] != '/'
    ensures path == "" || path[0] != '/'
    ensures var given := if playbookDir == "" then "/etc/ansible/playbooks" else playbookDir;
            dir <= given && OnlySlashes(given[|dir|..])
    ensures |path| <= |job.playbookPath|
    ensures var cut := |job.playbookPath| - |path|;
            job.playbookPath[cut..] == path && OnlySlashes(job.playbookPath[..cut])
  {
    var given := if playbookDir == "" then DEFAULT_DIR else playbookDir;
    dir, path := StripRightChar(given, '/'), StripLeftChar(job.playbookPath, '/');
    RightStripped(given, '/');
    LeftStripped(job.playbookPath, '/');
    hide StripLeftChar, StripRightChar;
  }
}
