/** The `ansible-playbook` command of a job, and the wrapper that exposes its process id. */
module AnsibleCommand {
  import opened Options
  import opened PyText
  import opened ShellCommand
  import opened ShellWrapper

  /** The columns of a job that its command depends on; the empty string and 0 stand for an unset value. */
  datatype Job = Job(
    playbookPath: string, inventoryType: string, inventoryValue: string, limitExpression: string,
    become: bool, checkMode: bool, diffMode: bool, forks: int, verbosity: int,
    tags: string, skipTags: string, extraVars: string)

  const DEFAULT_DIR := "/etc/ansible/playbooks"

  function PlaybookFile(job: Job, playbookDir: string): string {
    StripRightChar(if playbookDir != "" then playbookDir else DEFAULT_DIR, '/')
    + "/" + StripLeftChar(job.playbookPath, '/')
  }

  function Option2(flag: string, value: string): seq<Arg> {
    if value != "" then [Bare(flag), Quoted(value)] else []
  }

  function Flag(on: bool, flag: string): seq<Arg> {
    if on then [Bare(flag)] else []
  }

  const VERBOSITY_FLAGS := map[1 := "-v", 2 := "-vv", 3 := "-vvv", 4 := "-vvvv"]

  function VerbosityFlag(verbosity: int): seq<Arg> {
    if verbosity in VERBOSITY_FLAGS then [Bare(VERBOSITY_FLAGS[verbosity])] else []
  }

  /** The inventory to name explicitly, or none to rely on the configured default. */
  function Inventory(job: Job): string {
    if job.inventoryType in {"file", "dynamic"} then job.inventoryValue else ""
  }

  /** The arguments a job means, in order, each with the way it is printed. */
  function Arguments(job: Job, playbookDir: string): seq<Arg> {
    [Bare("ansible-playbook"), Quoted(PlaybookFile(job, playbookDir))]
    + Option2("-i", Inventory(job))
    + Option2("--limit", job.limitExpression)
    + Flag(job.become, "--become")
    + Flag(job.checkMode, "--check")
    + Flag(job.diffMode, "--diff")
    + ForksArgs(job.forks)
    + VerbosityFlag(job.verbosity)
    + Option2("--tags", job.tags)
    + Option2("--skip-tags", job.skipTags)
    + Option2("--extra-vars", Strip(job.extraVars))
  }

  // ── What the code prints unquoted is plain ────────────────────────────────

  lemma {:induction false} NatIsPlain(n: nat)
    ensures NatToString(n) != "" && forall i :: 0 <= i < |NatToString(n)| ==> NatToString(n)[i] in DIGITS
  {
    if n >= 10 {
      NatIsPlain(n / 10);
    }
  }

  lemma IntIsPlain(n: int)
    ensures IsPlainWord(IntToString(n))
  {
    NatIsPlain(if n < 0 then -n else n);
    assert forall c :: c in DIGITS ==> IsLiteral(c) && !MeansAtStart(c) && !IsExpansionChar(c);
  }

  lemma BareAppend(a: seq<Arg>, b: seq<Arg>)
    requires BareArgsArePlain(a) && BareArgsArePlain(b)
    ensures BareArgsArePlain(a + b)
  {
  }

  lemma {:induction false} PrintedAppend(a: seq<Arg>, b: seq<Arg>)
    ensures Printed(a + b) == Printed(a) + Printed(b)
  {
    if a == [] {
      assert a + b == b;
    } else {
      assert (a + b)[1..] == a[1..] + b;
      PrintedAppend(a[1..], b);
    }
  }

  lemma PrintedTwo(a: Arg, b: Arg)
    ensures Printed([a, b]) == [PrintArg(a), PrintArg(b)]
  {
    assert [a, b][1..] == [b] && [b][1..] == [];
    assert Printed([b]) == [PrintArg(b)];
  }

  const FLAGS := ["ansible-playbook", "-i", "--limit", "--become", "--check", "--diff", "--forks", "--tags",
                  "--skip-tags", "--extra-vars", "-v", "-vv", "-vvv", "-vvvv"]

  /** Every flag the command may contain. */
  lemma FlagsArePlain()
    ensures forall f :: f in FLAGS ==> IsPlainWord(f)
    ensures forall v :: v in VERBOSITY_FLAGS ==> VERBOSITY_FLAGS[v] in FLAGS
  {
    forall f | f in FLAGS ensures IsPlainWord(f) {
      assert f != "" && forall i :: 0 <= i < |f| ==> f[i] == '-' || 'a' <= f[i] <= 'z';
      hide *;
      LettersArePlain(f);
    }
  }

  lemma LettersArePlain(f: string)
    requires f != "" && forall i :: 0 <= i < |f| ==> f[i] == '-' || 'a' <= f[i] <= 'z'
    ensures IsPlainWord(f)
  {
  }

  lemma Option2Prints(flag: string, value: string)
    requires IsPlainWord(flag)
    ensures Printed(Option2(flag, value)) == if value != "" then [flag, Q(value)] else []
    ensures BareArgsArePlain(Option2(flag, value))
  {
    if value != "" {
      PrintedTwo(Bare(flag), Quoted(value));
    }
  }

  lemma FlagPrints(on: bool, flag: string)
    requires IsPlainWord(flag)
    ensures Printed(Flag(on, flag)) == if on then [flag] else []
    ensures BareArgsArePlain(Flag(on, flag))
  {
    assert Flag(on, flag) != [] ==> Flag(on, flag)[1..] == [];
  }

  /** The list of parts under construction, in step with the arguments it prints. */
  ghost predicate PartsOf(parts: seq<string>, args: seq<Arg>) {
    parts == Printed(args) && BareArgsArePlain(args)
  }

  lemma PartsAppend(parts: seq<string>, args: seq<Arg>, more: seq<string>, extra: seq<Arg>)
    requires PartsOf(parts, args) && PartsOf(more, extra)
    ensures PartsOf(parts + more, args + extra)
  {
    PrintedAppend(args, extra);
    BareAppend(args, extra);
  }

  method AddOption(parts: seq<string>, ghost args: seq<Arg>, flag: string, value: string) returns (more: seq<string>)
    requires PartsOf(parts, args) && IsPlainWord(flag)
    ensures PartsOf(more, args + Option2(flag, value))
  {
    Option2Prints(flag, value);
    PartsAppend(parts, args, Printed(Option2(flag, value)), Option2(flag, value));
    more := parts;
    if value != "" {
      more := more + [flag, Q(value)];
    }
  }

  method AddFlag(parts: seq<string>, ghost args: seq<Arg>, on: bool, flag: string) returns (more: seq<string>)
    requires PartsOf(parts, args) && IsPlainWord(flag)
    ensures PartsOf(more, args + Flag(on, flag))
  {
    FlagPrints(on, flag);
    PartsAppend(parts, args, Printed(Flag(on, flag)), Flag(on, flag));
    more := parts;
    if on {
      more := more + [flag];
    }
  }

  function ForksArgs(forks: int): seq<Arg> {
    if forks != 0 && forks != 5 then [Bare("--forks"), Bare(IntToString(forks))] else []
  }

  method AddForks(parts: seq<string>, ghost args: seq<Arg>, forks: int) returns (more: seq<string>)
    requires PartsOf(parts, args)
    ensures PartsOf(more, args + ForksArgs(forks))
  {
    more := parts;
    ghost var extra := ForksArgs(forks);
    if forks != 0 && forks != 5 {
      IntIsPlain(forks);
      FlagsArePlain();
      PrintedTwo(Bare("--forks"), Bare(IntToString(forks)));
      PartsAppend(parts, args, ["--forks", IntToString(forks)], extra);
      more := more + ["--forks", IntToString(forks)];
    } else {
      assert args + extra == args;
    }
  }

  method AddVerbosity(parts: seq<string>, ghost args: seq<Arg>, verbosity: int) returns (more: seq<string>)
    requires PartsOf(parts, args)
    ensures PartsOf(more, args + VerbosityFlag(verbosity))
  {
    var flag := Get(VERBOSITY_FLAGS, verbosity);
    more := parts;
    if flag.Some? {
      FlagsArePlain();
      hide IsPlainWord, PartsOf;
      assert VerbosityFlag(verbosity) == Flag(true, flag.value);
      more := AddFlag(parts, args, true, flag.value);
    } else {
      assert args + VerbosityFlag(verbosity) == args;
    }
  }

  /** The command is printed argument by argument, and the shell reads exactly the intended vector. */
  method BuildAnsibleCommand(job: Job, playbookDir: string) returns (cmd: string)
    ensures cmd == CommandLine(Arguments(job, playbookDir)) && BareArgsArePlain(Arguments(job, playbookDir))
    ensures Tokenize(cmd) == Words(Texts(Arguments(job, playbookDir))) && NoExpansionChars(cmd, false)
  {
    FlagsArePlain();
    hide PartsOf, IntToString, Strip, IsPlainWord, Option2, Flag, ForksArgs, VerbosityFlag, PlaybookFile;
    var path := PlaybookFile(job, playbookDir);
    var parts := ["ansible-playbook", Q(path)];
    ghost var args := [Bare("ansible-playbook"), Quoted(path)];
    HeadParts(path);
    parts := AddOption(parts, args, "-i", Inventory(job));
    args := args + Option2("-i", Inventory(job));
    parts := AddOption(parts, args, "--limit", job.limitExpression);
    args := args + Option2("--limit", job.limitExpression);
    parts := AddFlag(parts, args, job.become, "--become");
    args := args + Flag(job.become, "--become");
    parts := AddFlag(parts, args, job.checkMode, "--check");
    args := args + Flag(job.checkMode, "--check");
    parts := AddFlag(parts, args, job.diffMode, "--diff");
    args := args + Flag(job.diffMode, "--diff");
    parts := AddForks(parts, args, job.forks);
    args := args + ForksArgs(job.forks);
    parts := AddVerbosity(parts, args, job.verbosity);
    args := args + VerbosityFlag(job.verbosity);
    parts := AddOption(parts, args, "--tags", job.tags);
    args := args + Option2("--tags", job.tags);
    parts := AddOption(parts, args, "--skip-tags", job.skipTags);
    args := args + Option2("--skip-tags", job.skipTags);
    parts := AddOption(parts, args, "--extra-vars", Strip(job.extraVars));
    args := args + Option2("--extra-vars", Strip(job.extraVars));
    assert args == Arguments(job, playbookDir);
    PartsRead(parts, args);
    cmd := Join(parts, " ");
  }

  lemma HeadParts(path: string)
    ensures PartsOf(["ansible-playbook", Q(path)], [Bare("ansible-playbook"), Quoted(path)])
  {
    FlagsArePlain();
    PrintedTwo(Bare("ansible-playbook"), Quoted(path));
  }

  lemma PartsRead(parts: seq<string>, args: seq<Arg>)
    requires PartsOf(parts, args)
    ensures BareArgsArePlain(args) && Join(parts, " ") == CommandLine(args)
    ensures Tokenize(Join(parts, " ")) == Words(Texts(args)) && NoExpansionChars(Join(parts, " "), false)
  {
    CommandRoundTrip(args);
    PrintedPassesTest(args);
  }

  // ── The wrapped command of a job ──────────────────────────────────────────

  /** All arguments have a property of texts. */
  predicate AllTexts(args: seq<Arg>, p: string -> bool) {
    forall i :: 0 <= i < |args| ==> p(args[i].text)
  }

  predicate EmptyOr(value: string, p: string -> bool) {
    value == "" || p(value)
  }

  /** Every value the job supplies has a property of texts. */
  predicate AllValues(job: Job, playbookDir: string, p: string -> bool) {
    && p(PlaybookFile(job, playbookDir))
    && EmptyOr(Inventory(job), p)
    && EmptyOr(job.limitExpression, p)
    && EmptyOr(job.tags, p)
    && EmptyOr(job.skipTags, p)
    && EmptyOr(Strip(job.extraVars), p)
  }

  lemma GroupAppend(args: seq<Arg>, extra: seq<Arg>, p: string -> bool)
    ensures AllTexts(args + extra, p) <==> AllTexts(args, p) && AllTexts(extra, p)
  {
    if AllTexts(args + extra, p) {
      forall i | 0 <= i < |args| ensures p(args[i].text) {
        assert (args + extra)[i] == args[i];
      }
      forall i | 0 <= i < |extra| ensures p(extra[i].text) {
        assert (args + extra)[|args| + i] == extra[i];
      }
    }
  }

  lemma OptionGroup(args: seq<Arg>, flag: string, value: string, p: string -> bool)
    requires p(flag)
    ensures AllTexts(args + Option2(flag, value), p) <==> AllTexts(args, p) && EmptyOr(value, p)
  {
    var extra := Option2(flag, value);
    assert AllTexts(extra, p) <==> EmptyOr(value, p) by {
      if value != "" {
        assert extra[1].text == value;
      }
    }
    GroupAppend(args, extra, p);
  }

  lemma FlagGroup(args: seq<Arg>, extra: seq<Arg>, p: string -> bool)
    requires AllTexts(extra, p)
    ensures AllTexts(args + extra, p) <==> AllTexts(args, p)
  {
    GroupAppend(args, extra, p);
  }

  function WithSwitches(job: Job, args: seq<Arg>): seq<Arg> {
    args + Flag(job.become, "--become") + Flag(job.checkMode, "--check") + Flag(job.diffMode, "--diff")
    + ForksArgs(job.forks) + VerbosityFlag(job.verbosity)
  }

  lemma SwitchGroup(job: Job, a2: seq<Arg>, p: string -> bool)
    requires forall t :: IsPlainWord(t) ==> p(t)
    ensures AllTexts(WithSwitches(job, a2), p) <==> AllTexts(a2, p)
  {
    FlagsArePlain();
    IntIsPlain(job.forks);
    assert IsPlainWord("--forks") && IsPlainWord("--become") && IsPlainWord("--check") && IsPlainWord("--diff");
    hide IsPlainWord, IntToString;
    FlagGroup(a2, Flag(job.become, "--become"), p);
    var a3 := a2 + Flag(job.become, "--become");
    FlagGroup(a3, Flag(job.checkMode, "--check"), p);
    var a4 := a3 + Flag(job.checkMode, "--check");
    FlagGroup(a4, Flag(job.diffMode, "--diff"), p);
    var a5 := a4 + Flag(job.diffMode, "--diff");
    FlagGroup(a5, ForksArgs(job.forks), p);
    var a6 := a5 + ForksArgs(job.forks);
    FlagGroup(a6, VerbosityFlag(job.verbosity), p);
  }

  lemma FlagsHave(p: string -> bool)
    requires forall t :: IsPlainWord(t) ==> p(t)
    ensures p("ansible-playbook") && p("-i") && p("--limit") && p("--tags") && p("--skip-tags") && p("--extra-vars")
  {
    FlagsArePlain();
    assert FLAGS[0] in FLAGS && FLAGS[1] in FLAGS && FLAGS[2] in FLAGS;
    assert FLAGS[7] in FLAGS && FLAGS[8] in FLAGS && FLAGS[9] in FLAGS;
    hide IsPlainWord;
  }

  /** The flags and numbers are plain words, so what holds of those holds of all arguments if it holds of the values. */
  lemma ArgumentsAndValues(job: Job, playbookDir: string, p: string -> bool)
    requires forall t :: IsPlainWord(t) ==> p(t)
    ensures AllTexts(Arguments(job, playbookDir), p) <==> AllValues(job, playbookDir, p)
  {
    FlagsHave(p);
    var path := PlaybookFile(job, playbookDir);
    var a0 := [Bare("ansible-playbook"), Quoted(path)];
    assert AllTexts(a0, p) <==> p(path) by {
      assert a0[1].text == path;
    }
    hide IsPlainWord, EmptyOr, Option2, IntToString, Strip, PlaybookFile, AllTexts;
    OptionGroup(a0, "-i", Inventory(job), p);
    var a1 := a0 + Option2("-i", Inventory(job));
    OptionGroup(a1, "--limit", job.limitExpression, p);
    var a2 := a1 + Option2("--limit", job.limitExpression);
    SwitchGroup(job, a2, p);
    var a7 := WithSwitches(job, a2);
    OptionGroup(a7, "--tags", job.tags, p);
    var a8 := a7 + Option2("--tags", job.tags);
    OptionGroup(a8, "--skip-tags", job.skipTags, p);
    var a9 := a8 + Option2("--skip-tags", job.skipTags);
    OptionGroup(a9, "--extra-vars", Strip(job.extraVars), p);
  }

  lemma BareArgumentsArePlain(job: Job, playbookDir: string)
    ensures Arguments(job, playbookDir) != [] && BareArgsArePlain(Arguments(job, playbookDir))
  {
    FlagsArePlain();
    var path := PlaybookFile(job, playbookDir);
    HeadParts(path);
    var a0 := [Bare("ansible-playbook"), Quoted(path)];
    var a1, a2 := a0 + Option2("-i", Inventory(job)), Option2("--limit", job.limitExpression);
    var a8, a9 := Option2("--skip-tags", job.skipTags), Option2("--extra-vars", Strip(job.extraVars));
    Option2Prints("-i", Inventory(job));
    Option2Prints("--limit", job.limitExpression);
    Option2Prints("--tags", job.tags);
    Option2Prints("--skip-tags", job.skipTags);
    Option2Prints("--extra-vars", Strip(job.extraVars));
    hide IsPlainWord, Option2, Strip, PlaybookFile, Printed, Q, BareArgsArePlain;
    BareAppend(a0, Option2("-i", Inventory(job)));
    BareAppend(a1, a2);
    SwitchesArePlain(job, a1 + a2);
    var a7 := WithSwitches(job, a1 + a2);
    BareAppend(a7, Option2("--tags", job.tags));
    BareAppend(a7 + Option2("--tags", job.tags), a8);
    BareAppend(a7 + Option2("--tags", job.tags) + a8, a9);
  }

  lemma SwitchesArePlain(job: Job, args: seq<Arg>)
    requires BareArgsArePlain(args)
    ensures BareArgsArePlain(WithSwitches(job, args))
  {
    FlagsArePlain();
    IntIsPlain(job.forks);
    FlagPrints(job.become, "--become");
    FlagPrints(job.checkMode, "--check");
    FlagPrints(job.diffMode, "--diff");
    var a3, a4, a5 := Flag(job.become, "--become"), Flag(job.checkMode, "--check"), Flag(job.diffMode, "--diff");
    var a6, a7 := ForksArgs(job.forks), VerbosityFlag(job.verbosity);
    assert BareArgsArePlain(a6) && BareArgsArePlain(a7);
    hide IsPlainWord, IntToString, Flag, ForksArgs, VerbosityFlag, BareArgsArePlain, Printed;
    BareAppend(args, a3);
    BareAppend(args + a3, a4);
    BareAppend(args + a3 + a4, a5);
    BareAppend(args + a3 + a4 + a5, a6);
    BareAppend(args + a3 + a4 + a5 + a6, a7);
  }

  /** A launched job passes the sufficient test, so runs as intended everywhere, exactly when its values are plain. */
  lemma WrappedJobCertainExactlyWhenPlain(job: Job, playbookDir: string)
    ensures Certain(Arguments(job, playbookDir)) <==> AllValues(job, playbookDir, IsPlainWord)
  {
    BareArgumentsArePlain(job, playbookDir);
    ArgumentsAndValues(job, playbookDir, IsPlainWord);
    CertainExactlyForPlainValues(Arguments(job, playbookDir));
  }

  /** Where nothing expands it does exactly when every value is read as a word without its quotes. */
  lemma WrappedJobSurvivesExactlyWithWords(job: Job, playbookDir: string)
    ensures Survives(Arguments(job, playbookDir)) <==> AllValues(job, playbookDir, IsWord)
    ensures AllValues(job, playbookDir, NoSubstitution) ==>
              (Changed(Arguments(job, playbookDir)) <==> !AllValues(job, playbookDir, IsWord))
  {
    var args := Arguments(job, playbookDir);
    BareArgumentsArePlain(job, playbookDir);
    ArgumentsAndValues(job, playbookDir, IsWord);
    WrapperKeepsExactlyWords(args);
    if AllValues(job, playbookDir, NoSubstitution) {
      forall t | IsPlainWord(t) ensures NoSubstitution(t) {
        PlainHasNoSubstitution(t);
      }
      ArgumentsAndValues(job, playbookDir, NoSubstitution);
      OtherValuesChangeTheCommand(args);
    }
  }

  lemma PlainHasNoSubstitution(t: string)
    requires IsPlainWord(t)
    ensures NoSubstitution(t)
  {
    assert !IsLiteral(DOLLAR) && !IsLiteral(BACKQUOTE);
  }

  /** So a space in the host limit is enough to change the command. */
  lemma SpaceInLimitBreaksJob(job: Job, playbookDir: string)
    requires ' ' in job.limitExpression
    ensures !Survives(Arguments(job, playbookDir))
    ensures AllValues(job, playbookDir, NoSubstitution) ==> Changed(Arguments(job, playbookDir))
  {
    WrappedJobSurvivesExactlyWithWords(job, playbookDir);
    var i :| 0 <= i < |job.limitExpression| && job.limitExpression[i] == ' ';
    assert !IsLiteral(job.limitExpression[i]);
  }

  lemma HomeAndBraces()
    ensures IsWord("x=~/y") && !Fixed("x=~/y") && IsWord("{}") && !Fixed("{}")
  {
    assert IsExpansionChar("x=~/y"[2]) && IsExpansionChar("{}"[0]);
  }

  /**
   Between the two results: a home directory after an equals sign, which bash expands, and an empty JSON object, which
   it leaves alone, both fail the test and are words.
   */
  lemma WordsThatFailTheTest(job: Job, playbookDir: string)
    requires AllValues(job.(extraVars := ""), playbookDir, IsPlainWord) && Strip(job.extraVars) in {"x=~/y", "{}"}
    ensures Survives(Arguments(job, playbookDir)) && !Certain(Arguments(job, playbookDir))
  {
    HomeAndBraces();
    assert Strip("") == "";
    hide Fixed;
    WrappedJobSurvivesExactlyWithWords(job, playbookDir);
    WrappedJobCertainExactlyWhenPlain(job, playbookDir);
    hide Strip, Survives, Certain, IsWord;
    PlainValuesAreWords(job, playbookDir);
    assert PlaybookFile(job.(extraVars := ""), playbookDir) == PlaybookFile(job, playbookDir);
  }

  lemma PlainValuesAreWords(job: Job, playbookDir: string)
    ensures AllValues(job.(extraVars := ""), playbookDir, IsPlainWord)
            ==> AllValues(job.(extraVars := ""), playbookDir, IsWord)
  {
  }
}
