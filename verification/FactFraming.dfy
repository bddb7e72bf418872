/**
 Reading the collected files of a batch of hosts through one remote command per module: each file is printed between
 a HOST and an END sentinel line, and the output is parsed back line by line.
 */
module FactFraming {
  import opened Options
  import opened PyText

  datatype Module = Setup | Packages | Services | YumUpdates | YumRepos

  const MODULES := [Setup, Packages, Services, YumUpdates, YumRepos]

  /** What has been read so far: per host, per module. */
  type Result<T> = map<string, map<Module, T>>

  /** The files present on the control node. */
  type Files = map<Module, map<string, string>>

  const HOST_PREFIX := "===HOST:"
  const HOST_SUFFIX := "==="
  const END_LINE := "===END==="

  predicate IsHostLine(line: string) {
    StartsWith(line, HOST_PREFIX) && EndsWith(line, HOST_SUFFIX)
  }

  function HostLine(host: string): string {
    HOST_PREFIX + host + HOST_SUFFIX
  }

  /** `line[8:-3]`. */
  function HostOf(line: string): string {
    if |line| >= 11 then line[8..|line| - 3] else ""
  }

  // ── What the remote command prints ────────────────────────────────────────

  /** `cat file || printf '{}'`. */
  function Content(files: Files, m: Module, host: string): string {
    if m in files && host in files[m] then files[m][host] else "{}"
  }

  /** One host's part of the output. */
  function Block(files: Files, m: Module, host: string): string {
    HostLine(host) + "\n" + Content(files, m, host) + "\n" + END_LINE + "\n"
  }

  function Emit(files: Files, m: Module, hosts: seq<string>): string {
    if hosts == [] then "" else Block(files, m, hosts[0]) + Emit(files, m, hosts[1..])
  }

  // ── Parsing it back ───────────────────────────────────────────────────────

  /** `_store_module`: a blank or `{}` text, or one that is not JSON, leaves no entry. */
  function StoreModule<T>(
    result: Result<T>, host: string, m: Module, raw: string, parse: string -> Option<T>): Result<T>
  {
    var text := Strip(raw);
    if text == "" || text == "{}" then result
    else Store(result, host, m, parse(text))
  }

  function Store<T>(result: Result<T>, host: string, m: Module, data: Option<T>): Result<T> {
    if data.None? then result
    else result[host := (if host in result then result[host] else map[])[m := data.value]]
  }

  /** Store what was collected for the current host, if there is one and it has lines. */
  function FlushHost<T>(
    result: Result<T>, host: Option<string>, lines: seq<string>, m: Module, parse: string -> Option<T>): Result<T>
  {
    if host.Some? && host.value != "" && lines != []
    then StoreModule(result, host.value, m, Join(lines, "\n"), parse) else result
  }

  /** The parser as a fold over the lines still to be read. */
  function Parse<T>(
    out: seq<string>, result: Result<T>, host: Option<string>, lines: seq<string>, m: Module,
    parse: string -> Option<T>)
    : Result<T>
  {
    if out == [] then result
    else if IsHostLine(out[0]) then
      Parse(out[1..], FlushHost(result, host, lines, m, parse), Some(HostOf(out[0])), [], m, parse)
    else if out[0] == END_LINE then
      Parse(out[1..], FlushHost(result, host, lines, m, parse), None, [], m, parse)
    else if host.Some? then Parse(out[1..], result, host, lines + [out[0]], m, parse)
    else Parse(out[1..], result, host, lines, m, parse)
  }

  method ParseOutput<T>(out: string, m: Module, before: Result<T>, parse: string -> Option<T>)
    returns (result: Result<T>)
    ensures result == Parse(SplitLines(out), before, None, [], m, parse)
  {
    result := before;
    var host: Option<string>, lines: seq<string> := None, [];
    var input := SplitLines(out);
    hide IsHostLine, FlushHost, HostOf, SplitLines;
    for i := 0 to |input|
      invariant Parse(input[i..], result, host, lines, m, parse) == Parse(input, before, None, [], m, parse)
    {
      var line := input[i];
      assert input[i..][0] == line && input[i..][1..] == input[i + 1..];
      if IsHostLine(line) {
        result := FlushHost(result, host, lines, m, parse);
        host, lines := Some(HostOf(line)), [];
      } else if line == END_LINE {
        result := FlushHost(result, host, lines, m, parse);
        host, lines := None, [];
      } else if host.Some? {
        lines := lines + [line];
      }
    }
  }

  /** `_read_batch`: one remote command and one parse per module. */
  method ReadBatch<T>(hosts: seq<string>, files: Files, parse: string -> Option<T>) returns (result: Result<T>)
    ensures result == ReadModules(hosts, files, MODULES, InitialResult(hosts), parse)
  {
    result := InitialResult(hosts);
    hide Parse, Emit;
    for i := 0 to |MODULES|
      invariant ReadModules(hosts, files, MODULES[i..], result, parse)
             == ReadModules(hosts, files, MODULES, InitialResult(hosts), parse)
    {
      assert MODULES[i..][0] == MODULES[i] && MODULES[i..][1..] == MODULES[i + 1..];
      if hosts != [] {
        result := ParseOutput(Emit(files, MODULES[i], hosts), MODULES[i], result, parse);
      }
    }
  }

  function InitialResult<T>(hosts: seq<string>): Result<T> {
    map h | h in hosts :: map[]
  }

  function ReadModules<T>(
    hosts: seq<string>, files: Files, modules: seq<Module>, result: Result<T>, parse: string -> Option<T>): Result<T>
  {
    if modules == [] then result
    else
      var next := if hosts == [] then result
                  else Parse(SplitLines(Emit(files, modules[0], hosts)), result, None, [], modules[0], parse);
      ReadModules(hosts, files, modules[1..], next, parse)
  }

  // ── The round trip ────────────────────────────────────────────────────────

  /** A file name as `ls` lists it, free of the characters that the quotes or `printf` would not print as they are. */
  predicate IsHostName(h: string) {
    h != "" && forall i :: 0 <= i < |h| ==> !IsBreak(h[i]) && h[i] != '\'' && h[i] != '%' && h[i] != '\\'
  }

  predicate HasNoSentinel(content: string) {
    forall line :: line in SplitLines(content) ==> !IsHostLine(line) && line != END_LINE
  }

  /** What a host's file should yield: its stripped text, with uniform line breaks, parsed. */
  function Expected<T>(files: Files, m: Module, host: string, parse: string -> Option<T>): Option<T> {
    var text := Strip(Normalise(Content(files, m, host)));
    if text == "" || text == "{}" then None else parse(text)
  }

  lemma HostLineReads(host: string)
    requires IsHostName(host)
    ensures IsHostLine(HostLine(host)) && HostOf(HostLine(host)) == host && HostLine(host) != END_LINE
    ensures SplitLines(HostLine(host) + "\n") == [HostLine(host)]
  {
    var line := HostLine(host);
    assert line[|line| - 3..] == HOST_SUFFIX && line[8..|line| - 3] == host && line[..8] == HOST_PREFIX;
    assert line[3] == 'H' && END_LINE[3] == 'E';
    OneLine(line);
  }

  lemma EndLineReads()
    ensures !IsHostLine(END_LINE) && SplitLines(END_LINE + "\n") == [END_LINE]
  {
    assert END_LINE[3] == 'E' && HOST_PREFIX[3] == 'H';
    OneLine(END_LINE);
  }

  lemma EmptyLineReads()
    ensures !IsHostLine("") && "" != END_LINE
  {
  }

  /** Lines that are no sentinels are collected for the current host. */
  lemma {:induction false} ParseCollects<T>(
    body: seq<string>, rest: seq<string>, result: Result<T>, host: string, lines: seq<string>, m: Module,
    parse: string -> Option<T>)
    requires forall line :: line in body ==> !IsHostLine(line) && line != END_LINE
    ensures Parse(body + rest, result, Some(host), lines, m, parse)
            == Parse(rest, result, Some(host), lines + body, m, parse)
    decreases |body|
  {
    if body == [] {
      assert body + rest == rest && lines + body == lines;
    } else {
      assert (body + rest)[0] == body[0] && (body + rest)[1..] == body[1..] + rest;
      ParseCollects(body[1..], rest, result, host, lines + [body[0]], m, parse);
      assert lines + [body[0]] + body[1..] == lines + body;
    }
  }

  /** The lines of one host's part of the output. */
  lemma BlockLines(files: Files, m: Module, host: string, rest: string)
    requires IsHostName(host)
    ensures SplitLines(Block(files, m, host) + rest)
         == [HostLine(host)] + SplitLines(Content(files, m, host) + "\n") + [END_LINE] + SplitLines(rest)
  {
    var head, body := HostLine(host), Content(files, m, host);
    var ending := END_LINE + "\n" + rest;
    var tail := body + "\n" + ending;
    HostLineReads(host);
    EndLineReads();
    BlockTail(files, m, host, rest);
    hide *;
    SplitAtLineFeed(head, tail);
    SplitAtLineFeed(body, ending);
    SplitAtLineFeed(END_LINE, rest);
    FourParts([head], SplitLines(body + "\n"), [END_LINE], SplitLines(rest));
  }

  lemma FourParts(a: seq<string>, b: seq<string>, c: seq<string>, d: seq<string>)
    ensures a + (b + (c + d)) == a + b + c + d
  {
  }

  lemma BlockTail(files: Files, m: Module, host: string, rest: string)
    ensures Block(files, m, host) + rest
         == HostLine(host) + "\n" + (Content(files, m, host) + "\n" + (END_LINE + "\n" + rest))
  {
    hide HostLine, Content;
  }

  /** Joining the collected lines and stripping gives the file's own stripped text. */
  lemma CollectedText(content: string)
    ensures Strip(Join(SplitLines(content + "\n"), "\n")) == Strip(Normalise(content))
    ensures SplitLines(content + "\n") != []
  {
    JoinedLines(content);
    var text := Join(SplitLines(content + "\n"), "\n");
    StripLineFeed(text);
    assert text + "" == text;
  }

  lemma BodyHasNoSentinel(content: string, line: string)
    requires HasNoSentinel(content) && line in SplitLines(content + "\n")
    ensures !IsHostLine(line) && line != END_LINE
  {
    if line == "" {
      EmptyLineReads();
    } else {
      LinesOfTerminated(content, line);
    }
  }

  lemma ParseHostLine<T>(host: string, rest: seq<string>, result: Result<T>, m: Module, parse: string -> Option<T>)
    requires IsHostName(host)
    ensures Parse([HostLine(host)] + rest, result, None, [], m, parse) == Parse(rest, result, Some(host), [], m, parse)
  {
    HostLineReads(host);
    hide HostLine, IsHostLine, HostOf;
    assert ([HostLine(host)] + rest)[0] == HostLine(host) && ([HostLine(host)] + rest)[1..] == rest;
  }

  lemma ParseEndLine<T>(
    rest: seq<string>, result: Result<T>, host: Option<string>, lines: seq<string>, m: Module,
    parse: string -> Option<T>)
    ensures Parse([END_LINE] + rest, result, host, lines, m, parse)
         == Parse(rest, FlushHost(result, host, lines, m, parse), None, [], m, parse)
  {
    EndLineReads();
    hide IsHostLine;
    assert ([END_LINE] + rest)[0] == END_LINE && ([END_LINE] + rest)[1..] == rest;
  }

  /** Storing the lines of a file stores what the file should yield. */
  lemma FlushStores<T>(result: Result<T>, files: Files, m: Module, host: string, parse: string -> Option<T>)
    requires host != ""
    ensures FlushHost(result, Some(host), SplitLines(Content(files, m, host) + "\n"), m, parse)
         == Store(result, host, m, Expected(files, m, host, parse))
  {
    CollectedText(Content(files, m, host));
  }

  /** Parsing one host's block stores exactly what its file should yield, under that host. */
  lemma ParseBlock<T>(
    files: Files, m: Module, host: string, rest: string, result: Result<T>, parse: string -> Option<T>)
    requires IsHostName(host) && HasNoSentinel(Content(files, m, host))
    ensures Parse(SplitLines(Block(files, m, host) + rest), result, None, [], m, parse)
         == Parse(SplitLines(rest), Store(result, host, m, Expected(files, m, host, parse)), None, [], m, parse)
  {
    var body, others := SplitLines(Content(files, m, host) + "\n"), SplitLines(rest);
    BlockLines(files, m, host, rest);
    forall line | line in body ensures !IsHostLine(line) && line != END_LINE {
      BodyHasNoSentinel(Content(files, m, host), line);
    }
    assert host != "";
    hide *;
    ThreeParts([HostLine(host)] + body, [END_LINE], others);
    ThreeParts([HostLine(host)], body, [END_LINE] + others);
    ParseHostLine(host, body + ([END_LINE] + others), result, m, parse);
    ParseCollects(body, [END_LINE] + others, result, host, [], m, parse);
    assert [] + body == body;
    ParseEndLine(others, result, Some(host), body, m, parse);
    FlushStores(result, files, m, host, parse);
  }

  function StoreHosts<T>(
    result: Result<T>, files: Files, m: Module, hosts: seq<string>, parse: string -> Option<T>): Result<T>
    decreases |hosts|
  {
    if hosts == [] then result
    else StoreHosts(Store(result, hosts[0], m, Expected(files, m, hosts[0], parse)), files, m, hosts[1..], parse)
  }

  lemma {:induction false} ParseEmitted<T>(
    files: Files, m: Module, hosts: seq<string>, result: Result<T>, parse: string -> Option<T>)
    requires forall h :: h in hosts ==> IsHostName(h) && HasNoSentinel(Content(files, m, h))
    ensures Parse(SplitLines(Emit(files, m, hosts)), result, None, [], m, parse)
         == StoreHosts(result, files, m, hosts, parse)
    decreases |hosts|
  {
    if hosts == [] {
      assert SplitLines("") == [];
    } else {
      ParseBlock(files, m, hosts[0], Emit(files, m, hosts[1..]), result, parse);
      hide Parse, SplitLines, HasNoSentinel, IsHostName, Block, Expected;
      ParseEmitted(files, m, hosts[1..], Store(result, hosts[0], m, Expected(files, m, hosts[0], parse)), parse);
    }
  }

  function Entry<T>(result: Result<T>, host: string, m: Module): Option<T> {
    if host in result then Get(result[host], m) else None
  }

  /** The entry after storing: what the file yields, if anything, and otherwise what was there. */
  function Overlay<T>(stored: Option<T>, before: Option<T>): Option<T> {
    if stored.Some? then stored else before
  }

  lemma {:induction false} StoreHostsEntry<T>(
    result: Result<T>, files: Files, m: Module, hosts: seq<string>, parse: string -> Option<T>, h: string, m': Module)
    requires forall g :: g in hosts ==> g in result
    ensures StoreHosts(result, files, m, hosts, parse).Keys == result.Keys
    ensures Entry(StoreHosts(result, files, m, hosts, parse), h, m')
         == if m' == m && h in hosts then Overlay(Expected(files, m, h, parse), Entry(result, h, m'))
           else Entry(result, h, m')
    decreases |hosts|
  {
    if hosts != [] {
      var next := Store(result, hosts[0], m, Expected(files, m, hosts[0], parse));
      hide Expected;
      assert next.Keys == result.Keys;
      StoreHostsEntry(next, files, m, hosts[1..], parse, h, m');
    }
  }

  lemma {:induction false} ReadModulesEntry<T>(
    hosts: seq<string>, files: Files, modules: seq<Module>, result: Result<T>, parse: string -> Option<T>,
    h: string, m: Module)
    requires forall g :: g in hosts ==> g in result && IsHostName(g)
    requires forall g, n :: g in hosts && n in modules ==> HasNoSentinel(Content(files, n, g))
    ensures ReadModules(hosts, files, modules, result, parse).Keys == result.Keys
    ensures Entry(ReadModules(hosts, files, modules, result, parse), h, m)
         == if m in modules && h in hosts then Overlay(Expected(files, m, h, parse), Entry(result, h, m))
           else Entry(result, h, m)
    decreases |modules|
  {
    if modules != [] {
      ParseEmitted(files, modules[0], hosts, result, parse);
      StoreHostsEntry(result, files, modules[0], hosts, parse, h, m);
      var next := StoreHosts(result, files, modules[0], hosts, parse);
      hide Expected, Parse, Emit, SplitLines, StoreHosts, HasNoSentinel, Content, IsHostName;
      assert next == if hosts == [] then result else next by { EmptyHosts(result, files, modules[0], hosts, parse); }
      ReadModulesEntry(hosts, files, modules[1..], next, parse, h, m);
    }
  }

  lemma EmptyHosts<T>(result: Result<T>, files: Files, m: Module, hosts: seq<string>, parse: string -> Option<T>)
    ensures hosts == [] ==> StoreHosts(result, files, m, hosts, parse) == result
  {
  }

  /** What the remote command prints for one host, and for a list of them. */
  lemma EmitPrints(files: Files, m: Module, hosts: seq<string>)
    requires hosts != []
    ensures var present := m in files && hosts[0] in files[m];
            Emit(files, m, hosts)
            == "===HOST:" + hosts[0] + "===\n" + (if present then files[m][hosts[0]] else "{}") + "\n===END===\n"
               + Emit(files, m, hosts[1..])
    ensures Emit(files, m, []) == ""
  {
    var h, c := hosts[0], Content(files, m, hosts[0]);
    assert HOST_PREFIX + h + HOST_SUFFIX + "\n" == "===HOST:" + h + "===\n";
    assert "\n" + END_LINE + "\n" == "\n===END===\n";
    hide Content;
    assert Block(files, m, h) == "===HOST:" + h + "===\n" + c + "\n===END===\n";
  }

  /**
   The framing round trip: for host names that print as they are and any file contents without a sentinel-shaped line,
   every host gets exactly what its own files yield, a missing, blank or `{}` file leaves no entry, and no other host
   appears.
   */
  lemma BatchRoundTrip<T>(hosts: seq<string>, files: Files, parse: string -> Option<T>, h: string, m: Module)
    requires forall g :: g in hosts ==> IsHostName(g)
    requires forall g, n :: g in hosts && n in MODULES ==> HasNoSentinel(Content(files, n, g))
    ensures var result := ReadModules(hosts, files, MODULES, InitialResult(hosts), parse);
            && (forall g :: g in result <==> g in hosts)
            && (h in hosts ==> Get(result[h], m) == Expected(files, m, h, parse))
  {
    assert m in MODULES by {
      assert MODULES[0] == Setup && MODULES[1] == Packages && MODULES[2] == Services && MODULES[3] == YumUpdates
        && MODULES[4] == YumRepos;
    }
    ReadModulesEntry(hosts, files, MODULES, InitialResult(hosts), parse, h, m);
    hide ReadModules, Expected;
  }

  /**
   "Its own stripped text" is exact for precisely the files whose line breaks, between the stripped ends, are all line
   feeds: any other break is turned into a line feed on the way.
   */
  lemma TextIsExactForLineFeeds(content: string)
    ensures Strip(Normalise(content)) == Strip(content) <==> OnlyLineFeeds(Strip(content))
  {
    StripNormalise(content);
    NormaliseChangesNothing(Strip(content));
  }

  /** A line of a file that the parser would take for a sentinel. */
  predicate LooksLikeSentinel(line: string) {
    || (|line| >= 11 && line[..8] == "===HOST:" && line[|line| - 3..] == "===")
    || line == "===END==="
  }

  lemma SentinelLooks(line: string)
    ensures LooksLikeSentinel(line) <==> IsHostLine(line) || line == END_LINE
  {
    if IsHostLine(line) {
      assert line[7] == ':' && line[|line| - 3..][0] == '=' && line[|line| - 3..][1] == '='
        && line[|line| - 3..][2] == '=';
    }
  }

  lemma NothingLooksLikeSentinel(content: string)
    requires forall line :: line in SplitLines(content) ==> !LooksLikeSentinel(line)
    ensures HasNoSentinel(content)
  {
    forall line | line in SplitLines(content) ensures !IsHostLine(line) && line != END_LINE {
      SentinelLooks(line);
    }
  }

  /** Lines outside the part of any host are ignored, an END line included. */
  lemma {:induction false} OutsideIsIgnored<T>(
    lines: seq<string>, rest: seq<string>, result: Result<T>, m: Module, parse: string -> Option<T>)
    requires forall line :: line in lines ==> !IsHostLine(line)
    ensures Parse(lines + rest, result, None, [], m, parse) == Parse(rest, result, None, [], m, parse)
  {
    if lines == [] {
      assert lines + rest == rest;
    } else {
      assert (lines + rest)[0] == lines[0] && (lines + rest)[1..] == lines[1..] + rest && lines[0] in lines;
      hide IsHostLine;
      OutsideIsIgnored(lines[1..], rest, result, m, parse);
    }
  }

  /** A host line ends the part of the host before it, which is stored; at the end of the output nothing more is. */
  lemma NextHostEndsTheLast<T>(
    host: string, body: seq<string>, next: string, rest: seq<string>, result: Result<T>, m: Module,
    parse: string -> Option<T>)
    requires IsHostName(host) && IsHostName(next) && body != []
    requires forall line :: line in body ==> !IsHostLine(line) && line != END_LINE
    ensures Parse([HostLine(host)] + (body + ([HostLine(next)] + rest)), result, None, [], m, parse)
         == Parse(rest, StoreModule(result, host, m, Join(body, "\n"), parse), Some(next), [], m, parse)
    ensures Parse([HostLine(host)] + (body + []), result, None, [], m, parse) == result
  {
    HostLineReads(next);
    assert host != "" && [] + body == body;
    hide IsHostLine, HostLine, HostOf, IsHostName, StoreModule;
    ParseHostLine(host, body + ([HostLine(next)] + rest), result, m, parse);
    ParseHostLine(host, body + [], result, m, parse);
    ParseCollects(body, [HostLine(next)] + rest, result, host, [], m, parse);
    ParseCollects(body, [], result, host, [], m, parse);
    assert ([HostLine(next)] + rest)[0] == HostLine(next) && ([HostLine(next)] + rest)[1..] == rest;
  }

  /** The same from the files: a present file yields its stripped text, parsed, and a missing one nothing. */
  lemma FilesReadBack<T>(hosts: seq<string>, files: Files, parse: string -> Option<T>, h: string, m: Module)
    requires forall g :: g in hosts ==> IsHostName(g)
    requires forall g, n, line :: g in hosts && n in files && g in files[n] && line in SplitLines(files[n][g]) ==>
               !LooksLikeSentinel(line)
    requires h in hosts
    ensures var result := ReadModules(hosts, files, MODULES, InitialResult(hosts), parse);
            && h in result
            && (m in files && h in files[m] ==>
                  var text := Strip(Normalise(files[m][h]));
                  Get(result[h], m) == if text == "" || text == "{}" then None else parse(text))
            && (m !in files || h !in files[m] ==> Get(result[h], m) == None)
  {
    BracesAreBlank();
    forall g, n | g in hosts && n in MODULES ensures HasNoSentinel(Content(files, n, g)) {
      if n in files && g in files[n] {
        assert Content(files, n, g) == files[n][g];
        NothingLooksLikeSentinel(files[n][g]);
      }
    }
    BatchRoundTrip(hosts, files, parse, h, m);
    hide ReadModules, InitialResult, HasNoSentinel, LooksLikeSentinel, Strip, Normalise;
  }

  lemma BracesAreBlank()
    ensures Strip(Normalise("{}")) == "{}" && HasNoSentinel("{}")
  {
    assert !IsBreak('{') && !IsBreak('}') && !IsSpace('{') && !IsSpace('}');
    assert "{}"[1..] == "}" && "}"[1..] == "";
    assert Normalise("") == "" && Normalise("}") == "}" && Normalise("{}") == "{}";
    assert LineLength("") == 0 && LineLength("}") == 1 && LineLength("{}") == 2;
    assert SplitLines("{}") == ["{}"] by { assert "{}"[..2] == "{}" && "{}"[2..] == "" && SplitLines("") == []; }
  }
}
