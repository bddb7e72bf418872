/**
 Execution of one playbook job.  A background worker, any number of cancel requests and a polling client share
 one row.  Each action below is atomic; a status check and the write that follows it count as one action.
 */
module PlaybookJobs {
  import opened Options
  import opened PyText

  datatype Status = Pending | Running | Completed | Failed | Cancelled

  /** The columns of `playbook_jobs` that an execution writes. */
  datatype Row = Row(status: Status, log: Option<string>, logSize: nat, exitCode: Option<int>, finished: bool)

  /** Where the worker is in its code. */
  datatype Phase =
    | NotStarted
    | LoopTop
    | Receiving
    | TestingExit
    | MaybeFlushing
    | Draining
    | LogComplete
    | ReadingExit
    | Finalising(code: int)
    | Done

  datatype Worker = Worker(phase: Phase, buf: seq<string>, pidCaptured: bool, sawCancelled: bool)

  /** One reply to a poll for output. */
  datatype Reply = Reply(output: string, offset: int, done: bool, exitCode: Option<int>)

  /** A client that sends each offset it was given and concatenates the outputs. */
  datatype Client = Client(offset: int, text: string, last: Option<Reply>)

  datatype State = State(
    row: Row, worker: Worker, client: Client,
    received: seq<string>,   // chunks read by the polling loop
    drained: seq<string>)    // chunks read after it

  datatype Action =
    | Start(configured: bool)
    | Poll
    | Receive(text: string)
    | NothingToReceive
    | ExitReady
    | StillRunning
    | Flush
    | NoFlush
    | Drain(text: string)
    | FinalFlush
    | CheckCancelled(reloaded: bool)
    | ReadExit(code: int)
    | Finalise
    | Crash
    | Cancel
    | ClientPoll

  const MARKER := "LOP_PID:"
  const FLUSH_SIZE := 32768

  predicate Terminal(s: Status) {
    s in {Completed, Failed, Cancelled}
  }

  // ── The PID line ──────────────────────────────────────────────────────────

  predicate IsPidLine(line: string) {
    StartsWith(Strip(line), MARKER)
  }

  function DropPidLines(lines: seq<string>): seq<string> {
    if lines == [] then []
    else (if IsPidLine(lines[0]) then [] else [lines[0]]) + DropPidLines(lines[1..])
  }

  /** A chunk without its PID lines. */
  function WithoutPidLines(text: string): string {
    Concat(DropPidLines(SplitKeepEnds(text)))
  }

  lemma DropNext(kept: seq<string>, lines: seq<string>, i: nat)
    requires i < |lines|
    ensures kept + DropPidLines(lines[i..])
            == (if IsPidLine(lines[i]) then kept else kept + [lines[i]]) + DropPidLines(lines[i + 1..])
  {
    assert lines[i..][0] == lines[i] && lines[i..][1..] == lines[i + 1..];
  }

  /** The filter applied to the first chunk that contains the marker. */
  method FilterPid(text: string) returns (filtered: string)
    ensures filtered == WithoutPidLines(text)
  {
    var lines := SplitKeepEnds(text);
    var kept: seq<string> := [];
    assert lines[0..] == lines && lines[|lines|..] == [] && DropPidLines([]) == [];
    hide IsPidLine, SplitKeepEnds, Concat, DropPidLines;
    for i := 0 to |lines|
      invariant kept + DropPidLines(lines[i..]) == DropPidLines(lines)
    {
      DropNext(kept, lines, i);
      if !IsPidLine(lines[i]) {
        kept := kept + [lines[i]];
      }
    }
    assert kept + [] == kept;
    filtered := Concat(kept);
  }

  /** Only PID lines are dropped: a chunk without any is kept whole, its line breaks included. */
  lemma OtherLinesAreKept(text: string)
    requires forall i :: 0 <= i < |SplitKeepEnds(text)| ==> !IsPidLine(SplitKeepEnds(text)[i])
    ensures WithoutPidLines(text) == text
  {
    NothingToDrop(SplitKeepEnds(text));
    KeepEndsConcat(text);
  }

  lemma {:induction false} NothingToDrop(lines: seq<string>)
    requires forall i :: 0 <= i < |lines| ==> !IsPidLine(lines[i])
    ensures DropPidLines(lines) == lines
  {
    if lines != [] {
      assert !IsPidLine(lines[0]);
      forall i | 0 <= i < |lines| - 1 ensures !IsPidLine(lines[1..][i]) {
        assert lines[1..][i] == lines[i + 1];
      }
      NothingToDrop(lines[1..]);
    }
  }

  // ── The log a history of chunks should leave ──────────────────────────────

  predicate MarkerSeen(chunks: seq<string>) {
    exists i :: 0 <= i < |chunks| && Contains(chunks[i], MARKER)
  }

  /** All received text, less the PID lines of the first chunk that contains the marker. */
  function Visible(chunks: seq<string>): string {
    if chunks == [] then ""
    else if Contains(chunks[0], MARKER) then WithoutPidLines(chunks[0]) + Concat(chunks[1..])
    else chunks[0] + Visible(chunks[1..])
  }

  lemma {:induction false} VisibleSnoc(chunks: seq<string>, c: string)
    ensures Visible(chunks + [c]) ==
            Visible(chunks) + if !MarkerSeen(chunks) && Contains(c, MARKER) then WithoutPidLines(c) else c
  {
    if chunks == [] {
      assert (chunks + [c])[1..] == [] && Concat([]) == "";
    } else {
      assert (chunks + [c])[1..] == chunks[1..] + [c];
      assert chunks == [chunks[0]] + chunks[1..];
      ConcatSnoc(chunks[1..], c);
      VisibleSnoc(chunks[1..], c);
      MarkerSeenCons(chunks[0], chunks[1..]);
      hide Contains, WithoutPidLines, MarkerSeen, Concat;
      assert (chunks + [c])[0] == chunks[0];
    }
  }

  lemma MarkerSeenCons(c: string, chunks: seq<string>)
    ensures MarkerSeen([c] + chunks) <==> Contains(c, MARKER) || MarkerSeen(chunks)
  {
    assert ([c] + chunks)[0] == c;
    if MarkerSeen(chunks) {
      var i :| 0 <= i < |chunks| && Contains(chunks[i], MARKER);
      assert ([c] + chunks)[i + 1] == chunks[i];
    }
  }

  // ── Steps ─────────────────────────────────────────────────────────────────

  function LogText(row: Row): string {
    match row.log case None => "" case Some(t) => t
  }

  /** `_append_log`: both columns in one UPDATE. */
  function AppendLog(row: Row, chunk: string): Row {
    row.(log := Some(LogText(row) + chunk), logSize := row.logSize + |chunk|)
  }

  /** `s[i:]` for any integer i. */
  function SliceFrom(s: string, i: int): string {
    if i >= |s| then "" else if i >= 0 then s[i..] else if -i >= |s| then s else s[|s| + i..]
  }

  function JobOutput(row: Row, offset: int): Reply {
    var chunk := SliceFrom(LogText(row), offset);
    Reply(chunk, offset + |chunk|, row.status !in {Pending, Running}, row.exitCode)
  }

  function TotalLength(buf: seq<string>): nat {
    if buf == [] then 0 else |buf[0]| + TotalLength(buf[1..])
  }

  /** Inside the worker's try block. */
  predicate Crashable(p: Phase) {
    p in {LoopTop, Receiving, TestingExit, MaybeFlushing, Draining, LogComplete, ReadingExit}
  }

  predicate Enabled(s: State, a: Action) {
    match a
    case Start(_) => s.worker.phase == NotStarted
    case Poll => s.worker.phase == LoopTop
    case Receive(_) => s.worker.phase == Receiving
    case NothingToReceive => s.worker.phase == Receiving
    case ExitReady => s.worker.phase == TestingExit
    case StillRunning => s.worker.phase == TestingExit
    case Flush => s.worker.phase == MaybeFlushing && s.worker.buf != []
    case NoFlush => s.worker.phase == MaybeFlushing && TotalLength(s.worker.buf) <= FLUSH_SIZE
    case Drain(_) => s.worker.phase == Draining
    case FinalFlush => s.worker.phase == Draining
    case CheckCancelled(_) => s.worker.phase == LogComplete
    case ReadExit(_) => s.worker.phase == ReadingExit
    case Finalise => s.worker.phase.Finalising?
    case Crash => Crashable(s.worker.phase)
    case Cancel => true
    case ClientPoll => true
  }

  function Goto(s: State, p: Phase): State {
    s.(worker := s.worker.(phase := p))
  }

  function Finish(row: Row, status: Status): Row {
    row.(status := status, finished := true)
  }

  function Next(s: State, a: Action): State
    requires Enabled(s, a)
  {
    match a
    case Start(configured) =>
      if s.row.status == Cancelled then Goto(s, Done)
      else if !configured then Goto(s.(row := Finish(s.row, Failed)), Done)
      else Goto(s.(row := s.row.(status := Running)), LoopTop)
    case Poll =>
      var cancelled := s.row.status == Cancelled;
      s.(worker := s.worker.(phase := if cancelled then Draining else Receiving, sawCancelled := cancelled))
    case Receive(text) =>
      var hit := !s.worker.pidCaptured && Contains(text, MARKER);
      var kept := if hit then WithoutPidLines(text) else text;
      var worker := s.worker.(phase := TestingExit, buf := s.worker.buf + [kept]);
      s.(worker := worker.(pidCaptured := s.worker.pidCaptured || hit),
         received := s.received + [text])
    case NothingToReceive => Goto(s, TestingExit)
    case ExitReady => Goto(s, Draining)
    case StillRunning => Goto(s, MaybeFlushing)
    case Flush =>
      s.(row := AppendLog(s.row, Concat(s.worker.buf)), worker := s.worker.(phase := LoopTop, buf := []))
    case NoFlush => Goto(s, LoopTop)
    case Drain(text) => s.(worker := s.worker.(buf := s.worker.buf + [text]), drained := s.drained + [text])
    case FinalFlush =>
      if s.worker.buf == [] then Goto(s, LogComplete)
      else s.(row := AppendLog(s.row, Concat(s.worker.buf)), worker := s.worker.(phase := LogComplete, buf := []))
    case CheckCancelled(reloaded) =>
      // the worker's session may still hold the status it read at the last poll
      var cancelled := if reloaded then s.row.status == Cancelled else s.worker.sawCancelled;
      Goto(s, if cancelled then Done else ReadingExit)
    case ReadExit(code) => Goto(s, Finalising(code))
    case Finalise =>
      var code := s.worker.phase.code;
      if s.row.status == Cancelled then Goto(s, Done)
      else Goto(s.(row := Finish(s.row, if code == 0 then Completed else Failed).(exitCode := Some(code))), Done)
    case Crash => Goto(s.(row := Finish(s.row, Failed)), Done)
    case Cancel =>
      if s.row.status in {Pending, Running} then s.(row := Finish(s.row, Cancelled)) else s
    case ClientPoll =>
      var r := JobOutput(s.row, s.client.offset);
      s.(client := Client(r.offset, s.client.text + r.output, Some(r)))
  }

  const INITIAL := State(
    Row(Pending, None, 0, None, false), Worker(NotStarted, [], false, false), Client(0, "", None), [], [])

  /** The state after a run, if every action was enabled when it was taken. */
  function Run(actions: seq<Action>): Option<State> {
    if actions == [] then Some(INITIAL)
    else match Run(actions[..|actions| - 1])
      case None => None
      case Some(s) =>
        var a := actions[|actions| - 1];
        if Enabled(s, a) then Some(Next(s, a)) else None
  }

  // ── Invariants ────────────────────────────────────────────────────────────

  /** Nothing received is lost: it is in the stored log or still in the worker's buffer. */
  ghost predicate LogConserved(s: State) {
    && LogText(s.row) + Concat(s.worker.buf) == Visible(s.received) + Concat(s.drained)
    && s.row.logSize == |LogText(s.row)|
    && (s.worker.pidCaptured <==> MarkerSeen(s.received))
    && (s.drained != [] ==> s.worker.phase !in {NotStarted, LoopTop, Receiving, TestingExit, MaybeFlushing})
  }

  /** What the client has concatenated is the log up to its offset. */
  ghost predicate ClientInStep(s: State) {
    && 0 <= s.client.offset <= |LogText(s.row)|
    && s.client.text == LogText(s.row)[..s.client.offset]
  }

  /** The status agrees with the other columns and with the worker's position. */
  ghost predicate StatusAgrees(s: State) {
    && (s.row.finished <==> Terminal(s.row.status))
    && (s.row.status == Completed <==> s.row.exitCode == Some(0))
    && (s.row.exitCode.Some? ==> s.row.status in {Completed, Failed} && s.worker.phase == Done && s.worker.buf == [])
    && (s.worker.phase == NotStarted ==> s.row.status in {Pending, Cancelled} && s.worker.buf == [])
    && (s.worker.phase == Done ==> Terminal(s.row.status))
    && (s.worker.phase !in {NotStarted, Done} ==> s.row.status in {Running, Cancelled})
    && (s.worker.phase in {LogComplete, ReadingExit} || s.worker.phase.Finalising? ==> s.worker.buf == [])
    && (s.worker.sawCancelled ==>
          s.worker.phase in {Draining, LogComplete, Done} && s.row.status in {Cancelled, Failed})
  }

  ghost predicate Inv(s: State) {
    LogConserved(s) && ClientInStep(s) && StatusAgrees(s)
  }

  lemma MarkerSeenSnoc(chunks: seq<string>, c: string)
    ensures MarkerSeen(chunks + [c]) <==> MarkerSeen(chunks) || Contains(c, MARKER)
  {
    if MarkerSeen(chunks) {
      var i :| 0 <= i < |chunks| && Contains(chunks[i], MARKER);
      assert (chunks + [c])[i] == chunks[i];
    }
    assert (chunks + [c])[|chunks|] == c;
  }

  lemma ReceiveConserves(s: State, text: string)
    requires LogConserved(s) && s.worker.phase == Receiving
    ensures LogConserved(Next(s, Receive(text)))
  {
    hide Contains, WithoutPidLines, MarkerSeen, Visible;
    VisibleSnoc(s.received, text);
    MarkerSeenSnoc(s.received, text);
    var kept := if !s.worker.pidCaptured && Contains(text, MARKER) then WithoutPidLines(text) else text;
    ConcatSnoc(s.worker.buf, kept);
    var log, buf, seen := LogText(s.row), Concat(s.worker.buf), Visible(s.received);
    assert s.drained == [] && Concat([]) == "";
    assert log + (buf + kept) == (log + buf) + kept;
    assert seen + "" == seen;
  }

  lemma DrainConserves(s: State, text: string)
    requires LogConserved(s) && s.worker.phase == Draining
    ensures LogConserved(Next(s, Drain(text)))
  {
    hide MarkerSeen, Visible, LogText;
    ConcatSnoc(s.worker.buf, text);
    ConcatSnoc(s.drained, text);
    var log, buf, seen, drained := LogText(s.row), Concat(s.worker.buf), Visible(s.received), Concat(s.drained);
    assert log + (buf + text) == (log + buf) + text;
    assert seen + (drained + text) == (seen + drained) + text;
  }

  /** Storing the buffer moves its text to the log. */
  lemma AppendConserves(s: State, phase: Phase)
    requires LogConserved(s) && s.worker.phase in {MaybeFlushing, Draining}
    requires phase == if s.worker.phase == Draining then LogComplete else LoopTop
    ensures LogConserved(s.(row := AppendLog(s.row, Concat(s.worker.buf)),
                            worker := s.worker.(phase := phase, buf := [])))
  {
    hide MarkerSeen, Visible;
    var text := LogText(s.row) + Concat(s.worker.buf);
    assert Concat([]) == "" && text + "" == text;
  }

  lemma LogConservedStep(s: State, a: Action)
    requires LogConserved(s) && StatusAgrees(s) && Enabled(s, a)
    ensures LogConserved(Next(s, a))
  {
    hide MarkerSeen, Visible, Concat, Contains, WithoutPidLines;
    match a
    case Receive(text) =>
      ReceiveConserves(s, text);
    case Drain(text) =>
      DrainConserves(s, text);
    case Flush =>
      AppendConserves(s, LoopTop);
    case FinalFlush =>
      AppendConserves(s, LogComplete);
    case _ =>
  }

  lemma ClientInStepStep(s: State, a: Action)
    requires ClientInStep(s) && Enabled(s, a)
    ensures ClientInStep(Next(s, a))
    ensures LogText(s.row) <= LogText(Next(s, a).row)
  {
  }

  lemma StatusAgreesStep(s: State, a: Action)
    requires StatusAgrees(s) && Enabled(s, a)
    ensures StatusAgrees(Next(s, a))
  {
  }

  lemma {:induction false} RunKeepsInv(actions: seq<Action>)
    ensures Run(actions).Some? ==> Inv(Run(actions).value)
  {
    if actions == [] {
      assert Concat([]) == "";
    } else {
      var n := |actions| - 1;
      RunKeepsInv(actions[..n]);
      if Run(actions).Some? {
        var s := Run(actions[..n]).value;
        LogConservedStep(s, actions[n]);
        ClientInStepStep(s, actions[n]);
        StatusAgreesStep(s, actions[n]);
      }
    }
  }

  // ── Theorems over every interleaving ──────────────────────────────────────

  /** The text a job has produced so far, as its log should show it. */
  function Produced(s: State): string {
    Visible(s.received) + Concat(s.drained)
  }

  /** In every reachable state stored log and worker buffer together hold exactly what was produced. */
  lemma LogIsConserved(actions: seq<Action>)
    requires Run(actions).Some?
    ensures var s := Run(actions).value;
            && LogText(s.row) + Concat(s.worker.buf) == Produced(s)
            && s.row.logSize == |LogText(s.row)|
            && s.client.text <= LogText(s.row) <= Produced(s)
            && s.client.offset == |s.client.text|
  {
    RunKeepsInv(actions);
  }

  /** A reply with an exit code leaves the client holding everything the job produced, and nothing follows it. */
  lemma ExitCodeMeansWholeLog(actions: seq<Action>, later: seq<Action>)
    requires Run(actions + [ClientPoll]).Some? && Run(actions + [ClientPoll]).value.client.last.value.exitCode.Some?
    requires Run(actions + [ClientPoll] + later).Some?
    ensures var s := Run(actions + [ClientPoll]).value;
            && s.client.text == Produced(s)
            && Produced(Run(actions + [ClientPoll] + later).value) == Produced(s)
    decreases |later|
  {
    var acts := actions + [ClientPoll];
    assert acts[..|acts| - 1] == actions;
    RunKeepsInv(actions);
    RunKeepsInv(acts);
    DoneProducesNothing(acts, later);
    var s := Run(acts).value;
    assert Concat([]) == "" && LogText(s.row) + "" == LogText(s.row);
  }

  lemma DoneStep(s: State, a: Action)
    requires s.worker.phase == Done && Enabled(s, a)
    ensures var s' := Next(s, a);
            s'.worker == s.worker && s'.received == s.received && s'.drained == s.drained && s'.row.log == s.row.log
  {
  }

  lemma {:induction false} DoneProducesNothing(actions: seq<Action>, later: seq<Action>)
    requires Run(actions).Some? && Run(actions).value.worker.phase == Done && Run(actions + later).Some?
    ensures var s, s' := Run(actions).value, Run(actions + later).value;
            s'.worker == s.worker && s'.received == s.received && s'.drained == s.drained && s'.row.log == s.row.log
  {
    if later == [] {
      assert actions + later == actions;
    } else {
      var n := |later| - 1;
      assert (actions + later)[..|actions + later| - 1] == actions + later[..n];
      DoneProducesNothing(actions, later[..n]);
      var s := Run(actions + later[..n]).value;
      DoneStep(s, later[n]);
      hide Next, Enabled;
    }
  }

  /**
   The status machine: completed and failed never change, nor does their exit code; a cancelled job changes only
   when the worker's exception handler overwrites it with failed; every other edge is listed.
   */
  lemma StatusMachine(actions: seq<Action>, a: Action)
    requires Run(actions).Some? && Enabled(Run(actions).value, a)
    ensures var s := Run(actions).value; var s' := Next(s, a);
            && (s.row.finished <==> Terminal(s.row.status))
            && (s.row.status == Completed <==> s.row.exitCode == Some(0))
            && (s'.row.status != s.row.status ==>
                  match s.row.status
                  case Pending => s'.row.status in {Running, Cancelled, Failed}
                                  && a in {Start(true), Start(false), Cancel}
                  case Running => (s'.row.status == Cancelled && a == Cancel)
                                  || (s'.row.status == Failed && a in {Crash, Finalise})
                                  || (s'.row.status == Completed && a == Finalise)
                  case Cancelled => s'.row.status == Failed && a == Crash
                  case Completed => false
                  case Failed => false)
            && (s.row.status in {Completed, Failed} ==>
                  s'.row.exitCode == s.row.exitCode && s'.row.finished == s.row.finished)
  {
    RunKeepsInv(actions);
  }

  /** Once the worker has returned, the job has a terminal status. */
  lemma WorkerLeavesTerminalStatus(actions: seq<Action>)
    requires Run(actions).Some? && Run(actions).value.worker.phase == Done
    ensures Terminal(Run(actions).value.row.status)
  {
    RunKeepsInv(actions);
  }

  // ── What a "done" reply does not promise ──────────────────────────────────

  /**
   `done` is weaker than an exit code.  Whenever a running job is cancelled while the worker holds unflushed text,
   the next poll is told the job is done, and the worker then appends text which that client has not received.
   */
  lemma DoneReplyCanPrecedeOutput(actions: seq<Action>)
    requires Run(actions).Some?
    requires var s := Run(actions).value;
             s.worker.phase == LoopTop && s.row.status == Running && Concat(s.worker.buf) != ""
    ensures var s := Run(actions).value;
            var early := actions + [Cancel, ClientPoll];
            var late := early + [Poll, FinalFlush];
            && Run(early).Some? && Run(early).value.client.last.value.done
            && Run(early).value.client.last.value.exitCode.None?
            && Run(late).Some?
            && LogText(Run(late).value.row) == Run(late).value.client.text + Concat(s.worker.buf)
            && LogText(Run(late).value.row) != Run(late).value.client.text
  {
    assert Run(actions).value.worker.buf != [] by { assert Concat([]) == ""; }
    RunKeepsInv(actions);
    var s := Run(actions).value;
    CancelBeforeFlush(s);
    hide Run, Concat, Inv, Next;
    RunTwo(actions, s, Cancel, ClientPoll);
    RunTwo(actions + [Cancel, ClientPoll], Next(Next(s, Cancel), ClientPoll), Poll, FinalFlush);
    assert |Run(actions + [Cancel, ClientPoll] + [Poll, FinalFlush]).value.client.text + Concat(s.worker.buf)|
           > |Run(actions + [Cancel, ClientPoll] + [Poll, FinalFlush]).value.client.text|;
  }

  const FIVE_STEPS := [Start(true)] + [Poll] + [Receive("x")] + [StillRunning] + [NoFlush]

  const BUFFERED := State(
    Row(Running, None, 0, None, false), Worker(LoopTop, ["x"], false, false), Client(0, "", None), ["x"], [])

  /** One such run: the client has nothing when it is told the job is done, and the log then becomes "x". */
  lemma OutputAfterDone()
    ensures var early := FIVE_STEPS + [Cancel, ClientPoll];
            && Run(early).Some? && Run(early).value.client.last.Some? && Run(early).value.client.last.value.done
            && Run(early).value.client.text == ""
            && Run(early + [Poll, FinalFlush]).Some?
            && LogText(Run(early + [Poll, FinalFlush]).value.row) == "x"
  {
    OneChunkBuffered();
    var polled := CancelledUnflushed();
    hide *;
    RunTwo(FIVE_STEPS, BUFFERED, Cancel, ClientPoll);
    RunTwo(FIVE_STEPS + [Cancel, ClientPoll], polled, Poll, FinalFlush);
  }

  lemma OneChunkBuffered()
    ensures Run(FIVE_STEPS) == Some(BUFFERED)
  {
    var s0 := Next(INITIAL, Start(true));
    var s1 := Next(s0, Poll);
    assert Run([]) == Some(INITIAL) && [] + [Start(true)] == [Start(true)];
    ReceiveOne(s1);
    hide Next, Enabled, Run;
    RunSnoc([], Start(true));
    RunSnoc([Start(true)], Poll);
    RunSnoc([Start(true)] + [Poll], Receive("x"));
    RunSnoc([Start(true)] + [Poll] + [Receive("x")], StillRunning);
    RunSnoc([Start(true)] + [Poll] + [Receive("x")] + [StillRunning], NoFlush);
  }

  lemma ReceiveOne(s: State)
    requires s.row == BUFFERED.row && s.worker == Worker(Receiving, [], false, false)
    requires s.client == BUFFERED.client && s.received == s.drained == []
    ensures Enabled(s, Receive("x")) && Enabled(Next(s, Receive("x")), StillRunning)
    ensures Enabled(Next(Next(s, Receive("x")), StillRunning), NoFlush)
    ensures Next(Next(Next(s, Receive("x")), StillRunning), NoFlush) == BUFFERED
  {
    assert !Contains("x", MARKER) by { assert "x"[1..] == ""; }
    assert TotalLength(["x"]) == 1 by { assert ["x"][1..] == []; }
    assert [] + ["x"] == ["x"];
  }

  lemma CancelledUnflushed() returns (polled: State)
    ensures Enabled(BUFFERED, Cancel) && polled == Next(Next(BUFFERED, Cancel), ClientPoll)
    ensures polled.client.text == "" && polled.client.last.Some? && polled.client.last.value.done
    ensures Enabled(polled, Poll) && Enabled(Next(polled, Poll), FinalFlush)
    ensures LogText(Next(Next(polled, Poll), FinalFlush).row) == "x"
  {
    polled := Next(Next(BUFFERED, Cancel), ClientPoll);
    assert Concat(["x"]) == "x" by { assert ["x"][1..] == []; }
    assert "" + "x" == "x" && polled.client.text == "" + "";
  }

  /** Where the worker has nothing more to say, if the job was cancelled before it started or is over. */
  predicate Silent(p: Phase) {
    p in {NotStarted, LogComplete, ReadingExit, Done} || p.Finalising?
  }

  predicate Hushed(s: State) {
    Silent(s.worker.phase) && (s.worker.phase == NotStarted ==> s.row.status == Cancelled)
  }

  lemma SilentStep(s: State, a: Action)
    requires Hushed(s) && Enabled(s, a)
    ensures Hushed(Next(s, a)) && Next(s, a).row.log == s.row.log
  {
  }

  lemma CancelBeforeFlush(s: State)
    requires ClientInStep(s) && s.worker.phase == LoopTop && s.row.status == Running && s.worker.buf != []
    requires s.row.exitCode.None?
    ensures var early := Next(Next(s, Cancel), ClientPoll);
            && Enabled(early, Poll) && Enabled(Next(early, Poll), FinalFlush)
            && early.client.last.Some?
            && early.client.last.value.done && early.client.last.value.exitCode.None?
            && LogText(Next(Next(early, Poll), FinalFlush).row) == early.client.text + Concat(s.worker.buf)
            && Next(Next(early, Poll), FinalFlush).client == early.client
  {
    hide Concat;
    var early := Next(Next(s, Cancel), ClientPoll);
    assert early.client.text == LogText(s.row);
  }

  lemma {:induction false} TotalIsLength(buf: seq<string>)
    ensures TotalLength(buf) == |Concat(buf)|
  {
    if buf != [] {
      TotalIsLength(buf[1..]);
    }
  }

  lemma RunLast(actions: seq<Action>, later: seq<Action>)
    requires later != [] && Run(actions + later).Some?
    ensures var n := |later| - 1;
            && Run(actions + later[..n]).Some? && Enabled(Run(actions + later[..n]).value, later[n])
            && Run(actions + later).value == Next(Run(actions + later[..n]).value, later[n])
  {
    var all := actions + later;
    assert all[..|all| - 1] == actions + later[..|later| - 1] && all[|all| - 1] == later[|later| - 1];
  }

  lemma {:induction false} SilentForGood(actions: seq<Action>, later: seq<Action>)
    requires Run(actions).Some? && Run(actions + later).Some?
    requires Hushed(Run(actions).value)
    ensures Hushed(Run(actions + later).value) && Run(actions + later).value.row.log == Run(actions).value.row.log
  {
    hide Next, Enabled, Hushed, Run;
    if later == [] {
      assert actions + later == actions;
    } else {
      var n := |later| - 1;
      RunLast(actions, later);
      SilentForGood(actions, later[..n]);
      SilentStep(Run(actions + later[..n]).value, later[n]);
    }
  }

  /** The steps from a state lead to another one. */
  predicate Leads(s: State, later: seq<Action>, s': State)
    decreases |later|
  {
    if later == [] then s == s' else Enabled(s, later[0]) && Leads(Next(s, later[0]), later[1..], s')
  }

  lemma {:induction false} LeadsRuns(actions: seq<Action>, later: seq<Action>, s': State)
    requires Run(actions).Some? && Leads(Run(actions).value, later, s')
    ensures Run(actions + later) == Some(s')
    decreases |later|
  {
    hide Next, Enabled, Run;
    if later == [] {
      assert actions + later == actions;
    } else {
      RunSnoc(actions, later[0]);
      LeadsRuns(actions + [later[0]], later[1..], s');
      OneByOne(actions, later);
    }
  }

  lemma OneByOne<T>(a: seq<T>, b: seq<T>)
    requires b != []
    ensures a + [b[0]] + b[1..] == a + b
  {
  }

  lemma FlushAdds(row: Row, buf: seq<string>)
    requires Concat(buf) != ""
    ensures LogText(AppendLog(row, Concat(buf))) != LogText(row)
  {
    assert |LogText(row) + Concat(buf)| > |LogText(row)|;
  }

  /** From draining on, one more character reaches the log. */
  lemma DrainingSpeaks(s: State) returns (s': State)
    requires s.worker.phase == Draining
    ensures Leads(s, [Drain("x"), FinalFlush], s') && LogText(s'.row) != LogText(s.row)
  {
    var drained := Next(s, Drain("x"));
    ConcatSnoc(s.worker.buf, "x");
    FlushAdds(s.row, drained.worker.buf);
    s' := Next(drained, FinalFlush);
    assert [Drain("x"), FinalFlush][1..] == [FinalFlush] && [FinalFlush][1..] == [];
    assert Leads(s', [], s') && Leads(drained, [FinalFlush], s');
  }

  lemma LoopTopSpeaks(s: State) returns (s': State)
    requires s.worker.phase == LoopTop && s.row.status == Cancelled
    ensures Leads(s, [Poll, Drain("x"), FinalFlush], s') && LogText(s'.row) != LogText(s.row)
  {
    s' := DrainingSpeaks(Next(s, Poll));
    assert [Poll, Drain("x"), FinalFlush][1..] == [Drain("x"), FinalFlush];
  }

  /** In any other phase of a cancelled job some continuation adds to the log. */
  lemma OthersSpeak(s: State) returns (later: seq<Action>, s': State)
    requires s.row.status == Cancelled && !Silent(s.worker.phase)
    ensures Leads(s, later, s') && LogText(s'.row) != LogText(s.row)
  {
    var end := [Drain("x"), FinalFlush];
    hide Leads;
    match s.worker.phase
    case Draining =>
      s' := DrainingSpeaks(s);
      later := end;
    case LoopTop =>
      s' := LoopTopSpeaks(s);
      later := [Poll] + end;
      assert later == [Poll, Drain("x"), FinalFlush];
    case TestingExit =>
      s' := DrainingSpeaks(Next(s, ExitReady));
      later := [ExitReady] + end;
      OneMore(s, ExitReady, end, s');
    case Receiving =>
      var testing := Next(s, NothingToReceive);
      s' := DrainingSpeaks(Next(testing, ExitReady));
      OneMore(testing, ExitReady, end, s');
      later := [NothingToReceive] + ([ExitReady] + end);
      OneMore(s, NothingToReceive, [ExitReady] + end, s');
    case MaybeFlushing =>
      if Concat(s.worker.buf) == "" {
        TotalIsLength(s.worker.buf);
        s' := LoopTopSpeaks(Next(s, NoFlush));
        later := [NoFlush] + [Poll, Drain("x"), FinalFlush];
        OneMore(s, NoFlush, [Poll, Drain("x"), FinalFlush], s');
      } else {
        assert Concat([]) == "";
        FlushAdds(s.row, s.worker.buf);
        s', later := Next(s, Flush), [Flush] + [];
        NoMore(s');
        OneMore(s, Flush, [], s');
      }
  }

  lemma OneMore(s: State, a: Action, later: seq<Action>, s': State)
    requires Enabled(s, a) && Leads(Next(s, a), later, s')
    ensures Leads(s, [a] + later, s')
  {
    assert ([a] + later)[1..] == later;
  }

  lemma NoMore(s: State)
    ensures Leads(s, [], s)
  {
  }

  /** Whatever happens next, the log stays as it is. */
  ghost predicate LogIsFinal(actions: seq<Action>)
    requires Run(actions).Some?
  {
    forall later :: Run(actions + later).Some? ==>
      LogText(Run(actions + later).value.row) == LogText(Run(actions).value.row)
  }

  /**
   Exactly when a `done` reply has given the client everything for good: when the worker had not started or had
   already stored its last text at the time of the reply.
   */
  lemma DoneReplyIsCompleteExactlyWhenSilent(actions: seq<Action>)
    requires Run(actions + [ClientPoll]).Some? && Run(actions + [ClientPoll]).value.client.last.value.done
    ensures var polled := actions + [ClientPoll];
            var s := Run(polled).value;
            && s.client.text == LogText(s.row)
            && (LogIsFinal(polled) <==> Silent(s.worker.phase))
  {
    var polled := actions + [ClientPoll];
    assert polled[..|polled| - 1] == actions;
    RunKeepsInv(actions);
    RunKeepsInv(polled);
    var s := Run(polled).value;
    assert s.row.status !in {Pending, Running};
    if Silent(s.worker.phase) {
      forall later | Run(polled + later).Some? ensures LogText(Run(polled + later).value.row) == LogText(s.row) {
        SilentForGood(polled, later);
      }
    } else {
      var later, s' := OthersSpeak(s);
      LeadsRuns(polled, later, s');
      assert Run(polled + later).Some?;
    }
  }

  lemma RunSnoc(actions: seq<Action>, a: Action)
    requires Run(actions).Some? && Enabled(Run(actions).value, a)
    ensures Run(actions + [a]) == Some(Next(Run(actions).value, a))
  {
    assert (actions + [a])[..|actions|] == actions;
  }

  lemma RunTwo(actions: seq<Action>, s: State, a: Action, b: Action)
    requires Run(actions) == Some(s) && Enabled(s, a) && Enabled(Next(s, a), b)
    ensures Run(actions + [a, b]) == Some(Next(Next(s, a), b))
  {
    RunSnoc(actions, a);
    RunSnoc(actions + [a], b);
    assert actions + [a] + [b] == actions + [a, b];
  }
}
