/**
 What the steps of a playbook job mean, over every run: which replies are done, what a status and an exit code go back
 to, which lines are filtered, and how much a cancelled job or a full buffer still takes in.
 */
module PlaybookJobLaws {
  import opened Options
  import opened PyText
  import opened PlaybookJobs

  // ── Replies ───────────────────────────────────────────────────────────────

  lemma OneStep(actions: seq<Action>, a: Action)
    requires Run(actions + [a]).Some?
    ensures Run(actions).Some? && Enabled(Run(actions).value, a)
    ensures Run(actions + [a]) == Some(Next(Run(actions).value, a))
  {
    assert (actions + [a])[..|actions|] == actions;
  }

  lemma PollStep(s: State)
    requires ClientInStep(s)
    ensures var s' := Next(s, ClientPoll);
            && s' == s.(client := s'.client) && s'.client.last.Some?
            && (s'.client.last.value.done <==> s.row.status in {Completed, Failed, Cancelled})
            && s'.client.last.value.exitCode == s.row.exitCode
            && s'.client.text == s.client.text + s'.client.last.value.output == LogText(s.row)
            && s'.client.offset == s'.client.last.value.offset == |LogText(s.row)|
  {
    var log, o := LogText(s.row), s.client.offset;
    assert log[..o] + log[o..] == log && (o == |log| ==> log[o..] == "");
    var st := s.row.status;
    assert st.Pending? || st.Running? || st.Completed? || st.Failed? || st.Cancelled?;
  }

  /** A poll is told the status of the row: done exactly if that is terminal, with the exit code stored there. */
  lemma ReplyIsExact(actions: seq<Action>)
    requires Run(actions + [ClientPoll]).Some?
    ensures Run(actions).Some?
    ensures var before, after := Run(actions).value, Run(actions + [ClientPoll]).value;
            && after == before.(client := after.client) && after.client.last.Some?
            && (after.client.last.value.done <==> before.row.status in {Completed, Failed, Cancelled})
            && after.client.last.value.exitCode == before.row.exitCode
            && after.client.text == before.client.text + after.client.last.value.output == LogText(before.row)
            && after.client.offset == after.client.last.value.offset == |LogText(before.row)|
  {
    OneStep(actions, ClientPoll);
    RunKeepsInv(actions);
    hide Run, Next, Enabled, LogConserved, StatusAgrees;
    PollStep(Run(actions).value);
  }

  /** Every poll after the worker has returned is told the job is done, and so is every reply with an exit code. */
  lemma FinishedJobsAreDone(actions: seq<Action>)
    requires Run(actions + [ClientPoll]).Some?
    ensures var s := Run(actions + [ClientPoll]).value;
            s.client.last.Some? &&
            (s.worker.phase == Done || s.client.last.value.exitCode.Some? ==> s.client.last.value.done)
  {
    ReplyIsExact(actions);
    StatusAlwaysAgrees(actions);
    hide Run;
  }

  /** The text of a reply is the rest of the log from the offset, counted from its end if the offset is negative. */
  lemma ReplyIsTheRest(row: Row, offset: int)
    ensures var r, log := JobOutput(row, offset), LogText(row);
            var from := if offset >= |log| then |log| else if offset >= 0 then offset
                        else if -offset >= |log| then 0 else |log| + offset;
            r.output == log[from..] && r.offset == offset + |log| - from
  {
  }

  // ── Statuses ──────────────────────────────────────────────────────────────

  /** The status after a step, for every step. */
  lemma StatusAfter(actions: seq<Action>, a: Action)
    requires Run(actions + [a]).Some?
    ensures Run(actions).Some?
    ensures var before, after := Run(actions).value.row.status, Run(actions + [a]).value.row.status;
            && (a == Start(true) && before == Pending ==> after == Running)
            && (a == Start(false) && before == Pending ==> after == Failed)
            && (a == Cancel && before in {Pending, Running} ==> after == Cancelled)
            && (a == Crash ==> after == Failed)
            && (a == Finalise && before == Running ==> after in {Completed, Failed})
            && (after != before ==> before !in {Completed, Failed} && (before == Cancelled ==> a == Crash))
            && (after != before ==> a.Start? || a in {Cancel, Crash, Finalise})
            && (after == Running && before != Running ==> a == Start(true) && before == Pending)
            && (after == Cancelled && before != Cancelled ==> a == Cancel)
            && (after == Completed && before != Completed ==> a == Finalise)
  {
    OneStep(actions, a);
    StatusAlwaysAgrees(actions);
    hide Run;
  }

  /** What the final status goes back to. */
  ghost predicate Explained(s: State, actions: seq<Action>) {
    && (s.row.exitCode.Some? ==> ReadExit(s.row.exitCode.value) in actions)
    && (s.worker.phase.Finalising? ==> ReadExit(s.worker.phase.code) in actions)
    && (s.row.status == Completed ==> s.row.exitCode == Some(0))
    && (s.row.status == Cancelled ==> Cancel in actions && s.row.exitCode.None?)
    && (s.row.status == Failed ==>
          || Crash in actions || Start(false) in actions
          || (s.row.exitCode.Some? && s.row.exitCode.value != 0))
    && (Crash in actions ==> s.row.status == Failed)
    && (s.worker.phase !in {NotStarted, LoopTop, Receiving, TestingExit, MaybeFlushing, Done} ==>
          ExitReady in actions || Cancel in actions)
    && (s.worker.phase == NotStarted ==> Start(true) !in actions && Start(false) !in actions)
    && (s.worker.phase == NotStarted ==> s.received == [] && s.drained == [])
    && (s.worker.buf != [] || s.row.log.Some? ==> s.received != [] || s.drained != [])
  }

  lemma ExplainedStep(s: State, actions: seq<Action>, a: Action)
    requires StatusAgrees(s) && Explained(s, actions) && Enabled(s, a)
    ensures Explained(Next(s, a), actions + [a])
  {
  }

  lemma LastStep(actions: seq<Action>)
    requires actions != [] && Run(actions).Some?
    ensures var n := |actions| - 1;
            && Run(actions[..n]).Some? && Enabled(Run(actions[..n]).value, actions[n])
            && Run(actions) == Some(Next(Run(actions[..n]).value, actions[n]))
            && actions == actions[..n] + [actions[n]]
  {
  }

  /**
   In every run a stored exit code was read from the channel; a job is completed only with exit code 0, cancelled only
   by a cancellation, failed only by an exception, a missing configuration or another exit code; an exception always
   leaves it failed; the receiving loop ends only at the end of the command or for a cancellation; and a log is stored
   only once some text has arrived.
   */
  lemma {:induction false} EveryStatusIsExplained(actions: seq<Action>)
    requires Run(actions).Some?
    ensures Explained(Run(actions).value, actions)
  {
    if actions != [] {
      var n := |actions| - 1;
      LastStep(actions);
      hide *;
      EveryStatusIsExplained(actions[..n]);
      StatusAlwaysAgrees(actions[..n]);
      ExplainedStep(Run(actions[..n]).value, actions[..n], actions[n]);
    }
  }

  lemma StatusAlwaysAgrees(actions: seq<Action>)
    requires Run(actions).Some?
    ensures StatusAgrees(Run(actions).value)
  {
    RunKeepsInv(actions);
  }

  /** The exit code of a job that is not cancelled is the one that was read last. */
  lemma FinalisedExitCode(actions: seq<Action>, code: int)
    requires Run(actions + [ReadExit(code), Finalise]).Some?
    requires Run(actions).Some? && Run(actions).value.row.status != Cancelled
    ensures var row := Run(actions + [ReadExit(code), Finalise]).value.row;
            row.exitCode == Some(code) && row.status == (if code == 0 then Completed else Failed) && row.finished
  {
    var read := actions + [ReadExit(code)];
    assert actions + [ReadExit(code), Finalise] == read + [Finalise];
    OneStep(read, Finalise);
    OneStep(actions, ReadExit(code));
    hide Run;
  }

  // ── What is still taken in ────────────────────────────────────────────────

  /** Texts the receiving loop has yet to take before it sees a cancellation. */
  function Outstanding(s: State): nat {
    if s.worker.phase == Receiving then 1 else 0
  }

  ghost predicate CancelledOrOver(s: State) {
    s.row.status == Cancelled || s.worker.phase == Done
  }

  /** Once a job is cancelled its loop takes in at most the one text it is about to read; what follows is drained. */
  lemma {:induction false} CancelledJobReceivesAtMostOnce(actions: seq<Action>, later: seq<Action>)
    requires Run(actions + later).Some? && Run(actions).Some? && Run(actions).value.row.status == Cancelled
    ensures var s, s' := Run(actions).value, Run(actions + later).value;
            && |s'.received| + Outstanding(s') <= |s.received| + Outstanding(s)
            && CancelledOrOver(s')
  {
    if later == [] {
      assert actions + later == actions;
    } else {
      var n := |later| - 1;
      RunLast(actions, later);
      CancelledJobReceivesAtMostOnce(actions, later[..n]);
    }
  }

  /** The worker leaves its loop at once if it finds the job cancelled, and does not read an exit code then. */
  lemma CancellationIsHeeded(actions: seq<Action>, reloaded: bool)
    ensures Run(actions + [Poll]).Some? ==>
              && Run(actions).Some?
              && var s, s' := Run(actions).value, Run(actions + [Poll]).value;
              && s'.worker.phase == (if s.row.status == Cancelled then Draining else Receiving)
              && (s'.worker.sawCancelled <==> s.row.status == Cancelled)
    ensures Run(actions + [CheckCancelled(reloaded)]).Some? ==>
              && Run(actions).Some?
              && var s, s' := Run(actions).value, Run(actions + [CheckCancelled(reloaded)]).value;
              && s'.row == s.row
              && var cancelled := if reloaded then s.row.status == Cancelled else s.worker.sawCancelled;
              s'.worker.phase == if cancelled then Done else ReadingExit
  {
    if Run(actions + [Poll]).Some? {
      OneStep(actions, Poll);
    }
    if Run(actions + [CheckCancelled(reloaded)]).Some? {
      OneStep(actions, CheckCancelled(reloaded));
    }
    hide Run;
  }

  /** A job cancelled before it starts never takes in anything. */
  lemma CancelledBeforeStartStaysSilent(actions: seq<Action>, later: seq<Action>)
    requires Run(actions + later).Some? && Run(actions).Some?
    requires Run(actions).value.row.status == Cancelled && Run(actions).value.worker.phase == NotStarted
    ensures var s := Run(actions + later).value; s.received == [] && s.drained == [] && LogText(s.row) == ""
  {
    CancelledJobReceivesAtMostOnce(actions, later);
    EveryStatusIsExplained(actions);
    NothingDrained(actions, later);
    RunKeepsInv(actions + later);
    assert Visible([]) == "" && Concat([]) == "";
  }

  lemma {:induction false} NothingDrained(actions: seq<Action>, later: seq<Action>)
    requires Run(actions + later).Some? && Run(actions).Some?
    requires Run(actions).value.row.status == Cancelled && Run(actions).value.worker.phase == NotStarted
    ensures Run(actions + later).value.drained == Run(actions).value.drained
    ensures Run(actions + later).value.worker.phase in {NotStarted, Done}
    ensures Run(actions + later).value.row.status == Cancelled
  {
    if later == [] {
      assert actions + later == actions;
    } else {
      RunLast(actions, later);
      NothingDrained(actions, later[..|later| - 1]);
    }
  }

  /** The buffer may be kept exactly up to 32768 characters, and be stored exactly if something is in it. */
  lemma FlushingIsExact(s: State)
    ensures Enabled(s, NoFlush) <==> s.worker.phase == MaybeFlushing && |Concat(s.worker.buf)| <= 32768
    ensures Enabled(s, Flush) <==> s.worker.phase == MaybeFlushing && s.worker.buf != []
  {
    TotalIsLength(s.worker.buf);
  }

  ghost predicate Bounded(w: Worker) {
    w.phase in {LoopTop, Receiving} ==> |Concat(w.buf)| <= 32768
  }

  lemma BoundedStep(s: State, a: Action)
    requires StatusAgrees(s) && Bounded(s.worker) && Enabled(s, a)
    ensures Bounded(Next(s, a).worker)
  {
    TotalIsLength(s.worker.buf);
    assert Concat([]) == "";
  }

  /** Whenever the loop comes round, the buffer holds at most 32768 characters. */
  lemma {:induction false} BufferIsBounded(actions: seq<Action>)
    requires Run(actions).Some?
    ensures var w := Run(actions).value.worker; w.phase in {LoopTop, Receiving} ==> |Concat(w.buf)| <= 32768
  {
    if actions != [] {
      var n := |actions| - 1;
      LastStep(actions);
      hide Run, Enabled, Next;
      BufferIsBounded(actions[..n]);
      StatusAlwaysAgrees(actions[..n]);
      BoundedStep(Run(actions[..n]).value, actions[n]);
    }
  }

  // ── The PID line ──────────────────────────────────────────────────────────

  /** The filter looks at one line at a time: a line is dropped exactly if it starts with the marker once stripped. */
  lemma {:induction false} FilterIsPerLine(a: seq<string>, line: string, b: seq<string>)
    ensures DropPidLines(a + [line] + b)
            == DropPidLines(a) + (if "LOP_PID:" <= Strip(line) then [] else [line]) + DropPidLines(b)
  {
    if a == [] {
      assert (a + [line] + b)[0] == line && (a + [line] + b)[1..] == b;
    } else {
      assert (a + [line] + b)[0] == a[0] && (a + [line] + b)[1..] == a[1..] + [line] + b;
      FilterIsPerLine(a[1..], line, b);
      hide Strip, IsPidLine;
    }
  }

  /** What is visible: everything, but for the PID lines of the first text that contains the marker. */
  lemma {:induction false} VisibleIsExact(a: seq<string>, c: string, b: seq<string>)
    requires forall i :: 0 <= i < |a| ==> !Contains(a[i], "LOP_PID:")
    ensures Visible(a) == Concat(a)
    ensures Contains(c, "LOP_PID:") ==> Visible(a + [c] + b) == Concat(a) + WithoutPidLines(c) + Concat(b)
  {
    if a == [] {
      assert (a + [c] + b)[0] == c && (a + [c] + b)[1..] == b;
    } else {
      forall i | 0 <= i < |a| - 1 ensures !Contains(a[1..][i], "LOP_PID:") {
        assert a[1..][i] == a[i + 1];
      }
      VisibleIsExact(a[1..], c, b);
      assert (a + [c] + b)[0] == a[0] && (a + [c] + b)[1..] == a[1..] + [c] + b;
      hide Contains, WithoutPidLines;
      assert a[0] + (Concat(a[1..]) + WithoutPidLines(c) + Concat(b))
          == a[0] + Concat(a[1..]) + WithoutPidLines(c) + Concat(b);
    }
  }

  /** The line by which the wrapper announces the process id is such a line, whatever the id. */
  lemma AnnouncedPidIsFiltered(pid: nat)
    ensures IsPidLine("LOP_PID:" + NatToString(pid) + "\r\n") && IsPidLine("LOP_PID:" + NatToString(pid) + "\n")
    ensures Contains("LOP_PID:" + NatToString(pid) + "\r\n", MARKER)
  {
    MarkedLine("LOP_PID:", NatToString(pid) + "\r\n");
    MarkedLine("LOP_PID:", NatToString(pid) + "\n");
    var line := "LOP_PID:" + NatToString(pid) + "\r\n";
    assert line == "LOP_PID:" + (NatToString(pid) + "\r\n");
    assert "LOP_PID:" + NatToString(pid) + "\n" == "LOP_PID:" + (NatToString(pid) + "\n");
    assert line[..8] == "LOP_PID:" && StartsWith(line, MARKER);
  }

  /** A prefix without white space at its ends survives stripping. */
  lemma MarkedLine(prefix: string, rest: string)
    requires prefix != "" && !IsSpace(prefix[0]) && !IsSpace(prefix[|prefix| - 1])
    ensures prefix <= Strip(prefix + rest)
  {
    var s := prefix + rest;
    assert s[0] == prefix[0] && StripLeft(s) == s;
    RightIsExact(s);
    assert s[|prefix| - 1] == prefix[|prefix| - 1];
  }
}
