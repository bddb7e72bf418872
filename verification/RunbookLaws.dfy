/** What every runbook run guarantees, from the snapshot at launch to the last commit. */
module RunbookLaws {
  import opened Options
  import opened Runbooks
  import PlaybookJobs

  // ── The snapshot taken at launch ──────────────────────────────────────────

  /** A step as the operator defined it. */
  datatype StepDef = StepDef(
    id: nat, stepType: string, playbookPath: string, templatePath: string, numeric: bool, onFailure: string,
    isRequired: bool, isEnabled: bool)

  function SnapshotStep(d: StepDef, skippedIds: set<nat>): StepExec {
    var isSkipped := d.id in skippedIds && !d.isRequired;
    StepExec(d.id, d.stepType, d.playbookPath, d.templatePath, d.numeric, d.onFailure, isSkipped,
             if isSkipped then Skipped else Pending, None)
  }

  /** One execution row per enabled step, in order. */
  function Snapshot(defs: seq<StepDef>, skippedIds: set<nat>): seq<StepExec> {
    if defs == [] then []
    else (if defs[0].isEnabled then [SnapshotStep(defs[0], skippedIds)] else []) + Snapshot(defs[1..], skippedIds)
  }

  // ── Invariants ────────────────────────────────────────────────────────────

  /** A step that no worker has touched. */
  predicate Fresh(e: StepExec) {
    e.status in {Pending, Skipped, Disabled} && e.playbookJob == None
  }

  predicate FreshRun(launch: seq<StepExec>) {
    forall j :: 0 <= j < |launch| ==> Fresh(launch[j])
  }

  predicate SameStep(l: StepExec, e: StepExec) {
    e == l.(status := e.status, playbookJob := e.playbookJob)
  }

  predicate Processed(e: StepExec) {
    e.status in {Completed, Failed, Skipped, Disabled}
  }

  predicate Exempt(l: StepExec) {
    l.skipped || l.status == Disabled
  }

  /** Steps before k are processed, steps after k are as launched: at most step k can be running. */
  predicate SplitAt(launch: seq<StepExec>, steps: seq<StepExec>, k: nat) {
    && |steps| == |launch|
    && (forall j :: 0 <= j < |launch| ==> SameStep(launch[j], steps[j]))
    && (forall j :: 0 <= j < k && j < |launch| ==> Processed(steps[j]))
    && (forall j :: k < j < |launch| ==> steps[j] == launch[j])
  }

  /** Playbook jobs were created for increasing steps, up to step k, and each is linked from its own step only. */
  predicate LaunchedUpTo(s: RunState, k: int) {
    && (forall a :: 0 <= a < |s.launched| ==> s.launched[a] <= k)
    && (forall a, b :: 0 <= a < b < |s.launched| ==> s.launched[a] < s.launched[b])
    && (forall j :: 0 <= j < |s.steps| && s.steps[j].playbookJob.Some? ==>
          s.steps[j].playbookJob.value < |s.launched| && s.launched[s.steps[j].playbookJob.value] == j)
  }

  /** What holds when the loop reaches step i. */
  predicate AtBoundary(launch: seq<StepExec>, s: RunState, i: nat) {
    && i <= |launch| == |s.steps|
    && (forall j :: 0 <= j < |launch| ==> SameStep(launch[j], s.steps[j]))
    && (forall j :: 0 <= j < i ==>
          s.steps[j].status in {Completed, Failed, Skipped}
          && (s.steps[j].status == Skipped ==> Exempt(launch[j]))
          && (s.steps[j].status == Failed ==> launch[j].onFailure != "stop"))
    && (forall j :: i <= j < |launch| ==> s.steps[j] == launch[j])
    && s.job in {JobRunning, JobCancelled}
    && LaunchedUpTo(s, i - 1)
  }

  /** A committed state: some step splits the processed prefix from the untouched suffix. */
  ghost predicate WellShaped(launch: seq<StepExec>, s: RunState) {
    exists k: nat :: SplitAt(launch, s.steps, k) && LaunchedUpTo(s, k)
  }

  ghost predicate AllWellShaped(launch: seq<StepExec>, states: seq<RunState>) {
    forall x :: 0 <= x < |states| ==> WellShaped(launch, states[x])
  }

  /** After a step with policy "stop" failed, later steps are as launched and got no playbook job. */
  predicate StoppedAt(launch: seq<StepExec>, s: RunState, i: nat)
    requires |s.steps| == |launch|
  {
    && s.job == JobFailed
    && (forall j :: i < j < |launch| ==> s.steps[j] == launch[j])
    && (forall a :: 0 <= a < |s.launched| ==> s.launched[a] <= i)
  }

  /** How a run ends. */
  predicate Ended(launch: seq<StepExec>, s: RunState) {
    && |s.steps| == |launch|
    && (forall j :: 0 <= j < |launch| ==> SameStep(launch[j], s.steps[j]))
    && s.job in {JobCompleted, JobFailed, JobCancelled}
    && (s.job == JobCompleted ==> forall j :: 0 <= j < |launch| ==>
          s.steps[j].status == Completed || (s.steps[j].status == Skipped && Exempt(launch[j])))
    && (s.job == JobFailed ==> AnyFailed(s.steps))
    && (forall j :: 0 <= j < |launch| && s.steps[j].status == Failed && launch[j].onFailure == "stop" ==>
          StoppedAt(launch, s, j))
    && (forall j :: 0 <= j < |launch| ==> s.steps[j].status != Running)
  }

  // ── One step ──────────────────────────────────────────────────────────────

  /** While step i runs: the steps before it are decided, it alone is in progress, the rest is as launched. */
  predicate InStep(launch: seq<StepExec>, s: RunState, i: nat) {
    && FreshRun(launch)
    && i < |launch| && SplitAt(launch, s.steps, i) && LaunchedUpTo(s, i)
    && s.job in {JobRunning, JobCancelled}
    && (forall j :: 0 <= j < i ==>
          s.steps[j].status in {Completed, Failed, Skipped}
          && (s.steps[j].status == Skipped ==> Exempt(launch[j]))
          && (s.steps[j].status == Failed ==> launch[j].onFailure != "stop"))
  }

  /** The thread died at step i, whose parameters are not numbers: the job and the step stay running. */
  predicate Abandoned(launch: seq<StepExec>, s: RunState, i: nat) {
    && InStep(launch, s, i) && LaunchedUpTo(s, i - 1)
    && s.job == JobRunning && s.steps[i].status == Running && s.steps[i].playbookJob == None
    && !launch[i].numeric && !Exempt(launch[i]) && ResolvePlaybookPath(launch[i]) != ""
  }

  ghost predicate EndedOrAbandoned(launch: seq<StepExec>, s: RunState) {
    Ended(launch, s) || exists i: nat :: Abandoned(launch, s, i)
  }

  /** The states of a step are well shaped; they lead to the end of the run or to the next boundary. */
  ghost predicate StepOk(launch: seq<StepExec>, r: StepRun, i: nat) {
    && r.states != []
    && AllWellShaped(launch, r.states)
    && (if r.stop then EndedOrAbandoned(launch, Last(r.states)) else AtBoundary(launch, Last(r.states), i + 1))
  }

  lemma StepOkAfter(launch: seq<StepExec>, before: seq<RunState>, r: StepRun, i: nat)
    requires AllWellShaped(launch, before) && StepOk(launch, r, i)
    ensures StepOk(launch, StepRun(before + r.states, r.stop), i)
  {
    assert Last(before + r.states) == Last(r.states);
  }

  lemma InStepIsWellShaped(launch: seq<StepExec>, s: RunState, i: nat)
    requires InStep(launch, s, i)
    ensures WellShaped(launch, s)
  {
  }

  lemma FailedIsWellShaped(launch: seq<StepExec>, s: RunState, i: nat)
    requires InStep(launch, s, i)
    ensures var failed := SetStatus(s, i, Failed);
            && SplitAt(launch, failed.steps, i) && LaunchedUpTo(failed, i)
            && WellShaped(launch, failed) && WellShaped(launch, FailJob(failed))
  {
    var failed := SetStatus(s, i, Failed);
    assert SplitAt(launch, failed.steps, i) && LaunchedUpTo(failed, i);
    assert SplitAt(launch, FailJob(failed).steps, i) && LaunchedUpTo(FailJob(failed), i);
  }

  lemma StoppedRunEnds(launch: seq<StepExec>, s: RunState, i: nat)
    requires InStep(launch, s, i) && s.steps[i].onFailure == "stop"
    ensures Ended(launch, FailJob(SetStatus(s, i, Failed)))
  {
    var end := FailJob(SetStatus(s, i, Failed));
    assert end.steps[i].status == Failed;
  }

  lemma StepFailsOk(launch: seq<StepExec>, s: RunState, i: nat)
    requires InStep(launch, s, i)
    ensures StepOk(launch, StepFails(s, i), i)
  {
    FailedIsWellShaped(launch, s, i);
    if s.steps[i].onFailure == "stop" {
      StoppedRunEnds(launch, s, i);
    }
    hide WellShaped, Ended, Abandoned;
  }

  lemma CreateAndLinkOk(launch: seq<StepExec>, s: RunState, i: nat)
    requires InStep(launch, s, i) && LaunchedUpTo(s, i - 1)
    ensures InStep(launch, CreateJob(s, i), i) && InStep(launch, LinkJob(CreateJob(s, i), i), i)
  {
  }

  lemma EvaluateOk(launch: seq<StepExec>, s: RunState, i: nat, result: Launch)
    requires InStep(launch, s, i)
    ensures StepOk(launch, Evaluate(s, i, result), i)
  {
    hide InStep, StepOk, StepFails;
    StepFailsOk(launch, s, i);
    CompletedOk(launch, s, i);
    CancelledOk(launch, s, i);
  }

  lemma ExternalOk(launch: seq<StepExec>, s: RunState, i: nat, cancel: bool)
    requires InStep(launch, s, i)
    ensures InStep(launch, External(s, cancel), i)
  {
  }

  lemma ThreeMore(launch: seq<StepExec>, a: RunState, b: RunState, c: RunState, r: StepRun, i: nat)
    requires InStep(launch, a, i) && InStep(launch, b, i) && InStep(launch, c, i) && StepOk(launch, r, i)
    ensures StepOk(launch, StepRun([a, b, c] + r.states, r.stop), i)
  {
    InStepIsWellShaped(launch, a, i);
    InStepIsWellShaped(launch, b, i);
    InStepIsWellShaped(launch, c, i);
    hide WellShaped, InStep, StepOk;
    StepOkAfter(launch, [a, b, c], r, i);
  }

  lemma LaunchStepOk(launch: seq<StepExec>, s: RunState, i: nat, ev: Event)
    requires InStep(launch, s, i) && LaunchedUpTo(s, i - 1)
    ensures StepOk(launch, LaunchStep(s, i, ev), i)
  {
    var created := CreateJob(s, i);
    var linked := LinkJob(created, i);
    var returned := External(linked, ev.cancelDuring);
    hide InStep, StepOk, Evaluate, LaunchedUpTo;
    CreateAndLinkOk(launch, s, i);
    ExternalOk(launch, linked, i, ev.cancelDuring);
    EvaluateOk(launch, returned, i, ev.launch);
    ThreeMore(launch, created, linked, returned, Evaluate(returned, i, ev.launch), i);
  }

  lemma CompletedOk(launch: seq<StepExec>, s: RunState, i: nat)
    requires InStep(launch, s, i)
    ensures StepOk(launch, StepRun([SetStatus(s, i, Completed)], false), i)
  {
    assert SplitAt(launch, SetStatus(s, i, Completed).steps, i) && LaunchedUpTo(SetStatus(s, i, Completed), i);
  }

  lemma CancelledOk(launch: seq<StepExec>, s: RunState, i: nat)
    requires InStep(launch, s, i)
    ensures var skipped := SetStatus(s, i, Skipped);
            StepOk(launch, StepRun([skipped, skipped.(job := JobCancelled)], true), i)
  {
    var skipped := SetStatus(s, i, Skipped);
    assert SplitAt(launch, skipped.steps, i) && LaunchedUpTo(skipped, i);
    assert SplitAt(launch, skipped.(job := JobCancelled).steps, i) && LaunchedUpTo(skipped.(job := JobCancelled), i);
  }

  /** Cancelled at a boundary: the remaining pending steps become skipped. */
  lemma BoundaryCancelOk(launch: seq<StepExec>, now: RunState, i: nat)
    requires FreshRun(launch) && i < |launch| && AtBoundary(launch, now, i) && now.job == JobCancelled
    ensures StepOk(launch, StepRun([now, now.(steps := SkipPendingFrom(now.steps, i))], true), i)
  {
    var end := now.(steps := SkipPendingFrom(now.steps, i));
    assert SplitAt(launch, now.steps, i) && LaunchedUpTo(now, i);
    assert SplitAt(launch, end.steps, |launch|) && LaunchedUpTo(end, |launch|);
  }

  /** The thread dies before a playbook job is created. */
  lemma AbandonedOk(launch: seq<StepExec>, now: RunState, i: nat)
    requires InStep(launch, now, i) && LaunchedUpTo(now, i - 1) && now.job == JobRunning && now.steps[i] == launch[i]
    requires !launch[i].numeric && !Exempt(launch[i]) && ResolvePlaybookPath(launch[i]) != ""
    ensures StepOk(launch, StepRun([now, SetStatus(now, i, Running)], true), i)
  {
    var running := SetStatus(now, i, Running);
    assert SplitAt(launch, running.steps, i) && LaunchedUpTo(running, i);
    assert Abandoned(launch, running, i);
  }

  lemma RunningInStep(launch: seq<StepExec>, now: RunState, i: nat)
    requires InStep(launch, now, i) && LaunchedUpTo(now, i - 1)
    ensures var running := SetStatus(now, i, Running);
            && InStep(launch, running, i) && LaunchedUpTo(running, i - 1)
            && AllWellShaped(launch, [now, running])
  {
    var running := SetStatus(now, i, Running);
    InStepIsWellShaped(launch, now, i);
    InStepIsWellShaped(launch, running, i);
    hide WellShaped;
  }

  lemma PerformOk(launch: seq<StepExec>, now: RunState, i: nat, ev: Event)
    requires InStep(launch, now, i) && LaunchedUpTo(now, i - 1) && now.job == JobRunning
    requires now.steps[i] == launch[i] && !Exempt(launch[i])
    ensures StepOk(launch, Perform(now, i, ev), i)
  {
    var running := SetStatus(now, i, Running);
    hide InStep, StepOk, StepFails, LaunchStep, LaunchedUpTo, AllWellShaped;
    RunningInStep(launch, now, i);
    if ResolvePlaybookPath(now.steps[i]) == "" {
      StepFailsOk(launch, running, i);
      StepOkAfter(launch, [now, running], StepFails(running, i), i);
    } else if !now.steps[i].numeric {
      AbandonedOk(launch, now, i);
      assert [now, running] + [] == [now, running];
    } else {
      LaunchStepOk(launch, running, i, ev);
      StepOkAfter(launch, [now, running], LaunchStep(running, i, ev), i);
    }
  }

  lemma SkipOk(launch: seq<StepExec>, now: RunState, i: nat)
    requires InStep(launch, now, i) && LaunchedUpTo(now, i - 1) && Exempt(launch[i])
    ensures StepOk(launch, StepRun([now, SetStatus(now, i, Skipped)], false), i)
  {
    var skipped := SetStatus(now, i, Skipped);
    assert SplitAt(launch, skipped.steps, i) && LaunchedUpTo(skipped, i);
  }

  lemma AtBoundaryInStep(launch: seq<StepExec>, s: RunState, i: nat, cancel: bool)
    requires FreshRun(launch) && i < |launch| && AtBoundary(launch, s, i)
    ensures var now := External(s, cancel);
            && AtBoundary(launch, now, i) && InStep(launch, now, i) && LaunchedUpTo(now, i - 1)
            && now.job in {JobRunning, JobCancelled} && now.steps[i] == launch[i]
  {
  }

  lemma RunStepOk(launch: seq<StepExec>, s: RunState, i: nat, ev: Event)
    requires FreshRun(launch) && i < |launch| && AtBoundary(launch, s, i)
    ensures StepOk(launch, RunStep(s, i, ev), i)
  {
    var now := External(s, ev.cancelBefore);
    AtBoundaryInStep(launch, s, i, ev.cancelBefore);
    hide InStep, StepOk, Perform, AtBoundary, LaunchedUpTo;
    if now.job == JobCancelled {
      BoundaryCancelOk(launch, now, i);
    } else if now.steps[i].skipped || now.steps[i].status == Disabled {
      SkipOk(launch, now, i);
    } else {
      PerformOk(launch, now, i, ev);
    }
  }

  lemma ConcludeOk(launch: seq<StepExec>, s: RunState, cancel: bool)
    requires FreshRun(launch) && AtBoundary(launch, s, |launch|)
    ensures AllWellShaped(launch, Conclude(s, cancel)) && Ended(launch, Last(Conclude(s, cancel)))
  {
    var states := Conclude(s, cancel);
    forall x | 0 <= x < |states| ensures WellShaped(launch, states[x]) {
      assert SplitAt(launch, states[x].steps, |launch|) && LaunchedUpTo(states[x], |launch|);
    }
  }

  lemma WellShapedAppend(launch: seq<StepExec>, a: seq<RunState>, b: seq<RunState>)
    requires AllWellShaped(launch, a) && AllWellShaped(launch, b)
    ensures AllWellShaped(launch, a + b)
  {
  }

  lemma {:induction false} RunFromOk(
    launch: seq<StepExec>, history: seq<RunState>, s: RunState, i: nat, events: seq<Event>, lastCancel: bool)
    requires FreshRun(launch) && AtBoundary(launch, s, i) && |events| == |launch|
    requires AllWellShaped(launch, history)
    ensures AllWellShaped(launch, RunFrom(history, s, i, events, lastCancel))
    ensures EndedOrAbandoned(launch, Last(RunFrom(history, s, i, events, lastCancel)))
    decreases |launch| - i
  {
    hide WellShaped, Ended, Abandoned, AllWellShaped, RunStep, FreshRun;
    if i == |launch| {
      ConcludeOk(launch, s, lastCancel);
      WellShapedAppend(launch, history, Conclude(s, lastCancel));
    } else {
      RunStepOk(launch, s, i, events[i]);
      var r := RunStep(s, i, events[i]);
      WellShapedAppend(launch, history, r.states);
      if !r.stop {
        RunFromOk(launch, history + r.states, Last(r.states), i + 1, events, lastCancel);
      }
    }
  }

  // ── Whole runs ────────────────────────────────────────────────────────────

  /** The state when the worker thread starts. */
  predicate Launched(s: RunState) {
    FreshRun(s.steps) && s.launched == []
  }

  /**
   Every state a run commits splits into processed steps, at most one running step, and steps as launched.
   The run ends with a terminal status: completed only if every step completed or was exempt at launch, failed only
   if a step failed or Ansible is absent or disabled; and nothing runs after a failed step whose policy is to stop.
   Only a step whose parameters are not numbers can leave the job running.
   */
  lemma RunbookRunIsOrderly(s: RunState, configured: bool, events: seq<Event>, lastCancel: bool)
    requires Launched(s) && |events| == |s.steps|
    ensures var states := Commits(s, configured, events, lastCancel);
            && AllWellShaped(s.steps, states)
            && (if configured then EndedOrAbandoned(s.steps, Last(states))
                else Last(states) == s.(job := JobFailed))
  {
    var running := s.(job := JobRunning);
    assert AtBoundary(s.steps, running, 0);
    assert SplitAt(s.steps, running.steps, 0) && LaunchedUpTo(running, 0);
    assert SplitAt(s.steps, FailJob(running).steps, 0) && LaunchedUpTo(FailJob(running), 0);
    assert WellShaped(s.steps, running) && WellShaped(s.steps, FailJob(running));
    hide WellShaped, Ended, Abandoned, RunFrom, AtBoundary;
    RunFromOk(s.steps, [running], running, 0, events, lastCancel);
  }

  /** A run ends exactly when no step is left running, and always if every step's parameters are numbers. */
  lemma RunEndsExactlyUnlessAbandoned(s: RunState, events: seq<Event>, lastCancel: bool)
    requires Launched(s) && |events| == |s.steps|
    ensures var end := Last(Commits(s, true, events, lastCancel));
            && |end.steps| == |s.steps|
            && (Ended(s.steps, end) <==> end.job != JobRunning)
            && (end.job == JobRunning <==> exists j :: 0 <= j < |end.steps| && end.steps[j].status == Running)
            && (forall j :: 0 <= j < |end.steps| && end.steps[j].status == Running ==> !s.steps[j].numeric)
  {
    RunbookRunIsOrderly(s, true, events, lastCancel);
    var end := Last(Commits(s, true, events, lastCancel));
    hide Commits;
    if !Ended(s.steps, end) {
      var i: nat :| Abandoned(s.steps, end, i);
      assert end.steps[i].status == Running;
    }
  }

  /** One run that does not end: the only step's parameters are not numbers, and the job stays running. */
  lemma RunCanBeAbandoned()
    ensures var step := StepExec(1, "playbook", "a.yml", "", false, "stop", false, Pending, None);
            var s := RunState(JobPending, [step], []);
            var end := Last(Commits(s, true, [Event(false, false, Raised)], false));
            Launched(s) && end == RunState(JobRunning, [step.(status := Running)], [])
  {
    var step := StepExec(1, "playbook", "a.yml", "", false, "stop", false, Pending, None);
    var s := RunState(JobPending, [step], []);
    var events := [Event(false, false, Raised)];
    var running := s.(job := JobRunning);
    assert RunStep(running, 0, events[0]) == StepRun([running, SetStatus(running, 0, Running)], true);
    RunFromNext([running], running, 0, events, false);
    assert Last([running] + [running, SetStatus(running, 0, Running)]) == SetStatus(running, 0, Running);
  }

  /** With Ansible available, a job that ended without a cancellation in force failed exactly when a step did. */
  lemma FailedExactlyWhenAStepFailed(s: RunState, events: seq<Event>, lastCancel: bool)
    requires Launched(s) && |events| == |s.steps|
    ensures var end := Last(Commits(s, true, events, lastCancel));
            end.job !in {JobCancelled, JobRunning} ==> (end.job == JobFailed <==> AnyFailed(end.steps))
  {
    RunEndsExactlyUnlessAbandoned(s, events, lastCancel);
  }

  // ── Cancellations ─────────────────────────────────────────────────────────

  predicate Cancelled(states: seq<RunState>) {
    exists x :: 0 <= x < |states| && states[x].job == JobCancelled
  }

  /** A step failed whose policy is to stop. */
  predicate StoppingFailure(steps: seq<StepExec>) {
    exists j :: 0 <= j < |steps| && steps[j].status == Failed && steps[j].onFailure == "stop"
  }

  /** A cancellation in force before or in the states is so at their end, or a stopping failure ended the run. */
  predicate KeptUnlessStopped(before: bool, states: seq<RunState>, stop: bool)
    requires states != []
  {
    before || Cancelled(states) ==>
      Last(states).job == JobCancelled || (stop && StoppingFailure(Last(states).steps))
  }

  lemma StepFailsCancelled(s: RunState, i: nat)
    requires i < |s.steps|
    ensures var r := StepFails(s, i); KeptUnlessStopped(s.job == JobCancelled, r.states, r.stop)
  {
    var failed := SetStatus(s, i, Failed);
    assert FailJob(failed).steps[i].status == Failed && failed.steps[i].onFailure == s.steps[i].onFailure;
  }

  lemma EvaluateCancelled(s: RunState, i: nat, launch: Launch)
    requires i < |s.steps|
    ensures var r := Evaluate(s, i, launch); KeptUnlessStopped(s.job == JobCancelled, r.states, r.stop)
  {
    StepFailsCancelled(s, i);
    hide StepFails;
  }

  /** What a step commits first counts as well, if a cancellation in it is still in force afterwards. */
  lemma KeptAfter(before: seq<RunState>, s: RunState, r: StepRun)
    requires r.states != [] && KeptUnlessStopped(s.job == JobCancelled, r.states, r.stop)
    requires Cancelled(before) ==> s.job == JobCancelled
    ensures KeptUnlessStopped(s.job == JobCancelled, before + r.states, r.stop)
  {
    assert Last(before + r.states) == Last(r.states);
  }

  lemma RunStepCancelled(s: RunState, i: nat, ev: Event)
    requires i < |s.steps|
    ensures var r := RunStep(s, i, ev); KeptUnlessStopped(s.job == JobCancelled, r.states, r.stop)
  {
    var now := External(s, ev.cancelBefore);
    if now.job != JobCancelled && !now.steps[i].skipped && now.steps[i].status != Disabled {
      var running := SetStatus(now, i, Running);
      if ResolvePlaybookPath(now.steps[i]) == "" {
        StepFailsCancelled(running, i);
        KeptAfter([now, running], running, StepFails(running, i));
      } else if now.steps[i].numeric {
        var created := CreateJob(running, i);
        var linked := LinkJob(created, i);
        var returned := External(linked, ev.cancelDuring);
        var rest := Evaluate(returned, i, ev.launch);
        EvaluateCancelled(returned, i, ev.launch);
        hide Evaluate, StepFails;
        KeptAfter([created, linked, returned], returned, rest);
        assert [now, running] + ([created, linked, returned] + rest.states)
            == [now, running, created, linked, returned] + rest.states;
        KeptAfter([now, running, created, linked, returned], returned, rest);
      }
    }
  }

  lemma {:induction false} RunFromCancelled(
    launch: seq<StepExec>, history: seq<RunState>, s: RunState, i: nat, events: seq<Event>, lastCancel: bool)
    requires FreshRun(launch) && AtBoundary(launch, s, i) && |events| == |launch|
    requires Cancelled(history) ==> s.job == JobCancelled
    ensures KeptUnlessStopped(s.job == JobCancelled, RunFrom(history, s, i, events, lastCancel), true)
    decreases |launch| - i
  {
    hide Ended, RunStep, AllWellShaped, SplitAt, LaunchedUpTo, StoppingFailure, FreshRun;
    if i == |launch| {
      KeptAfter(history, s, StepRun(Conclude(s, lastCancel), true));
    } else {
      RunStepOk(launch, s, i, events[i]);
      RunStepCancelled(s, i, events[i]);
      var r := RunStep(s, i, events[i]);
      KeptAfter(history, s, r);
      if !r.stop {
        assert Cancelled(history + r.states) ==> Last(r.states).job == JobCancelled;
        RunFromCancelled(launch, history + r.states, Last(r.states), i + 1, events, lastCancel);
      }
    }
  }

  lemma AbandonedHasNoStoppingFailure(launch: seq<StepExec>, s: RunState, i: nat)
    requires Abandoned(launch, s, i)
    ensures !StoppingFailure(s.steps)
  {
    forall j | 0 <= j < |s.steps| && s.steps[j].onFailure == "stop" ensures s.steps[j].status != Failed {
      assert SameStep(launch[j], s.steps[j]);
    }
  }

  lemma StoppingFailureFailsJob(launch: seq<StepExec>, end: RunState)
    requires EndedOrAbandoned(launch, end) && StoppingFailure(end.steps)
    ensures end.job == JobFailed
  {
    hide Abandoned;
    if i: nat :| Abandoned(launch, end, i) {
      AbandonedHasNoStoppingFailure(launch, end, i);
      assert false;
    } else {
      var j :| 0 <= j < |end.steps| && end.steps[j].status == Failed && end.steps[j].onFailure == "stop";
      assert SameStep(launch[j], end.steps[j]);
    }
  }

  /**
   A cancellation that was in force at any moment of a run is lost exactly when a step failed whose policy is to stop:
   the job's failure then overwrites it.
   */
  lemma CancellationIsLostExactlyByStoppingFailure(s: RunState, events: seq<Event>, lastCancel: bool)
    requires Launched(s) && |events| == |s.steps|
    requires Cancelled(Commits(s, true, events, lastCancel))
    ensures var end := Last(Commits(s, true, events, lastCancel));
            end.job == if StoppingFailure(end.steps) then JobFailed else JobCancelled
  {
    var running := s.(job := JobRunning);
    assert AtBoundary(s.steps, running, 0);
    RunbookRunIsOrderly(s, true, events, lastCancel);
    var states := Commits(s, true, events, lastCancel);
    RunFromCancelled(s.steps, [running], running, 0, events, lastCancel);
    hide Commits, RunFrom, EndedOrAbandoned, StoppingFailure, AtBoundary;
    if StoppingFailure(Last(states).steps) {
      StoppingFailureFailsJob(s.steps, Last(states));
    }
  }

  /** One run that loses a cancellation: it is written while the only step runs, and that step fails. */
  lemma CancellationCanBeLost()
    ensures var step := StepExec(1, "playbook", "a.yml", "", true, "stop", false, Pending, None);
            var s := RunState(JobPending, [step], []);
            var states := Commits(s, true, [Event(false, true, Raised)], false);
            Launched(s) && Cancelled(states) && Last(states).job == JobFailed
  {
    var step := StepExec(1, "playbook", "a.yml", "", true, "stop", false, Pending, None);
    var s := RunState(JobPending, [step], []);
    var states := Commits(s, true, [Event(false, true, Raised)], false);
    var running := s.(job := JobRunning);
    var linked := LinkJob(CreateJob(SetStatus(running, 0, Running), 0), 0);
    var failed := SetStatus(External(linked, true), 0, Failed);
    assert states == [running, running, SetStatus(running, 0, Running), CreateJob(SetStatus(running, 0, Running), 0),
                      linked, External(linked, true), failed, FailJob(failed)];
    assert states[5].job == JobCancelled;
  }

  // ── The snapshot and completed runs ───────────────────────────────────────

  /** The snapshot can be run. */
  lemma {:induction false} SnapshotIsFresh(defs: seq<StepDef>, skippedIds: set<nat>)
    ensures FreshRun(Snapshot(defs, skippedIds))
  {
    if defs != [] {
      SnapshotIsFresh(defs[1..], skippedIds);
    }
  }

  lemma {:induction false} EnabledStepIsSnapshotted(defs: seq<StepDef>, skippedIds: set<nat>, d: StepDef)
    requires d in defs && d.isEnabled
    ensures SnapshotStep(d, skippedIds) in Snapshot(defs, skippedIds)
  {
    if d != defs[0] {
      EnabledStepIsSnapshotted(defs[1..], skippedIds, d);
    }
  }

  /** Whatever the operator asked to skip, a run that ends completed has completed every required enabled step. */
  lemma RequiredStepsAreCompleted(
    defs: seq<StepDef>, skippedIds: set<nat>, events: seq<Event>, lastCancel: bool, d: StepDef)
    requires |events| == |Snapshot(defs, skippedIds)|
    requires d in defs && d.isEnabled && d.isRequired
    ensures var s := RunState(JobPending, Snapshot(defs, skippedIds), []);
            var end := Last(Commits(s, true, events, lastCancel));
            end.job == JobCompleted ==>
              exists j :: 0 <= j < |end.steps| && end.steps[j].stepId == d.id && end.steps[j].status == Completed
  {
    var s := RunState(JobPending, Snapshot(defs, skippedIds), []);
    SnapshotIsFresh(defs, skippedIds);
    EnabledStepIsSnapshotted(defs, skippedIds, d);
    RunbookRunIsOrderly(s, true, events, lastCancel);
    var end := Last(Commits(s, true, events, lastCancel));
    hide Commits;
    var j :| 0 <= j < |s.steps| && s.steps[j] == SnapshotStep(d, skippedIds);
    assert SameStep(s.steps[j], end.steps[j]);
  }
}
