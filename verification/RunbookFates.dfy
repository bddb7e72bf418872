/**
 What becomes of every step of a runbook job, told from its launch rows, the outcomes of its playbook jobs and the
 cancellations alone.
 */
module RunbookFates {
  import opened Options
  import opened Runbooks
  import opened RunbookLaws
  import PlaybookJobs

  // ── The fate of a step ────────────────────────────────────────────────────

  predicate PassedOver(l: StepExec) {
    l.skipped || l.status == Disabled
  }

  predicate HasPath(l: StepExec) {
    || (l.stepType == "playbook" && l.playbookPath != "")
    || (l.stepType == "template" && l.templatePath != "")
  }

  /** Once started, the step gets a playbook job. */
  predicate Launches(l: StepExec) {
    !PassedOver(l) && HasPath(l) && l.numeric
  }

  /** Cancellations aside, the run goes on after the step. */
  predicate GoesOn(l: StepExec, ev: Event) {
    || PassedOver(l)
    || (!HasPath(l) && l.onFailure != "stop")
    || (HasPath(l) && l.numeric && ev.launch == Returned(PlaybookJobs.Completed))
    || (HasPath(l) && l.numeric && ev.launch != Returned(PlaybookJobs.Cancelled) && l.onFailure != "stop")
  }

  /** A cancellation was written while some playbook job before step i ran. */
  predicate CancelledDuring(launch: seq<StepExec>, events: seq<Event>, i: nat)
    requires i <= |launch| == |events|
  {
    exists j :: 0 <= j < i && events[j].cancelDuring && Launches(launch[j])
  }

  /** A cancellation is seen at the boundary of step i, should the run reach it. */
  predicate CancelledBy(launch: seq<StepExec>, events: seq<Event>, i: nat)
    requires i < |launch| == |events|
  {
    (exists j :: 0 <= j <= i && events[j].cancelBefore) || CancelledDuring(launch, events, i)
  }

  predicate Reached(launch: seq<StepExec>, events: seq<Event>, i: nat)
    requires i <= |launch| == |events|
  {
    forall j :: 0 <= j < i ==> GoesOn(launch[j], events[j]) && !CancelledBy(launch, events, j)
  }

  predicate Started(launch: seq<StepExec>, events: seq<Event>, i: nat)
    requires i < |launch| == |events|
  {
    Reached(launch, events, i) && !CancelledBy(launch, events, i) && !PassedOver(launch[i])
  }

  /** The run is cancelled at the boundary of step k. */
  predicate CancelledAt(launch: seq<StepExec>, events: seq<Event>, k: nat)
    requires k < |launch| == |events|
  {
    Reached(launch, events, k) && CancelledBy(launch, events, k)
  }

  /** The status step i ends with. */
  function Fate(launch: seq<StepExec>, events: seq<Event>, i: nat): StepStatus
    requires i < |launch| == |events|
  {
    if Started(launch, events, i) then
      if !HasPath(launch[i]) then Failed
      else if !launch[i].numeric then Running
      else if events[i].launch == Returned(PlaybookJobs.Completed) then Completed
      else if events[i].launch == Returned(PlaybookJobs.Cancelled) then Skipped
      else Failed
    else if Reached(launch, events, i) && !CancelledBy(launch, events, i) then Skipped
    else if (exists k :: 0 <= k <= i && CancelledAt(launch, events, k)) && launch[i].status == Pending then Skipped
    else launch[i].status
  }

  /** How the run comes to be cancelled. */
  predicate EndsCancelled(launch: seq<StepExec>, events: seq<Event>, lastCancel: bool)
    requires |launch| == |events|
  {
    || (exists k :: 0 <= k < |launch| && CancelledAt(launch, events, k))
    || (exists k :: 0 <= k < |launch| && Started(launch, events, k) && Launches(launch[k])
                    && events[k].launch == Returned(PlaybookJobs.Cancelled))
    || (Reached(launch, events, |launch|) && (lastCancel || CancelledDuring(launch, events, |launch|)))
  }

  predicate Told(launch: seq<StepExec>, events: seq<Event>, s: RunState, i: nat)
    requires i < |launch| == |events| == |s.steps|
  {
    && s.steps[i].status == Fate(launch, events, i)
    && (s.steps[i].playbookJob.Some? <==> Started(launch, events, i) && Launches(launch[i]))
  }

  // ── One step ──────────────────────────────────────────────────────────────

  /** The last state a step commits, and whether the run ends there. */
  lemma StepIsExact(s: RunState, i: nat, ev: Event)
    requires i < |s.steps| && s.job in {JobRunning, JobCancelled}
    ensures var r, l := RunStep(s, i, ev), s.steps[i]; var end := Last(r.states);
            && |end.steps| == |s.steps|
            && (if s.job == JobCancelled || ev.cancelBefore then
                  && r.stop && end.job == JobCancelled
                  && forall j :: 0 <= j < |s.steps| ==>
                       end.steps[j] == if j >= i && s.steps[j].status == Pending then s.steps[j].(status := Skipped)
                                       else s.steps[j]
                else
                  && (r.stop <==> !GoesOn(l, ev))
                  && (forall j :: 0 <= j < |s.steps| && j != i ==> end.steps[j] == s.steps[j])
                  && end.steps[i].status == (if PassedOver(l) then Skipped else if !HasPath(l) then Failed
                                             else if !l.numeric then Running
                                             else if ev.launch == Returned(PlaybookJobs.Completed) then Completed
                                             else if ev.launch == Returned(PlaybookJobs.Cancelled) then Skipped
                                             else Failed)
                  && (end.steps[i].playbookJob == if Launches(l) then Some(|s.launched|) else l.playbookJob)
                  && end.job == (if Launches(l) && ev.launch == Returned(PlaybookJobs.Cancelled) then JobCancelled
                                 else if !PassedOver(l) && (!HasPath(l) || l.numeric) && !GoesOn(l, ev) then JobFailed
                                 else if Launches(l) && ev.cancelDuring then JobCancelled
                                 else JobRunning))
  {
    var now := External(s, ev.cancelBefore);
    if now.job != JobCancelled && Launches(s.steps[i]) {
      LaunchIsExact(SetStatus(now, i, Running), i, ev);
      hide LaunchStep;
    }
  }

  /** The last state of a launch. */
  lemma LaunchIsExact(s: RunState, i: nat, ev: Event)
    requires i < |s.steps| && s.job == JobRunning
    ensures var r, l := LaunchStep(s, i, ev), s.steps[i]; var end := Last(r.states);
            && r.states != [] && |end.steps| == |s.steps|
            && (forall j :: 0 <= j < |s.steps| && j != i ==> end.steps[j] == s.steps[j])
            && end.steps[i].status == (if ev.launch == Returned(PlaybookJobs.Completed) then Completed
                                       else if ev.launch == Returned(PlaybookJobs.Cancelled) then Skipped else Failed)
            && end.steps[i].playbookJob == Some(|s.launched|)
            && (r.stop <==> ev.launch != Returned(PlaybookJobs.Completed)
                            && (ev.launch == Returned(PlaybookJobs.Cancelled) || l.onFailure == "stop"))
            && end.job == (if ev.launch == Returned(PlaybookJobs.Cancelled) then JobCancelled
                           else if r.stop then JobFailed
                           else if ev.cancelDuring then JobCancelled else JobRunning)
  {
    var returned := External(LinkJob(CreateJob(s, i), i), ev.cancelDuring);
    var rest := Evaluate(returned, i, ev.launch);
    assert Last([CreateJob(s, i), LinkJob(CreateJob(s, i), i), returned] + rest.states) == Last(rest.states);
  }

  // ── Facts about reaching ──────────────────────────────────────────────────

  lemma ReachedNext(launch: seq<StepExec>, events: seq<Event>, i: nat)
    requires i < |launch| == |events| && Reached(launch, events, i)
    ensures Reached(launch, events, i + 1) <==> GoesOn(launch[i], events[i]) && !CancelledBy(launch, events, i)
  {
    hide GoesOn, CancelledBy;
  }

  lemma NothingAfter(launch: seq<StepExec>, events: seq<Event>, i: nat, j: nat)
    requires i < j < |launch| == |events| && Reached(launch, events, i)
    requires !GoesOn(launch[i], events[i]) || CancelledBy(launch, events, i)
    ensures !Reached(launch, events, j)
    ensures (exists k :: 0 <= k <= j && CancelledAt(launch, events, k)) <==> CancelledBy(launch, events, i)
  {
    hide GoesOn, CancelledBy;
    if CancelledBy(launch, events, i) {
      assert CancelledAt(launch, events, i);
    }
  }

  /** At a boundary that the run reaches, a cancellation is new or was written during the last playbook job. */
  lemma CancelledHere(launch: seq<StepExec>, events: seq<Event>, i: nat)
    requires i < |launch| == |events| && Reached(launch, events, i)
    ensures CancelledBy(launch, events, i) <==> events[i].cancelBefore || CancelledDuring(launch, events, i)
  {
    hide GoesOn, CancelledDuring;
    forall j | 0 <= j < i ensures !events[j].cancelBefore {
      assert !CancelledBy(launch, events, j);
    }
  }

  lemma DuringNext(launch: seq<StepExec>, events: seq<Event>, i: nat)
    requires i < |launch| == |events|
    ensures CancelledDuring(launch, events, i + 1)
            <==> CancelledDuring(launch, events, i) || (events[i].cancelDuring && Launches(launch[i]))
  {
    hide Launches;
  }

  // ── Whole runs ────────────────────────────────────────────────────────────

  /** What holds when the run reaches the boundary of step i. */
  predicate ToldBefore(launch: seq<StepExec>, events: seq<Event>, s: RunState, i: nat)
    requires i <= |launch| == |events|
  {
    && |s.steps| == |launch| && Reached(launch, events, i)
    && s.job == (if CancelledDuring(launch, events, i) then JobCancelled else JobRunning)
    && (forall j :: 0 <= j < i ==> Told(launch, events, s, j))
    && (forall j :: i <= j < |launch| ==> s.steps[j] == launch[j])
  }

  predicate AllTold(launch: seq<StepExec>, events: seq<Event>, lastCancel: bool, s: RunState)
    requires |launch| == |events|
  {
    && |s.steps| == |launch|
    && (forall j :: 0 <= j < |launch| ==> Told(launch, events, s, j))
    && (s.job == JobCancelled <==> EndsCancelled(launch, events, lastCancel))
  }

  lemma CancelledAtBoundary(
    launch: seq<StepExec>, events: seq<Event>, lastCancel: bool, s: RunState, end: RunState, i: nat)
    requires FreshRun(launch) && i < |launch| == |events| && ToldBefore(launch, events, s, i)
    requires CancelledBy(launch, events, i)
    requires end.job == JobCancelled && |end.steps| == |s.steps|
    requires forall j :: 0 <= j < |s.steps| ==>
               end.steps[j] == if j >= i && s.steps[j].status == Pending then s.steps[j].(status := Skipped)
                               else s.steps[j]
    ensures AllTold(launch, events, lastCancel, end)
  {
    hide CancelledBy, GoesOn;
    assert CancelledAt(launch, events, i);
    forall j | 0 <= j < |launch| ensures Told(launch, events, end, j) {
      if j < i {
        assert Told(launch, events, s, j);
        EarlierIsDecided(launch, events, s, i, j);
      } else {
        if j > i { NothingAfter(launch, events, i, j); }
        assert Fresh(launch[j]);
      }
    }
  }

  /** A step the run has passed is not pending any more. */
  lemma EarlierIsDecided(launch: seq<StepExec>, events: seq<Event>, s: RunState, i: nat, j: nat)
    requires j < i <= |launch| == |events| && ToldBefore(launch, events, s, i)
    ensures s.steps[j].status != Pending
  {
    assert Told(launch, events, s, j);
    hide GoesOn, CancelledBy;
  }

  lemma StoppedHere(
    launch: seq<StepExec>, events: seq<Event>, lastCancel: bool, s: RunState, end: RunState, i: nat)
    requires FreshRun(launch) && i < |launch| == |events| && ToldBefore(launch, events, s, i)
    requires !CancelledBy(launch, events, i) && !GoesOn(launch[i], events[i])
    requires |end.steps| == |s.steps| && forall j :: 0 <= j < |s.steps| && j != i ==> end.steps[j] == s.steps[j]
    requires Told(launch, events, end, i)
    requires end.job == JobCancelled <==> Launches(launch[i]) && events[i].launch == Returned(PlaybookJobs.Cancelled)
    ensures AllTold(launch, events, lastCancel, end)
  {
    hide CancelledBy, CancelledDuring, FreshRun;
    forall j | 0 <= j < |launch| ensures Told(launch, events, end, j) {
      if j < i {
        assert Told(launch, events, s, j);
      } else if j > i {
        NothingAfter(launch, events, i, j);
        assert Fresh(launch[j]) by { FreshAt(launch, j); }
      }
    }
    assert Started(launch, events, i);
    OnlyThisStepCancels(launch, events, i);
  }

  lemma FreshAt(launch: seq<StepExec>, j: nat)
    requires FreshRun(launch) && j < |launch|
    ensures Fresh(launch[j])
  {
  }

  lemma OnlyThisStepCancels(launch: seq<StepExec>, events: seq<Event>, i: nat)
    requires i < |launch| == |events| && Reached(launch, events, i)
    requires !CancelledBy(launch, events, i) && !GoesOn(launch[i], events[i])
    ensures forall k :: 0 <= k < |launch| ==> !CancelledAt(launch, events, k)
    ensures forall k :: 0 <= k < |launch| && k != i && Started(launch, events, k) && Launches(launch[k]) ==>
              events[k].launch != Returned(PlaybookJobs.Cancelled)
    ensures !Reached(launch, events, |launch|)
  {
    hide CancelledBy;
    forall k | 0 <= k < |launch| && k > i ensures !Reached(launch, events, k) {
      NothingAfter(launch, events, i, k);
    }
  }

  lemma PassedHere(launch: seq<StepExec>, events: seq<Event>, s: RunState, end: RunState, i: nat)
    requires FreshRun(launch) && i < |launch| == |events| && ToldBefore(launch, events, s, i)
    requires !CancelledBy(launch, events, i) && GoesOn(launch[i], events[i])
    requires |end.steps| == |s.steps| && forall j :: 0 <= j < |s.steps| && j != i ==> end.steps[j] == s.steps[j]
    requires Told(launch, events, end, i)
    requires end.job == if Launches(launch[i]) && events[i].cancelDuring then JobCancelled else JobRunning
    ensures ToldBefore(launch, events, end, i + 1)
  {
    CancelledHere(launch, events, i);
    ReachedNext(launch, events, i);
    DuringNext(launch, events, i);
    hide CancelledBy, CancelledDuring, GoesOn, Launches, FreshRun, Reached;
    forall j | 0 <= j < i + 1 ensures Told(launch, events, end, j) {
      if j < i {
        assert Told(launch, events, s, j);
      }
    }
  }

  lemma StepTells(launch: seq<StepExec>, events: seq<Event>, lastCancel: bool, s: RunState, i: nat)
    requires FreshRun(launch) && i < |launch| == |events| && ToldBefore(launch, events, s, i)
    ensures var r := RunStep(s, i, events[i]);
            if r.stop then AllTold(launch, events, lastCancel, Last(r.states))
            else ToldBefore(launch, events, Last(r.states), i + 1)
  {
    var r := RunStep(s, i, events[i]);
    var end := Last(r.states);
    assert s.steps[i] == launch[i] && Fresh(launch[i]);
    StepIsExact(s, i, events[i]);
    CancelledHere(launch, events, i);
    hide RunStep, CancelledDuring, FreshRun, Reached;
    if CancelledBy(launch, events, i) {
      CancelledAtBoundary(launch, events, lastCancel, s, end, i);
    } else {
      assert Told(launch, events, end, i) by { hide CancelledBy, GoesOn; }
      if r.stop {
        StoppedHere(launch, events, lastCancel, s, end, i);
      } else {
        PassedHere(launch, events, s, end, i);
      }
    }
  }

  lemma ConclusionTells(launch: seq<StepExec>, events: seq<Event>, lastCancel: bool, s: RunState)
    requires |launch| == |events| && ToldBefore(launch, events, s, |launch|)
    ensures AllTold(launch, events, lastCancel, Last(Conclude(s, lastCancel)))
  {
    var end := Last(Conclude(s, lastCancel));
    assert end.steps == s.steps;
    forall j | 0 <= j < |launch| ensures Told(launch, events, end, j) {
      assert Told(launch, events, s, j);
    }
    hide Fate, Told, CancelledDuring, CancelledBy;
  }

  lemma {:induction false} RunTells(
    launch: seq<StepExec>, history: seq<RunState>, s: RunState, i: nat, events: seq<Event>, lastCancel: bool)
    requires FreshRun(launch) && i <= |launch| == |events| && ToldBefore(launch, events, s, i)
    ensures AllTold(launch, events, lastCancel, Last(RunFrom(history, s, i, events, lastCancel)))
    decreases |launch| - i
  {
    hide FreshRun, AllTold, RunStep;
    RunFromNext(history, s, i, events, lastCancel);
    if i == |launch| {
      ConclusionTells(launch, events, lastCancel, s);
    } else {
      StepTells(launch, events, lastCancel, s, i);
      var r := RunStep(s, i, events[i]);
      if !r.stop {
        RunTells(launch, history + r.states, Last(r.states), i + 1, events, lastCancel);
      }
    }
  }

  /**
   In every run each step ends with its fate, is linked to a playbook job exactly if it was started with a path and
   numbers, and the job ends cancelled exactly for one of the three reasons.
   */
  lemma EveryStepMeetsItsFate(s: RunState, events: seq<Event>, lastCancel: bool)
    requires Launched(s) && |events| == |s.steps|
    ensures AllTold(s.steps, events, lastCancel, Last(Commits(s, true, events, lastCancel)))
  {
    var running := s.(job := JobRunning);
    assert ToldBefore(s.steps, events, running, 0);
    RunTells(s.steps, [running], running, 0, events, lastCancel);
  }

  // ── What the fates say ────────────────────────────────────────────────────

  /** A step is completed exactly if it was given a playbook job and that completed. */
  lemma CompletedExactlyWithItsPlaybook(s: RunState, events: seq<Event>, lastCancel: bool, j: nat)
    requires Launched(s) && j < |events| == |s.steps|
    ensures var end := Last(Commits(s, true, events, lastCancel));
            |end.steps| == |s.steps| &&
            (end.steps[j].status == Completed <==>
               end.steps[j].playbookJob.Some? && events[j].launch == Returned(PlaybookJobs.Completed))
  {
    EveryStepMeetsItsFate(s, events, lastCancel);
    var end := Last(Commits(s, true, events, lastCancel));
    hide Commits, Started, Reached, CancelledAt, EndsCancelled;
    assert Told(s.steps, events, end, j) && Fresh(s.steps[j]);
  }

  /**
   A step has failed exactly if the run reached it uncancelled and it had no path, or its playbook job raised or ended
   neither completed nor cancelled.
   */
  lemma FailedExactlyWithItsPlaybook(s: RunState, events: seq<Event>, lastCancel: bool, j: nat)
    requires Launched(s) && j < |events| == |s.steps|
    ensures var end := Last(Commits(s, true, events, lastCancel));
            |end.steps| == |s.steps| &&
            (end.steps[j].status == Failed <==>
               Started(s.steps, events, j) &&
               (!HasPath(s.steps[j])
                || (s.steps[j].numeric
                    && events[j].launch !in {Returned(PlaybookJobs.Completed), Returned(PlaybookJobs.Cancelled)})))
  {
    EveryStepMeetsItsFate(s, events, lastCancel);
    var end := Last(Commits(s, true, events, lastCancel));
    hide Commits, Started, Reached, CancelledAt, EndsCancelled;
    assert Told(s.steps, events, end, j) && Fresh(s.steps[j]);
  }

  /** If a runbook job is completed, the playbook job of every required enabled step has completed. */
  lemma CompletedRunRanEveryRequiredStep(
    defs: seq<StepDef>, skippedIds: set<nat>, events: seq<Event>, lastCancel: bool, d: StepDef)
    requires |events| == |Snapshot(defs, skippedIds)| && d in defs && d.isEnabled && d.isRequired
    ensures var end := Last(Commits(RunState(JobPending, Snapshot(defs, skippedIds), []), true, events, lastCancel));
            end.job == JobCompleted ==>
              exists j :: 0 <= j < |end.steps| && j < |events| && end.steps[j].stepId == d.id
                          && end.steps[j].playbookJob.Some? && events[j].launch == Returned(PlaybookJobs.Completed)
  {
    var s := RunState(JobPending, Snapshot(defs, skippedIds), []);
    var end := Last(Commits(s, true, events, lastCancel));
    SnapshotIsFresh(defs, skippedIds);
    RequiredStepsAreCompleted(defs, skippedIds, events, lastCancel, d);
    if end.job == JobCompleted {
      var j :| 0 <= j < |end.steps| && end.steps[j].stepId == d.id && end.steps[j].status == Completed;
      EveryStepMeetsItsFate(s, events, lastCancel);
      CompletedExactlyWithItsPlaybook(s, events, lastCancel, j);
    }
  }

  /** The snapshot looks at one defined step at a time. */
  lemma {:induction false} SnapshotIsPerStep(a: seq<StepDef>, d: StepDef, b: seq<StepDef>, skippedIds: set<nat>)
    ensures var out := d.id in skippedIds && !d.isRequired;
            var row := StepExec(d.id, d.stepType, d.playbookPath, d.templatePath, d.numeric, d.onFailure, out,
                                if out then Skipped else Pending, None);
            Snapshot(a + [d] + b, skippedIds)
            == Snapshot(a, skippedIds) + (if d.isEnabled then [row] else []) + Snapshot(b, skippedIds)
  {
    if a == [] {
      assert (a + [d] + b)[0] == d && (a + [d] + b)[1..] == b;
    } else {
      assert (a + [d] + b)[0] == a[0] && (a + [d] + b)[1..] == a[1..] + [d] + b;
      SnapshotIsPerStep(a[1..], d, b, skippedIds);
      hide SnapshotStep;
    }
  }
}
