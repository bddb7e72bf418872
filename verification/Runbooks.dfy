/**
 Execution of one runbook job: its steps run one after the other, each through a playbook job, under a failure
 policy per step, with operator skips and with cancellations that another session may write at any time.
 */
module Runbooks {
  import opened Options
  import PlaybookJobs

  datatype StepStatus = Pending | Running | Completed | Failed | Skipped | Disabled

  datatype JobStatus = JobPending | JobRunning | JobCompleted | JobFailed | JobCancelled

  /**
   A step as snapshotted at launch, with its runtime state; `numeric` says that the forks and verbosity among its
   parameters are integers.
   */
  datatype StepExec = StepExec(
    stepId: nat, stepType: string, playbookPath: string, templatePath: string, numeric: bool, onFailure: string,
    skipped: bool, status: StepStatus, playbookJob: Option<nat>)

  /** The committed state: the job's status, its steps, and the step each playbook job was created for. */
  datatype RunState = RunState(job: JobStatus, steps: seq<StepExec>, launched: seq<nat>)

  datatype Launch = Raised | Returned(status: PlaybookJobs.Status)

  /** What happens around one step: cancellations written before its boundary check or while it runs, and its launch. */
  datatype Event = Event(cancelBefore: bool, cancelDuring: bool, launch: Launch)

  function ResolvePlaybookPath(step: StepExec): string {
    if step.stepType == "playbook" then step.playbookPath
    else if step.stepType == "template" then step.templatePath
    else ""
  }

  // ── What one run commits, state by state ──────────────────────────────────

  /** Another session cancels the job while it is running. */
  function External(s: RunState, cancel: bool): RunState {
    if cancel && s.job == JobRunning then s.(job := JobCancelled) else s
  }

  function SetStatus(s: RunState, i: nat, status: StepStatus): RunState
    requires i < |s.steps|
  {
    s.(steps := s.steps[i := s.steps[i].(status := status)])
  }

  function FailJob(s: RunState): RunState {
    s.(job := JobFailed)
  }

  /** Create the playbook job, then link it to the step. */
  function CreateJob(s: RunState, i: nat): RunState {
    s.(launched := s.launched + [i])
  }

  function LinkJob(s: RunState, i: nat): RunState
    requires i < |s.steps| && s.launched != []
  {
    s.(steps := s.steps[i := s.steps[i].(playbookJob := Some(|s.launched| - 1))])
  }

  function SkipPendingFrom(steps: seq<StepExec>, i: nat): seq<StepExec> {
    seq(|steps|, j requires 0 <= j < |steps| =>
      if j >= i && steps[j].status == Pending then steps[j].(status := Skipped) else steps[j])
  }

  /** The states committed during one step, and whether the run ends there. */
  datatype StepRun = StepRun(states: seq<RunState>, stop: bool)

  /** The step failed; its policy decides whether the job fails with it. */
  function StepFails(s: RunState, i: nat): StepRun
    requires i < |s.steps|
  {
    var failed := SetStatus(s, i, Failed);
    if s.steps[i].onFailure == "stop" then StepRun([failed, FailJob(failed)], true) else StepRun([failed], false)
  }

  /** Evaluate what became of the launch. */
  function Evaluate(s: RunState, i: nat, launch: Launch): StepRun
    requires i < |s.steps|
  {
    match launch
    case Raised => StepFails(s, i)
    case Returned(status) =>
      if status == PlaybookJobs.Completed then StepRun([SetStatus(s, i, Completed)], false)
      else if status == PlaybookJobs.Cancelled then
        var skipped := SetStatus(s, i, Skipped);
        StepRun([skipped, skipped.(job := JobCancelled)], true)
      else StepFails(s, i)
  }

  function LaunchStep(s: RunState, i: nat, ev: Event): StepRun
    requires i < |s.steps|
  {
    var created := CreateJob(s, i);
    var linked := LinkJob(created, i);
    var returned := External(linked, ev.cancelDuring);
    var rest := Evaluate(returned, i, ev.launch);
    StepRun([created, linked, returned] + rest.states, rest.stop)
  }

  /** Run a step that is neither skipped nor disabled.  Parameters that are not numbers end the thread on the spot. */
  function Perform(s: RunState, i: nat, ev: Event): StepRun
    requires i < |s.steps|
  {
    var running := SetStatus(s, i, Running);
    var rest := if ResolvePlaybookPath(s.steps[i]) == "" then StepFails(running, i)
                else if !s.steps[i].numeric then StepRun([], true)
                else LaunchStep(running, i, ev);
    StepRun([s, running] + rest.states, rest.stop)
  }

  function RunStep(s: RunState, i: nat, ev: Event): (r: StepRun)
    requires i < |s.steps|
    ensures r.states != [] && |r.states[|r.states| - 1].steps| == |s.steps|
  {
    var now := External(s, ev.cancelBefore);
    if now.job == JobCancelled then
      StepRun([now, now.(steps := SkipPendingFrom(now.steps, i))], true)
    else if now.steps[i].skipped || now.steps[i].status == Disabled then
      StepRun([now, SetStatus(now, i, Skipped)], false)
    else Perform(now, i, ev)
  }

  function Last(states: seq<RunState>): RunState
    requires states != []
  {
    states[|states| - 1]
  }

  predicate AnyFailed(steps: seq<StepExec>) {
    exists j :: 0 <= j < |steps| && steps[j].status == Failed
  }

  function Conclude(s: RunState, cancel: bool): seq<RunState> {
    var now := External(s, cancel);
    if now.job in {JobFailed, JobCancelled} then [now]
    else [now, now.(job := if AnyFailed(now.steps) then JobFailed else JobCompleted)]
  }

  /** The history of a run, given what was committed before the boundary of step i. */
  function RunFrom(
    history: seq<RunState>, s: RunState, i: nat, events: seq<Event>, lastCancel: bool): (r: seq<RunState>)
    requires i <= |s.steps| == |events|
    ensures r != []
    decreases |s.steps| - i
  {
    if i == |s.steps| then history + Conclude(s, lastCancel)
    else
      var r := RunStep(s, i, events[i]);
      if r.stop then history + r.states
      else RunFrom(history + r.states, Last(r.states), i + 1, events, lastCancel)
  }

  /** Everything a run commits.  A cancellation written before the worker starts is overwritten. */
  function Commits(s: RunState, configured: bool, events: seq<Event>, lastCancel: bool): (r: seq<RunState>)
    requires |s.steps| == |events|
    ensures r != []
  {
    var running := s.(job := JobRunning);
    if configured then RunFrom([running], running, 0, events, lastCancel) else [running, FailJob(running)]
  }

  // ── The worker ────────────────────────────────────────────────────────────

  class RunbookWorker {
    var job: JobStatus
    var steps: seq<StepExec>
    var launched: seq<nat>
    ghost var history: seq<RunState>  // every state committed so far

    ghost function State(): RunState
      reads this
    {
      RunState(job, steps, launched)
    }

    constructor (s: RunState)
      ensures State() == s && history == []
    {
      job, steps, launched, history := s.job, s.steps, s.launched, [];
    }

    ghost method Commit()
      modifies `history
      ensures history == old(history) + [State()]
    {
      history := history + [State()];
    }

    /** Another session's write becomes visible. */
    method Refresh(cancel: bool)
      modifies `job, `history
      ensures State() == old(External(State(), cancel)) && history == old(history) + [State()]
    {
      if cancel && job == JobRunning {
        job := JobCancelled;
      }
      Commit();
    }

    method MarkRemainingSkipped(current: nat)
      modifies `steps, `history
      ensures steps == SkipPendingFrom(old(steps), current) && history == old(history) + [State()]
    {
      var mark := false;
      for j := 0 to |steps|
        invariant |steps| == |old(steps)| && history == old(history)
        invariant mark <==> j > current
        invariant forall k :: 0 <= k < |steps| ==>
                    steps[k] == if k < j then SkipPendingFrom(old(steps), current)[k] else old(steps)[k]
      {
        if j == current {
          mark := true;
        }
        if mark && steps[j].status == Pending {
          steps := steps[j := steps[j].(status := Skipped)];
        }
      }
      Commit();
    }

    /** `_fail_step`, then `_fail_job` when the policy is to stop. */
    method FailStep(i: nat) returns (stop: bool)
      requires i < |steps|
      modifies `job, `steps, `history
      ensures var r := old(StepFails(State(), i));
              history == old(history) + r.states && State() == Last(history) && stop == r.stop
    {
      steps := steps[i := steps[i].(status := Failed)];
      Commit();
      stop := steps[i].onFailure == "stop";
      if stop {
        job := JobFailed;
        Commit();
      }
    }

    method EvaluateLaunch(i: nat, launch: Launch) returns (stop: bool)
      requires i < |steps|
      modifies `job, `steps, `history
      ensures var r := old(Evaluate(State(), i, launch));
              history == old(history) + r.states && State() == Last(history) && stop == r.stop
    {
      match launch
      case Raised =>
        stop := FailStep(i);
      case Returned(status) =>
        if status == PlaybookJobs.Completed {
          steps := steps[i := steps[i].(status := Completed)];
          Commit();
          stop := false;
        } else if status == PlaybookJobs.Cancelled {
          steps := steps[i := steps[i].(status := Skipped)];
          Commit();
          job := JobCancelled;
          Commit();
          stop := true;
        } else {
          stop := FailStep(i);
        }
    }

    method Launch(i: nat, ev: Event) returns (stop: bool)
      requires i < |steps|
      modifies this
      ensures var r := old(LaunchStep(State(), i, ev));
              history == old(history) + r.states && State() == Last(history) && stop == r.stop
    {
      hide Evaluate;
      launched := launched + [i];
      Commit();
      steps := steps[i := steps[i].(playbookJob := Some(|launched| - 1))];
      Commit();
      Refresh(ev.cancelDuring);
      stop := EvaluateLaunch(i, ev.launch);
    }

    method ExecuteStep(i: nat, ev: Event) returns (stop: bool)
      requires i < |steps|
      modifies this
      ensures var r := old(RunStep(State(), i, ev));
              history == old(history) + r.states && State() == Last(history) && stop == r.stop
    {
      hide LaunchStep, StepFails;
      ghost var now := External(State(), ev.cancelBefore);
      Refresh(ev.cancelBefore);
      if job == JobCancelled {
        MarkRemainingSkipped(i);
        return true;
      }
      if steps[i].skipped || steps[i].status == Disabled {
        steps := steps[i := steps[i].(status := Skipped)];
        Commit();
        return false;
      }
      steps := steps[i := steps[i].(status := Running)];
      Commit();
      ghost var running, before := SetStatus(now, i, Running), history;
      assert before == old(history) + [now, running] && State() == running;
      if ResolvePlaybookPath(steps[i]) == "" {
        stop := FailStep(i);
        assert history == old(history) + ([now, running] + StepFails(running, i).states);
      } else if !steps[i].numeric {
        assert history == old(history) + ([now, running] + []);
        return true;
      } else {
        stop := Launch(i, ev);
        assert history == old(history) + ([now, running] + LaunchStep(running, i, ev).states);
      }
    }

    /** All steps are behind us: take the job's final status, unless it already has one. */
    method ConcludeRun(lastCancel: bool)
      modifies `job, `history
      ensures history == old(history) + old(Conclude(State(), lastCancel)) && State() == Last(history)
    {
      Refresh(lastCancel);
      if job !in {JobFailed, JobCancelled} {
        job := if AnyFailed(steps) then JobFailed else JobCompleted;
        Commit();
      }
    }

    method ExecuteRunbook(configured: bool, events: seq<Event>, lastCancel: bool)
      requires |events| == |steps| && history == []
      modifies this
      ensures history == old(Commits(State(), configured, events, lastCancel))
      ensures State() == Last(history)
    {
      job := JobRunning;
      Commit();
      if !configured {
        job := JobFailed;
        Commit();
        return;
      }
      assert history == [State()];
      ghost var all := RunFrom(history, State(), 0, events, lastCancel);
      assert all == old(Commits(State(), configured, events, lastCancel));
      hide RunFrom, RunStep, Conclude, Commits;
      for i := 0 to |steps|
        invariant |steps| == |events| && history != [] && State() == Last(history)
        invariant RunFrom(history, State(), i, events, lastCancel) == all
      {
        RunFromNext(history, State(), i, events, lastCancel);
        var stop := ExecuteStep(i, events[i]);
        if stop {
          return;
        }
      }
      RunFromNext(history, State(), |steps|, events, lastCancel);
      ConcludeRun(lastCancel);
    }
  }

  lemma RunFromNext(history: seq<RunState>, s: RunState, i: nat, events: seq<Event>, lastCancel: bool)
    requires i <= |s.steps| == |events|
    ensures RunFrom(history, s, i, events, lastCancel) ==
            if i == |s.steps| then history + Conclude(s, lastCancel)
            else
              var r := RunStep(s, i, events[i]);
              if r.stop then history + r.states
              else RunFrom(history + r.states, Last(r.states), i + 1, events, lastCancel)
  {
  }
}
