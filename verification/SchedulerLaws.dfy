/**
 After start-up and any sequence of edits the scheduler's jobs are those the tables ask for.
 */
module SchedulerLaws {
  import opened Options
  import opened Scheduler
  import PyText

  // ── Job ids ───────────────────────────────────────────────────────────────

  lemma {:induction false} NumeralsAreInjective(a: nat, b: nat)
    requires PyText.NatToString(a) == PyText.NatToString(b)
    ensures a == b
  {
    var s, t := PyText.NatToString(a), PyText.NatToString(b);
    NumeralLength(a / 10);
    NumeralLength(b / 10);
    assert s[|s| - 1] == PyText.DIGITS[a % 10] && t[|t| - 1] == PyText.DIGITS[b % 10];
    DigitsDiffer(a % 10, b % 10);
    if a >= 10 && b >= 10 {
      assert s[..|s| - 1] == PyText.NatToString(a / 10);
      assert t[..|t| - 1] == PyText.NatToString(b / 10);
      NumeralsAreInjective(a / 10, b / 10);
    }
  }

  lemma DigitsDiffer(a: nat, b: nat)
    requires a < 10 && b < 10 && PyText.DIGITS[a] == PyText.DIGITS[b]
    ensures a == b
  {
  }

  lemma NumeralLength(n: nat)
    ensures |PyText.NatToString(n)| >= 1
  {
  }

  lemma JobIdsAreInjective(prefix: string, a: nat, b: nat)
    requires JobId(prefix, a) == JobId(prefix, b)
    ensures a == b
  {
    assert JobId(prefix, a)[|prefix|..] == PyText.NatToString(a);
    assert JobId(prefix, b)[|prefix|..] == PyText.NatToString(b);
    NumeralsAreInjective(a, b);
  }

  /** The two kinds of job ids and the fact job's id are told apart by their prefixes. */
  lemma PrefixesAreApart(id: nat)
    ensures PyText.StartsWith(JobId(CONNECTION_PREFIX, id), CONNECTION_PREFIX)
    ensures PyText.StartsWith(JobId(PLAYBOOK_PREFIX, id), PLAYBOOK_PREFIX)
    ensures forall s :: PyText.StartsWith(s, CONNECTION_PREFIX) ==> !PyText.StartsWith(s, PLAYBOOK_PREFIX)
    ensures !PyText.StartsWith(FACT_JOB, CONNECTION_PREFIX) && !PyText.StartsWith(FACT_JOB, PLAYBOOK_PREFIX)
  {
    assert CONNECTION_PREFIX[0] == 'v' && PLAYBOOK_PREFIX[0] == 'p' && FACT_JOB[0] == 'a';
  }

  // ── The jobs a table asks for ─────────────────────────────────────────────

  lemma {:induction false} ConnectionJobsHaveThePrefix(cs: seq<Connection>)
    ensures forall id :: id in ConnectionJobs(cs) ==> PyText.StartsWith(id, CONNECTION_PREFIX)
  {
    if cs != [] {
      ConnectionJobsHaveThePrefix(cs[..|cs| - 1]);
      PrefixesAreApart(cs[|cs| - 1].id);
    }
  }

  lemma {:induction false} PlaybookJobsHaveThePrefix(ss: seq<Schedule>)
    ensures forall id :: id in PlaybookJobs(ss) ==> PyText.StartsWith(id, PLAYBOOK_PREFIX)
  {
    if ss != [] {
      PlaybookJobsHaveThePrefix(ss[..|ss| - 1]);
      PrefixesAreApart(ss[|ss| - 1].id);
    }
  }

  /** The job the row with an id asks for. */
  function WantedConnection(cs: seq<Connection>, id: nat): Option<Job> {
    match FindConnection(cs, id) case None => None case Some(k) => ConnectionJob(cs[k])
  }

  function WantedPlaybook(ss: seq<Schedule>, id: nat): Option<Job> {
    match FindSchedule(ss, id) case None => None case Some(k) => PlaybookJob(ss[k])
  }

  /** A connection's job id carries exactly the job its row asks for; an id of no row carries none. */
  lemma {:induction false} ConnectionJobsAreExact(cs: seq<Connection>, id: nat)
    requires forall i, j :: 0 <= i < j < |cs| ==> cs[i].id != cs[j].id
    ensures Get(ConnectionJobs(cs), JobId(CONNECTION_PREFIX, id))
            == WantedConnection(cs, id)
  {
    if cs != [] {
      var n := |cs| - 1;
      ConnectionJobsAreExact(cs[..n], id);
      if JobId(CONNECTION_PREFIX, cs[n].id) == JobId(CONNECTION_PREFIX, id) {
        JobIdsAreInjective(CONNECTION_PREFIX, cs[n].id, id);
      }
    }
  }

  lemma {:induction false} PlaybookJobsAreExact(ss: seq<Schedule>, id: nat)
    requires forall i, j :: 0 <= i < j < |ss| ==> ss[i].id != ss[j].id
    ensures Get(PlaybookJobs(ss), JobId(PLAYBOOK_PREFIX, id))
            == WantedPlaybook(ss, id)
  {
    if ss != [] {
      var n := |ss| - 1;
      PlaybookJobsAreExact(ss[..n], id);
      if JobId(PLAYBOOK_PREFIX, ss[n].id) == JobId(PLAYBOOK_PREFIX, id) {
        JobIdsAreInjective(PLAYBOOK_PREFIX, ss[n].id, id);
      }
    }
  }

  lemma {:induction false} ConnectionJobsComeFromRows(cs: seq<Connection>, key: string)
    requires key in ConnectionJobs(cs)
    ensures exists id: nat :: key == JobId(CONNECTION_PREFIX, id)
  {
    var n := |cs| - 1;
    if key in ConnectionJobs(cs[..n]) {
      ConnectionJobsComeFromRows(cs[..n], key);
    } else {
      assert key == JobId(CONNECTION_PREFIX, cs[n].id);
    }
  }

  /** Which job the scheduler holds for a row id. */
  function Held(jobs: Jobs, prefix: string, id: nat): Option<Job> {
    Get(jobs, JobId(prefix, id))
  }

  // ── Agreement ─────────────────────────────────────────────────────────────

  /** The connection jobs are exactly one per enabled connection with a known schedule, at its interval. */
  ghost predicate ConnectionsAgree(s: State) {
    && (forall id: nat :: Held(s.jobs, CONNECTION_PREFIX, id) == WantedConnection(s.connections, id))
    && (forall key :: key in s.jobs && PyText.StartsWith(key, CONNECTION_PREFIX) ==>
          exists id: nat :: key == JobId(CONNECTION_PREFIX, id))
  }

  /** The jobs of the schedules in the table are exactly those they ask for; a deleted schedule may leave one behind. */
  ghost predicate PlaybooksAgree(s: State) {
    && (forall id: nat :: FindSchedule(s.schedules, id).Some? ==>
          Held(s.jobs, PLAYBOOK_PREFIX, id) == WantedPlaybook(s.schedules, id))
    && (forall id: nat :: id >= s.nextSchedule ==> Held(s.jobs, PLAYBOOK_PREFIX, id).None?)
  }

  /** No playbook job is left over from a deleted schedule. */
  ghost predicate NothingStale(s: State) {
    forall id: nat :: FindSchedule(s.schedules, id).None? ==> Held(s.jobs, PLAYBOOK_PREFIX, id).None?
  }

  ghost predicate SameElsewhere(a: Jobs, b: Jobs) {
    forall key :: !PyText.StartsWith(key, CONNECTION_PREFIX) && !PyText.StartsWith(key, PLAYBOOK_PREFIX) ==>
      Get(a, key) == Get(b, key)
  }

  ghost predicate Agreed(s: State) {
    Keyed(s) && ConnectionsAgree(s) && PlaybooksAgree(s)
  }

  lemma ReschedulingConnections(s: State)
    requires Keyed(s)
    ensures ConnectionsAgree(ConnectionsRescheduled(s)) && SameElsewhere(s.jobs, ConnectionsRescheduled(s).jobs)
    ensures forall id: nat ::
              Held(ConnectionsRescheduled(s).jobs, PLAYBOOK_PREFIX, id) == Held(s.jobs, PLAYBOOK_PREFIX, id)
  {
    var after := ConnectionsRescheduled(s);
    ConnectionJobsHaveThePrefix(s.connections);
    forall id: nat
      ensures Held(after.jobs, CONNECTION_PREFIX, id) == WantedConnection(s.connections, id)
      ensures Held(after.jobs, PLAYBOOK_PREFIX, id) == Held(s.jobs, PLAYBOOK_PREFIX, id)
    {
      PrefixesAreApart(id);
      ConnectionJobsAreExact(s.connections, id);
    }
    forall key | key in after.jobs && PyText.StartsWith(key, CONNECTION_PREFIX)
      ensures exists id: nat :: key == JobId(CONNECTION_PREFIX, id)
    {
      ConnectionJobsComeFromRows(s.connections, key);
    }
  }

  lemma ReschedulingPlaybooks(s: State)
    requires Keyed(s)
    ensures PlaybooksAgree(PlaybooksRescheduled(s)) && NothingStale(PlaybooksRescheduled(s))
    ensures SameElsewhere(s.jobs, PlaybooksRescheduled(s).jobs)
    ensures ConnectionsAgree(s) ==> ConnectionsAgree(PlaybooksRescheduled(s))
  {
    var after := PlaybooksRescheduled(s);
    PlaybookJobsHaveThePrefix(s.schedules);
    forall id: nat
      ensures Held(after.jobs, PLAYBOOK_PREFIX, id) == WantedPlaybook(s.schedules, id)
      ensures Held(after.jobs, CONNECTION_PREFIX, id) == Held(s.jobs, CONNECTION_PREFIX, id)
    {
      PrefixesAreApart(id);
      PlaybookJobsAreExact(s.schedules, id);
    }
    forall key | key in after.jobs && PyText.StartsWith(key, CONNECTION_PREFIX) ensures key in s.jobs {
      PrefixesAreApart(0);
    }
  }

  // ── Edits ─────────────────────────────────────────────────────────────────

  lemma RemovedFrom<T>(s: seq<T>, k: nat, i: nat)
    requires k < |s| && i < |s| - 1
    ensures var j := if i < k then i else i + 1; j != k && (s[..k] + s[k + 1..])[i] == s[j]
  {
  }

  lemma OthersRemain<T>(s: seq<T>, k: nat, j: nat)
    requires k < |s| && j < |s|
    ensures j != k ==> var i := if j < k then j else j - 1; (s[..k] + s[k + 1..])[i] == s[j]
  {
  }

  lemma DeletedConnection(cs: seq<Connection>, next: nat, k: nat, id: nat)
    requires k < |cs| && KeyedConnections(cs, next)
    ensures WantedConnection(cs[..k] + cs[k + 1..], id) == if id == cs[k].id then None else WantedConnection(cs, id)
  {
    hide ConnectionJob, FindConnection;
    var rest := cs[..k] + cs[k + 1..];
    var found, was := FindConnection(rest, id), FindConnection(cs, id);
    if found.Some? {
      RemovedFrom(cs, k, found.value);
      assert cs[was.value].id == id;
    } else if was.Some? {
      OthersRemain(cs, k, was.value);
    }
  }

  /** A delete takes exactly the deleted connection's job with it. */
  lemma DeletingConnection(s: State, id: nat)
    requires Agreed(s)
    ensures ConnectionsAgree(Apply(s, DeleteConnection(id)))
  {
    var k := FindConnection(s.connections, id);
    if k.Some? {
      var after := Apply(s, DeleteConnection(id));
      forall other: nat
        ensures Held(after.jobs, CONNECTION_PREFIX, other) == WantedConnection(after.connections, other)
      {
        DeletedConnection(s.connections, s.nextConnection, k.value, other);
        if JobId(CONNECTION_PREFIX, other) == JobId(CONNECTION_PREFIX, id) {
          JobIdsAreInjective(CONNECTION_PREFIX, other, id);
        }
        assert Held(s.jobs, CONNECTION_PREFIX, other) == WantedConnection(s.connections, other);
      }
    }
  }

  /** When the commit of a delete fails, jobs and connections agree exactly if there was no job to lose. */
  lemma FailedDeleteLosesTheJob(s: State, id: nat)
    requires Agreed(s) && FindConnection(s.connections, id).Some?
    ensures ConnectionsAgree(JobRemoved(s, id)) <==> WantedConnection(s.connections, id).None?
  {
    var after := JobRemoved(s, id);
    assert Held(s.jobs, CONNECTION_PREFIX, id) == WantedConnection(s.connections, id);
    assert Held(after.jobs, CONNECTION_PREFIX, id).None?;
    if WantedConnection(s.connections, id).None? {
      assert after.jobs == s.jobs;
    }
  }

  lemma DeletedSchedule(ss: seq<Schedule>, next: nat, k: nat, id: nat)
    requires k < |ss| && KeyedSchedules(ss, next)
    ensures WantedPlaybook(ss[..k] + ss[k + 1..], id) == if id == ss[k].id then None else WantedPlaybook(ss, id)
    ensures FindSchedule(ss[..k] + ss[k + 1..], id).Some? <==> id != ss[k].id && FindSchedule(ss, id).Some?
  {
    hide PlaybookJob, FindSchedule;
    var rest := ss[..k] + ss[k + 1..];
    var found, was := FindSchedule(rest, id), FindSchedule(ss, id);
    if found.Some? {
      RemovedFrom(ss, k, found.value);
      assert ss[was.value].id == id;
    } else if was.Some? {
      OthersRemain(ss, k, was.value);
    }
  }

  lemma KeysAfterConnectionEdit(cs: seq<Connection>, next: nat, k: nat, c: Connection)
    requires KeyedConnections(cs, next)
    ensures c.id == next ==> KeyedConnections(cs + [c], next + 1)
    ensures k < |cs| && c.id == cs[k].id ==> KeyedConnections(cs[k := c], next)
    ensures k < |cs| ==> KeyedConnections(cs[..k] + cs[k + 1..], next)
  {
  }

  lemma KeysAfterScheduleEdit(ss: seq<Schedule>, next: nat, k: nat, x: Schedule)
    requires KeyedSchedules(ss, next)
    ensures x.id == next ==> KeyedSchedules(ss + [x], next + 1)
    ensures k < |ss| && x.id == ss[k].id ==> KeyedSchedules(ss[k := x], next)
    ensures k < |ss| ==> KeyedSchedules(ss[..k] + ss[k + 1..], next)
  {
  }

  lemma ApplyKeepsKeys(s: State, op: Op)
    requires Keyed(s)
    ensures Keyed(Apply(s, op))
  {
    hide KeyedConnections, KeyedSchedules, ConnectionJobs, PlaybookJobs, Without, Duplicate;
    var cs, ss := s.connections, s.schedules;
    match op
    case CreateConnection(f) =>
      if ValidConnection(cs, f, None) {
        KeysAfterConnectionEdit(cs, s.nextConnection, 0, ConnectionOf(s.nextConnection, f));
      }
    case UpdateConnection(id, f) =>
      var k := FindConnection(cs, id);
      if k.Some? && ValidConnection(cs, f, Some(id)) {
        KeysAfterConnectionEdit(cs, s.nextConnection, k.value, ConnectionOf(id, f));
      }
    case DeleteConnection(id) =>
      var k := FindConnection(cs, id);
      if k.Some? { KeysAfterConnectionEdit(cs, s.nextConnection, k.value, cs[k.value]); }
    case ToggleConnection(id) =>
      var k := FindConnection(cs, id);
      if k.Some? {
        KeysAfterConnectionEdit(cs, s.nextConnection, k.value, cs[k.value].(enabled := !cs[k.value].enabled));
      }
    case CreateSchedule(f) =>
      KeysAfterScheduleEdit(ss, s.nextSchedule, 0, ScheduleOf(s.nextSchedule, f));
    case UpdateSchedule(id, f) =>
      var k := FindSchedule(ss, id);
      if k.Some? { KeysAfterScheduleEdit(ss, s.nextSchedule, k.value, ScheduleOf(id, f)); }
    case ToggleSchedule(id) =>
      var k := FindSchedule(ss, id);
      if k.Some? { KeysAfterScheduleEdit(ss, s.nextSchedule, k.value, ss[k.value].(enabled := !ss[k.value].enabled)); }
    case DeleteSchedule(id) =>
      var k := FindSchedule(ss, id);
      if k.Some? { KeysAfterScheduleEdit(ss, s.nextSchedule, k.value, ss[k.value]); }
  }

  lemma DeletingSchedule(s: State, id: nat)
    requires Agreed(s)
    ensures ConnectionsAgree(Apply(s, DeleteSchedule(id))) && PlaybooksAgree(Apply(s, DeleteSchedule(id)))
  {
    var k := FindSchedule(s.schedules, id);
    if k.Some? {
      var after := Apply(s, DeleteSchedule(id));
      forall other: nat ensures FindSchedule(after.schedules, other).Some? ==>
                                  Held(after.jobs, PLAYBOOK_PREFIX, other) == WantedPlaybook(after.schedules, other) {
        DeletedSchedule(s.schedules, s.nextSchedule, k.value, other);
        assert FindSchedule(s.schedules, other).Some? ==>
            Held(s.jobs, PLAYBOOK_PREFIX, other) == WantedPlaybook(s.schedules, other);
      }
    }
  }

  lemma ConnectionOpsAgree(s: State, op: Op)
    requires Agreed(s) && (op.CreateConnection? || op.UpdateConnection? || op.ToggleConnection? || op.DeleteConnection?)
    ensures Agreed(Apply(s, op)) && SameElsewhere(s.jobs, Apply(s, op).jobs)
    ensures NothingStale(s) ==> NothingStale(Apply(s, op))
  {
    var after := Apply(s, op);
    ApplyKeepsKeys(s, op);
    if op.DeleteConnection? {
      DeletingConnection(s, op.id);
      forall id: nat ensures Held(after.jobs, PLAYBOOK_PREFIX, id) == Held(s.jobs, PLAYBOOK_PREFIX, id) {
        PrefixesAreApart(id);
        PrefixesAreApart(op.id);
      }
      PrefixesAreApart(op.id);
    } else if after != s {
      var edited := after.(jobs := s.jobs);
      assert after == ConnectionsRescheduled(edited);
      ReschedulingConnections(edited);
      hide Apply, Keyed, ConnectionsRescheduled, ConnectionsAgree;
      assert edited.schedules == s.schedules && after.schedules == s.schedules && after.nextSchedule == s.nextSchedule;
    }
  }

  lemma ScheduleOpsAgree(s: State, op: Op)
    requires Agreed(s) && (op.CreateSchedule? || op.UpdateSchedule? || op.ToggleSchedule? || op.DeleteSchedule?)
    ensures Agreed(Apply(s, op)) && SameElsewhere(s.jobs, Apply(s, op).jobs)
    ensures !op.DeleteSchedule? && Apply(s, op) != s ==> NothingStale(Apply(s, op))
  {
    var after := Apply(s, op);
    ApplyKeepsKeys(s, op);
    if op.DeleteSchedule? {
      DeletingSchedule(s, op.id);
    } else if after != s {
      var edited := after.(jobs := s.jobs);
      assert after == PlaybooksRescheduled(edited);
      ReschedulingPlaybooks(edited);
      hide Apply, Keyed, PlaybooksRescheduled;
      assert edited.connections == s.connections;
    }
  }

  // ── Whole runs ────────────────────────────────────────────────────────────

  /** Start-up leaves exactly the jobs the tables ask for, and the fact job. */
  lemma StartUpAgrees(s: State, facts: Option<nat>)
    requires Keyed(s)
    ensures Agreed(Started(s, facts)) && NothingStale(Started(s, facts))
    ensures Get(Started(s, facts).jobs, FACT_JOB) == if facts.Some? then Some(OtherJob(Every(facts.value))) else None
  {
    var restored := ConnectionsRescheduled(s.(jobs := map[]));
    assert restored.jobs == ConnectionJobs(s.connections);
    ReschedulingConnections(s.(jobs := map[]));
    var jobs := if facts.Some? then restored.jobs[FACT_JOB := OtherJob(Every(facts.value))] else restored.jobs;
    PrefixesAreApart(0);
    forall id: nat ensures Held(jobs, CONNECTION_PREFIX, id) == Held(restored.jobs, CONNECTION_PREFIX, id) {
      PrefixesAreApart(id);
    }
    ConnectionJobsHaveThePrefix(s.connections);
    ReschedulingPlaybooks(s.(jobs := jobs));
  }

  /**
   After start-up and any sequence of edits of connections and schedules, the connection jobs are exactly those the
   connections ask for, every schedule in the table has exactly its job, and no other job is touched.
   */
  lemma {:induction false} EditsKeepAgreement(s: State, ops: seq<Op>)
    requires Agreed(s)
    ensures Agreed(ApplyAll(s, ops)) && SameElsewhere(s.jobs, ApplyAll(s, ops).jobs)
  {
    if ops != [] {
      var before, op := ApplyAll(s, ops[..|ops| - 1]), ops[|ops| - 1];
      EditsKeepAgreement(s, ops[..|ops| - 1]);
      if op.CreateConnection? || op.UpdateConnection? || op.ToggleConnection? || op.DeleteConnection? {
        ConnectionOpsAgree(before, op);
      } else {
        ScheduleOpsAgree(before, op);
      }
      hide *;
    }
  }

  lemma GoneStaysGone(s: State, op: Op, id: nat)
    requires Keyed(s) && id < s.nextSchedule && FindSchedule(s.schedules, id).None?
    ensures Apply(s, op).nextSchedule >= s.nextSchedule && FindSchedule(Apply(s, op).schedules, id).None?
  {
    hide ConnectionJobs, PlaybookJobs, Without, ValidConnection, ConnectionOf, WantedPlaybook, FindSchedule, JobId;
    if op.DeleteSchedule? {
      var k := FindSchedule(s.schedules, op.id);
      if k.Some? {
        DeletedSchedule(s.schedules, s.nextSchedule, k.value, id);
      }
    }
  }

  /** Whatever is edited later, a job left behind by a deleted schedule creates nothing when it fires. */
  lemma {:induction false} DeletedSchedulesNeverRun(s: State, id: nat, ops: seq<Op>, world: World)
    requires Keyed(s) && FindSchedule(s.schedules, id).Some?
    ensures var later := ApplyAll(Apply(s, DeleteSchedule(id)), ops);
            && Keyed(later) && id < later.nextSchedule && FindSchedule(later.schedules, id).None?
            && !Runs(later, id, world)
  {
    var deleted := Apply(s, DeleteSchedule(id));
    if ops == [] {
      ApplyKeepsKeys(s, DeleteSchedule(id));
      DeletedSchedule(s.schedules, s.nextSchedule, FindSchedule(s.schedules, id).value, id);
    } else {
      var n := |ops| - 1;
      DeletedSchedulesNeverRun(s, id, ops[..n], world);
      ApplyKeepsKeys(ApplyAll(deleted, ops[..n]), ops[n]);
      GoneStaysGone(ApplyAll(deleted, ops[..n]), ops[n], id);
      hide Apply, Keyed;
    }
  }

  /**
   Whatever was edited since start-up, a job is held under a schedule's id and creates something when it fires exactly
   if the present table asks for that job and the world is ready for it: stale jobs and disabled schedules do nothing.
   */
  lemma JobsThatRunAreThoseWanted(s: State, ops: seq<Op>, id: nat, world: World)
    requires Agreed(s)
    ensures var later := ApplyAll(s, ops);
            Held(later.jobs, PLAYBOOK_PREFIX, id).Some? && Runs(later, id, world) <==>
              && WantedPlaybook(later.schedules, id).Some?
              && world.template.Some? && world.ansibleEnabled && PyText.Strip(world.template.value) != ""
  {
    hide ApplyAll, Keyed, ConnectionsAgree;
    EditsKeepAgreement(s, ops);
    var later := ApplyAll(s, ops);
    var k := FindSchedule(later.schedules, id);
    if k.Some? {
      assert Held(later.jobs, PLAYBOOK_PREFIX, id) == WantedPlaybook(later.schedules, id);
    }
  }

  /** Deleting a schedule leaves a stale job behind exactly when the schedule asked for one. */
  lemma DeletedScheduleKeepsItsJob(s: State, id: nat)
    requires Agreed(s) && FindSchedule(s.schedules, id).Some?
    ensures Held(Apply(s, DeleteSchedule(id)).jobs, PLAYBOOK_PREFIX, id) == WantedPlaybook(s.schedules, id)
    ensures NothingStale(s) ==> (NothingStale(Apply(s, DeleteSchedule(id))) <==> WantedPlaybook(s.schedules, id).None?)
  {
    var k := FindSchedule(s.schedules, id).value;
    forall other: nat ensures FindSchedule(Apply(s, DeleteSchedule(id)).schedules, other).Some?
                              <==> other != id && FindSchedule(s.schedules, other).Some? {
      DeletedSchedule(s.schedules, s.nextSchedule, k, other);
    }
    assert Held(s.jobs, PLAYBOOK_PREFIX, id) == WantedPlaybook(s.schedules, id);
  }
}
