/**
 The job table of the background scheduler, kept in step with the vCenter connections and the playbook schedules by
 the routes that edit them.
 */
module Scheduler {
  import opened Options
  import PyText

  const CONNECTION_PREFIX := "vmware_conn_"
  const PLAYBOOK_PREFIX := "playbook_sched_"

  datatype Trigger = Every(hours: nat) | Cron(fields: string)

  datatype Job =
    | ConnectionSync(connection: nat, trigger: Trigger)
    | RunPlaybook(schedule: nat, trigger: Trigger)
    | OtherJob(trigger: Trigger)

  type Jobs = map<string, Job>

  datatype Connection = Connection(id: nat, host: string, location: nat, enabled: bool, schedule: string)

  /** A cron expression: none, one the scheduler refuses, or one with five fields that it takes. */
  datatype CronText = NoCron | Refused | Accepted(fields: string)

  datatype Schedule = Schedule(id: nat, name: string, template: nat, kind: string, cron: CronText, enabled: bool)

  const SCHEDULE_MAP: map<string, nat> := map["hourly" := 1, "6h" := 6, "12h" := 12, "daily" := 24]

  const SCHEDULE_CHOICES := {"disabled", "hourly", "6h", "12h", "daily"}

  const INTERVAL_MAP: map<string, nat> := map["hourly" := 1, "daily" := 24, "weekly" := 168, "monthly" := 720]

  // ── The job each row asks for ─────────────────────────────────────────────

  function JobId(prefix: string, id: nat): string {
    prefix + PyText.NatToString(id)
  }

  function ConnectionJob(c: Connection): Option<Job> {
    if c.enabled && c.schedule != "disabled" && c.schedule in SCHEDULE_MAP
    then Some(ConnectionSync(c.id, Every(SCHEDULE_MAP[c.schedule]))) else None
  }

  function PlaybookTrigger(s: Schedule): Option<Trigger> {
    if s.kind == "cron" && !s.cron.NoCron? then (if s.cron.Accepted? then Some(Cron(s.cron.fields)) else None)
    else if s.kind in INTERVAL_MAP then Some(Every(INTERVAL_MAP[s.kind]))
    else None
  }

  function PlaybookJob(s: Schedule): Option<Job> {
    var trigger := PlaybookTrigger(s);
    if s.enabled && trigger.Some? then Some(RunPlaybook(s.id, trigger.value)) else None
  }

  function ConnectionJobs(cs: seq<Connection>): Jobs {
    if cs == [] then map[]
    else
      var n := |cs| - 1;
      var job := ConnectionJob(cs[n]);
      var rest := ConnectionJobs(cs[..n]);
      if job.Some? then rest[JobId(CONNECTION_PREFIX, cs[n].id) := job.value] else rest
  }

  function PlaybookJobs(ss: seq<Schedule>): Jobs {
    if ss == [] then map[]
    else
      var n := |ss| - 1;
      var job := PlaybookJob(ss[n]);
      var rest := PlaybookJobs(ss[..n]);
      if job.Some? then rest[JobId(PLAYBOOK_PREFIX, ss[n].id) := job.value] else rest
  }

  function Without(jobs: Jobs, prefix: string): Jobs {
    map id | id in jobs && !PyText.StartsWith(id, prefix) :: jobs[id]
  }

  // ── The editing routes, as functions of the whole state ───────────────────

  datatype State = State(
    connections: seq<Connection>, nextConnection: nat, schedules: seq<Schedule>, nextSchedule: nat, jobs: Jobs)

  /** A connection form after trimming; `location` is `None` where it is missing or no number. */
  datatype ConnectionForm = ConnectionForm(
    name: string, host: string, location: Option<nat>, enabled: bool, schedule: string)

  datatype ScheduleForm = ScheduleForm(name: string, template: nat, kind: string, cron: CronText, enabled: bool)

  datatype Op =
    | CreateConnection(connection: ConnectionForm)
    | UpdateConnection(id: nat, connection: ConnectionForm)
    | DeleteConnection(id: nat)
    | ToggleConnection(id: nat)
    | CreateSchedule(schedule: ScheduleForm)
    | UpdateSchedule(id: nat, schedule: ScheduleForm)
    | ToggleSchedule(id: nat)
    | DeleteSchedule(id: nat)

  function FindConnection(cs: seq<Connection>, id: nat): (k: Option<nat>)
    ensures k.Some? ==> k.value < |cs| && cs[k.value].id == id
    ensures k.None? ==> forall i :: 0 <= i < |cs| ==> cs[i].id != id
  {
    if cs == [] then None
    else if cs[|cs| - 1].id == id then Some(|cs| - 1)
    else FindConnection(cs[..|cs| - 1], id)
  }

  function FindSchedule(ss: seq<Schedule>, id: nat): (k: Option<nat>)
    ensures k.Some? ==> k.value < |ss| && ss[k.value].id == id
    ensures k.None? ==> forall i :: 0 <= i < |ss| ==> ss[i].id != id
  {
    if ss == [] then None
    else if ss[|ss| - 1].id == id then Some(|ss| - 1)
    else FindSchedule(ss[..|ss| - 1], id)
  }

  /** Another connection to the same host in the same location. */
  predicate Duplicate(cs: seq<Connection>, location: nat, host: string, except: Option<nat>) {
    exists i :: 0 <= i < |cs| && cs[i].location == location && cs[i].host == host && Some(cs[i].id) != except
  }

  predicate ValidConnection(cs: seq<Connection>, f: ConnectionForm, except: Option<nat>) {
    f.name != "" && f.host != "" && f.location.Some? && !Duplicate(cs, f.location.value, f.host, except)
  }

  function ConnectionOf(id: nat, f: ConnectionForm): Connection
    requires f.location.Some?
  {
    var schedule := if f.schedule in SCHEDULE_CHOICES then f.schedule else "disabled";
    Connection(id, f.host, f.location.value, f.enabled, schedule)
  }

  predicate ValidSchedule(f: ScheduleForm) {
    f.name != "" && f.template != 0 && f.kind != ""
  }

  function ScheduleOf(id: nat, f: ScheduleForm): Schedule {
    Schedule(id, f.name, f.template, f.kind, f.cron, f.enabled)
  }

  function ConnectionsRescheduled(s: State): State {
    s.(jobs := Without(s.jobs, CONNECTION_PREFIX) + ConnectionJobs(s.connections))
  }

  function PlaybooksRescheduled(s: State): State {
    s.(jobs := Without(s.jobs, PLAYBOOK_PREFIX) + PlaybookJobs(s.schedules))
  }

  function JobRemoved(s: State, id: nat): State {
    if FindConnection(s.connections, id).None? then s else s.(jobs := s.jobs - {JobId(CONNECTION_PREFIX, id)})
  }

  /** Deleting a connection removes its job; deleting a schedule leaves its job where it is. */
  function Apply(s: State, op: Op): State {
    match op
    case CreateConnection(f) =>
      if !ValidConnection(s.connections, f, None) then s
      else ConnectionsRescheduled(
        s.(connections := s.connections + [ConnectionOf(s.nextConnection, f)], nextConnection := s.nextConnection + 1))
    case UpdateConnection(id, f) =>
      var k := FindConnection(s.connections, id);
      if k.None? || !ValidConnection(s.connections, f, Some(id)) then s
      else ConnectionsRescheduled(s.(connections := s.connections[k.value := ConnectionOf(id, f)]))
    case DeleteConnection(id) =>
      var k := FindConnection(s.connections, id);
      if k.None? then s
      else s.(connections := s.connections[..k.value] + s.connections[k.value + 1..],
              jobs := s.jobs - {JobId(CONNECTION_PREFIX, id)})
    case ToggleConnection(id) =>
      var k := FindConnection(s.connections, id);
      if k.None? then s
      else
        var c := s.connections[k.value];
        ConnectionsRescheduled(s.(connections := s.connections[k.value := c.(enabled := !c.enabled)]))
    case CreateSchedule(f) =>
      if !ValidSchedule(f) then s
      else PlaybooksRescheduled(
        s.(schedules := s.schedules + [ScheduleOf(s.nextSchedule, f)], nextSchedule := s.nextSchedule + 1))
    case UpdateSchedule(id, f) =>
      var k := FindSchedule(s.schedules, id);
      if k.None? || !ValidSchedule(f) then s
      else PlaybooksRescheduled(s.(schedules := s.schedules[k.value := ScheduleOf(id, f)]))
    case ToggleSchedule(id) =>
      var k := FindSchedule(s.schedules, id);
      if k.None? then s
      else
        var x := s.schedules[k.value];
        PlaybooksRescheduled(s.(schedules := s.schedules[k.value := x.(enabled := !x.enabled)]))
    case DeleteSchedule(id) =>
      var k := FindSchedule(s.schedules, id);
      if k.None? then s
      else s.(schedules := s.schedules[..k.value] + s.schedules[k.value + 1..])
  }

  function ApplyAll(s: State, ops: seq<Op>): State {
    if ops == [] then s else Apply(ApplyAll(s, ops[..|ops| - 1]), ops[|ops| - 1])
  }

  predicate KeyedConnections(cs: seq<Connection>, next: nat) {
    && (forall i, j :: 0 <= i < j < |cs| ==> cs[i].id != cs[j].id)
    && (forall i :: 0 <= i < |cs| ==> cs[i].id < next)
  }

  predicate KeyedSchedules(ss: seq<Schedule>, next: nat) {
    && (forall i, j :: 0 <= i < j < |ss| ==> ss[i].id != ss[j].id)
    && (forall i :: 0 <= i < |ss| ==> ss[i].id < next)
  }

  /** Ids are primary keys, handed out in order. */
  predicate Keyed(s: State) {
    KeyedConnections(s.connections, s.nextConnection) && KeyedSchedules(s.schedules, s.nextSchedule)
  }

  // ── The portal ────────────────────────────────────────────────────────────

  /** What a fired schedule finds: the template's playbook path, and whether Ansible is configured and enabled. */
  datatype World = World(template: Option<string>, ansibleEnabled: bool)

  class Portal {
    var connections: seq<Connection>
    var nextConnection: nat
    var schedules: seq<Schedule>
    var nextSchedule: nat
    var jobs: Jobs
    var playbookRuns: seq<nat>  // the schedule of every PlaybookJob created by the scheduler

    ghost function Now(): State
      reads this
    {
      State(connections, nextConnection, schedules, nextSchedule, jobs)
    }

    constructor (s: State)
      ensures Now() == s.(jobs := map[]) && playbookRuns == []
    {
      connections, nextConnection := s.connections, s.nextConnection;
      schedules, nextSchedule := s.schedules, s.nextSchedule;
      jobs, playbookRuns := map[], [];
    }

    /** Start-up: restore the connection jobs, the fact collection job if one is configured, and the playbook jobs. */
    method InitScheduler(facts: Option<nat>)
      requires jobs == map[]
      modifies `jobs
      ensures Now() == Started(old(Now()), facts)
    {
      RestoreConnections();
      EmptyPlus(ConnectionJobs(connections));
      hide ConnectionJobs, PlaybookJobs, Without;
      if facts.Some? {
        jobs := jobs[FACT_JOB := OtherJob(Every(facts.value))];
      }
      ReschedulePlaybooks();
    }

    /** Remove every job whose id has a prefix. */
    method RemoveJobs(prefix: string)
      modifies `jobs
      ensures jobs == Without(old(jobs), prefix)
    {
      var ids := jobs.Keys;
      while ids != {}
        invariant ids <= old(jobs).Keys
        invariant forall id :: id in jobs <==> id in old(jobs) && (id in ids || !PyText.StartsWith(id, prefix))
        invariant forall id :: id in jobs ==> jobs[id] == old(jobs)[id]
        decreases |ids|
      {
        var id :| id in ids;
        if PyText.StartsWith(id, prefix) {
          jobs := jobs - {id};
        }
        ids := ids - {id};
      }
    }

    method RestoreConnections()
      modifies `jobs
      ensures jobs == old(jobs) + ConnectionJobs(connections)
    {
      for i := 0 to |connections|
        invariant jobs == old(jobs) + ConnectionJobs(connections[..i])
      {
        assert connections[..i + 1][..i] == connections[..i];
        var c := connections[i];
        if c.enabled && c.schedule != "disabled" {
          AddConnectionJob(c);
        }
      }
      assert connections[..|connections|] == connections;
    }

    method AddConnectionJob(c: Connection)
      modifies `jobs
      ensures jobs == if c.schedule in SCHEDULE_MAP
                      then var job := ConnectionSync(c.id, Every(SCHEDULE_MAP[c.schedule]));
                           old(jobs)[JobId(CONNECTION_PREFIX, c.id) := job]
                      else old(jobs)
    {
      if c.schedule !in SCHEDULE_MAP {
        return;
      }
      jobs := jobs[JobId(CONNECTION_PREFIX, c.id) := ConnectionSync(c.id, Every(SCHEDULE_MAP[c.schedule]))];
    }

    method RescheduleVmwareConnections()
      modifies `jobs
      ensures Now() == ConnectionsRescheduled(old(Now()))
    {
      RemoveJobs(CONNECTION_PREFIX);
      RestoreConnections();
    }

    method ReschedulePlaybooks()
      modifies `jobs
      ensures Now() == PlaybooksRescheduled(old(Now()))
    {
      RemoveJobs(PLAYBOOK_PREFIX);
      ghost var kept := jobs;
      for i := 0 to |schedules|
        invariant jobs == kept + PlaybookJobs(schedules[..i])
      {
        assert schedules[..i + 1][..i] == schedules[..i];
        if schedules[i].enabled {
          var trigger := PlaybookTrigger(schedules[i]);
          if trigger.Some? {
            jobs := jobs[JobId(PLAYBOOK_PREFIX, schedules[i].id) := RunPlaybook(schedules[i].id, trigger.value)];
          }
        }
      }
      assert schedules[..|schedules|] == schedules;
    }

    /** A number in the form that does not parse, or a commit that fails, changes nothing. */
    method ConnectionCreate(f: ConnectionForm, fault: bool)
      modifies this
      ensures Now() == if fault then old(Now()) else Apply(old(Now()), CreateConnection(f))
      ensures playbookRuns == old(playbookRuns)
    {
      if fault || f.name == "" || f.host == "" || f.location.None? {
        return;
      }
      if Duplicate(connections, f.location.value, f.host, None) {
        return;
      }
      connections := connections + [ConnectionOf(nextConnection, f)];
      nextConnection := nextConnection + 1;
      RescheduleVmwareConnections();
    }

    method ConnectionUpdate(id: nat, f: ConnectionForm, fault: bool)
      modifies this
      ensures Now() == if fault then old(Now()) else Apply(old(Now()), UpdateConnection(id, f))
      ensures playbookRuns == old(playbookRuns)
    {
      var k := FindConnection(connections, id);
      if fault || k.None? || f.name == "" || f.host == "" || f.location.None? {
        return;
      }
      if Duplicate(connections, f.location.value, f.host, Some(id)) {
        return;
      }
      connections := connections[k.value := ConnectionOf(id, f)];
      RescheduleVmwareConnections();
    }

    /** The job goes first; when the commit fails after that, the row stays. */
    method ConnectionDelete(id: nat, fault: bool)
      modifies this
      ensures Now() == if fault then JobRemoved(old(Now()), id) else Apply(old(Now()), DeleteConnection(id))
      ensures playbookRuns == old(playbookRuns)
    {
      var k := FindConnection(connections, id);
      if k.Some? {
        jobs := jobs - {JobId(CONNECTION_PREFIX, id)};
        if !fault {
          connections := connections[..k.value] + connections[k.value + 1..];
        }
      }
    }

    method ConnectionToggle(id: nat)
      modifies this
      ensures Now() == Apply(old(Now()), ToggleConnection(id)) && playbookRuns == old(playbookRuns)
    {
      var k := FindConnection(connections, id);
      if k.Some? {
        var c := connections[k.value];
        connections := connections[k.value := c.(enabled := !c.enabled)];
        RescheduleVmwareConnections();
      }
    }

    method ScheduleSave(id: Option<nat>, f: ScheduleForm)
      modifies this
      ensures Now() == Apply(old(Now()), if id.Some? then UpdateSchedule(id.value, f) else CreateSchedule(f))
      ensures playbookRuns == old(playbookRuns)
    {
      if f.name == "" || f.template == 0 || f.kind == "" {
        return;
      }
      if id.Some? {
        var k := FindSchedule(schedules, id.value);
        if k.None? {
          return;
        }
        schedules := schedules[k.value := ScheduleOf(id.value, f)];
      } else {
        schedules, nextSchedule := schedules + [ScheduleOf(nextSchedule, f)], nextSchedule + 1;
      }
      ReschedulePlaybooks();
    }

    method ScheduleToggle(id: nat)
      modifies this
      ensures Now() == Apply(old(Now()), ToggleSchedule(id)) && playbookRuns == old(playbookRuns)
    {
      var k := FindSchedule(schedules, id);
      if k.Some? {
        var x := schedules[k.value];
        schedules := schedules[k.value := x.(enabled := !x.enabled)];
        ReschedulePlaybooks();
      }
    }

    method ScheduleDelete(id: nat)
      modifies this
      ensures Now() == Apply(old(Now()), DeleteSchedule(id)) && playbookRuns == old(playbookRuns)
    {
      var k := FindSchedule(schedules, id);
      if k.Some? {
        schedules := schedules[..k.value] + schedules[k.value + 1..];
      }
    }

    /** A playbook job fires. */
    method RunScheduledPlaybook(id: nat, world: World)
      requires Keyed(Now())
      modifies `playbookRuns
      ensures playbookRuns == if Runs(old(Now()), id, world) then old(playbookRuns) + [id] else old(playbookRuns)
    {
      var k := FindSchedule(schedules, id);
      if k.None? || !schedules[k.value].enabled {
        return;
      }
      if world.template.None? || !world.ansibleEnabled {
        return;
      }
      if PyText.Strip(world.template.value) == "" {
        return;
      }
      playbookRuns := playbookRuns + [id];
    }
  }

  lemma EmptyPlus(jobs: Jobs)
    ensures map[] + jobs == jobs
  {
  }

  const FACT_JOB := "ansible_scheduled_facts"

  function Started(s: State, facts: Option<nat>): State {
    var jobs := ConnectionJobs(s.connections);
    PlaybooksRescheduled(s.(jobs := if facts.Some? then jobs[FACT_JOB := OtherJob(Every(facts.value))] else jobs))
  }

  /** A fired schedule creates a playbook job. */
  predicate Runs(s: State, id: nat, world: World) {
    && (exists i :: 0 <= i < |s.schedules| && s.schedules[i].id == id && s.schedules[i].enabled)
    && world.template.Some? && world.ansibleEnabled && PyText.Strip(world.template.value) != ""
  }
}
