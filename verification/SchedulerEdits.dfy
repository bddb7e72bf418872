/**
 What each edit leaves in the tables, and the job each row is given, said in the fields of the rows and forms and in
 the names and hours of the schedules.
 */
module SchedulerEdits {
  import opened Options
  import opened Scheduler
  import opened SchedulerLaws
  import PyText

  // ── Rows by id ────────────────────────────────────────────────────────────

  function ConnectionWith(cs: seq<Connection>, id: nat): Option<Connection> {
    var k := FindConnection(cs, id);
    if k.Some? then Some(cs[k.value]) else None
  }

  function ScheduleWith(ss: seq<Schedule>, id: nat): Option<Schedule> {
    var k := FindSchedule(ss, id);
    if k.Some? then Some(ss[k.value]) else None
  }

  lemma ConnectionAt(cs: seq<Connection>, next: nat, k: nat)
    requires KeyedConnections(cs, next) && k < |cs|
    ensures FindConnection(cs, cs[k].id) == Some(k)
  {
  }

  lemma ScheduleAt(ss: seq<Schedule>, next: nat, k: nat)
    requires KeyedSchedules(ss, next) && k < |ss|
    ensures FindSchedule(ss, ss[k].id) == Some(k)
  {
  }

  /** Appending, replacing and removing a row, seen by id. */
  lemma ConnectionEdits(cs: seq<Connection>, next: nat, k: nat, c: Connection, id: nat)
    requires KeyedConnections(cs, next)
    ensures c.id == next ==> ConnectionWith(cs + [c], id) == if id == next then Some(c) else ConnectionWith(cs, id)
    ensures k < |cs| && c.id == cs[k].id ==>
              ConnectionWith(cs[k := c], id) == if id == c.id then Some(c) else ConnectionWith(cs, id)
    ensures k < |cs| ==>
              ConnectionWith(cs[..k] + cs[k + 1..], id) == if id == cs[k].id then None else ConnectionWith(cs, id)
  {
    if c.id == next {
      ConnectionAppended(cs, next, c, id);
    }
    if k < |cs| {
      ConnectionRemoved(cs, next, k, id);
      if c.id == cs[k].id {
        ConnectionReplaced(cs, next, k, c, id);
      }
    }
  }

  lemma ConnectionAppended(cs: seq<Connection>, next: nat, c: Connection, id: nat)
    requires KeyedConnections(cs, next) && c.id == next
    ensures ConnectionWith(cs + [c], id) == if id == next then Some(c) else ConnectionWith(cs, id)
  {
    assert (cs + [c])[..|cs|] == cs;
  }

  lemma ConnectionReplaced(cs: seq<Connection>, next: nat, k: nat, c: Connection, id: nat)
    requires KeyedConnections(cs, next) && k < |cs| && c.id == cs[k].id
    ensures ConnectionWith(cs[k := c], id) == if id == c.id then Some(c) else ConnectionWith(cs, id)
  {
    hide FindConnection;
    var was, now := FindConnection(cs, id), FindConnection(cs[k := c], id);
    assert was.Some? ==> cs[k := c][was.value].id == id;
    assert now.Some? ==> cs[now.value].id == id;
    assert id == c.id ==> cs[k := c][k].id == id;
  }

  lemma ConnectionRemoved(cs: seq<Connection>, next: nat, k: nat, id: nat)
    requires KeyedConnections(cs, next) && k < |cs|
    ensures ConnectionWith(cs[..k] + cs[k + 1..], id) == if id == cs[k].id then None else ConnectionWith(cs, id)
  {
    hide FindConnection;
    var rest := cs[..k] + cs[k + 1..];
    var was, now := FindConnection(cs, id), FindConnection(rest, id);
    if now.Some? {
      RemovedFrom(cs, k, now.value);
      assert cs[was.value].id == id;
    } else if was.Some? {
      OthersRemain(cs, k, was.value);
    }
  }

  lemma ScheduleEdits(ss: seq<Schedule>, next: nat, k: nat, x: Schedule, id: nat)
    requires KeyedSchedules(ss, next)
    ensures x.id == next ==> ScheduleWith(ss + [x], id) == if id == next then Some(x) else ScheduleWith(ss, id)
    ensures k < |ss| && x.id == ss[k].id ==>
              ScheduleWith(ss[k := x], id) == if id == x.id then Some(x) else ScheduleWith(ss, id)
    ensures k < |ss| ==>
              ScheduleWith(ss[..k] + ss[k + 1..], id) == if id == ss[k].id then None else ScheduleWith(ss, id)
  {
    if x.id == next {
      ScheduleAppended(ss, next, x, id);
    }
    if k < |ss| {
      ScheduleRemoved(ss, next, k, id);
      if x.id == ss[k].id {
        ScheduleReplaced(ss, next, k, x, id);
      }
    }
  }

  lemma ScheduleAppended(ss: seq<Schedule>, next: nat, x: Schedule, id: nat)
    requires KeyedSchedules(ss, next) && x.id == next
    ensures ScheduleWith(ss + [x], id) == if id == next then Some(x) else ScheduleWith(ss, id)
  {
    assert (ss + [x])[..|ss|] == ss;
  }

  lemma ScheduleReplaced(ss: seq<Schedule>, next: nat, k: nat, x: Schedule, id: nat)
    requires KeyedSchedules(ss, next) && k < |ss| && x.id == ss[k].id
    ensures ScheduleWith(ss[k := x], id) == if id == x.id then Some(x) else ScheduleWith(ss, id)
  {
    hide FindSchedule;
    var was, now := FindSchedule(ss, id), FindSchedule(ss[k := x], id);
    assert was.Some? ==> ss[k := x][was.value].id == id;
    assert now.Some? ==> ss[now.value].id == id;
    assert id == x.id ==> ss[k := x][k].id == id;
  }

  lemma ScheduleRemoved(ss: seq<Schedule>, next: nat, k: nat, id: nat)
    requires KeyedSchedules(ss, next) && k < |ss|
    ensures ScheduleWith(ss[..k] + ss[k + 1..], id) == if id == ss[k].id then None else ScheduleWith(ss, id)
  {
    hide FindSchedule;
    var rest := ss[..k] + ss[k + 1..];
    var was, now := FindSchedule(ss, id), FindSchedule(rest, id);
    if now.Some? {
      RemovedFrom(ss, k, now.value);
      assert ss[was.value].id == id;
    } else if was.Some? {
      OthersRemain(ss, k, was.value);
    }
  }

  // ── The tables after an edit ──────────────────────────────────────────────

  /** A form is refused without a name, a host or a location, or if another connection has its host and location. */
  predicate Acceptable(cs: seq<Connection>, f: ConnectionForm, self: Option<nat>) {
    && f.name != "" && f.host != "" && f.location.Some?
    && forall i :: 0 <= i < |cs| ==>
         cs[i].host != f.host || cs[i].location != f.location.value || self == Some(cs[i].id)
  }

  /** What a form stores under an id; a schedule that is none of the choices is stored as "disabled". */
  predicate StoredFrom(c: Connection, id: nat, f: ConnectionForm) {
    && c.id == id && c.host == f.host && f.location == Some(c.location) && c.enabled == f.enabled
    && c.schedule == (if f.schedule == "hourly" || f.schedule == "6h" || f.schedule == "12h" || f.schedule == "daily"
                      then f.schedule else "disabled")
  }

  /** The connection with an id after an edit of connections, for every id. */
  lemma ConnectionAfter(s: State, op: Op, id: nat)
    requires Keyed(s)
    ensures var was, is_ := ConnectionWith(s.connections, id), ConnectionWith(Apply(s, op).connections, id);
            match op
            case CreateConnection(f) =>
              if Acceptable(s.connections, f, None)
              then (if id == s.nextConnection then is_.Some? && StoredFrom(is_.value, id, f) else is_ == was)
              else Apply(s, op) == s
            case UpdateConnection(edited, f) =>
              if ConnectionWith(s.connections, edited).Some? && Acceptable(s.connections, f, Some(edited))
              then (if id == edited then is_.Some? && StoredFrom(is_.value, id, f) else is_ == was)
              else Apply(s, op) == s
            case DeleteConnection(gone) => is_ == if id == gone then None else was
            case ToggleConnection(flipped) =>
              is_ == if id == flipped && was.Some? then Some(was.value.(enabled := !was.value.enabled)) else was
            case _ => Apply(s, op).connections == s.connections
  {
    var cs, next := s.connections, s.nextConnection;
    hide PlaybookJobs, ConnectionJobs, Without, KeyedSchedules, FindConnection, FindSchedule, ScheduleOf;
    match op
    case CreateConnection(f) =>
      AcceptableIsValid(cs, f, None);
      if ValidConnection(cs, f, None) {
        FormIsStored(next, f);
        ConnectionEdits(cs, next, |cs|, ConnectionOf(next, f), id);
      }
    case UpdateConnection(edited, f) =>
      AcceptableIsValid(cs, f, Some(edited));
      var k := FindConnection(cs, edited);
      if k.Some? && ValidConnection(cs, f, Some(edited)) {
        FormIsStored(edited, f);
        ConnectionEdits(cs, next, k.value, ConnectionOf(edited, f), id);
      }
    case DeleteConnection(gone) =>
      var k := FindConnection(cs, gone);
      if k.Some? { ConnectionEdits(cs, next, k.value, cs[k.value], id); }
    case ToggleConnection(flipped) =>
      var k := FindConnection(cs, flipped);
      if k.Some? { ConnectionEdits(cs, next, k.value, cs[k.value].(enabled := !cs[k.value].enabled), id); }
    case _ =>
  }

  lemma AcceptableIsValid(cs: seq<Connection>, f: ConnectionForm, self: Option<nat>)
    ensures Acceptable(cs, f, self) <==> ValidConnection(cs, f, self)
  {
  }

  lemma FormIsStored(id: nat, f: ConnectionForm)
    requires f.location.Some?
    ensures StoredFrom(ConnectionOf(id, f), id, f) && ConnectionOf(id, f).id == id
  {
  }

  /** The schedule with an id after an edit of schedules, for every id. */
  lemma ScheduleAfter(s: State, op: Op, id: nat)
    requires Keyed(s)
    ensures var was, is_ := ScheduleWith(s.schedules, id), ScheduleWith(Apply(s, op).schedules, id);
            match op
            case CreateSchedule(f) =>
              if f.name != "" && f.template != 0 && f.kind != ""
              then is_ == if id == s.nextSchedule then Some(Schedule(id, f.name, f.template, f.kind, f.cron, f.enabled))
                          else was
              else Apply(s, op) == s
            case UpdateSchedule(edited, f) =>
              if ScheduleWith(s.schedules, edited).Some? && f.name != "" && f.template != 0 && f.kind != ""
              then is_ == if id == edited then Some(Schedule(id, f.name, f.template, f.kind, f.cron, f.enabled))
                          else was
              else Apply(s, op) == s
            case DeleteSchedule(gone) => is_ == if id == gone then None else was
            case ToggleSchedule(flipped) =>
              is_ == if id == flipped && was.Some? then Some(was.value.(enabled := !was.value.enabled)) else was
            case _ => Apply(s, op).schedules == s.schedules
  {
    var ss, next := s.schedules, s.nextSchedule;
    hide PlaybookJobs, ConnectionJobs, Without, KeyedConnections, FindConnection, FindSchedule, ConnectionOf,
         ValidConnection;
    match op
    case CreateSchedule(f) =>
      ScheduleEdits(ss, next, |ss|, ScheduleOf(next, f), id);
    case UpdateSchedule(edited, f) =>
      var k := FindSchedule(ss, edited);
      if k.Some? { ScheduleEdits(ss, next, k.value, ScheduleOf(edited, f), id); }
    case DeleteSchedule(gone) =>
      var k := FindSchedule(ss, gone);
      if k.Some? { ScheduleEdits(ss, next, k.value, ss[k.value], id); }
    case ToggleSchedule(flipped) =>
      var k := FindSchedule(ss, flipped);
      if k.Some? { ScheduleEdits(ss, next, k.value, ss[k.value].(enabled := !ss[k.value].enabled), id); }
    case _ =>
  }

  // ── The job of every row, after any edits ─────────────────────────────────

  /** The hours of a connection's schedule. */
  predicate ConnectionHours(schedule: string, hours: nat) {
    || (schedule == "hourly" && hours == 1)
    || (schedule == "6h" && hours == 6)
    || (schedule == "12h" && hours == 12)
    || (schedule == "daily" && hours == 24)
  }

  lemma ScheduleHours(schedule: string, hours: nat)
    ensures ConnectionHours(schedule, hours) <==> schedule in SCHEDULE_MAP && SCHEDULE_MAP[schedule] == hours
    ensures schedule == "disabled" ==> schedule !in SCHEDULE_MAP
  {
    assert SCHEDULE_MAP.Keys == {"hourly", "6h", "12h", "daily"};
    assert SCHEDULE_MAP["hourly"] == 1 && SCHEDULE_MAP["6h"] == 6 && SCHEDULE_MAP["12h"] == 12;
    assert SCHEDULE_MAP["daily"] == 24;
  }

  /**
   Since start-up, whatever was edited: a job is held under "vmware_conn_" and an id exactly if a connection with that
   id is enabled with a known schedule; it synchronises that connection, at the schedule's hours.
   */
  lemma ConnectionJobFields(s: State, ops: seq<Op>, id: nat, hours: nat)
    requires Agreed(s)
    ensures var later := ApplyAll(s, ops);
            var c := ConnectionWith(later.connections, id);
            var job := Get(later.jobs, "vmware_conn_" + PyText.NatToString(id));
            && (job == Some(ConnectionSync(id, Every(hours)))
                <==> c.Some? && c.value.enabled && ConnectionHours(c.value.schedule, hours))
            && (job.Some? ==> exists h: nat :: job == Some(ConnectionSync(id, Every(h))))
  {
    EditsKeepAgreement(s, ops);
    var later := ApplyAll(s, ops);
    assert Held(later.jobs, CONNECTION_PREFIX, id) == WantedConnection(later.connections, id);
    hide ApplyAll, Agreed, FindConnection;
    var c := ConnectionWith(later.connections, id);
    if c.Some? {
      ScheduleHours(c.value.schedule, hours);
    }
  }

  /** What a schedule asks for: a cron expression that is accepted, or an interval in hours. */
  predicate ScheduleTrigger(kind: string, cron: CronText, trigger: Trigger) {
    match trigger
    case Cron(fields) => kind == "cron" && cron == Accepted(fields)
    case Every(hours) =>
      || (kind == "hourly" && hours == 1) || (kind == "daily" && hours == 24)
      || (kind == "weekly" && hours == 7 * 24) || (kind == "monthly" && hours == 30 * 24)
  }

  lemma TriggerIsExact(x: Schedule, trigger: Trigger)
    ensures ScheduleTrigger(x.kind, x.cron, trigger) <==> PlaybookTrigger(x) == Some(trigger)
  {
    assert INTERVAL_MAP.Keys == {"hourly", "daily", "weekly", "monthly"};
    assert INTERVAL_MAP["hourly"] == 1 && INTERVAL_MAP["daily"] == 24 && INTERVAL_MAP["weekly"] == 7 * 24;
    assert INTERVAL_MAP["monthly"] == 30 * 24;
  }

  /**
   Since start-up, whatever was edited: the job of a schedule in the table is held under "playbook_sched_" and its id
   exactly if it is enabled and has a trigger; it runs that schedule, at that trigger.
   */
  lemma PlaybookJobFields(s: State, ops: seq<Op>, id: nat, trigger: Trigger)
    requires Agreed(s)
    ensures var later := ApplyAll(s, ops);
            var x := ScheduleWith(later.schedules, id);
            var job := Get(later.jobs, "playbook_sched_" + PyText.NatToString(id));
            x.Some? ==>
              && (job == Some(RunPlaybook(id, trigger))
                  <==> x.value.enabled && ScheduleTrigger(x.value.kind, x.value.cron, trigger))
              && (job.Some? ==> exists tr :: job == Some(RunPlaybook(id, tr)))
  {
    EditsKeepAgreement(s, ops);
    var later := ApplyAll(s, ops);
    var x := ScheduleWith(later.schedules, id);
    if x.Some? {
      assert Held(later.jobs, PLAYBOOK_PREFIX, id) == WantedPlaybook(later.schedules, id);
      hide ApplyAll, Agreed, FindSchedule, PlaybookTrigger;
      TriggerIsExact(x.value, trigger);
    }
  }

  /** Toggling a connection or a schedule twice leaves the tables as they were. */
  lemma TogglingTwiceIsIdentity(s: State, id: nat)
    requires Keyed(s)
    ensures Apply(Apply(s, ToggleConnection(id)), ToggleConnection(id)).connections == s.connections
    ensures Apply(Apply(s, ToggleSchedule(id)), ToggleSchedule(id)).schedules == s.schedules
  {
    hide PlaybookJobs, ConnectionJobs, Without;
    var k := FindConnection(s.connections, id);
    if k.Some? {
      var c := s.connections[k.value];
      var once := s.connections[k.value := c.(enabled := !c.enabled)];
      KeysAfterConnectionEdit(s.connections, s.nextConnection, k.value, c.(enabled := !c.enabled));
      ConnectionAt(once, s.nextConnection, k.value);
      assert once[k.value := c] == s.connections;
    }
    var m := FindSchedule(s.schedules, id);
    if m.Some? {
      var x := s.schedules[m.value];
      var once := s.schedules[m.value := x.(enabled := !x.enabled)];
      KeysAfterScheduleEdit(s.schedules, s.nextSchedule, m.value, x.(enabled := !x.enabled));
      ScheduleAt(once, s.nextSchedule, m.value);
      assert once[m.value := x] == s.schedules;
    }
  }

  /** The fact collection job after start-up. */
  lemma FactJobAtStartUp(s: State, facts: Option<nat>)
    requires Keyed(s)
    ensures Get(Started(s, facts).jobs, "ansible_scheduled_facts")
            == if facts.Some? then Some(OtherJob(Every(facts.value))) else None
  {
    StartUpAgrees(s, facts);
  }
}
