/**
 Synchronisation of one vCenter into the inventory.

 Rows are named by their position in their table: a flush that inserts a server gives it
 the next position, and no row is deleted while a sync runs.  The empty string stands for
 both NULL and the empty string, and 0 for both NULL and zero, because the code only ever
 tests those columns for truthiness.
 */
module VmwareSync {
  import opened Options

  datatype Server = Server(
    hostname: string, ip: string, source: Option<string>, uuid: string, status: string,
    fqdn: string, os: string, cpu: nat, ram: real, location: nat, environment: nat)

  datatype VmDetail = VmDetail(
    vmName: string, powerState: string, datacenter: string, cluster: string, esxiHost: string,
    datastore: string, folder: string, toolsStatus: string, toolsVersion: string,
    macAddress: string, networkName: string)

  /** One virtual machine as discovered in the vCenter. */
  datatype Vm = Vm(
    hostname: string, fqdn: string, ip: string, os: string, cpu: nat, ram: real,
    uuid: string, bios: string, detail: VmDetail)

  datatype Meta = Meta(
    server: nat, connection: Option<nat>, vcenterName: string, vcenterHost: string,
    vmUuid: string, biosUuid: string, detail: VmDetail)

  datatype Defaults = Defaults(location: nat, legacyLocation: nat, environment: nat)

  datatype Context = Context(
    connection: Option<nat>, vcenterName: string, vcenterHost: string, defaults: Option<Defaults>)

  datatype Tables = Tables(servers: seq<Server>, metas: seq<Meta>)

  datatype Outcome = Imported | Updated | Duplicate | Skipped

  /** Which of the three lookups resolved a machine. */
  datatype Via = ByUuid | ByBios | ByHostname

  datatype Match = NoMatch | Match(via: Via, server: nat)

  datatype Step = Step(tables: Tables, bios: map<string, nat>, outcome: Outcome)

  // ── What the tables must satisfy ──────────────────────────────────────────

  ghost predicate DistinctHostnames(servers: seq<Server>) {
    forall i, j :: 0 <= i < j < |servers| ==> servers[i].hostname != servers[j].hostname
  }

  ghost predicate DistinctUuids(servers: seq<Server>) {
    forall i, j :: 0 <= i < j < |servers| && servers[i].uuid != "" ==> servers[i].uuid != servers[j].uuid
  }

  ghost predicate OneMetaPerServer(metas: seq<Meta>) {
    forall i, j :: 0 <= i < j < |metas| ==> metas[i].server != metas[j].server
  }

  ghost predicate WellFormed(t: Tables) {
    && DistinctHostnames(t.servers)
    && DistinctUuids(t.servers)
    && OneMetaPerServer(t.metas)
    && forall k :: 0 <= k < |t.metas| ==> t.metas[k].server < |t.servers|
  }

  /** Every entry of the BIOS dictionary points at an existing row. */
  ghost predicate BiosInRange(bios: map<string, nat>, servers: seq<Server>) {
    forall b :: b in bios ==> bios[b] < |servers|
  }

  // ── Table searches: what the dictionaries stand in for ────────────────────

  ghost function FindUuid(servers: seq<Server>, uuid: string): (r: Option<nat>)
    ensures match r
      case Some(i) => i < |servers| && servers[i].uuid == uuid
      case None => forall i :: 0 <= i < |servers| ==> servers[i].uuid != uuid
  {
    if exists i :: 0 <= i < |servers| && servers[i].uuid == uuid then
      var i :| 0 <= i < |servers| && servers[i].uuid == uuid;
      Some(i)
    else None
  }

  ghost function FindHostname(servers: seq<Server>, hostname: string): (r: Option<nat>)
    ensures match r
      case Some(i) => i < |servers| && servers[i].hostname == hostname
      case None => forall i :: 0 <= i < |servers| ==> servers[i].hostname != hostname
  {
    if exists i :: 0 <= i < |servers| && servers[i].hostname == hostname then
      var i :| 0 <= i < |servers| && servers[i].hostname == hostname;
      Some(i)
    else None
  }

  ghost function FindMeta(metas: seq<Meta>, server: nat): (r: Option<nat>)
    ensures match r
      case Some(k) => k < |metas| && metas[k].server == server
      case None => forall k :: 0 <= k < |metas| ==> metas[k].server != server
  {
    if exists k :: 0 <= k < |metas| && metas[k].server == server then
      var k :| 0 <= k < |metas| && metas[k].server == server;
      Some(k)
    else None
  }

  // ── One upsert, by table search ───────────────────────────────────────────

  ghost function Resolve(t: Tables, bios: map<string, nat>, vm: Vm): Match {
    if vm.uuid != "" && FindUuid(t.servers, vm.uuid).Some? then Match(ByUuid, FindUuid(t.servers, vm.uuid).value)
    else if vm.bios != "" && vm.bios in bios then Match(ByBios, bios[vm.bios])
    else match FindHostname(t.servers, vm.hostname)
      case Some(i) => Match(ByHostname, i)
      case None => NoMatch
  }

  /** The server's metadata is held by another connection. */
  ghost predicate Foreign(t: Tables, server: nat, ctx: Context) {
    && ctx.connection.Some?
    && var m := FindMeta(t.metas, server);
    && m.Some?
    && t.metas[m.value].connection.Some?
    && t.metas[m.value].connection != ctx.connection
  }

  /** `source in (None, "vmware")`: the inventory fields belong to VMware. */
  predicate VmwareOwned(s: Server) {
    s.source in {None, Some("vmware")}
  }

  function WithInventory(s: Server, vm: Vm): Server {
    if VmwareOwned(s) then
      s.(source := Some("vmware"),
         ip := if vm.ip != "" && vm.ip != "0.0.0.0" then vm.ip else s.ip,
         fqdn := if vm.fqdn != "" then vm.fqdn else s.fqdn,
         os := if vm.os != "" then vm.os else s.os,
         cpu := if vm.cpu != 0 then vm.cpu else s.cpu,
         ram := if vm.ram != 0.0 then vm.ram else s.ram)
    else s
  }

  function WithDefaults(s: Server, defaults: Option<Defaults>): Server {
    match defaults
    case None => s
    case Some(d) =>
      s.(location := if s.location != 0 then s.location
                     else if d.location != 0 then d.location else d.legacyLocation,
         environment := if s.environment != 0 then s.environment else d.environment)
  }

  function Blank(vm: Vm): Server {
    Server(vm.hostname, vm.ip, Some("vmware"), vm.uuid, "active", "", "", 0, 0.0, 0, 0)
  }

  function Adopt(s: Server, vm: Vm): Server {
    if vm.uuid != "" && s.uuid == "" then s.(uuid := vm.uuid) else s
  }

  function Refreshed(s: Server, vm: Vm, ctx: Context): Server {
    WithDefaults(WithInventory(Adopt(s, vm), vm), ctx.defaults)
  }

  function MetaFor(server: nat, vm: Vm, ctx: Context): Meta {
    Meta(server, ctx.connection, ctx.vcenterName, ctx.vcenterHost, vm.uuid, vm.bios, vm.detail)
  }

  ghost function PutMeta(metas: seq<Meta>, server: nat, vm: Vm, ctx: Context): (r: seq<Meta>)
    requires OneMetaPerServer(metas)
    ensures OneMetaPerServer(r) && |metas| <= |r|
    ensures forall k :: 0 <= k < |r| ==>
              if r[k].server == server then r[k] == MetaFor(server, vm, ctx) else k < |metas| && r[k] == metas[k]
    ensures forall k :: 0 <= k < |metas| ==> r[k].server == metas[k].server
    ensures exists k :: 0 <= k < |r| && r[k].server == server
  {
    match FindMeta(metas, server)
    case Some(k) => metas[k := MetaFor(server, vm, ctx)]
    case None =>
      var r := metas + [MetaFor(server, vm, ctx)];
      assert r[|metas|].server == server;
      r
  }

  /** A machine nothing matched becomes a new server with its own metadata. */
  ghost function Insert(t: Tables, vm: Vm, ctx: Context): (r: Tables)
    requires WellFormed(t)
    requires vm.uuid == "" || FindUuid(t.servers, vm.uuid).None?
    requires FindHostname(t.servers, vm.hostname).None?
    ensures WellFormed(r) && |r.servers| == |t.servers| + 1 && Evolves(t, r, {vm.uuid})
  {
    var s := Refreshed(Blank(vm), vm, ctx);
    RefreshedRow(Blank(vm), vm, ctx);
    AppendServer(t.servers, s);
    Tables(t.servers + [s], PutMeta(t.metas, |t.servers|, vm, ctx))
  }

  /** A matched server of another vCenter keeps its row; only its metadata changes hands. */
  ghost function TakeOver(t: Tables, i: nat, vm: Vm, ctx: Context): (r: Tables)
    requires WellFormed(t) && i < |t.servers|
    ensures WellFormed(r) && r.servers == t.servers && Evolves(t, r, {vm.uuid})
  {
    t.(metas := PutMeta(t.metas, i, vm, ctx))
  }

  /** A matched server of this vCenter is rewritten in place. */
  ghost function Rewrite(t: Tables, i: nat, vm: Vm, ctx: Context): (r: Tables)
    requires WellFormed(t) && i < |t.servers|
    requires vm.uuid == "" || t.servers[i].uuid == vm.uuid || FindUuid(t.servers, vm.uuid).None?
    ensures WellFormed(r) && |r.servers| == |t.servers| && Evolves(t, r, {vm.uuid})
  {
    var s := Refreshed(t.servers[i], vm, ctx);
    RefreshedRow(t.servers[i], vm, ctx);
    ReplaceServer(t.servers, i, s);
    Tables(t.servers[i := s], PutMeta(t.metas, i, vm, ctx))
  }

  ghost function Upsert(t: Tables, bios: map<string, nat>, vm: Vm, ctx: Context): (r: Step)
    requires WellFormed(t) && BiosInRange(bios, t.servers)
    ensures WellFormed(r.tables) && BiosInRange(r.bios, r.tables.servers)
    ensures Evolves(t, r.tables, {vm.uuid})
  {
    if vm.hostname == "" then Step(t, bios, Skipped)
    else match Resolve(t, bios, vm)
      case NoMatch =>
        Step(Insert(t, vm, ctx), if vm.bios != "" then bios[vm.bios := |t.servers|] else bios, Imported)
      case Match(_, i) =>
        if Foreign(t, i, ctx) then
          Step(TakeOver(t, i, vm, ctx), bios, Duplicate)
        else
          Step(Rewrite(t, i, vm, ctx), bios, Updated)
  }

  lemma RefreshedRow(s: Server, vm: Vm, ctx: Context)
    ensures RowEvolves(s, Refreshed(s, vm, ctx), {vm.uuid})
    ensures Refreshed(s, vm, ctx).uuid == if s.uuid == "" then vm.uuid else s.uuid
  {
  }

  lemma AppendServer(servers: seq<Server>, s: Server)
    requires DistinctHostnames(servers) && DistinctUuids(servers)
    requires forall i :: 0 <= i < |servers| ==> servers[i].hostname != s.hostname
    requires s.uuid == "" || forall i :: 0 <= i < |servers| ==> servers[i].uuid != s.uuid
    ensures DistinctHostnames(servers + [s]) && DistinctUuids(servers + [s])
  {
  }

  lemma ReplaceServer(servers: seq<Server>, k: nat, s: Server)
    requires DistinctHostnames(servers) && DistinctUuids(servers)
    requires k < |servers| && s.hostname == servers[k].hostname
    requires s.uuid == servers[k].uuid || s.uuid == "" || forall i :: 0 <= i < |servers| ==> servers[i].uuid != s.uuid
    ensures DistinctHostnames(servers[k := s]) && DistinctUuids(servers[k := s])
  {
  }

  /**
   What a sync loop may do to the rows: none disappears, hostname and status stay, a set UUID, location
   or environment stays, the inventory fields of servers VMware does not own stay, and a UUID that
   appears was discovered.
   */
  ghost predicate Evolves(t: Tables, t': Tables, discovered: set<string>) {
    && |t.servers| <= |t'.servers|
    && (forall i :: 0 <= i < |t.servers| ==> RowEvolves(t.servers[i], t'.servers[i], discovered))
    && (forall i :: |t.servers| <= i < |t'.servers| ==>
          t'.servers[i].status == "active" && t'.servers[i].uuid in discovered + {""})
  }

  ghost predicate RowEvolves(s: Server, s': Server, discovered: set<string>) {
    && s'.hostname == s.hostname
    && s'.status == s.status
    && (s'.uuid == s.uuid || (s.uuid == "" && s'.uuid in discovered))
    && (s.location != 0 ==> s'.location == s.location)
    && (s.environment != 0 ==> s'.environment == s.environment)
    && (!VmwareOwned(s) ==>
          s'.source == s.source && s'.ip == s.ip && s'.fqdn == s.fqdn && s'.os == s.os &&
          s'.cpu == s.cpu && s'.ram == s.ram)
    && (VmwareOwned(s) ==> VmwareOwned(s'))
  }

  lemma EvolvesTransitive(a: Tables, b: Tables, c: Tables, d1: set<string>, d2: set<string>, d: set<string>)
    requires Evolves(a, b, d1) && Evolves(b, c, d2)
    requires d1 <= d + {""} && d2 <= d + {""}
    ensures Evolves(a, c, d)
  {
    forall i | 0 <= i < |a.servers| ensures RowEvolves(a.servers[i], c.servers[i], d) {
      assert RowEvolves(a.servers[i], b.servers[i], d1) && RowEvolves(b.servers[i], c.servers[i], d2);
    }
    forall i | |a.servers| <= i < |b.servers|
      ensures c.servers[i].status == "active" && c.servers[i].uuid in d + {""}
    {
      assert RowEvolves(b.servers[i], c.servers[i], d2);
    }
  }

  // ── The loop over all discovered machines ─────────────────────────────────

  datatype Loop = Loop(tables: Tables, bios: map<string, nat>, outcomes: seq<Outcome>)

  function Discovered(vms: seq<Vm>): set<string> {
    set v | v in vms && v.uuid != "" :: v.uuid
  }

  ghost function UpsertAll(t: Tables, bios: map<string, nat>, vms: seq<Vm>, ctx: Context): (r: Loop)
    requires WellFormed(t) && BiosInRange(bios, t.servers)
    ensures WellFormed(r.tables) && BiosInRange(r.bios, r.tables.servers)
    ensures |r.outcomes| == |vms|
    ensures Evolves(t, r.tables, Discovered(vms))
  {
    if vms == [] then Loop(t, bios, [])
    else
      var n := |vms| - 1;
      var r := UpsertAll(t, bios, vms[..n], ctx);
      var s := Upsert(r.tables, r.bios, vms[n], ctx);
      assert vms[n] in vms && forall v :: v in vms[..n] ==> v in vms;
      EvolvesTransitive(t, r.tables, s.tables, Discovered(vms[..n]), {vms[n].uuid}, Discovered(vms));
      Loop(s.tables, s.bios, r.outcomes + [s.outcome])
  }

  lemma UpsertNone(t: Tables, bios: map<string, nat>, ctx: Context)
    requires WellFormed(t) && BiosInRange(bios, t.servers)
    ensures UpsertAll(t, bios, [], ctx) == Loop(t, bios, [])
  {
  }

  lemma UpsertAllStep(t: Tables, bios: map<string, nat>, vms: seq<Vm>, k: nat, ctx: Context)
    requires WellFormed(t) && BiosInRange(bios, t.servers) && k < |vms|
    ensures var r := UpsertAll(t, bios, vms[..k], ctx);
            var s := Upsert(r.tables, r.bios, vms[k], ctx);
            UpsertAll(t, bios, vms[..k + 1], ctx) == Loop(s.tables, s.bios, r.outcomes + [s.outcome])
  {
    assert vms[..k + 1][..k] == vms[..k];
  }

  function Count(outcomes: seq<Outcome>, o: Outcome): nat {
    if outcomes == [] then 0
    else Count(outcomes[..|outcomes| - 1], o) + if outcomes[|outcomes| - 1] == o then 1 else 0
  }

  lemma NothingCounted()
    ensures forall o :: Count([], o) == 0
    ensures Discovered([]) == {}
  {
  }

  lemma CountAndDiscover(outcomes: seq<Outcome>, o: Outcome, vms: seq<Vm>, vm: Vm)
    ensures forall c :: Count(outcomes + [o], c) == Count(outcomes, c) + if o == c then 1 else 0
    ensures Discovered(vms + [vm]) == Discovered(vms) + if vm.uuid != "" then {vm.uuid} else {}
  {
    assert (outcomes + [o])[..|outcomes|] == outcomes;
    assert forall v :: v in vms + [vm] <==> v in vms || v == vm;
  }

  /** The BIOS dictionary as preloaded: the last metadata row with a given BIOS id wins. */
  function PreloadedBios(metas: seq<Meta>): map<string, nat> {
    if metas == [] then map[]
    else
      var m := metas[|metas| - 1];
      var rest := PreloadedBios(metas[..|metas| - 1]);
      if m.biosUuid != "" then rest[m.biosUuid := m.server] else rest
  }

  lemma {:induction false} PreloadedBiosEntries(metas: seq<Meta>)
    ensures forall b :: b in PreloadedBios(metas) ==>
              exists k :: 0 <= k < |metas| && metas[k].biosUuid == b && metas[k].server == PreloadedBios(metas)[b]
    ensures forall k :: 0 <= k < |metas| && metas[k].biosUuid != "" ==> metas[k].biosUuid in PreloadedBios(metas)
    ensures "" !in PreloadedBios(metas)
  {
    if metas != [] {
      var n := |metas| - 1;
      PreloadedBiosEntries(metas[..n]);
      forall b | b in PreloadedBios(metas)
        ensures exists k :: 0 <= k < |metas| && metas[k].biosUuid == b && metas[k].server == PreloadedBios(metas)[b]
      {
        if b != metas[n].biosUuid {
          var k :| 0 <= k < n && metas[..n][k].biosUuid == b && metas[..n][k].server == PreloadedBios(metas[..n])[b];
          assert metas[k] == metas[..n][k];
        }
      }
      forall k | 0 <= k < |metas| && metas[k].biosUuid != "" ensures metas[k].biosUuid in PreloadedBios(metas) {
        if k < n {
          assert metas[k] == metas[..n][k];
        }
      }
    }
  }

  // ── Staleness, stated on the tables as they were before the run ───────────

  predicate NoConnection(ctx: Context) {
    ctx.connection in {None, Some(0)}
  }

  ghost predicate BelongsTo(t: Tables, server: nat, connection: Option<nat>) {
    FindMeta(t.metas, server).Some? && t.metas[FindMeta(t.metas, server).value].connection == connection
  }

  /** UUIDs held by the metadata of any connection but this one. */
  function HeldElsewhere(metas: seq<Meta>, ctx: Context): set<string> {
    set m | m in metas && m.vmUuid != "" && m.connection != ctx.connection :: m.vmUuid
  }

  ghost predicate Managed(t: Tables, ctx: Context, i: nat)
    requires i < |t.servers|
  {
    && t.servers[i].source == Some("vmware")
    && (NoConnection(ctx) || BelongsTo(t, i, ctx.connection))
  }

  ghost predicate Stale(t: Tables, vms: seq<Vm>, ctx: Context, i: nat)
    requires i < |t.servers|
  {
    && Managed(t, ctx, i)
    && t.servers[i].status == "active"
    && t.servers[i].uuid != ""
    && t.servers[i].uuid !in Discovered(vms)
    && t.servers[i].uuid !in HeldElsewhere(t.metas, ctx)
  }

  /** The loop of a run: it starts from the preloaded BIOS dictionary. */
  ghost function RunLoop(t: Tables, vms: seq<Vm>, ctx: Context): (r: Loop)
    requires WellFormed(t)
    ensures WellFormed(r.tables) && |r.outcomes| == |vms|
    ensures |t.servers| <= |r.tables.servers| && Evolves(t, r.tables, Discovered(vms))
  {
    PreloadedBiosEntries(t.metas);
    UpsertAll(t, PreloadedBios(t.metas), vms, ctx)
  }

  /** The tables after a fault-free run. */
  ghost function Synced(t: Tables, vms: seq<Vm>, ctx: Context): (r: Tables)
    requires WellFormed(t)
    ensures WellFormed(r)
  {
    var loop := RunLoop(t, vms, ctx).tables;
    Tables(
      seq(|loop.servers|, i requires 0 <= i < |loop.servers| =>
        if i < |t.servers| && Stale(t, vms, ctx, i) then loop.servers[i].(status := "inactive") else loop.servers[i]),
      loop.metas)
  }

  /** What the stale pass does to the rows it finds after the loop. */
  ghost predicate StalePass(
    before: seq<Server>, after: seq<Server>, managed: seq<nat>, synced: set<string>, elsewhere: set<string>)
  {
    && |after| == |before|
    && forall i :: 0 <= i < |before| ==>
         after[i] == if i in managed && Absent(before[i], synced, elsewhere) then before[i].(status := "inactive")
                     else before[i]
  }

  ghost function Changed(before: seq<Server>, after: seq<Server>): set<nat>
    requires |before| == |after|
  {
    set i | 0 <= i < |before| && after[i] != before[i]
  }

  ghost function StaleServers(t: Tables, vms: seq<Vm>, ctx: Context): set<nat> {
    set i: nat | i < |t.servers| && Stale(t, vms, ctx, i)
  }

  predicate Absent(s: Server, synced: set<string>, elsewhere: set<string>) {
    s.uuid != "" && s.uuid !in synced && s.uuid !in elsewhere && s.status == "active"
  }

  /** Visiting one more managed server. */
  lemma StalePassVisit(
    before: seq<Server>, now: seq<Server>, managed: seq<nat>, k: nat, synced: set<string>, elsewhere: set<string>)
    requires k < |managed| && managed[k] < |before|
    requires StalePass(before, now, managed[..k], synced, elsewhere)
    ensures var s := now[managed[k]];
            var after := if Absent(s, synced, elsewhere) then now[managed[k] := s.(status := "inactive")] else now;
            && StalePass(before, after, managed[..k + 1], synced, elsewhere)
            && |Changed(before, after)| == |Changed(before, now)| + if Absent(s, synced, elsewhere) then 1 else 0
  {
    assert managed[..k + 1] == managed[..k] + [managed[k]];
    var i := managed[k];
    if Absent(now[i], synced, elsewhere) {
      assert Changed(before, now[i := now[i].(status := "inactive")]) == Changed(before, now) + {i};
    }
  }

  /**
   Reading the UUID after the loop, as the stale pass does, selects the same servers as reading it before:
   a UUID adopted on the way was discovered.
   */
  lemma StalePassIsExact(t: Tables, vms: seq<Vm>, ctx: Context, after: seq<Server>, managed: seq<nat>)
    requires WellFormed(t)
    requires forall i: nat :: i in managed <==> i < |t.servers| && Managed(t, ctx, i)
    requires var elsewhere := HeldElsewhere(t.metas, ctx);
             StalePass(RunLoop(t, vms, ctx).tables.servers, after, managed, Discovered(vms), elsewhere)
    ensures Synced(t, vms, ctx) == Tables(after, RunLoop(t, vms, ctx).tables.metas)
    ensures Changed(RunLoop(t, vms, ctx).tables.servers, after) == StaleServers(t, vms, ctx)
  {
    var loop := RunLoop(t, vms, ctx).tables;
    forall i | 0 <= i < |after| ensures after[i] == Synced(t, vms, ctx).servers[i] {
      if i < |t.servers| {
        assert RowEvolves(t.servers[i], loop.servers[i], Discovered(vms));
      }
    }
  }

  // ── Dictionaries that agree with their table ──────────────────────────────

  ghost predicate UuidIndex(index: map<string, nat>, servers: seq<Server>) {
    && (forall u :: u in index ==> u != "" && index[u] < |servers| && servers[index[u]].uuid == u)
    && (forall i :: 0 <= i < |servers| && servers[i].uuid != "" ==> servers[i].uuid in index)
  }

  ghost predicate HostnameIndex(index: map<string, nat>, servers: seq<Server>) {
    && (forall h :: h in index ==> index[h] < |servers| && servers[index[h]].hostname == h)
    && (forall i :: 0 <= i < |servers| ==> servers[i].hostname in index)
  }

  ghost predicate MetaIndex(index: map<nat, nat>, metas: seq<Meta>) {
    && (forall s :: s in index ==> index[s] < |metas| && metas[index[s]].server == s)
    && (forall k :: 0 <= k < |metas| ==> metas[k].server in index)
  }

  /** An index that agrees with a well-formed table answers every lookup as a search of the table would. */
  lemma IndexesAnswerSearches(
    t: Tables, byUuid: map<string, nat>, byHostname: map<string, nat>, metaByServer: map<nat, nat>)
    requires WellFormed(t)
    requires UuidIndex(byUuid, t.servers) && HostnameIndex(byHostname, t.servers) && MetaIndex(metaByServer, t.metas)
    ensures forall u :: u != "" ==> Get(byUuid, u) == FindUuid(t.servers, u)
    ensures forall h :: Get(byHostname, h) == FindHostname(t.servers, h)
    ensures forall s: nat :: Get(metaByServer, s) == FindMeta(t.metas, s)
  {
  }

  lemma UuidIndexAppend(index: map<string, nat>, servers: seq<Server>, s: Server)
    requires UuidIndex(index, servers)
    ensures UuidIndex(if s.uuid != "" then index[s.uuid := |servers|] else index, servers + [s])
  {
  }

  lemma HostnameIndexAppend(index: map<string, nat>, servers: seq<Server>, s: Server)
    requires HostnameIndex(index, servers)
    ensures HostnameIndex(index[s.hostname := |servers|], servers + [s])
  {
  }

  lemma MetaIndexAppend(index: map<nat, nat>, metas: seq<Meta>, m: Meta)
    requires MetaIndex(index, metas)
    ensures MetaIndex(index[m.server := |metas|], metas + [m])
  {
  }

  /** Rewriting a row keeps both server indexes, provided an adopted UUID is added to its index. */
  lemma ServerIndexesReplace(
    byUuid: map<string, nat>, byHostname: map<string, nat>, servers: seq<Server>, i: nat, s: Server)
    requires UuidIndex(byUuid, servers) && HostnameIndex(byHostname, servers)
    requires i < |servers| && s.hostname == servers[i].hostname
    requires s.uuid == servers[i].uuid || servers[i].uuid == ""
    ensures UuidIndex(if s.uuid != servers[i].uuid then byUuid[s.uuid := i] else byUuid, servers[i := s])
    ensures HostnameIndex(byHostname, servers[i := s])
  {
  }

  /** One run of the synchronisation: the tables, the four dictionaries, and the counters. */
  class SyncRun {
    const ctx: Context
    var servers: seq<Server>
    var metas: seq<Meta>
    var byUuid: map<string, nat>
    var byBios: map<string, nat>
    var byHostname: map<string, nat>
    var metaByServer: map<nat, nat>
    var synced: set<string>
    var imported: nat
    var updated: nat
    var skipped: nat
    var staleMarked: nat

    ghost function Db(): Tables
      reads this
    {
      Tables(servers, metas)
    }

    /** The dictionaries that the loop keeps in step with the tables. */
    ghost predicate IndexesAgree()
      reads this
    {
      && UuidIndex(byUuid, servers)
      && HostnameIndex(byHostname, servers)
      && MetaIndex(metaByServer, metas)
    }

    ghost predicate Valid()
      reads this
    {
      WellFormed(Db()) && IndexesAgree() && BiosInRange(byBios, servers)
    }

    constructor (t: Tables, ctx: Context)
      ensures Db() == t && this.ctx == ctx
      ensures imported == updated == skipped == staleMarked == 0 && synced == {}
    {
      this.ctx := ctx;
      servers, metas := t.servers, t.metas;
      byUuid, byBios, byHostname, metaByServer := map[], map[], map[], map[];
      synced := {};
      imported, updated, skipped, staleMarked := 0, 0, 0, 0;
    }

    method PreloadServers()
      modifies `byUuid, `byHostname
      ensures UuidIndex(byUuid, servers) && HostnameIndex(byHostname, servers)
    {
      byUuid, byHostname := map[], map[];
      for i := 0 to |servers|
        invariant UuidIndex(byUuid, servers[..i]) && HostnameIndex(byHostname, servers[..i])
      {
        assert servers[..i + 1] == servers[..i] + [servers[i]];
        UuidIndexAppend(byUuid, servers[..i], servers[i]);
        HostnameIndexAppend(byHostname, servers[..i], servers[i]);
        byHostname := byHostname[servers[i].hostname := i];
        if servers[i].uuid != "" {
          byUuid := byUuid[servers[i].uuid := i];
        }
      }
      assert servers[..|servers|] == servers;
    }

    method PreloadMetas()
      modifies `byBios, `metaByServer
      ensures MetaIndex(metaByServer, metas) && byBios == PreloadedBios(metas)
    {
      byBios, metaByServer := map[], map[];
      for k := 0 to |metas|
        invariant MetaIndex(metaByServer, metas[..k]) && byBios == PreloadedBios(metas[..k])
      {
        assert metas[..k + 1] == metas[..k] + [metas[k]];
        MetaIndexAppend(metaByServer, metas[..k], metas[k]);
        metaByServer := metaByServer[metas[k].server := k];
        if metas[k].biosUuid != "" {
          byBios := byBios[metas[k].biosUuid := metas[k].server];
        }
      }
      assert metas[..|metas|] == metas;
    }

    /** The three lookups, most specific first. */
    method Lookup(vm: Vm) returns (server: Option<nat>)
      requires Valid()
      ensures server == match Resolve(Db(), byBios, vm) case NoMatch => None case Match(_, i) => Some(i)
      ensures server.Some? ==> server.value < |servers|
    {
      IndexesAnswerSearches(Db(), byUuid, byHostname, metaByServer);
      server := None;
      if vm.uuid != "" {
        server := Get(byUuid, vm.uuid);
      }
      if server.None? && vm.bios != "" {
        server := Get(byBios, vm.bios);
      }
      if server.None? {
        server := Get(byHostname, vm.hostname);
      }
    }

    method InsertServer(vm: Vm) returns (id: nat)
      requires UuidIndex(byUuid, servers) && HostnameIndex(byHostname, servers)
      modifies `servers, `byUuid, `byBios, `byHostname
      ensures id == old(|servers|) && servers == old(servers) + [Blank(vm)]
      ensures byBios == if vm.bios != "" then old(byBios)[vm.bios := id] else old(byBios)
      ensures UuidIndex(byUuid, servers) && HostnameIndex(byHostname, servers)
    {
      id := |servers|;
      UuidIndexAppend(byUuid, servers, Blank(vm));
      HostnameIndexAppend(byHostname, servers, Blank(vm));
      servers := servers + [Blank(vm)];
      if vm.uuid != "" {
        byUuid := byUuid[vm.uuid := id];
      }
      if vm.bios != "" {
        byBios := byBios[vm.bios := id];
      }
      byHostname := byHostname[vm.hostname := id];
    }

    /** Adopt the UUID if the row has none, then write the inventory fields and the defaults. */
    method UpdateServer(id: nat, vm: Vm)
      requires id < |servers| && UuidIndex(byUuid, servers) && HostnameIndex(byHostname, servers)
      modifies `servers, `byUuid
      ensures servers == old(servers)[id := Refreshed(old(servers)[id], vm, ctx)]
      ensures UuidIndex(byUuid, servers) && HostnameIndex(byHostname, servers)
    {
      ServerIndexesReplace(byUuid, byHostname, servers, id, Refreshed(servers[id], vm, ctx));
      if vm.uuid != "" && servers[id].uuid == "" {
        servers := servers[id := servers[id].(uuid := vm.uuid)];
        byUuid := byUuid[vm.uuid := id];
      }
      var s := WriteInventory(servers[id], vm);
      s := ApplyDefaults(s);
      servers := servers[id := s];
    }

    /** What was found in the vCenter, for servers that VMware owns. */
    method WriteInventory(row: Server, vm: Vm) returns (s: Server)
      ensures s == WithInventory(row, vm)
    {
      s := row;
      if VmwareOwned(s) {
        s := s.(source := Some("vmware"));
        if vm.ip != "" && vm.ip != "0.0.0.0" {
          s := s.(ip := vm.ip);
        }
        s := s.(fqdn := if vm.fqdn != "" then vm.fqdn else s.fqdn);
        if vm.os != "" {
          s := s.(os := vm.os);
        }
        if vm.cpu != 0 {
          s := s.(cpu := vm.cpu);
        }
        if vm.ram != 0.0 {
          s := s.(ram := vm.ram);
        }
      }
    }

    /** The connection's location and environment, where none is set. */
    method ApplyDefaults(row: Server) returns (s: Server)
      ensures s == WithDefaults(row, ctx.defaults)
    {
      s := row;
      if ctx.defaults.Some? {
        var d := ctx.defaults.value;
        if d.location != 0 && s.location == 0 {
          s := s.(location := d.location);
        } else if d.legacyLocation != 0 && s.location == 0 {
          s := s.(location := d.legacyLocation);
        }
        if d.environment != 0 && s.environment == 0 {
          s := s.(environment := d.environment);
        }
      }
    }

    method UpsertMeta(id: nat, vm: Vm)
      requires OneMetaPerServer(metas) && MetaIndex(metaByServer, metas)
      modifies `metas, `metaByServer
      ensures metas == PutMeta(old(metas), id, vm, ctx) && MetaIndex(metaByServer, metas)
    {
      var meta := Get(metaByServer, id);
      MetaIndexAppend(metaByServer, metas, MetaFor(id, vm, ctx));
      if meta.None? {
        metaByServer := metaByServer[id := |metas|];
        metas := metas + [MetaFor(id, vm, ctx)];
      } else {
        metas := metas[meta.value := MetaFor(id, vm, ctx)];
      }
    }

    /** The server row of an upsert: inserted when nothing matched, rewritten otherwise. */
    method WriteServer(server: Option<nat>, vm: Vm) returns (id: nat, res: Outcome)
      requires UuidIndex(byUuid, servers) && HostnameIndex(byHostname, servers)
      requires server.Some? ==> server.value < |servers|
      modifies `servers, `byUuid, `byBios, `byHostname
      ensures server.None? ==>
                && res == Imported && id == |old(servers)|
                && servers == old(servers) + [Refreshed(Blank(vm), vm, ctx)]
                && byBios == if vm.bios != "" then old(byBios)[vm.bios := id] else old(byBios)
      ensures server.Some? ==>
                && res == Updated && id == server.value
                && servers == old(servers)[id := Refreshed(old(servers)[id], vm, ctx)]
                && byBios == old(byBios)
      ensures UuidIndex(byUuid, servers) && HostnameIndex(byHostname, servers)
    {
      if server.None? {
        id := InsertServer(vm);
        res := Imported;
      } else {
        id := server.value;
        res := Updated;
      }
      UpdateServer(id, vm);
    }

    method UpsertServer(vm: Vm) returns (res: Outcome)
      requires Valid()
      modifies `servers, `metas, `byUuid, `byBios, `byHostname, `metaByServer
      ensures Step(Db(), byBios, res) == old(Upsert(Db(), byBios, vm, ctx))
      ensures Valid()
    {
      if vm.hostname == "" {
        return Skipped;
      }
      var server := Lookup(vm);
      if server.Some? && ctx.connection.Some? {
        IndexesAnswerSearches(Db(), byUuid, byHostname, metaByServer);
        var existing := Get(metaByServer, server.value);
        if existing.Some? && metas[existing.value].connection.Some?
           && metas[existing.value].connection != ctx.connection
        {
          UpsertMeta(server.value, vm);
          return Duplicate;
        }
      }
      var id;
      id, res := WriteServer(server, vm);
      UpsertMeta(id, vm);
    }

    /** Whether the server's metadata row names this connection. */
    method ServerBelongsToConn(server: nat) returns (belongs: bool)
      requires OneMetaPerServer(metas)
      ensures belongs == BelongsTo(Db(), server, ctx.connection)
    {
      for k := 0 to |metas|
        invariant forall j :: 0 <= j < k ==> metas[j].server != server
      {
        if metas[k].server == server {
          return metas[k].connection == ctx.connection;
        }
      }
      return false;
    }

    /** The servers this connection may deactivate, as they were before the loop. */
    method ManagedServers() returns (managed: seq<nat>)
      requires WellFormed(Db())
      ensures forall i: nat :: i in managed <==> i < |servers| && Managed(Db(), ctx, i)
    {
      managed := [];
      for i := 0 to |servers|
        invariant forall j: nat :: j in managed <==> j < i && Managed(Db(), ctx, j)
      {
        if servers[i].source == Some("vmware") {
          var belongs := ServerBelongsToConn(i);
          if NoConnection(ctx) || belongs {
            managed := managed + [i];
          }
        }
      }
    }

    method MarkStale(managed: seq<nat>, elsewhere: set<string>)
      requires forall i :: i in managed ==> i < |servers|
      modifies `servers, `staleMarked
      ensures StalePass(old(servers), servers, managed, synced, elsewhere)
      ensures staleMarked == old(staleMarked) + |Changed(old(servers), servers)|
    {
      assert Changed(servers, servers) == {} && StalePass(servers, servers, managed[..0], synced, elsewhere);
      for k := 0 to |managed|
        invariant StalePass(old(servers), servers, managed[..k], synced, elsewhere)
        invariant staleMarked == old(staleMarked) + |Changed(old(servers), servers)|
      {
        assert managed[k] in managed;
        StalePassVisit(old(servers), servers, managed, k, synced, elsewhere);
        hide StalePass, Changed;
        var srv := servers[managed[k]];
        if srv.uuid == "" || srv.uuid in synced || srv.uuid in elsewhere {
          continue;
        }
        if srv.status == "active" {
          servers := servers[managed[k] := srv.(status := "inactive")];
          staleMarked := staleMarked + 1;
        }
      }
      assert managed[..|managed|] == managed;
    }

    /** The counters and the set of discovered UUIDs report the outcomes of the machines seen so far. */
    ghost predicate Reports(outcomes: seq<Outcome>, vms: seq<Vm>)
      reads this
    {
      && imported == Count(outcomes, Imported)
      && updated == Count(outcomes, Updated)
      && skipped == Count(outcomes, Duplicate) + Count(outcomes, Skipped)
      && synced == Discovered(vms)
    }

    method UpsertOne(vm: Vm, ghost outcomes: seq<Outcome>, ghost vms: seq<Vm>)
      requires Valid() && Reports(outcomes, vms)
      modifies this
      ensures Valid() && staleMarked == old(staleMarked)
      ensures var s := old(Upsert(Db(), byBios, vm, ctx));
              Db() == s.tables && byBios == s.bios && Reports(outcomes + [s.outcome], vms + [vm])
    {
      hide WellFormed, UuidIndex, HostnameIndex, MetaIndex, BiosInRange, Upsert, Count, Discovered;
      var res := UpsertServer(vm);
      CountAndDiscover(outcomes, res, vms, vm);
      if vm.uuid != "" {
        synced := synced + {vm.uuid};
      }
      match res
      case Imported => imported := imported + 1;
      case Updated => updated := updated + 1;
      case Duplicate => skipped := skipped + 1;
      case Skipped => skipped := skipped + 1;
    }

    method Preload()
      requires WellFormed(Db())
      modifies `byUuid, `byBios, `byHostname, `metaByServer
      ensures Valid() && byBios == PreloadedBios(metas)
    {
      PreloadedBiosEntries(metas);
      PreloadServers();
      PreloadMetas();
    }

    method UpsertLoop(vms: seq<Vm>)
      requires Valid() && Reports([], [])
      modifies this
      ensures Valid() && staleMarked == old(staleMarked)
      ensures var r := old(UpsertAll(Db(), byBios, vms, ctx)); Db() == r.tables && Reports(r.outcomes, vms)
    {
      hide WellFormed, BiosInRange, IndexesAgree, Reports, Upsert, UpsertAll, Evolves, Discovered;
      ghost var t, bios := Db(), byBios;
      assert vms[..0] == [] && vms[..|vms|] == vms;
      ghost var r := Loop(t, bios, []);
      UpsertNone(t, bios, ctx);
      for k := 0 to |vms|
        invariant Valid() && Reports(r.outcomes, vms[..k]) && staleMarked == old(staleMarked)
        invariant Db() == r.tables && byBios == r.bios
        invariant r == UpsertAll(t, bios, vms[..k], ctx)
      {
        UpsertAllStep(t, bios, vms, k, ctx);
        assert vms[..k + 1] == vms[..k] + [vms[k]];
        ghost var s := Upsert(r.tables, r.bios, vms[k], ctx);
        UpsertOne(vms[k], r.outcomes, vms[..k]);
        r := Loop(s.tables, s.bios, r.outcomes + [s.outcome]);
      }
    }

    method DoSync(vms: seq<Vm>)
      requires WellFormed(Db()) && imported == updated == skipped == 0 && synced == {}
      modifies this
      ensures Db() == old(Synced(Db(), vms, ctx))
      ensures var outcomes := old(RunLoop(Db(), vms, ctx)).outcomes;
              && imported == Count(outcomes, Imported) && updated == Count(outcomes, Updated)
              && skipped == Count(outcomes, Duplicate) + Count(outcomes, Skipped)
      ensures staleMarked == old(staleMarked) + |old(StaleServers(Db(), vms, ctx))|
    {
      hide WellFormed, IndexesAgree, BiosInRange, Evolves, UpsertAll, Synced, Managed, Stale, Count, Discovered;
      ghost var t, run := Db(), RunLoop(Db(), vms, ctx);
      NothingCounted();
      var managed := ManagedServers();
      var elsewhere := HeldElsewhere(metas, ctx);
      Preload();
      UpsertLoop(vms);
      MarkStale(managed, elsewhere);
      StalePassIsExact(t, vms, ctx, servers, managed);
    }
  }
}
