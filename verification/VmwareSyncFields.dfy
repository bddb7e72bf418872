/**
 What a synchronisation writes, said field by field from the tables, the machines and the connection alone, without
 the functions that the run itself is built from.
 */
module VmwareSyncFields {
  import opened Options
  import opened VmwareSync

  // ── Which servers a run deactivates ───────────────────────────────────────

  lemma {:induction false} FoundMeta(metas: seq<Meta>, server: nat, k: nat)
    requires OneMetaPerServer(metas) && k < |metas| && metas[k].server == server
    ensures FindMeta(metas, server) == Some(k)
  {
  }

  /**
   An active server ends inactive exactly if VMware is its source, the connection is none or has written its metadata,
   it has a UUID, no discovered machine has that UUID, and no metadata row of another connection carries it.
   */
  lemma DeactivatedExactly(t: Tables, vms: seq<Vm>, ctx: Context, i: nat)
    requires WellFormed(t) && i < |t.servers| && t.servers[i].status == "active"
    ensures i < |Synced(t, vms, ctx).servers|
    ensures var s := t.servers[i];
            Synced(t, vms, ctx).servers[i].status == "inactive" <==>
              && s.source == Some("vmware")
              && (ctx.connection == None || ctx.connection == Some(0)
                  || exists k ::
                       0 <= k < |t.metas| && t.metas[k].server == i && t.metas[k].connection == ctx.connection)
              && s.uuid != ""
              && (forall j :: 0 <= j < |vms| ==> vms[j].uuid != s.uuid)
              && (forall k :: 0 <= k < |t.metas| ==>
                    t.metas[k].vmUuid != s.uuid || t.metas[k].connection == ctx.connection)
  {
    var loop := RunLoop(t, vms, ctx).tables;
    assert RowEvolves(t.servers[i], loop.servers[i], Discovered(vms));
    BelongsExactly(t, i, ctx.connection);
    if t.servers[i].uuid != "" {
      DiscoveredExactly(vms, t.servers[i].uuid);
      HeldElsewhereExactly(t.metas, ctx, t.servers[i].uuid);
    }
    hide RunLoop, BelongsTo, Discovered, HeldElsewhere, WellFormed;
  }

  lemma BelongsExactly(t: Tables, i: nat, connection: Option<nat>)
    requires WellFormed(t)
    ensures BelongsTo(t, i, connection) <==>
              exists k :: 0 <= k < |t.metas| && t.metas[k].server == i && t.metas[k].connection == connection
  {
    if k :| 0 <= k < |t.metas| && t.metas[k].server == i && t.metas[k].connection == connection {
      FoundMeta(t.metas, i, k);
    }
  }

  lemma DiscoveredExactly(vms: seq<Vm>, uuid: string)
    requires uuid != ""
    ensures uuid in Discovered(vms) <==> exists j :: 0 <= j < |vms| && vms[j].uuid == uuid
  {
    if uuid in Discovered(vms) {
      var v :| v in vms && v.uuid == uuid;
      var j :| 0 <= j < |vms| && vms[j] == v;
    }
    if j :| 0 <= j < |vms| && vms[j].uuid == uuid {
      assert vms[j] in vms;
    }
  }

  lemma HeldElsewhereExactly(metas: seq<Meta>, ctx: Context, uuid: string)
    requires uuid != ""
    ensures uuid in HeldElsewhere(metas, ctx) <==>
              exists k :: 0 <= k < |metas| && metas[k].vmUuid == uuid && metas[k].connection != ctx.connection
  {
    if uuid in HeldElsewhere(metas, ctx) {
      var m :| m in metas && m.vmUuid == uuid && m.connection != ctx.connection;
      var k :| 0 <= k < |metas| && metas[k] == m;
    }
    if k :| 0 <= k < |metas| && metas[k].vmUuid == uuid && metas[k].connection != ctx.connection {
      assert metas[k] in metas;
    }
  }

  /** After the loop a run changes only statuses of servers that were there before it, from active to inactive. */
  lemma StalePassWritesStatusOnly(t: Tables, vms: seq<Vm>, ctx: Context, i: nat)
    requires WellFormed(t)
    ensures var loop, after := RunLoop(t, vms, ctx).tables, Synced(t, vms, ctx);
            && after.metas == loop.metas && |after.servers| == |loop.servers| >= |t.servers|
            && (i < |after.servers| ==>
                  var s, s' := loop.servers[i], after.servers[i];
                  s' == s || (i < |t.servers| && s.status == "active" && s' == s.(status := "inactive")))
  {
    if i < |t.servers| {
      assert RowEvolves(t.servers[i], RunLoop(t, vms, ctx).tables.servers[i], Discovered(vms));
    }
  }

  /** The servers counted as stale are those that the run turned from active to inactive. */
  lemma StaleCountIsExact(t: Tables, vms: seq<Vm>, ctx: Context)
    requires WellFormed(t)
    ensures |t.servers| <= |Synced(t, vms, ctx).servers|
    ensures StaleServers(t, vms, ctx)
            == set i: nat | i < |t.servers| && t.servers[i].status == "active"
                            && Synced(t, vms, ctx).servers[i].status == "inactive"
  {
    var loop := RunLoop(t, vms, ctx).tables;
    forall i: nat | i < |t.servers| && t.servers[i].status == "active"
      ensures Stale(t, vms, ctx, i) <==> Synced(t, vms, ctx).servers[i].status == "inactive"
    {
      assert RowEvolves(t.servers[i], loop.servers[i], Discovered(vms));
    }
    hide Synced;
  }

  // ── How one machine is resolved ───────────────────────────────────────────

  /** By its UUID, or else by its BIOS id, or else by its hostname. */
  lemma MostSpecificWins(t: Tables, bios: map<string, nat>, vm: Vm)
    requires WellFormed(t)
    ensures forall i :: 0 <= i < |t.servers| && vm.uuid != "" && t.servers[i].uuid == vm.uuid ==>
              Resolve(t, bios, vm) == Match(ByUuid, i)
    ensures (vm.uuid == "" || forall i :: 0 <= i < |t.servers| ==> t.servers[i].uuid != vm.uuid) ==>
              && (vm.bios != "" && vm.bios in bios ==> Resolve(t, bios, vm) == Match(ByBios, bios[vm.bios]))
              && (vm.bios == "" || vm.bios !in bios ==>
                    && (forall i :: 0 <= i < |t.servers| && t.servers[i].hostname == vm.hostname ==>
                          Resolve(t, bios, vm) == Match(ByHostname, i))
                    && ((forall i :: 0 <= i < |t.servers| ==> t.servers[i].hostname != vm.hostname) ==>
                          Resolve(t, bios, vm) == NoMatch))
  {
  }

  /** A BIOS id stands for the server of the last metadata row that carries it. */
  lemma {:induction false} LastBiosWins(metas: seq<Meta>, k: nat)
    requires k < |metas| && metas[k].biosUuid != ""
    requires forall j :: k < j < |metas| ==> metas[j].biosUuid != metas[k].biosUuid
    ensures Get(PreloadedBios(metas), metas[k].biosUuid) == Some(metas[k].server)
  {
    if k < |metas| - 1 {
      LastBiosWins(metas[..|metas| - 1], k);
    }
  }

  // ── What becomes of one machine ───────────────────────────────────────────

  /** The server's metadata names a connection, but not this one. */
  ghost predicate OwnedElsewhere(t: Tables, i: nat, ctx: Context) {
    && ctx.connection != None
    && exists k ::
         && 0 <= k < |t.metas| && t.metas[k].server == i
         && t.metas[k].connection != None && t.metas[k].connection != ctx.connection
  }

  /** The outcome of a machine, and what the run remembers of its BIOS id. */
  lemma OutcomeIsExact(t: Tables, bios: map<string, nat>, vm: Vm, ctx: Context)
    requires WellFormed(t) && BiosInRange(bios, t.servers)
    ensures var s, m := Upsert(t, bios, vm, ctx), Resolve(t, bios, vm);
            && (s.outcome == Skipped <==> vm.hostname == "")
            && (s.outcome == Imported <==> vm.hostname != "" && m == NoMatch)
            && (s.outcome == Duplicate <==> vm.hostname != "" && m.Match? && OwnedElsewhere(t, m.server, ctx))
            && (s.outcome == Updated <==> vm.hostname != "" && m.Match? && !OwnedElsewhere(t, m.server, ctx))
            && (s.outcome in {Skipped, Duplicate} ==> s.tables.servers == t.servers)
            && (s.outcome == Skipped ==> s.tables.metas == t.metas)
            && s.bios == if s.outcome == Imported && vm.bios != "" then bios[vm.bios := |t.servers|] else bios
  {
    var m := Resolve(t, bios, vm);
    if m.Match? {
      ForeignExactly(t, m.server, ctx);
    }
    hide Foreign, OwnedElsewhere, WellFormed;
  }

  lemma ForeignExactly(t: Tables, i: nat, ctx: Context)
    requires WellFormed(t)
    ensures Foreign(t, i, ctx) <==> OwnedElsewhere(t, i, ctx)
  {
    if OwnedElsewhere(t, i, ctx) {
      var k :| 0 <= k < |t.metas| && t.metas[k].server == i
               && t.metas[k].connection != None && t.metas[k].connection != ctx.connection;
      FoundMeta(t.metas, i, k);
    }
  }

  /** An imported machine becomes one more row with all that was found, and the connection's defaults. */
  lemma ImportedRow(t: Tables, bios: map<string, nat>, vm: Vm, ctx: Context)
    requires WellFormed(t) && BiosInRange(bios, t.servers) && Upsert(t, bios, vm, ctx).outcome == Imported
    ensures var location := match ctx.defaults
              case None => 0
              case Some(d) => if d.location != 0 then d.location else d.legacyLocation;
            var environment := if ctx.defaults.Some? then ctx.defaults.value.environment else 0;
            Upsert(t, bios, vm, ctx).tables.servers
            == t.servers + [Server(vm.hostname, vm.ip, Some("vmware"), vm.uuid, "active", vm.fqdn, vm.os, vm.cpu,
                                   vm.ram, location, environment)]
  {
  }

  /** A found value replaces the stored one. */
  predicate Found<T(==)>(found: T, nothing: T, before: T, after: T) {
    after == if found == nothing then before else found
  }

  /**
   An update in place writes what was found to the one server it resolved, if its source is none or VMware, fills its
   unset UUID, location and environment, and leaves every other field and every other server alone.
   */
  lemma UpdateWritesOneServer(t: Tables, bios: map<string, nat>, vm: Vm, ctx: Context, i: nat)
    requires WellFormed(t) && BiosInRange(bios, t.servers) && i < |t.servers|
    requires Upsert(t, bios, vm, ctx).outcome == Updated && Resolve(t, bios, vm).server == i
    ensures var servers := Upsert(t, bios, vm, ctx).tables.servers;
            && |servers| == |t.servers|
            && (forall j :: 0 <= j < |servers| && j != i ==> servers[j] == t.servers[j])
            && var s, s' := t.servers[i], servers[i];
            && s'.hostname == s.hostname && s'.status == s.status
            && Found(s.uuid, "", vm.uuid, s'.uuid)
            && (s.source == None || s.source == Some("vmware") ==>
                  && s'.source == Some("vmware")
                  && Found(if vm.ip == "0.0.0.0" then "" else vm.ip, "", s.ip, s'.ip)
                  && Found(vm.fqdn, "", s.fqdn, s'.fqdn) && Found(vm.os, "", s.os, s'.os)
                  && Found(vm.cpu, 0, s.cpu, s'.cpu) && Found(vm.ram, 0.0, s.ram, s'.ram))
            && (s.source != None && s.source != Some("vmware") ==>
                  s'.(uuid := s.uuid, location := s.location, environment := s.environment) == s)
            && var location := match ctx.defaults
                 case None => 0
                 case Some(d) => if d.location != 0 then d.location else d.legacyLocation;
            var environment := if ctx.defaults.Some? then ctx.defaults.value.environment else 0;
            Found(s.location, 0, location, s'.location) && Found(s.environment, 0, environment, s'.environment)
  {
    assert Upsert(t, bios, vm, ctx).tables == Rewrite(t, i, vm, ctx);
    hide Upsert, Resolve, WellFormed;
  }

  /** After an upsert of a machine with a hostname its server has one metadata row, and it says all that was found. */
  lemma UpsertWritesMetadata(t: Tables, bios: map<string, nat>, vm: Vm, ctx: Context)
    requires WellFormed(t) && BiosInRange(bios, t.servers) && vm.hostname != ""
    ensures var i := match Resolve(t, bios, vm) case NoMatch => |t.servers| case Match(_, i) => i;
            var metas := Upsert(t, bios, vm, ctx).tables.metas;
            var row := Meta(i, ctx.connection, ctx.vcenterName, ctx.vcenterHost, vm.uuid, vm.bios, vm.detail);
            || (exists k :: 0 <= k < |t.metas| && t.metas[k].server == i && metas == t.metas[k := row])
            || ((forall k :: 0 <= k < |t.metas| ==> t.metas[k].server != i) && metas == t.metas + [row])
  {
    var i := match Resolve(t, bios, vm) case NoMatch => |t.servers| case Match(_, i) => i;
    assert Upsert(t, bios, vm, ctx).tables.metas == PutMeta(t.metas, i, vm, ctx);
    hide Upsert, Resolve, Evolves, WellFormed;
  }

  // ── The counters ──────────────────────────────────────────────────────────

  /** The counter of an outcome is the number of machines that had it. */
  lemma {:induction false} CountIsNumber(outcomes: seq<Outcome>, o: Outcome)
    ensures Count(outcomes, o) == |Having(outcomes, o)|
  {
    if outcomes != [] {
      CountIsNumber(outcomes[..|outcomes| - 1], o);
      HavingLast(outcomes, o);
    }
  }

  /** The machines with an outcome. */
  function Having(outcomes: seq<Outcome>, o: Outcome): set<nat> {
    set k: nat | k < |outcomes| && outcomes[k] == o
  }

  lemma HavingLast(outcomes: seq<Outcome>, o: Outcome)
    requires outcomes != []
    ensures var n := |outcomes| - 1; var rest := Having(outcomes[..n], o);
            n !in rest && Having(outcomes, o) == if outcomes[n] == o then rest + {n} else rest
  {
  }

  /** Machine k is upserted into the tables that the machines before it left. */
  lemma OutcomeOfMachine(t: Tables, vms: seq<Vm>, ctx: Context, k: nat)
    requires WellFormed(t) && k < |vms|
    ensures BiosInRange(PreloadedBios(t.metas), t.servers)
    ensures var before := UpsertAll(t, PreloadedBios(t.metas), vms[..k], ctx);
            RunLoop(t, vms, ctx).outcomes[k] == Upsert(before.tables, before.bios, vms[k], ctx).outcome
  {
    PreloadedBiosEntries(t.metas);
    OutcomeAt(t, PreloadedBios(t.metas), vms, ctx, k);
  }

  lemma {:induction false} OutcomeAt(t: Tables, bios: map<string, nat>, vms: seq<Vm>, ctx: Context, k: nat)
    requires WellFormed(t) && BiosInRange(bios, t.servers) && k < |vms|
    ensures var before := UpsertAll(t, bios, vms[..k], ctx);
            UpsertAll(t, bios, vms, ctx).outcomes[k] == Upsert(before.tables, before.bios, vms[k], ctx).outcome
    decreases |vms|
  {
    hide *;
    var n := |vms| - 1;
    UpsertAllStep(t, bios, vms, n, ctx);
    assert vms[..n + 1] == vms;
    if k < n {
      OutcomeAt(t, bios, vms[..n], ctx, k);
      assert vms[..n][..k] == vms[..k] && vms[..n][k] == vms[k];
    }
  }
}
