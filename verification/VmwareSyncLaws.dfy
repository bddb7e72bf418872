/** What whole synchronisation runs guarantee. */
module VmwareSyncLaws {
  import opened Options
  import opened VmwareSync

  /** Every discovered machine is counted exactly once. */
  lemma {:induction false} OutcomesPartition(outcomes: seq<Outcome>)
    ensures Count(outcomes, Imported) + Count(outcomes, Updated) + Count(outcomes, Duplicate) + Count(outcomes, Skipped)
         == |outcomes|
  {
    if outcomes != [] {
      OutcomesPartition(outcomes[..|outcomes| - 1]);
    }
  }

  /**
   A run deactivates exactly the servers that were stale before it, and otherwise only evolves rows:
   hostnames and set UUIDs, locations and environments stay, as do the inventory fields of servers that
   VMware does not own.  New servers are active.
   */
  lemma SyncIsExact(t: Tables, vms: seq<Vm>, ctx: Context, i: nat)
    requires WellFormed(t) && i < |Synced(t, vms, ctx).servers|
    ensures |t.servers| <= |Synced(t, vms, ctx).servers|
    ensures i < |t.servers| ==>
              var s, s' := t.servers[i], Synced(t, vms, ctx).servers[i];
              && s'.status == (if Stale(t, vms, ctx, i) then "inactive" else s.status)
              && RowEvolves(s, s'.(status := s.status), Discovered(vms))
    ensures i >= |t.servers| ==>
              var s' := Synced(t, vms, ctx).servers[i];
              s'.status == "active" && s'.uuid in Discovered(vms) + {""}
  {
    var loop := RunLoop(t, vms, ctx).tables;
    assert Evolves(t, loop, Discovered(vms));
    if i < |t.servers| {
      assert RowEvolves(t.servers[i], loop.servers[i], Discovered(vms));
    }
  }

  // ── A second run over the same machines ───────────────────────────────────

  /** No metadata of the server names another connection. */
  ghost predicate Mine(t: Tables, server: nat, ctx: Context) {
    forall k :: 0 <= k < |t.metas| && t.metas[k].server == server ==> t.metas[k].connection == ctx.connection
  }

  /** Every metadata row is as it was at the start, or written by this connection. */
  ghost predicate OnlyOursWritten(start: seq<Meta>, now: seq<Meta>, ctx: Context) {
    forall k :: 0 <= k < |now| ==> (k < |start| && now[k] == start[k]) || now[k].connection == ctx.connection
  }

  /** The machine will resolve, without its BIOS id, to a server that is ours. */
  ghost predicate Settled(t: Tables, bios: set<string>, vm: Vm, ctx: Context) {
    || vm.hostname == ""
    || if vm.uuid != "" && FindUuid(t.servers, vm.uuid).Some? then Mine(t, FindUuid(t.servers, vm.uuid).value, ctx)
       else
         && vm.bios !in bios
         && FindHostname(t.servers, vm.hostname).Some?
         && Mine(t, FindHostname(t.servers, vm.hostname).value, ctx)
  }

  ghost predicate AllSettled(t: Tables, bios: set<string>, vms: seq<Vm>, ctx: Context) {
    forall j :: 0 <= j < |vms| ==> Settled(t, bios, vms[j], ctx)
  }

  /** A BIOS entry beyond the given ids points at a server that is ours. */
  ghost predicate NewBiosMine(t: Tables, bios: map<string, nat>, old_: set<string>, ctx: Context) {
    forall b :: b in bios ==> b in old_ || Mine(t, bios[b], ctx)
  }

  ghost predicate MatchedByBios(t: Tables, bios: map<string, nat>, vm: Vm) {
    vm.hostname != "" && Resolve(t, bios, vm).Match? && Resolve(t, bios, vm).via == ByBios
  }

  /** No machine of the run is resolved by its BIOS id. */
  ghost predicate NoBiosMatch(t: Tables, bios: map<string, nat>, vms: seq<Vm>, ctx: Context)
    requires WellFormed(t) && BiosInRange(bios, t.servers)
  {
    forall k :: 0 <= k < |vms| ==>
      var r := UpsertAll(t, bios, vms[..k], ctx); !MatchedByBios(r.tables, r.bios, vms[k])
  }

  lemma MineIsKept(t: Tables, bios: map<string, nat>, vm: Vm, ctx: Context, i: nat)
    requires WellFormed(t) && BiosInRange(bios, t.servers)
    requires Mine(t, i, ctx)
    ensures Mine(Upsert(t, bios, vm, ctx).tables, i, ctx)
  {
  }

  /** The rows an upsert changes, other than by rewriting metadata, end up ours. */
  lemma WrittenIsMine(t: Tables, bios: map<string, nat>, vm: Vm, ctx: Context, i: nat)
    requires WellFormed(t) && BiosInRange(bios, t.servers)
    requires i < |Upsert(t, bios, vm, ctx).tables.servers|
    requires i < |t.servers| ==> t.servers[i] != Upsert(t, bios, vm, ctx).tables.servers[i]
    ensures Mine(Upsert(t, bios, vm, ctx).tables, i, ctx)
  {
  }

  lemma SettledIsKept(t: Tables, bios: map<string, nat>, vm: Vm, ctx: Context, known: set<string>, w: Vm)
    requires WellFormed(t) && BiosInRange(bios, t.servers)
    requires Settled(t, known, w, ctx)
    ensures Settled(Upsert(t, bios, vm, ctx).tables, known, w, ctx)
  {
    var t' := Upsert(t, bios, vm, ctx).tables;
    if w.hostname == "" {
      return;
    }
    var before, after := FindUuid(t.servers, w.uuid), FindUuid(t'.servers, w.uuid);
    if w.uuid != "" && before.Some? {
      assert RowEvolves(t.servers[before.value], t'.servers[before.value], {vm.uuid});
      MineIsKept(t, bios, vm, ctx, before.value);
    } else {
      var h := FindHostname(t.servers, w.hostname).value;
      assert RowEvolves(t.servers[h], t'.servers[h], {vm.uuid});
      MineIsKept(t, bios, vm, ctx, h);
      if w.uuid != "" && after.Some? {
        WrittenIsMine(t, bios, vm, ctx, after.value);
      }
    }
  }

  /** Whatever server a machine resolves to has our metadata afterwards, takeovers included. */
  lemma ResolvedIsMine(t: Tables, bios: map<string, nat>, vm: Vm, ctx: Context)
    requires WellFormed(t) && BiosInRange(bios, t.servers) && vm.hostname != ""
    ensures match Resolve(t, bios, vm)
      case NoMatch => Mine(Upsert(t, bios, vm, ctx).tables, |t.servers|, ctx)
      case Match(_, i) => Mine(Upsert(t, bios, vm, ctx).tables, i, ctx)
  {
  }

  lemma UpsertSettles(t: Tables, bios: map<string, nat>, vm: Vm, ctx: Context, known: set<string>)
    requires WellFormed(t) && BiosInRange(bios, t.servers)
    requires !MatchedByBios(t, bios, vm) && known <= bios.Keys && "" !in known
    ensures Settled(Upsert(t, bios, vm, ctx).tables, known, vm, ctx)
  {
    if vm.hostname == "" {
      return;
    }
    var t' := Upsert(t, bios, vm, ctx).tables;
    ResolvedIsMine(t, bios, vm, ctx);
    var i := if Resolve(t, bios, vm).Match? then Resolve(t, bios, vm).server else |t.servers|;
    if i < |t.servers| {
      assert RowEvolves(t.servers[i], t'.servers[i], {vm.uuid});
    }
    if vm.uuid != "" && FindUuid(t'.servers, vm.uuid).Some? {
      var j := FindUuid(t'.servers, vm.uuid).value;
      if j < |t.servers| && t'.servers[j] == t.servers[j] {
        assert Resolve(t, bios, vm) == Match(ByUuid, j);
      } else {
        WrittenIsMine(t, bios, vm, ctx, j);
      }
    } else {
      assert t'.servers[i].hostname == vm.hostname;
    }
  }

  lemma MetasStayOurs(t: Tables, bios: map<string, nat>, vm: Vm, ctx: Context, start: seq<Meta>)
    requires WellFormed(t) && BiosInRange(bios, t.servers)
    requires OnlyOursWritten(start, t.metas, ctx)
    ensures OnlyOursWritten(start, Upsert(t, bios, vm, ctx).tables.metas, ctx)
    ensures bios.Keys <= Upsert(t, bios, vm, ctx).bios.Keys
  {
  }

  lemma AllSettledIsKept(
    t: Tables, bios: map<string, nat>, vm: Vm, ctx: Context, known: set<string>, all: seq<Vm>)
    requires WellFormed(t) && BiosInRange(bios, t.servers)
    requires AllSettled(t, known, all, ctx)
    ensures AllSettled(Upsert(t, bios, vm, ctx).tables, known, all, ctx)
  {
    forall j | 0 <= j < |all| ensures Settled(Upsert(t, bios, vm, ctx).tables, known, all[j], ctx) {
      SettledIsKept(t, bios, vm, ctx, known, all[j]);
    }
  }

  lemma AllSettledAt(t: Tables, known: set<string>, vms: seq<Vm>, k: nat, ctx: Context)
    requires AllSettled(t, known, vms, ctx) && k < |vms|
    ensures Settled(t, known, vms[k], ctx)
  {
  }

  lemma AllSettledSnoc(t: Tables, known: set<string>, vms: seq<Vm>, k: nat, ctx: Context)
    requires 0 < k <= |vms| && AllSettled(t, known, vms[..k - 1], ctx) && Settled(t, known, vms[k - 1], ctx)
    ensures AllSettled(t, known, vms[..k], ctx)
  {
    forall j | 0 <= j < k ensures Settled(t, known, vms[..k][j], ctx) {
      assert j < k - 1 ==> Settled(t, known, vms[..k - 1][j], ctx);
    }
  }

  /** After a run without BIOS matches every machine is settled with respect to the BIOS ids known at its start. */
  lemma {:induction false} LoopSettles(t: Tables, bios: map<string, nat>, vms: seq<Vm>, k: nat, ctx: Context)
    requires WellFormed(t) && BiosInRange(bios, t.servers) && "" !in bios
    requires k <= |vms| && NoBiosMatch(t, bios, vms, ctx)
    ensures var r := UpsertAll(t, bios, vms[..k], ctx);
            && AllSettled(r.tables, bios.Keys, vms[..k], ctx)
            && OnlyOursWritten(t.metas, r.tables.metas, ctx)
            && bios.Keys <= r.bios.Keys
  {
    if k > 0 {
      var r, vm := UpsertAll(t, bios, vms[..k - 1], ctx), vms[k - 1];
      assert !MatchedByBios(r.tables, r.bios, vm);
      hide *;
      LoopSettles(t, bios, vms, k - 1, ctx);
      UpsertSettles(r.tables, r.bios, vm, ctx, bios.Keys);
      MetasStayOurs(r.tables, r.bios, vm, ctx, t.metas);
      AllSettledIsKept(r.tables, r.bios, vm, ctx, bios.Keys, vms[..k - 1]);
      AllSettledSnoc(Upsert(r.tables, r.bios, vm, ctx).tables, bios.Keys, vms, k, ctx);
      UpsertAllStep(t, bios, vms, k - 1, ctx);
    }
  }

  /** Every machine with a hostname was updated in place: nothing imported, no duplicate reported. */
  ghost predicate Quiet(outcomes: seq<Outcome>, vms: seq<Vm>) {
    && |outcomes| == |vms|
    && forall k :: 0 <= k < |vms| ==> outcomes[k] == if vms[k].hostname == "" then Skipped else Updated
  }

  // ── Exactly when a run is quiet ───────────────────────────────────────────

  /** Before the run, the machine resolves to a server that no other connection holds. */
  ghost predicate Ready(t: Tables, bios: map<string, nat>, vm: Vm, ctx: Context) {
    vm.hostname == "" || (Resolve(t, bios, vm).Match? && !Foreign(t, Resolve(t, bios, vm).server, ctx))
  }

  ghost predicate AllReady(t: Tables, bios: map<string, nat>, vms: seq<Vm>, ctx: Context) {
    forall k :: 0 <= k < |vms| ==> Ready(t, bios, vms[k], ctx)
  }

  /** A machine is updated in place exactly when it is ready at that moment. */
  lemma ReadyIsUpdated(t: Tables, bios: map<string, nat>, vm: Vm, ctx: Context)
    requires WellFormed(t) && BiosInRange(bios, t.servers)
    ensures Ready(t, bios, vm, ctx)
            <==> Upsert(t, bios, vm, ctx).outcome == if vm.hostname == "" then Skipped else Updated
  {
  }

  /** One machine more: a known server without a UUID adopts the machine's. */
  ghost function AdoptedBy(t: Tables, bios: map<string, nat>, adopted: map<string, nat>, vm: Vm): map<string, nat> {
    var m := Resolve(t, bios, vm);
    if vm.hostname != "" && vm.uuid != "" && vm.uuid !in adopted
       && m.Match? && m.server < |t.servers| && t.servers[m.server].uuid == "" && m.server !in adopted.Values
    then adopted[vm.uuid := m.server]
    else adopted
  }

  /**
   The UUIDs that servers adopt from the first k machines if these are updated in place, each with its server.  It is
   read off the tables before the run.
   */
  ghost function Adopted(t: Tables, bios: map<string, nat>, vms: seq<Vm>, k: nat): map<string, nat>
    requires k <= |vms|
  {
    if k == 0 then map[] else AdoptedBy(t, bios, Adopted(t, bios, vms, k - 1), vms[k - 1])
  }

  /** What updates in place do to the tables: servers adopt the UUIDs of `adopted`, and no server changes hands. */
  ghost predicate Calm(t: Tables, now: Tables, adopted: map<string, nat>, ctx: Context) {
    && |now.servers| == |t.servers|
    && (forall i :: 0 <= i < |t.servers| ==> now.servers[i].hostname == t.servers[i].hostname)
    && (forall i :: 0 <= i < |t.servers| ==> AdoptsOnly(t.servers[i], now.servers[i], i, adopted))
    && (forall u :: u in adopted ==> AdoptedAt(t, now, u, adopted[u], ctx))
    && (forall i: nat :: Foreign(now, i, ctx) == Foreign(t, i, ctx))
  }

  predicate AdoptsOnly(s: Server, now: Server, i: nat, adopted: map<string, nat>) {
    now.uuid == s.uuid || (s.uuid == "" && now.uuid in adopted && adopted[now.uuid] == i)
  }

  ghost predicate AdoptedAt(t: Tables, now: Tables, u: string, i: nat, ctx: Context) {
    && u != "" && i < |t.servers| && i < |now.servers|
    && t.servers[i].uuid == "" && now.servers[i].uuid == u && !Foreign(t, i, ctx)
  }

  lemma UpdateKeepsHands(t: Tables, bios: map<string, nat>, vm: Vm, ctx: Context, i: nat)
    requires WellFormed(t) && BiosInRange(bios, t.servers) && vm.hostname != "" && Ready(t, bios, vm, ctx)
    ensures Foreign(Upsert(t, bios, vm, ctx).tables, i, ctx) == Foreign(t, i, ctx)
  {
    var k := Resolve(t, bios, vm).server;
    var metas := PutMeta(t.metas, k, vm, ctx);
    assert Upsert(t, bios, vm, ctx).tables.metas == metas;
    hide Upsert, Resolve, PutMeta;
    var before, after := FindMeta(t.metas, i), FindMeta(metas, i);
    if i != k {
      assert after.Some? ==> metas[after.value] == t.metas[after.value];
      assert before.Some? ==> metas[before.value] == t.metas[before.value];
    }
  }

  /** A calm run leaves every search as it was, unless a server has adopted the machine's UUID. */
  lemma CalmResolves(t: Tables, now: Tables, bios: map<string, nat>, vm: Vm, ctx: Context, adopted: map<string, nat>)
    requires WellFormed(t) && WellFormed(now) && Calm(t, now, adopted, ctx)
    ensures Resolve(now, bios, vm)
            == if vm.uuid in adopted then Match(ByUuid, adopted[vm.uuid]) else Resolve(t, bios, vm)
  {
    var h, h' := FindHostname(t.servers, vm.hostname), FindHostname(now.servers, vm.hostname);
    assert h.Some? ==> now.servers[h.value].hostname == vm.hostname;
    assert h'.Some? ==> t.servers[h'.value].hostname == vm.hostname;
    var u, u' := FindUuid(t.servers, vm.uuid), FindUuid(now.servers, vm.uuid);
    if vm.uuid in adopted {
      assert AdoptedAt(t, now, vm.uuid, adopted[vm.uuid], ctx);
      assert now.servers[adopted[vm.uuid]].uuid == vm.uuid;
    } else if vm.uuid != "" {
      assert u.Some? ==> AdoptsOnly(t.servers[u.value], now.servers[u.value], u.value, adopted);
      assert u'.Some? ==> AdoptsOnly(t.servers[u'.value], now.servers[u'.value], u'.value, adopted);
    }
    hide Foreign;
  }

  lemma CalmReady(t: Tables, now: Tables, bios: map<string, nat>, vm: Vm, ctx: Context, adopted: map<string, nat>)
    requires WellFormed(t) && WellFormed(now) && Calm(t, now, adopted, ctx)
    ensures Ready(now, bios, vm, ctx) <==> Ready(t, bios, vm, ctx) || vm.uuid in adopted
  {
    CalmResolves(t, now, bios, vm, ctx, adopted);
    if vm.uuid in adopted {
      assert AdoptedAt(t, now, vm.uuid, adopted[vm.uuid], ctx);
    }
    hide Resolve, Foreign, WellFormed;
  }

  /** What an update in place does to the row of its server, told from the tables before the run. */
  lemma UpdateAdopts(t: Tables, now: Tables, bios: map<string, nat>, vm: Vm, ctx: Context, adopted: map<string, nat>)
    requires WellFormed(t) && WellFormed(now) && BiosInRange(bios, now.servers)
    requires Calm(t, now, adopted, ctx) && Ready(now, bios, vm, ctx) && vm.hostname != ""
    ensures var k := Resolve(now, bios, vm).server;
            && k < |t.servers| && !Foreign(t, k, ctx)
            && (if now.servers[k].uuid == "" && vm.uuid != ""
                then vm.uuid !in adopted && AdoptedBy(t, bios, adopted, vm) == adopted[vm.uuid := k]
                     && t.servers[k].uuid == "" && k !in adopted.Values
                else AdoptedBy(t, bios, adopted, vm) == adopted)
  {
    var k := Resolve(now, bios, vm).server;
    CalmResolves(t, now, bios, vm, ctx, adopted);
    assert AdoptsOnly(t.servers[k], now.servers[k], k, adopted);
    forall u | u in adopted ensures AdoptedAt(t, now, u, adopted[u], ctx) {
    }
    hide Foreign, WellFormed;
  }

  lemma CalmStep(t: Tables, now: Tables, bios: map<string, nat>, vm: Vm, ctx: Context, adopted: map<string, nat>)
    requires WellFormed(t) && WellFormed(now) && BiosInRange(bios, now.servers)
    requires Calm(t, now, adopted, ctx) && Ready(now, bios, vm, ctx)
    ensures var s := Upsert(now, bios, vm, ctx);
            s.bios == bios && Calm(t, s.tables, AdoptedBy(t, bios, adopted, vm), ctx)
  {
    if vm.hostname != "" {
      var s, k := Upsert(now, bios, vm, ctx), Resolve(now, bios, vm).server;
      assert s.tables == Rewrite(now, k, vm, ctx) && s.bios == bios;
      RefreshedRow(now.servers[k], vm, ctx);
      UpdateAdopts(t, now, bios, vm, ctx, adopted);
      forall i: nat ensures Foreign(s.tables, i, ctx) == Foreign(now, i, ctx) {
        UpdateKeepsHands(now, bios, vm, ctx, i);
      }
      hide Upsert, Foreign, WellFormed, Refreshed, PutMeta, Resolve, AdoptedBy;
      CalmRow(t, now, s.tables, k, vm.uuid, ctx, adopted);
    }
  }

  /** Row k alone is rewritten, and takes the UUID u if it has none. */
  lemma CalmRow(
    t: Tables, now: Tables, next: Tables, k: nat, u: string, ctx: Context, adopted: map<string, nat>)
    requires Calm(t, now, adopted, ctx) && k < |t.servers| && !Foreign(t, k, ctx)
    requires exists s :: next.servers == now.servers[k := s] && s.hostname == now.servers[k].hostname
                         && s.uuid == if now.servers[k].uuid == "" then u else now.servers[k].uuid
    requires forall i: nat :: Foreign(next, i, ctx) == Foreign(now, i, ctx)
    requires now.servers[k].uuid == "" && u != "" ==> u !in adopted && t.servers[k].uuid == "" && k !in adopted.Values
    ensures Calm(t, next, if now.servers[k].uuid == "" && u != "" then adopted[u := k] else adopted, ctx)
  {
    var s :| next.servers == now.servers[k := s] && s.hostname == now.servers[k].hostname
             && s.uuid == if now.servers[k].uuid == "" then u else now.servers[k].uuid;
    var all := if now.servers[k].uuid == "" && u != "" then adopted[u := k] else adopted;
    hide Foreign;
    forall i | 0 <= i < |t.servers| ensures AdoptsOnly(t.servers[i], next.servers[i], i, all) {
      assert AdoptsOnly(t.servers[i], now.servers[i], i, adopted);
    }
    forall v | v in all ensures AdoptedAt(t, next, v, all[v], ctx) {
      assert v in adopted ==> AdoptedAt(t, now, v, adopted[v], ctx);
    }
  }

  /** Before the run the machine is ready, or an earlier machine with its UUID will have given it to a server. */
  ghost predicate ReadyOrAdopted(t: Tables, bios: map<string, nat>, vms: seq<Vm>, j: nat, ctx: Context)
    requires j < |vms|
  {
    Ready(t, bios, vms[j], ctx) || vms[j].uuid in Adopted(t, bios, vms, j)
  }

  ghost predicate ReadyUpTo(t: Tables, bios: map<string, nat>, vms: seq<Vm>, k: nat, ctx: Context)
    requires k <= |vms|
  {
    forall j :: 0 <= j < k ==> ReadyOrAdopted(t, bios, vms, j, ctx)
  }

  /** The first k machines are quiet exactly if each was ready or adopted; then they leave the tables calm. */
  ghost predicate QuietUpTo(t: Tables, bios: map<string, nat>, vms: seq<Vm>, k: nat, ctx: Context, r: Loop)
    requires k <= |vms|
  {
    && (Quiet(r.outcomes, vms[..k]) <==> ReadyUpTo(t, bios, vms, k, ctx))
    && (Quiet(r.outcomes, vms[..k]) ==> r.bios == bios && Calm(t, r.tables, Adopted(t, bios, vms, k), ctx))
  }

  lemma {:induction false} QuietPrefix(t: Tables, bios: map<string, nat>, vms: seq<Vm>, k: nat, ctx: Context)
    requires WellFormed(t) && BiosInRange(bios, t.servers) && k <= |vms|
    ensures QuietUpTo(t, bios, vms, k, ctx, UpsertAll(t, bios, vms[..k], ctx))
  {
    if k == 0 {
      assert vms[..0] == [];
    } else {
      hide *;
      QuietPrefix(t, bios, vms, k - 1, ctx);
      UpsertAllStep(t, bios, vms, k - 1, ctx);
      QuietUpToStep(t, bios, vms, k, ctx, UpsertAll(t, bios, vms[..k - 1], ctx));
    }
  }

  lemma QuietUpToStep(t: Tables, bios: map<string, nat>, vms: seq<Vm>, k: nat, ctx: Context, r: Loop)
    requires WellFormed(t) && WellFormed(r.tables) && BiosInRange(r.bios, r.tables.servers)
    requires 0 < k <= |vms| && |r.outcomes| == k - 1 && QuietUpTo(t, bios, vms, k - 1, ctx, r)
    ensures var s := Upsert(r.tables, r.bios, vms[k - 1], ctx);
            QuietUpTo(t, bios, vms, k, ctx, Loop(s.tables, s.bios, r.outcomes + [s.outcome]))
  {
    hide WellFormed, BiosInRange, Upsert, Quiet, Calm, Ready;
    var vm, adopted := vms[k - 1], Adopted(t, bios, vms, k - 1);
    ReadyIsUpdated(r.tables, r.bios, vm, ctx);
    QuietPrefixes(r.outcomes, Upsert(r.tables, r.bios, vm, ctx).outcome, vms, k);
    if Quiet(r.outcomes, vms[..k - 1]) {
      CalmReady(t, r.tables, bios, vm, ctx, adopted);
      if Ready(r.tables, bios, vm, ctx) {
        CalmStep(t, r.tables, bios, vm, ctx, adopted);
      }
    }
    hide ReadyOrAdopted, AdoptedBy;
    assert ReadyUpTo(t, bios, vms, k, ctx)
        <==> ReadyUpTo(t, bios, vms, k - 1, ctx) && ReadyOrAdopted(t, bios, vms, k - 1, ctx);
  }

  lemma QuietPrefixes(outcomes: seq<Outcome>, o: Outcome, vms: seq<Vm>, k: nat)
    requires 0 < k <= |vms| && |outcomes| == k - 1
    ensures Quiet(outcomes + [o], vms[..k])
            <==> Quiet(outcomes, vms[..k - 1]) && o == if vms[k - 1].hostname == "" then Skipped else Updated
  {
    var all := outcomes + [o];
    assert vms[..k] == vms[..k - 1] + [vms[k - 1]];
    if Quiet(all, vms[..k]) {
      assert all[k - 1] == o;
      forall j | 0 <= j < k - 1 ensures outcomes[j] == if vms[..k - 1][j].hostname == "" then Skipped else Updated {
        assert all[j] == outcomes[j] && vms[..k][j] == vms[j];
      }
    }
  }

  /**
   Exactly when a run is quiet, whatever the machines: every machine with a hostname resolves, in the tables before the
   run, to a server that no other connection holds, or an earlier machine with its UUID gives that to a server.
   */
  lemma RunIsQuietExactly(t: Tables, vms: seq<Vm>, ctx: Context)
    requires WellFormed(t) && BiosInRange(PreloadedBios(t.metas), t.servers)
    ensures Quiet(RunLoop(t, vms, ctx).outcomes, vms) <==> ReadyUpTo(t, PreloadedBios(t.metas), vms, |vms|, ctx)
  {
    assert vms[..|vms|] == vms;
    hide Ready, Quiet, Adopted;
    QuietPrefix(t, PreloadedBios(t.metas), vms, |vms|, ctx);
  }

  /** A vCenter gives every machine its own UUID, or none. */
  predicate DistinctMachines(vms: seq<Vm>) {
    forall i, j :: 0 <= i < j < |vms| && vms[i].uuid != "" ==> vms[i].uuid != vms[j].uuid
  }

  lemma {:induction false} AdoptedFromEarlier(t: Tables, bios: map<string, nat>, vms: seq<Vm>, k: nat, u: string)
    requires k <= |vms| && u in Adopted(t, bios, vms, k)
    ensures u != "" && exists j :: 0 <= j < k && vms[j].uuid == u
  {
    if u != vms[k - 1].uuid || u in Adopted(t, bios, vms, k - 1) {
      AdoptedFromEarlier(t, bios, vms, k - 1, u);
    }
  }

  /** A run whose machines are all ready beforehand imports nothing and reports no duplicate. */
  lemma ReadyRunIsQuiet(t: Tables, vms: seq<Vm>, ctx: Context)
    requires WellFormed(t) && BiosInRange(PreloadedBios(t.metas), t.servers)
    requires AllReady(t, PreloadedBios(t.metas), vms, ctx)
    ensures Quiet(RunLoop(t, vms, ctx).outcomes, vms)
  {
    hide Ready, Quiet, Adopted;
    RunIsQuietExactly(t, vms, ctx);
  }

  /** With distinct UUIDs nothing is adopted twice: every machine itself has to be ready. */
  lemma RunIsQuietExactlyWhenReady(t: Tables, vms: seq<Vm>, ctx: Context)
    requires WellFormed(t) && BiosInRange(PreloadedBios(t.metas), t.servers) && DistinctMachines(vms)
    ensures Quiet(RunLoop(t, vms, ctx).outcomes, vms) <==> AllReady(t, PreloadedBios(t.metas), vms, ctx)
  {
    var bios := PreloadedBios(t.metas);
    hide Ready, Quiet, Adopted;
    RunIsQuietExactly(t, vms, ctx);
    forall k | 0 <= k < |vms| && ReadyOrAdopted(t, bios, vms, k, ctx) ensures Ready(t, bios, vms[k], ctx) {
      if vms[k].uuid in Adopted(t, bios, vms, k) {
        AdoptedFromEarlier(t, bios, vms, k, vms[k].uuid);
      }
    }
  }

  function MachineU(hostname: string): Vm {
    Vm(hostname, "", "", "", 0, 0.0, "u", "", NO_DETAIL)
  }

  /** Without distinct UUIDs a machine that nothing matches beforehand can be quiet, thanks to an earlier one. */
  lemma RepeatedUuidIsQuiet(ctx: Context)
    ensures var t := Tables([Server("a", "10.0.0.1", None, "", "active", "", "", 0, 0.0, 0, 0)], []);
            var vms := [MachineU("a"), MachineU("b")];
            && WellFormed(t) && Quiet(RunLoop(t, vms, ctx).outcomes, vms)
            && Resolve(t, PreloadedBios(t.metas), vms[1]) == NoMatch
  {
    var t := Tables([Server("a", "10.0.0.1", None, "", "active", "", "", 0, 0.0, 0, 0)], []);
    var vms := [MachineU("a"), MachineU("b")];
    var bios := PreloadedBios(t.metas);
    assert bios == map[] && t.servers[0].uuid == "" && t.servers[0].hostname == "a";
    assert FindUuid(t.servers, "u").None? && FindHostname(t.servers, "b").None?;
    assert FindHostname(t.servers, "a") == Some(0) && Resolve(t, bios, vms[0]) == Match(ByHostname, 0);
    var meta := FindMeta(t.metas, 0);
    assert meta == None;
    assert Adopted(t, bios, vms, 0) == map[];
    assert Adopted(t, bios, vms, 1) == map["u" := 0];
    assert ReadyOrAdopted(t, bios, vms, 0, ctx) && ReadyOrAdopted(t, bios, vms, 1, ctx);
    RunIsQuietExactly(t, vms, ctx);
  }

  /** A settled machine is ready. */
  lemma SettledIsReady(t: Tables, bios: map<string, nat>, vm: Vm, ctx: Context, known: set<string>)
    requires WellFormed(t) && Settled(t, known, vm, ctx) && NewBiosMine(t, bios, known, ctx)
    ensures Ready(t, bios, vm, ctx)
  {
  }

  /** Searches see only hostnames and UUIDs. */
  lemma SameIdentitySameSearch(a: seq<Server>, b: seq<Server>, uuid: string, hostname: string)
    requires DistinctHostnames(a) && DistinctUuids(a) && |a| == |b|
    requires forall i :: 0 <= i < |a| ==> b[i].hostname == a[i].hostname && b[i].uuid == a[i].uuid
    ensures FindHostname(a, hostname) == FindHostname(b, hostname)
    ensures uuid != "" ==> FindUuid(a, uuid) == FindUuid(b, uuid)
  {
    var h, h' := FindHostname(a, hostname), FindHostname(b, hostname);
    assert h.Some? ==> b[h.value].hostname == hostname;
    assert h'.Some? ==> a[h'.value].hostname == hostname;
    var u, u' := FindUuid(a, uuid), FindUuid(b, uuid);
    assert u.Some? ==> b[u.value].uuid == uuid;
    assert u'.Some? ==> a[u'.value].uuid == uuid;
  }

  /** Marking servers inactive does not unsettle anything. */
  lemma StalePassKeepsSettled(t: Tables, vms: seq<Vm>, ctx: Context, known: set<string>)
    requires WellFormed(t) && AllSettled(RunLoop(t, vms, ctx).tables, known, vms, ctx)
    ensures AllSettled(Synced(t, vms, ctx), known, vms, ctx)
  {
    var loop, t' := RunLoop(t, vms, ctx).tables, Synced(t, vms, ctx);
    forall j | 0 <= j < |vms| ensures Settled(t', known, vms[j], ctx) {
      assert Settled(loop, known, vms[j], ctx);
      SameIdentitySameSearch(loop.servers, t'.servers, vms[j].uuid, vms[j].hostname);
    }
  }

  /** What the first run leaves behind. */
  lemma FirstSyncSettles(t: Tables, vms: seq<Vm>, ctx: Context)
    requires WellFormed(t) && BiosInRange(PreloadedBios(t.metas), t.servers)
    requires NoBiosMatch(t, PreloadedBios(t.metas), vms, ctx)
    ensures AllSettled(Synced(t, vms, ctx), PreloadedBios(t.metas).Keys, vms, ctx)
    ensures OnlyOursWritten(t.metas, Synced(t, vms, ctx).metas, ctx)
  {
    hide WellFormed, BiosInRange, AllSettled, OnlyOursWritten, Upsert, UpsertAll, NoBiosMatch;
    assert vms[..|vms|] == vms;
    PreloadedBiosEntries(t.metas);
    LoopSettles(t, PreloadedBios(t.metas), vms, |vms|, ctx);
    StalePassKeepsSettled(t, vms, ctx, PreloadedBios(t.metas).Keys);
  }

  lemma OursIsMine(t: Tables, k: nat, ctx: Context)
    requires OneMetaPerServer(t.metas) && k < |t.metas| && t.metas[k].connection == ctx.connection
    ensures Mine(t, t.metas[k].server, ctx)
  {
  }

  /** A BIOS id that the first run introduced belongs to a server that is ours. */
  lemma ReloadedBiosIsOurs(t: Tables, start: seq<Meta>, ctx: Context)
    requires WellFormed(t) && OnlyOursWritten(start, t.metas, ctx)
    ensures BiosInRange(PreloadedBios(t.metas), t.servers)
    ensures NewBiosMine(t, PreloadedBios(t.metas), PreloadedBios(start).Keys, ctx)
  {
    var bios := PreloadedBios(t.metas);
    PreloadedBiosEntries(t.metas);
    PreloadedBiosEntries(start);
    hide PreloadedBios, Mine;
    forall b | b in bios && b !in PreloadedBios(start) ensures Mine(t, bios[b], ctx) {
      var k :| 0 <= k < |t.metas| && t.metas[k].biosUuid == b && t.metas[k].server == bios[b];
      assert t.metas[k].connection == ctx.connection;
      OursIsMine(t, k, ctx);
    }
  }

  /**
   Idempotence: when no machine of the first run was resolved by its BIOS id, a second run over the same
   machines for the same connection imports no server and reports no cross-vCenter duplicate.
   */
  lemma SecondSyncIsQuiet(t: Tables, vms: seq<Vm>, ctx: Context)
    requires WellFormed(t) && BiosInRange(PreloadedBios(t.metas), t.servers)
    requires NoBiosMatch(t, PreloadedBios(t.metas), vms, ctx)
    ensures var second := RunLoop(Synced(t, vms, ctx), vms, ctx);
            |second.tables.servers| == |Synced(t, vms, ctx).servers| && Quiet(second.outcomes, vms)
  {
    hide WellFormed, BiosInRange, OnlyOursWritten, NewBiosMine, Upsert, UpsertAll, NoBiosMatch, Synced, Stale, Settled,
         Ready, Quiet;
    var known, t1 := PreloadedBios(t.metas).Keys, Synced(t, vms, ctx);
    FirstSyncSettles(t, vms, ctx);
    ReloadedBiosIsOurs(t1, t.metas, ctx);
    forall k | 0 <= k < |vms| ensures Ready(t1, PreloadedBios(t1.metas), vms[k], ctx) {
      AllSettledAt(t1, known, vms, k, ctx);
      SettledIsReady(t1, PreloadedBios(t1.metas), vms[k], ctx, known);
    }
    ReadyRunIsQuiet(t1, vms, ctx);
    QuietRunAddsNothing(t1, vms, ctx);
  }

  /** A quiet run adds no server. */
  lemma QuietRunAddsNothing(t: Tables, vms: seq<Vm>, ctx: Context)
    requires WellFormed(t) && BiosInRange(PreloadedBios(t.metas), t.servers)
    requires Quiet(RunLoop(t, vms, ctx).outcomes, vms)
    ensures |RunLoop(t, vms, ctx).tables.servers| == |t.servers|
  {
    assert vms[..|vms|] == vms;
    ImportsAddRows(t, PreloadedBios(t.metas), vms, |vms|, ctx);
    CountOfAbsent(RunLoop(t, vms, ctx).outcomes, Imported);
  }

  /**
   Exactly when repeating a run is quiet: when, in the tables the first run left, every machine with a hostname is ready
   or has its UUID adopted from an earlier one, and for machines with distinct UUIDs when all are ready.
   */
  lemma RepeatIsQuietExactly(t: Tables, vms: seq<Vm>, ctx: Context)
    requires WellFormed(t)
    ensures var t1 := Synced(t, vms, ctx); var bios := PreloadedBios(t1.metas);
            && WellFormed(t1) && BiosInRange(bios, t1.servers)
            && (Quiet(RunLoop(t1, vms, ctx).outcomes, vms) <==> ReadyUpTo(t1, bios, vms, |vms|, ctx))
            && (DistinctMachines(vms) ==> (ReadyUpTo(t1, bios, vms, |vms|, ctx) <==> AllReady(t1, bios, vms, ctx)))
  {
    var t1 := Synced(t, vms, ctx);
    hide AllReady, ReadyUpTo, Quiet, Stale;
    PreloadedBiosEntries(t1.metas);
    RunIsQuietExactly(t1, vms, ctx);
    if DistinctMachines(vms) {
      RunIsQuietExactlyWhenReady(t1, vms, ctx);
    }
  }

  lemma UpsertRows(t: Tables, bios: map<string, nat>, vm: Vm, ctx: Context)
    requires WellFormed(t) && BiosInRange(bios, t.servers)
    ensures var s := Upsert(t, bios, vm, ctx);
            |s.tables.servers| == |t.servers| + if s.outcome == Imported then 1 else 0
  {
  }

  /** Only an import adds a row. */
  lemma {:induction false} ImportsAddRows(t: Tables, bios: map<string, nat>, vms: seq<Vm>, k: nat, ctx: Context)
    requires WellFormed(t) && BiosInRange(bios, t.servers) && k <= |vms|
    ensures var r := UpsertAll(t, bios, vms[..k], ctx);
            |r.tables.servers| == |t.servers| + Count(r.outcomes, Imported)
  {
    if k > 0 {
      hide *;
      ImportsAddRows(t, bios, vms, k - 1, ctx);
      UpsertAllStep(t, bios, vms, k - 1, ctx);
      var r := UpsertAll(t, bios, vms[..k - 1], ctx);
      UpsertRows(r.tables, r.bios, vms[k - 1], ctx);
      CountAndDiscover(r.outcomes, Upsert(r.tables, r.bios, vms[k - 1], ctx).outcome, [], vms[k - 1]);
    }
  }

  lemma {:induction false} CountOfAbsent(outcomes: seq<Outcome>, o: Outcome)
    requires o !in outcomes
    ensures Count(outcomes, o) == 0
  {
    if outcomes != [] {
      CountOfAbsent(outcomes[..|outcomes| - 1], o);
    }
  }

  // ── Why the BIOS id is excluded ───────────────────────────────────────────

  const NO_DETAIL := VmDetail("", "", "", "", "", "", "", "", "", "", "")
  const BIOS_CTX := Context(Some(1), "vc", "vc.example", None)
  const BIOS_VM := Vm("new", "", "", "", 0, 0.0, "u1", "b", NO_DETAIL)
  const OWNER_VM := Vm("a", "", "", "", 0, 0.0, "x", "c", NO_DETAIL)
  const BIOS_TABLES := Tables(
    [Server("a", "10.0.0.1", Some("vmware"), "x", "active", "", "", 0, 0.0, 0, 0)],
    [Meta(0, Some(1), "vc", "vc.example", "x", "b", NO_DETAIL)])

  lemma FirstOfTwo(t: Tables, bios: map<string, nat>, a: Vm, b: Vm, ctx: Context)
    requires WellFormed(t) && BiosInRange(bios, t.servers)
    ensures var s := Upsert(t, bios, a, ctx);
            var s' := Upsert(s.tables, s.bios, b, ctx);
            UpsertAll(t, bios, [a, b], ctx) == Loop(s'.tables, s'.bios, [s.outcome, s'.outcome])
  {
    UpsertAllStep(t, bios, [a, b], 0, ctx);
    UpsertAllStep(t, bios, [a, b], 1, ctx);
    assert [a, b][..0] == [] && [a, b][..1] == [a] && [a, b][..2] == [a, b];
  }

  const AFTER_METAS := [MetaFor(0, OWNER_VM, BIOS_CTX)]

  /** Either machine, arriving while server "a" has the only metadata row, is an update of that server. */
  lemma UpsertsServerA(metas: seq<Meta>, bios: map<string, nat>, vm: Vm)
    requires |metas| == 1 && metas[0].server == 0 && metas[0].connection == Some(1)
    requires BiosInRange(bios, BIOS_TABLES.servers)
    requires vm == OWNER_VM || (vm == BIOS_VM && Get(bios, "b") == Some(0))
    ensures var t := Tables(BIOS_TABLES.servers, metas);
            WellFormed(t) &&
            Upsert(t, bios, vm, BIOS_CTX) == Step(Tables(t.servers, [MetaFor(0, vm, BIOS_CTX)]), bios, Updated)
  {
    var t := Tables(BIOS_TABLES.servers, metas);
    assert t.servers[0].uuid == "x" && |t.servers| == 1;
    assert FindUuid(t.servers, "u1").None?;
    assert Resolve(t, bios, vm).Match? && Resolve(t, bios, vm).server == 0;
    assert FindMeta(metas, 0) == Some(0);
    assert t.servers[0 := t.servers[0]] == t.servers;
  }

  lemma BiosRunResolvesByBios()
    ensures WellFormed(BIOS_TABLES)
    ensures var r := RunLoop(BIOS_TABLES, [BIOS_VM, OWNER_VM], BIOS_CTX);
            r.outcomes == [Updated, Updated] && |r.tables.servers| == 1 && r.tables.metas == AFTER_METAS
  {
    var t := BIOS_TABLES;
    assert t.metas[..0] == [] && PreloadedBios([]) == map[] && t.metas[0].biosUuid == "b";
    var bios := PreloadedBios(t.metas);
    assert bios == map["b" := 0];
    hide Upsert, UpsertAll, WellFormed;
    UpsertsServerA(t.metas, bios, BIOS_VM);
    UpsertsServerA([MetaFor(0, BIOS_VM, BIOS_CTX)], bios, OWNER_VM);
    FirstOfTwo(t, bios, BIOS_VM, OWNER_VM, BIOS_CTX);
  }

  lemma OverwrittenBiosImports(t: Tables)
    requires WellFormed(t) && |t.servers| == 1 && t.metas == AFTER_METAS
    requires t.servers[0].hostname == "a" && t.servers[0].uuid == "x"
    ensures RunLoop(t, [BIOS_VM, OWNER_VM], BIOS_CTX).outcomes[0] == Imported
  {
    assert t.metas[..0] == [] && PreloadedBios([]) == map[] && t.metas[0].biosUuid == "c";
    var bios := PreloadedBios(t.metas);
    assert bios == map["c" := 0];
    assert Resolve(t, bios, BIOS_VM) == NoMatch;
    hide UpsertAll, WellFormed;
    FirstOfTwo(t, bios, BIOS_VM, OWNER_VM, BIOS_CTX);
  }

  /**
   With a BIOS match the second run may import: the first machine is resolved by BIOS id "b" to server "a",
   whose own machine then overwrites that BIOS id, so the next run no longer recognises the first machine.
   */
  lemma BiosMatchCanImportTwice()
    ensures WellFormed(BIOS_TABLES)
    ensures RunLoop(BIOS_TABLES, [BIOS_VM, OWNER_VM], BIOS_CTX).outcomes == [Updated, Updated]
    ensures var after := Synced(BIOS_TABLES, [BIOS_VM, OWNER_VM], BIOS_CTX);
            RunLoop(after, [BIOS_VM, OWNER_VM], BIOS_CTX).outcomes[0] == Imported
  {
    BiosRunResolvesByBios();
    SyncIsExact(BIOS_TABLES, [BIOS_VM, OWNER_VM], BIOS_CTX, 0);
    hide Upsert, UpsertAll;
    OverwrittenBiosImports(Synced(BIOS_TABLES, [BIOS_VM, OWNER_VM], BIOS_CTX));
  }
}
