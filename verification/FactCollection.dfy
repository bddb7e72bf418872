/**
 Persisting collected facts: the package catalogue with its in-memory index, the package rows and pending-update
 counts of each server, and the accounting of a collection run.

 Package ids are row positions counted from 1.  The empty string stands for NULL.
 */
module FactCollection {
  import opened Options

  datatype VersionInfo = VersionInfo(version: string, release: string, source: string)

  /** The version list collected for a package: empty or absent, a list, or something that is no list. */
  datatype Versions = NoVersions | Listed(first: VersionInfo) | NotAList

  datatype PackageFact = PackageFact(name: string, versions: Versions)

  datatype Update = Update(availableVersion: string, repository: string, updateType: string)

  datatype PackageRow = PackageRow(
    server: nat, package: nat, version: string, updateAvailable: bool, availableVersion: string,
    updateType: string, repository: string)

  datatype Tables = Tables(packages: seq<string>, rows: seq<PackageRow>, pending: map<nat, nat>)

  // ── What one host's package data should leave ─────────────────────────────

  /** A dictionary has each key once. */
  predicate DistinctNames(facts: seq<PackageFact>) {
    forall i, j :: 0 <= i < j < |facts| ==> facts[i].name != facts[j].name
  }

  predicate Distinct(names: seq<string>) {
    forall i, j :: 0 <= i < j < |names| ==> names[i] != names[j]
  }

  /** The packages with a non-empty version list, in collection order. */
  function Usable(facts: seq<PackageFact>): (r: seq<PackageFact>)
    ensures forall f :: f in r ==> f in facts && !f.versions.NoVersions?
  {
    if facts == [] then []
    else
      var last := facts[|facts| - 1];
      Usable(facts[..|facts| - 1]) + if last.versions.NoVersions? then [] else [last]
  }

  /** The names the catalogue does not have yet. */
  function NewNames(facts: seq<PackageFact>, packages: seq<string>): (r: seq<string>)
    ensures forall n :: n in r ==> n !in packages && HasName(facts, n)
  {
    if facts == [] then []
    else
      var n := |facts| - 1;
      NamesStay(facts);
      NewNames(facts[..n], packages) + if facts[n].name in packages then [] else [facts[n].name]
  }

  predicate HasName(facts: seq<PackageFact>, name: string) {
    exists i :: 0 <= i < |facts| && facts[i].name == name
  }

  lemma NamesStay(facts: seq<PackageFact>)
    requires facts != []
    ensures forall n :: HasName(facts[..|facts| - 1], n) ==> HasName(facts, n)
    ensures HasName(facts, facts[|facts| - 1].name)
  {
    forall n | HasName(facts[..|facts| - 1], n) ensures HasName(facts, n) {
      var i :| 0 <= i < |facts| - 1 && facts[..|facts| - 1][i].name == n;
      assert facts[i].name == n;
    }
  }

  function Info(f: PackageFact): VersionInfo {
    if f.versions.Listed? then f.versions.first else VersionInfo("", "", "")
  }

  function VersionText(v: VersionInfo): string {
    if v.release == "" then v.version
    else if v.version == "" then v.release
    else v.version + "-" + v.release
  }

  function RowFor(server: nat, f: PackageFact, package: nat, updates: map<string, Update>): PackageRow {
    var upd := Get(updates, f.name);
    PackageRow(
      server, package, VersionText(Info(f)), upd.Some?,
      if upd.Some? then upd.value.availableVersion else "",
      if upd.Some? then upd.value.updateType else "",
      if Info(f).source != "" then Info(f).source else if upd.Some? then upd.value.repository else "")
  }

  /** The position of a name, counted from 1; 0 if there is none. */
  function IdOf(packages: seq<string>, name: string): (id: nat)
    ensures id <= |packages|
    ensures id > 0 ==> packages[id - 1] == name
    ensures id > 0 <==> name in packages
  {
    if packages == [] then 0
    else if packages[|packages| - 1] == name then |packages|
    else IdOf(packages[..|packages| - 1], name)
  }

  function RowsFor(
    server: nat, usable: seq<PackageFact>, packages: seq<string>, updates: map<string, Update>): (r: seq<PackageRow>)
    ensures |r| == |usable|
    ensures forall i :: 0 <= i < |r| ==> r[i] == RowFor(server, usable[i], IdOf(packages, usable[i].name), updates)
  {
    if usable == [] then []
    else
      var n := |usable| - 1;
      RowsFor(server, usable[..n], packages, updates)
      + [RowFor(server, usable[n], IdOf(packages, usable[n].name), updates)]
  }

  function RowsOf(rows: seq<PackageRow>, server: nat): seq<PackageRow> {
    if rows == [] then []
    else
      var n := |rows| - 1;
      RowsOf(rows[..n], server) + if rows[n].server == server then [rows[n]] else []
  }

  /** `DELETE ... WHERE server_id = server`. */
  function Without(rows: seq<PackageRow>, server: nat): seq<PackageRow> {
    if rows == [] then []
    else
      var n := |rows| - 1;
      Without(rows[..n], server) + if rows[n].server == server then [] else [rows[n]]
  }

  function Flagged(rows: seq<PackageRow>): nat {
    if rows == [] then 0
    else Flagged(rows[..|rows| - 1]) + if rows[|rows| - 1].updateAvailable then 1 else 0
  }

  /** The tables after replacing one server's package data. */
  function Replaced(t: Tables, server: nat, facts: seq<PackageFact>, updates: map<string, Update>): Tables {
    var usable := Usable(facts);
    var packages := t.packages + NewNames(usable, t.packages);
    var rows := RowsFor(server, usable, packages, updates);
    Tables(packages, Without(t.rows, server) + rows, t.pending[server := Flagged(rows)])
  }

  // ── The index over the catalogue ──────────────────────────────────────────

  /** The index answers every lookup as a search of the catalogue would. */
  predicate IndexAgrees(index: map<string, nat>, packages: seq<string>) {
    && (forall n :: n in index ==> n in packages && index[n] == IdOf(packages, n))
    && (forall n :: n in packages ==> n in index)
  }

  lemma {:induction false} IdOfAppend(packages: seq<string>, more: seq<string>, name: string)
    requires name !in more
    ensures IdOf(packages + more, name) == IdOf(packages, name)
  {
    if more == [] {
      assert packages + more == packages;
    } else {
      var n := |more| - 1;
      assert (packages + more)[..|packages + more| - 1] == packages + more[..n];
      assert (packages + more)[|packages + more| - 1] == more[n];
      IdOfAppend(packages, more[..n], name);
    }
  }

  lemma {:induction false} NewNamesDistinct(facts: seq<PackageFact>, packages: seq<string>)
    requires DistinctNames(facts)
    ensures Distinct(NewNames(facts, packages))
  {
    if facts != [] {
      var n := |facts| - 1;
      NewNamesDistinct(facts[..n], packages);
      assert !HasName(facts[..n], facts[n].name);
    }
  }

  lemma {:induction false} UsableDistinct(facts: seq<PackageFact>)
    requires DistinctNames(facts)
    ensures DistinctNames(Usable(facts))
  {
    if facts != [] {
      var n := |facts| - 1;
      UsableDistinct(facts[..n]);
      forall f | f in Usable(facts[..n]) ensures f.name != facts[n].name {
        var k :| 0 <= k < n && facts[k] == f;
      }
    }
  }

  /** After the insert every usable name has an id, and names that had one keep it. */
  lemma {:induction false} NewNamesCover(facts: seq<PackageFact>, packages: seq<string>, f: PackageFact)
    requires f in facts
    ensures f.name in packages || f.name in NewNames(facts, packages)
  {
    var n := |facts| - 1;
    if f in facts[..n] {
      NewNamesCover(facts[..n], packages, f);
    }
  }

  lemma DistinctAppend(packages: seq<string>, more: seq<string>)
    requires Distinct(packages) && Distinct(more)
    requires forall n :: n in more ==> n !in packages
    ensures Distinct(packages + more)
  {
    forall i, j | 0 <= i < j < |packages + more| ensures (packages + more)[i] != (packages + more)[j] {
      if i < |packages| <= j {
        assert (packages + more)[j] in more;
      }
    }
  }

  // ── Persisting one host after another ─────────────────────────────────────

  /** A package row under construction: its id is 0 until the package exists. */
  datatype Draft = Draft(fact: PackageFact, package: nat)

  function Drafts(usable: seq<PackageFact>, packages: seq<string>): (r: seq<Draft>)
    ensures |r| == |usable|
  {
    if usable == [] then []
    else
      var n := |usable| - 1;
      Drafts(usable[..n], packages) + [Draft(usable[n], IdOf(packages, usable[n].name))]
  }

  /** Whether and when the transaction of a host fails: before or after its package rows are replaced. */
  datatype Fault = NoFault | EarlyFault | LateFault

  datatype PackageData = NoPackageData | PackageData(facts: seq<PackageFact>, updates: map<string, Update>)

  /** What was read for one host: nothing usable, or facts with the lower-cased names to look it up by. */
  datatype HostData = NoFacts | Facts(names: seq<string>, packages: PackageData, fault: Fault)

  /** The first non-empty name that the server map knows. */
  function MatchServer(names: seq<string>, servers: map<string, nat>): Option<nat> {
    if names == [] then None
    else if names[0] != "" && names[0] in servers then Some(servers[names[0]])
    else MatchServer(names[1..], servers)
  }

  datatype Outcome = Succeeded | Failed | Skipped

  function OutcomeOf(host: HostData, servers: map<string, nat>): Outcome {
    if host.NoFacts? then Failed
    else if MatchServer(host.names, servers).None? then Skipped
    else if host.fault.NoFault? then Succeeded
    else Failed
  }

  predicate RolledBack(host: HostData, servers: map<string, nat>) {
    OutcomeOf(host, servers).Failed? && host.Facts?
  }

  /** The hosts with a given outcome. */
  function CountOf(hosts: seq<HostData>, servers: map<string, nat>, outcome: Outcome): nat {
    if hosts == [] then 0
    else
      var n := |hosts| - 1;
      CountOf(hosts[..n], servers, outcome) + if OutcomeOf(hosts[n], servers) == outcome then 1 else 0
  }

  lemma {:induction false} EveryHostHasOneOutcome(hosts: seq<HostData>, servers: map<string, nat>)
    ensures CountOf(hosts, servers, Succeeded) + CountOf(hosts, servers, Failed) + CountOf(hosts, servers, Skipped)
            == |hosts|
  {
    if hosts != [] {
      EveryHostHasOneOutcome(hosts[..|hosts| - 1], servers);
    }
  }

  /** The keys of every dictionary are distinct. */
  predicate IsHost(host: HostData) {
    host.Facts? && host.packages.PackageData? ==> DistinctNames(host.packages.facts)
  }

  predicate AreHosts(hosts: seq<HostData>) {
    forall h :: h in hosts ==> IsHost(h)
  }

  predicate Writes(host: HostData, servers: map<string, nat>) {
    OutcomeOf(host, servers).Succeeded? && host.packages.PackageData?
  }

  /** The server a host that writes package data is matched to. */
  function Target(host: HostData, servers: map<string, nat>): nat
    requires Writes(host, servers)
  {
    MatchServer(host.names, servers).value
  }

  function AfterHost(t: Tables, host: HostData, servers: map<string, nat>): Tables {
    if Writes(host, servers) then Replaced(t, Target(host, servers), host.packages.facts, host.packages.updates) else t
  }

  function AfterHosts(t: Tables, hosts: seq<HostData>, servers: map<string, nat>): Tables {
    if hosts == [] then t
    else AfterHost(AfterHosts(t, hosts[..|hosts| - 1], servers), hosts[|hosts| - 1], servers)
  }

  predicate FaultFree(hosts: seq<HostData>) {
    forall h :: h in hosts && h.Facts? ==> h.fault.NoFault?
  }

  // ── Value-level steps of the methods below ────────────────────────────────

  /** The index with each of the names entered under the id the table has for it. */
  function Entered(index: map<string, nat>, names: seq<string>, packages: seq<string>): map<string, nat> {
    if names == [] then index
    else
      var n := |names| - 1;
      var id := IdOf(packages, names[n]);
      if id > 0 then Entered(index, names[..n], packages)[names[n] := id] else Entered(index, names[..n], packages)
  }

  lemma {:induction false} EnteredLookup(
    index: map<string, nat>, names: seq<string>, packages: seq<string>, name: string)
    requires forall n :: n in names ==> n in packages
    ensures name in Entered(index, names, packages) <==> name in index || name in names
    ensures name in names ==> Entered(index, names, packages)[name] == IdOf(packages, name)
    ensures name !in names && name in index ==> Entered(index, names, packages)[name] == index[name]
  {
    if names != [] {
      EnteredLookup(index, names[..|names| - 1], packages, name);
      assert names == names[..|names| - 1] + [names[|names| - 1]];
    }
  }

  lemma EnteredAgrees(index: map<string, nat>, before: seq<string>, newNames: seq<string>)
    requires IndexAgrees(index, before) && Distinct(before + newNames)
    ensures IndexAgrees(Entered(index, newNames, before + newNames), before + newNames)
  {
    var after := before + newNames;
    forall n ensures n in Entered(index, newNames, after) <==> n in after
             ensures n in after ==> Entered(index, newNames, after)[n] == IdOf(after, n)
    {
      EnteredLookup(index, newNames, after, n);
      if n !in newNames {
        IdOfAppend(before, newNames, n);
      }
    }
  }

  lemma NothingEntered(index: map<string, nat>, packages: seq<string>)
    ensures Entered(index, [], packages) == index && packages + [] == packages
  {
  }

  lemma CatalogueStaysDistinct(facts: seq<PackageFact>, packages: seq<string>)
    requires DistinctNames(facts) && Distinct(packages)
    ensures Distinct(packages + NewNames(Usable(facts), packages))
  {
    UsableDistinct(facts);
    NewNamesDistinct(Usable(facts), packages);
    DistinctAppend(packages, NewNames(Usable(facts), packages));
  }

  /** The rows whose package id is known, each with that id. */
  function Resolved(
    server: nat, drafts: seq<Draft>, index: map<string, nat>, updates: map<string, Update>): seq<PackageRow>
  {
    if drafts == [] then []
    else
      var n := |drafts| - 1;
      var d := drafts[n];
      var id := if d.package > 0 then d.package else if d.fact.name in index then index[d.fact.name] else 0;
      Resolved(server, drafts[..n], index, updates) + if id > 0 then [RowFor(server, d.fact, id, updates)] else []
  }

  lemma {:induction false} DraftsResolve(
    server: nat, usable: seq<PackageFact>, before: seq<string>, newNames: seq<string>, index: map<string, nat>,
    updates: map<string, Update>)
    requires IndexAgrees(index, before + newNames)
    requires forall n :: n in newNames ==> n !in before
    requires forall f :: f in usable ==> f.name in before || f.name in newNames
    ensures Resolved(server, Drafts(usable, before), index, updates)
            == RowsFor(server, usable, before + newNames, updates)
  {
    if usable != [] {
      var n := |usable| - 1;
      assert usable[n] in usable;
      DraftsResolve(server, usable[..n], before, newNames, index, updates);
      assert Drafts(usable, before)[..n] == Drafts(usable[..n], before);
      if usable[n].name !in newNames {
        IdOfAppend(before, newNames, usable[n].name);
      }
    }
  }

  lemma EveryDraftResolves(
    server: nat, facts: seq<PackageFact>, before: seq<string>, index: map<string, nat>, updates: map<string, Update>)
    requires IndexAgrees(index, before + NewNames(Usable(facts), before))
    ensures Resolved(server, Drafts(Usable(facts), before), index, updates)
            == RowsFor(server, Usable(facts), before + NewNames(Usable(facts), before), updates)
  {
    var usable := Usable(facts);
    forall f | f in usable ensures f.name in before || f.name in NewNames(usable, before) {
      NewNamesCover(usable, before, f);
    }
    DraftsResolve(server, usable, before, NewNames(usable, before), index, updates);
  }

  /** The catalogue a host's transaction has reached when it fails: a late fault comes after the inserts. */
  function Attempted(t: Tables, host: HostData): seq<string>
    requires host.Facts?
  {
    if host.packages.PackageData? && host.fault.LateFault?
    then t.packages + NewNames(Usable(host.packages.facts), t.packages)
    else t.packages
  }

  // ── What a host leaves when transactions may fail ─────────────────────────

  /** The tables as the transaction sees them, the index, and the count of package rows, which no rollback undoes. */
  datatype Work = Work(db: Tables, index: map<string, nat>, synced: nat)

  /** The id the index has for a name, or 0. */
  function IndexedId(index: map<string, nat>, name: string): nat {
    if name in index then index[name] else 0
  }

  function IndexedDrafts(usable: seq<PackageFact>, index: map<string, nat>): (r: seq<Draft>)
    ensures |r| == |usable|
  {
    if usable == [] then []
    else
      var n := |usable| - 1;
      IndexedDrafts(usable[..n], index) + [Draft(usable[n], IndexedId(index, usable[n].name))]
  }

  function UnindexedNames(usable: seq<PackageFact>, index: map<string, nat>): seq<string> {
    if usable == [] then []
    else
      var n := |usable| - 1;
      UnindexedNames(usable[..n], index) + if IndexedId(index, usable[n].name) == 0 then [usable[n].name] else []
  }

  lemma IndexedStep(facts: seq<PackageFact>, i: nat, index: map<string, nat>)
    requires i < |facts|
    ensures var f, before, after := facts[i], Usable(facts[..i]), Usable(facts[..i + 1]);
            if f.versions.NoVersions? then after == before
            else
              && IndexedDrafts(after, index) == IndexedDrafts(before, index) + [Draft(f, IndexedId(index, f.name))]
              && UnindexedNames(after, index)
                 == UnindexedNames(before, index) + if IndexedId(index, f.name) == 0 then [f.name] else []
  {
    assert facts[..i + 1][..i] == facts[..i];
    var f, before := facts[i], Usable(facts[..i]);
    assert (before + [f])[..|before|] == before;
  }

  lemma {:induction false} IndexedAgrees(usable: seq<PackageFact>, index: map<string, nat>, packages: seq<string>)
    requires IndexAgrees(index, packages)
    ensures IndexedDrafts(usable, index) == Drafts(usable, packages)
    ensures UnindexedNames(usable, index) == NewNames(usable, packages)
  {
    if usable != [] {
      IndexedAgrees(usable[..|usable| - 1], index, packages);
    }
  }

  /** A server's package data is replaced, with the ids the index has. */
  function Persisted(w: Work, server: nat, facts: seq<PackageFact>, updates: map<string, Update>): Work {
    var usable := Usable(facts);
    var newNames := UnindexedNames(usable, w.index);
    var packages := w.db.packages + newNames;
    var index := Entered(w.index, newNames, packages);
    var rows := Resolved(server, IndexedDrafts(usable, w.index), index, updates);
    Work(Tables(packages, Without(w.db.rows, server) + rows, w.db.pending[server := Flagged(rows)]), index,
         w.synced + |rows|)
  }

  /** A host whose transaction fails takes the tables back to the last commit, but not the index. */
  function AfterAttempt(w: Work, committed: Tables, host: HostData, servers: map<string, nat>): Work {
    if host.NoFacts? || MatchServer(host.names, servers).None? then w
    else
      var tried := if host.packages.PackageData? && !host.fault.EarlyFault?
                   then Persisted(w, MatchServer(host.names, servers).value, host.packages.facts, host.packages.updates)
                   else w;
      if host.fault.NoFault? then tried else tried.(db := committed)
  }

  function AfterBatch(w: Work, committed: Tables, hosts: seq<HostData>, servers: map<string, nat>): Work {
    if hosts == [] then w
    else AfterAttempt(AfterBatch(w, committed, hosts[..|hosts| - 1], servers), committed, hosts[|hosts| - 1], servers)
  }

  /** Each batch is committed before the next one. */
  function AfterBatches(w: Work, batches: seq<seq<HostData>>, servers: map<string, nat>): Work {
    if batches == [] then w
    else
      var before := AfterBatches(w, batches[..|batches| - 1], servers);
      AfterBatch(before, before.db, batches[|batches| - 1], servers)
  }

  /** A rollback undoes the table but not the index: they still agree only if there was nothing to undo. */
  lemma RollbackAgreement(index: map<string, nat>, attempted: seq<string>, kept: seq<string>)
    requires IndexAgrees(index, attempted) && Distinct(attempted) && kept <= attempted
    ensures Distinct(kept)
    ensures IndexAgrees(index, kept) <==> kept == attempted
  {
    if kept != attempted {
      var n := attempted[|kept|];
      assert n in attempted;
      assert n !in kept;
    }
  }

  lemma FaultAgreement(
    index: map<string, nat>, before: Tables, reached: Tables, host: HostData, server: nat, committed: Tables)
    requires host.Facts? && !host.fault.NoFault?
    requires reached == if host.packages.PackageData? && host.fault.LateFault?
                        then Replaced(before, server, host.packages.facts, host.packages.updates) else before
    requires IndexAgrees(index, reached.packages) && Distinct(reached.packages)
    requires committed.packages <= before.packages
    ensures Distinct(committed.packages)
    ensures IndexAgrees(index, committed.packages) <==> committed.packages == Attempted(before, host)
  {
    RollbackAgreement(index, reached.packages, committed.packages);
  }

  datatype Progress = Progress(running: bool, total: nat, done: nat)

  /** The values shown so far, followed by those the progress takes while `n` more hosts are counted. */
  function Ticked(shown: seq<Progress>, p: Progress, n: nat): (r: seq<Progress>) {
    if n == 0 then shown else Ticked(shown, p, n - 1) + [p.(done := p.done + n)]
  }

  lemma {:induction false} TickedTwice(shown: seq<Progress>, p: Progress, m: nat, n: nat)
    ensures Ticked(shown, p, m + n) == Ticked(Ticked(shown, p, m), p.(done := p.done + m), n)
  {
    if n > 0 {
      TickedTwice(shown, p, m, n - 1);
    }
  }

  /** While a run counts its hosts, the progress never passes the total. */
  lemma {:induction false} ProgressStaysInRange(shown: seq<Progress>, p: Progress, n: nat)
    requires p.done + n <= p.total
    requires forall q :: q in shown ==> q.done <= q.total
    ensures forall q :: q in Ticked(shown, p, n) ==> q.done <= q.total
  {
    if n > 0 {
      ProgressStaysInRange(shown, p, n - 1);
    }
  }

  lemma {:induction false} CountOfAppend(
    a: seq<HostData>, b: seq<HostData>, servers: map<string, nat>, outcome: Outcome)
    ensures CountOf(a + b, servers, outcome) == CountOf(a, servers, outcome) + CountOf(b, servers, outcome)
  {
    if b == [] {
      assert a + b == a;
    } else {
      assert (a + b)[..|a + b| - 1] == a + b[..|b| - 1];
      CountOfAppend(a, b[..|b| - 1], servers, outcome);
    }
  }

  lemma {:induction false} AfterHostsAppend(t: Tables, a: seq<HostData>, b: seq<HostData>, servers: map<string, nat>)
    ensures AfterHosts(t, a + b, servers) == AfterHosts(AfterHosts(t, a, servers), b, servers)
  {
    if b == [] {
      assert a + b == a;
    } else {
      assert (a + b)[..|a + b| - 1] == a + b[..|b| - 1];
      AfterHostsAppend(t, a, b[..|b| - 1], servers);
    }
  }

  lemma EmptyRun(t: Tables, servers: map<string, nat>, start: Progress, shown: seq<Progress>)
    ensures forall outcome :: CountOf([], servers, outcome) == 0
    ensures AfterHosts(t, [], servers) == t && Ticked(shown, start, 0) == shown
    ensures Flatten<HostData>([]) == []
  {
  }

  lemma PartsOfHosts(hosts: seq<HostData>, batch: seq<HostData>)
    requires forall h :: h in batch ==> h in hosts
    ensures AreHosts(hosts) ==> AreHosts(batch)
    ensures FaultFree(hosts) ==> FaultFree(batch)
  {
  }

  lemma BatchStep(
    t: Tables, done: seq<HostData>, batch: seq<HostData>, servers: map<string, nat>,
    start: Progress, shown: seq<Progress>)
    ensures CountOf(done + batch, servers, Succeeded)
            == CountOf(done, servers, Succeeded) + CountOf(batch, servers, Succeeded)
    ensures CountOf(done + batch, servers, Failed) == CountOf(done, servers, Failed) + CountOf(batch, servers, Failed)
    ensures CountOf(done + batch, servers, Skipped)
            == CountOf(done, servers, Skipped) + CountOf(batch, servers, Skipped)
    ensures AfterHosts(t, done + batch, servers) == AfterHosts(AfterHosts(t, done, servers), batch, servers)
    ensures Ticked(shown, start, |done + batch|)
            == Ticked(Ticked(shown, start, |done|), start.(done := start.done + |done|), |batch|)
  {
    hide *;
    CountOfAppend(done, batch, servers, Succeeded);
    CountOfAppend(done, batch, servers, Failed);
    CountOfAppend(done, batch, servers, Skipped);
    AfterHostsAppend(t, done, batch, servers);
    assert |done + batch| == |done| + |batch|;
    TickedTwice(shown, start, |done|, |batch|);
  }

  function Flatten<T>(chunks: seq<seq<T>>): seq<T> {
    if chunks == [] then [] else Flatten(chunks[..|chunks| - 1]) + chunks[|chunks| - 1]
  }

  lemma {:induction false} ChunkIsPart<T>(chunks: seq<seq<T>>, list: seq<T>, k: nat)
    requires k < |chunks| && Flatten(chunks) == list
    ensures Flatten(chunks[..k + 1]) == Flatten(chunks[..k]) + chunks[k]
    ensures Flatten(chunks[..k]) + chunks[k] <= list
    ensures forall x :: x in chunks[k] ==> x in list
  {
    assert chunks[..k + 1][..k] == chunks[..k];
    var n := |chunks| - 1;
    if k < n {
      ChunkIsPart(chunks[..n], Flatten(chunks[..n]), k);
      assert chunks[..n][..k + 1] == chunks[..k + 1] && chunks[..n][..k] == chunks[..k];
    } else {
      assert chunks[..k + 1] == chunks;
    }
  }

  lemma BatchesStep(w: Work, batches: seq<seq<HostData>>, k: nat, servers: map<string, nat>)
    requires k < |batches|
    ensures AfterBatches(w, batches[..k + 1], servers)
            == var before := AfterBatches(w, batches[..k], servers);
               AfterBatch(before, before.db, batches[k], servers)
  {
    assert batches[..k + 1][..k] == batches[..k];
  }

  /** A list in pieces of 50; the last may be shorter. */
  function Fifties<T>(list: seq<T>): seq<seq<T>> {
    seq((|list| + 49) / 50, k requires 0 <= k < (|list| + 49) / 50 =>
      list[50 * k..if 50 * k + 50 <= |list| then 50 * k + 50 else |list|])
  }

  lemma {:induction false} FullChunks<T>(chunks: seq<seq<T>>, n: nat)
    requires n <= |chunks| && forall k :: 0 <= k < n ==> |chunks[k]| == 50
    ensures |Flatten(chunks[..n])| == 50 * n
  {
    if n > 0 {
      assert chunks[..n][..n - 1] == chunks[..n - 1];
      FullChunks(chunks, n - 1);
    }
  }

  /** The sizes of the chunks leave no choice of what they hold. */
  lemma ChunksAreFifties<T>(chunks: seq<seq<T>>, list: seq<T>)
    requires Flatten(chunks) == list
    requires forall k :: 0 <= k < |chunks| ==> 0 < |chunks[k]| <= 50 && (k < |chunks| - 1 ==> |chunks[k]| == 50)
    ensures chunks == Fifties(list)
  {
    if chunks != [] {
      var n := |chunks| - 1;
      FullChunks(chunks, n);
      assert |list| == 50 * n + |chunks[n]|;
    }
    forall k | 0 <= k < |chunks| ensures chunks[k] == Fifties(list)[k] {
      FullChunks(chunks, k);
      ChunkIsPart(chunks, list, k);
      assert chunks[k] == list[50 * k..50 * k + |chunks[k]|];
    }
  }

  /** Consecutive chunks of `n` elements; only the last may be shorter, and none is empty. */
  method Chunked<T>(list: seq<T>, n: nat) returns (chunks: seq<seq<T>>)
    requires n > 0
    ensures Flatten(chunks) == list
    ensures forall k :: 0 <= k < |chunks| ==> 0 < |chunks[k]| <= n && (k < |chunks| - 1 ==> |chunks[k]| == n)
  {
    chunks := [];
    var i := 0;
    while i < |list|
      invariant 0 <= i && (i <= |list| || list == [] || chunks != [])
      invariant Flatten(chunks) == list[..if i <= |list| then i else |list|]
      invariant forall k :: 0 <= k < |chunks| ==> 0 < |chunks[k]| <= n && (i <= |list| ==> |chunks[k]| == n)
      invariant forall k :: 0 <= k < |chunks| - 1 ==> |chunks[k]| == n
      decreases |list| - i
    {
      var end := if i + n <= |list| then i + n else |list|;
      assert list[..i] + list[i..end] == list[..end];
      ghost var before := chunks;
      chunks := chunks + [list[i..end]];
      assert chunks[..|chunks| - 1] == before;
      i := i + n;
    }
    assert list[..|list|] == list;
  }

  datatype Status = Running | Completed | Partial

  const BATCH_SIZE: nat := 50

  class Collector {
    var db: Tables
    var committed: Tables
    var packageMap: map<string, nat>
    var servers: map<string, nat>
    var total: nat
    var ok: nat
    var failed: nat
    var skipped: nat
    var packagesSynced: nat
    var status: Status
    var progress: Progress
    ghost var shown: seq<Progress>  // every value the progress has taken

    /** The unique constraint on package names holds and the index agrees with the table. */
    ghost predicate Catalogued()
      reads `db, `packageMap
    {
      Distinct(db.packages) && IndexAgrees(packageMap, db.packages)
    }

    ghost function Now(): Work
      reads this
    {
      Work(db, packageMap, packagesSynced)
    }

    constructor (db: Tables, servers: map<string, nat>)
      requires Distinct(db.packages)
      ensures this.db == db && this.committed == db && this.servers == servers && Catalogued()
      ensures ok == failed == skipped == packagesSynced == total == 0 && status == Running
      ensures progress == Progress(false, 0, 0) && shown == []
    {
      this.db, this.committed, this.servers := db, db, servers;
      packageMap := map n | n in db.packages :: IdOf(db.packages, n);
      ok, failed, skipped, packagesSynced, total, status := 0, 0, 0, 0, 0, Running;
      progress, shown := Progress(false, 0, 0), [];
    }

    /** Search the catalogue for a name. */
    method FindPackage(name: string) returns (id: nat)
      ensures id == IdOf(db.packages, name)
    {
      id := |db.packages|;
      assert db.packages[..|db.packages|] == db.packages;
      while id > 0
        invariant id <= |db.packages| && IdOf(db.packages, name) == IdOf(db.packages[..id], name)
      {
        assert db.packages[..id][..id - 1] == db.packages[..id - 1];
        if db.packages[id - 1] == name {
          return;
        }
        id := id - 1;
      }
    }

    method BuildPackageRows(facts: seq<PackageFact>) returns (drafts: seq<Draft>, newNames: seq<string>)
      ensures drafts == IndexedDrafts(Usable(facts), packageMap)
      ensures newNames == UnindexedNames(Usable(facts), packageMap)
      ensures Catalogued() ==> drafts == Drafts(Usable(facts), db.packages)
      ensures Catalogued() ==> newNames == NewNames(Usable(facts), db.packages)
    {
      drafts, newNames := [], [];
      for i := 0 to |facts|
        invariant drafts == IndexedDrafts(Usable(facts[..i]), packageMap)
        invariant newNames == UnindexedNames(Usable(facts[..i]), packageMap)
      {
        IndexedStep(facts, i, packageMap);
        if facts[i].versions.NoVersions? {
          continue;
        }
        var id := if facts[i].name in packageMap then packageMap[facts[i].name] else 0;
        if id == 0 {
          newNames := newNames + [facts[i].name];
        }
        drafts := drafts + [Draft(facts[i], id)];
      }
      assert facts[..|facts|] == facts;
      if Catalogued() {
        IndexedAgrees(Usable(facts), packageMap, db.packages);
      }
    }

    /** Insert the new catalogue rows, look each up again and enter it in the index. */
    method InsertPackages(newNames: seq<string>)
      modifies `db, `packageMap
      ensures db == old(db).(packages := old(db.packages) + newNames)
      ensures packageMap == Entered(old(packageMap), newNames, db.packages)
      ensures old(Catalogued()) && Distinct(db.packages) ==> Catalogued()
    {
      ghost var before, index := db.packages, packageMap;
      db := db.(packages := db.packages + newNames);
      for i := 0 to |newNames|
        invariant db == old(db).(packages := before + newNames)
        invariant packageMap == Entered(index, newNames[..i], db.packages)
      {
        assert newNames[..i + 1][..i] == newNames[..i];
        var found := FindPackage(newNames[i]);
        if found > 0 {
          packageMap := packageMap[newNames[i] := found];
        }
      }
      assert newNames[..|newNames|] == newNames;
      if IndexAgrees(index, before) && Distinct(before + newNames) {
        EnteredAgrees(index, before, newNames);
      }
    }

    method ResolveRows(server: nat, drafts: seq<Draft>, updates: map<string, Update>)
      returns (resolved: seq<PackageRow>)
      ensures resolved == Resolved(server, drafts, packageMap, updates)
    {
      resolved := [];
      for i := 0 to |drafts|
        invariant resolved == Resolved(server, drafts[..i], packageMap, updates)
      {
        assert drafts[..i + 1][..i] == drafts[..i];
        var name := drafts[i].fact.name;
        var known := if name in packageMap then packageMap[name] else 0;
        var id := if drafts[i].package > 0 then drafts[i].package else known;
        if id > 0 {
          var row := MakeRow(server, drafts[i].fact, id, updates);
          resolved := resolved + [row];
        }
      }
      assert drafts[..|drafts|] == drafts;
    }

    method MakeRow(server: nat, f: PackageFact, package: nat, updates: map<string, Update>) returns (row: PackageRow)
      ensures row == RowFor(server, f, package, updates)
    {
      var info := if f.versions.Listed? then f.versions.first else VersionInfo("", "", "");
      var version := info.version;
      if info.release != "" {
        version := if version != "" then version + "-" + info.release else info.release;
      }
      row := PackageRow(server, package, version, false, "", "", info.source);
      if f.name in updates {
        var upd := updates[f.name];
        row := row.(updateAvailable := true, availableVersion := upd.availableVersion, updateType := upd.updateType);
        if row.repository == "" {
          row := row.(repository := upd.repository);
        }
      }
    }

    /** Replace a server's package rows and its pending-update count. */
    method PersistPackages(server: nat, facts: seq<PackageFact>, updates: map<string, Update>)
      requires DistinctNames(facts)
      modifies `db, `packageMap, `packagesSynced
      ensures Now() == Persisted(old(Now()), server, facts, updates)
      ensures old(Catalogued()) ==> Catalogued() && db == Replaced(old(db), server, facts, updates)
      ensures old(Catalogued()) ==> packagesSynced == old(packagesSynced) + |Usable(facts)|
    {
      hide Drafts, NewNames, RowsFor, Resolved, IndexedDrafts, UnindexedNames, Entered, Usable, IndexAgrees, Distinct,
           Without, Flagged;
      ghost var before, catalogued := db, Catalogued();
      var drafts, newNames := BuildPackageRows(facts);
      if newNames != [] {
        if catalogued {
          CatalogueStaysDistinct(facts, before.packages);
        }
        InsertPackages(newNames);
      } else {
        NothingEntered(packageMap, before.packages);
      }
      assert db.packages == before.packages + newNames;
      var resolved := ResolveRows(server, drafts, updates);
      if catalogued {
        EveryDraftResolves(server, facts, before.packages, packageMap, updates);
      }
      db := db.(rows := Without(db.rows, server) + resolved, pending := db.pending[server := Flagged(resolved)]);
      packagesSynced := packagesSynced + |resolved|;
    }

    method PersistHost(host: HostData)
      requires IsHost(host)
      modifies this
      ensures servers == old(servers) && committed == old(committed) && total == old(total) && status == old(status)
      ensures ok == old(ok) + if OutcomeOf(host, servers).Succeeded? then 1 else 0
      ensures failed == old(failed) + if OutcomeOf(host, servers).Failed? then 1 else 0
      ensures skipped == old(skipped) + if OutcomeOf(host, servers).Skipped? then 1 else 0
      ensures progress == old(progress).(done := old(progress.done) + 1) && shown == old(shown) + [progress]
      ensures Now() == AfterAttempt(old(Now()), committed, host, servers)
      ensures old(Catalogued()) && (host.Facts? ==> host.fault.NoFault?) ==>
                Catalogued() && db == AfterHost(old(db), host, servers)
      // A fault rolls the tables back but not the index, so the two agree only if no package was new.
      ensures RolledBack(host, servers) ==> db == committed
      ensures RolledBack(host, servers) && old(Catalogued()) && old(committed.packages <= db.packages) ==>
                (Catalogued() <==> committed.packages == Attempted(old(db), host))
    {
      hide Persisted, Replaced, MatchServer, Distinct, IndexAgrees, Attempted;
      ghost var before, catalogued := db, Catalogued();
      progress := progress.(done := progress.done + 1);
      shown := shown + [progress];
      if host.NoFacts? {
        failed := failed + 1;
        return;
      }
      var server := MatchServer(host.names, servers);
      if server.None? {
        skipped := skipped + 1;
        return;
      }
      if host.packages.PackageData? && !host.fault.EarlyFault? {
        PersistPackages(server.value, host.packages.facts, host.packages.updates);
      }
      if host.fault.NoFault? {
        ok := ok + 1;
      } else {
        if catalogued && committed.packages <= before.packages {
          FaultAgreement(packageMap, before, db, host, server.value, committed);
        }
        db := committed;
        failed := failed + 1;
      }
    }

    method PersistBatch(batch: seq<HostData>)
      requires AreHosts(batch)
      modifies this
      ensures servers == old(servers) && committed == old(committed) && total == old(total) && status == old(status)
      ensures ok == old(ok) + CountOf(batch, servers, Succeeded)
      ensures failed == old(failed) + CountOf(batch, servers, Failed)
      ensures skipped == old(skipped) + CountOf(batch, servers, Skipped)
      ensures progress == old(progress).(done := old(progress.done) + |batch|)
      ensures shown == Ticked(old(shown), old(progress), |batch|)
      ensures Now() == AfterBatch(old(Now()), committed, batch, servers)
      ensures old(Catalogued()) && FaultFree(batch) ==> Catalogued() && db == AfterHosts(old(db), batch, servers)
    {
      ghost var catalogued := Catalogued();
      for i := 0 to |batch|
        invariant servers == old(servers) && committed == old(committed) && total == old(total) && status == old(status)
        invariant ok == old(ok) + CountOf(batch[..i], servers, Succeeded)
        invariant failed == old(failed) + CountOf(batch[..i], servers, Failed)
        invariant skipped == old(skipped) + CountOf(batch[..i], servers, Skipped)
        invariant progress == old(progress).(done := old(progress.done) + i)
        invariant shown == Ticked(old(shown), old(progress), i)
        invariant Now() == AfterBatch(old(Now()), committed, batch[..i], servers)
        invariant catalogued && FaultFree(batch) ==> Catalogued() && db == AfterHosts(old(db), batch[..i], servers)
      {
        assert batch[..i + 1][..i] == batch[..i];
        PersistHost(batch[i]);
      }
      assert batch[..|batch|] == batch;
    }

    /** Persist and commit one batch after another. */
    method CollectBatches(hosts: seq<HostData>)
      requires AreHosts(hosts) && ok == failed == skipped == 0 && progress.done == 0 && committed == db
      modifies this
      ensures servers == old(servers) && total == old(total) && status == old(status)
      ensures ok == CountOf(hosts, servers, Succeeded)
      ensures failed == CountOf(hosts, servers, Failed)
      ensures skipped == CountOf(hosts, servers, Skipped)
      ensures progress == old(progress).(done := |hosts|) && shown == Ticked(old(shown), old(progress), |hosts|)
      ensures committed == db
      // A fault undoes the batch so far: every 50 hosts are committed.
      ensures Now() == AfterBatches(old(Now()), Fifties(hosts), servers)
      ensures old(Catalogued()) && FaultFree(hosts) ==> Catalogued() && db == AfterHosts(old(db), hosts, servers)
    {
      hide CountOf, AfterHosts, AfterBatch, Ticked, Flatten, IndexAgrees, Distinct;
      ghost var catalogued, start, shown0 := Catalogued(), progress, shown;
      EmptyRun(db, servers, start, shown0);
      var chunks := Chunked(hosts, BATCH_SIZE);
      ChunksAreFifties(chunks, hosts);
      ghost var done: seq<HostData> := [];
      for k := 0 to |chunks|
        invariant done == Flatten(chunks[..k])
        invariant servers == old(servers) && total == old(total) && status == old(status)
        invariant ok == CountOf(done, servers, Succeeded)
        invariant failed == CountOf(done, servers, Failed)
        invariant skipped == CountOf(done, servers, Skipped)
        invariant progress == start.(done := start.done + |done|)
        invariant shown == Ticked(shown0, start, |done|)
        invariant committed == db
        invariant Now() == AfterBatches(old(Now()), chunks[..k], servers)
        invariant catalogued && FaultFree(hosts) ==> Catalogued() && db == AfterHosts(old(db), done, servers)
      {
        ghost var batch := chunks[k];
        ChunkIsPart(chunks, hosts, k);
        PartsOfHosts(hosts, batch);
        BatchStep(old(db), done, batch, servers, start, shown0);
        assert chunks[..k + 1][..k] == chunks[..k];
        BatchesStep(old(Now()), chunks, k, servers);
        hide *;
        PersistBatch(chunks[k]);
        committed := db;
        done := done + batch;
      }
      assert chunks[..|chunks|] == chunks;
    }

    /** A whole collection, given what will be read for every host. */
    method Collect(hosts: seq<HostData>)
      requires AreHosts(hosts) && status.Running? && ok == failed == skipped == 0 && committed == db
      modifies this
      ensures servers == old(servers) && total == |hosts|
      // Every host is counted once, and by its own outcome.
      ensures ok == CountOf(hosts, servers, Succeeded)
      ensures failed == CountOf(hosts, servers, Failed)
      ensures skipped == CountOf(hosts, servers, Skipped)
      ensures ok + failed + skipped == total
      ensures status == if failed == 0 then Completed else Partial
      // The progress counts every host once and never passes the total.
      ensures hosts != [] ==> shown == Ticked(old(shown) + [Progress(true, total, 0)], Progress(true, total, 0), total)
      ensures hosts == [] ==> shown == old(shown)
      ensures hosts != [] ==> progress == Progress(false, total, total)
      ensures hosts == [] ==> progress == old(progress).(running := false)
      // Without faults the tables are those of the hosts taken one after another, and they are committed.
      ensures old(Catalogued()) && FaultFree(hosts) ==> Catalogued() && db == AfterHosts(old(db), hosts, servers)
      // With faults, each of them undoes the part of its batch of 50 hosts before it; everything else is committed.
      ensures Now() == AfterBatches(old(Now()), Fifties(hosts), servers) && committed == db
    {
      ghost var catalogued := Catalogued();
      total := |hosts|;
      EveryHostHasOneOutcome(hosts, servers);
      if hosts == [] {
        status := Completed;
        progress := progress.(running := false);
        return;
      }
      progress := Progress(true, |hosts|, 0);
      shown := shown + [progress];
      CollectBatches(hosts);
      status := if failed == 0 then Completed else Partial;
      progress := progress.(running := false);
    }
  }
}
