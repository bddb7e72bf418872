/**
 What a fault-free collection leaves behind: every server has exactly the rows of the last host that wrote to it.
 */
module FactCollectionLaws {
  import opened Options
  import opened FactCollection

  /** A row names the package its id stands for in the catalogue. */
  predicate Names(row: PackageRow, packages: seq<string>, name: string) {
    0 < row.package <= |packages| && packages[row.package - 1] == name
  }

  /** The rows that name a package. */
  function CountNaming(rows: seq<PackageRow>, packages: seq<string>, name: string): nat {
    if rows == [] then 0
    else
      var n := |rows| - 1;
      CountNaming(rows[..n], packages, name) + if Names(rows[n], packages, name) then 1 else 0
  }

  /** A package was collected with a non-empty version list. */
  predicate Collected(facts: seq<PackageFact>, name: string) {
    exists f :: f in facts && f.name == name && !f.versions.NoVersions?
  }

  /** The collected packages that have an update. */
  function Updatable(usable: seq<PackageFact>, updates: map<string, Update>): nat {
    if usable == [] then 0
    else
      var n := |usable| - 1;
      Updatable(usable[..n], updates) + if usable[n].name in updates then 1 else 0
  }

  // ── One host ──────────────────────────────────────────────────────────────

  lemma {:induction false} RowsOfAppend(a: seq<PackageRow>, b: seq<PackageRow>, server: nat)
    ensures RowsOf(a + b, server) == RowsOf(a, server) + RowsOf(b, server)
  {
    if b == [] {
      assert a + b == a;
    } else {
      assert (a + b)[..|a + b| - 1] == a + b[..|b| - 1];
      RowsOfAppend(a, b[..|b| - 1], server);
    }
  }

  lemma {:induction false} RowsOfWithout(rows: seq<PackageRow>, gone: nat, server: nat)
    ensures RowsOf(Without(rows, gone), server) == if server == gone then [] else RowsOf(rows, server)
  {
    if rows != [] {
      var n := |rows| - 1;
      RowsOfWithout(rows[..n], gone, server);
      RowsOfAppend(Without(rows[..n], gone), if rows[n].server == gone then [] else [rows[n]], server);
    }
  }

  lemma {:induction false} RowsOfNew(
    owner: nat, usable: seq<PackageFact>, packages: seq<string>, updates: map<string, Update>, server: nat)
    ensures RowsOf(RowsFor(owner, usable, packages, updates), server)
            == if server == owner then RowsFor(owner, usable, packages, updates) else []
  {
    if usable != [] {
      var n := |usable| - 1;
      RowsOfNew(owner, usable[..n], packages, updates, server);
      assert RowsFor(owner, usable, packages, updates)[..n] == RowsFor(owner, usable[..n], packages, updates);
    }
  }

  lemma {:induction false} FlaggedAreUpdatable(
    server: nat, usable: seq<PackageFact>, packages: seq<string>, updates: map<string, Update>)
    ensures Flagged(RowsFor(server, usable, packages, updates)) == Updatable(usable, updates)
  {
    if usable != [] {
      var n := |usable| - 1;
      FlaggedAreUpdatable(server, usable[..n], packages, updates);
      assert RowsFor(server, usable, packages, updates)[..n] == RowsFor(server, usable[..n], packages, updates);
    }
  }

  /** The text of a version and a release, of which either may be missing. */
  predicate IsVersionText(text: string, version: string, release: string) {
    && (version != "" && release != "" ==> text == version + "-" + release)
    && (version == "" ==> text == release)
    && (release == "" ==> text == version)
  }

  /** A row says what was collected about a package: its version, and its update if there is one. */
  predicate Reflects(row: PackageRow, server: nat, f: PackageFact, updates: map<string, Update>) {
    && row.server == server
    && (f.versions.Listed? ==> IsVersionText(row.version, f.versions.first.version, f.versions.first.release))
    && (!f.versions.Listed? ==> row.version == "")
    && (row.updateAvailable <==> f.name in updates)
    && row.availableVersion == (if f.name in updates then updates[f.name].availableVersion else "")
    && row.updateType == (if f.name in updates then updates[f.name].updateType else "")
    && row.repository == (if f.versions.Listed? && f.versions.first.source != "" then f.versions.first.source
                          else if f.name in updates then updates[f.name].repository else "")
  }

  /** The rows of a server are those of one host's facts, in the terms of the catalogue. */
  ghost predicate Describes(t: Tables, server: nat, facts: seq<PackageFact>, updates: map<string, Update>) {
    var rows, usable := RowsOf(t.rows, server), Usable(facts);
    && |rows| == |usable|
    && (forall i :: 0 <= i < |rows| ==>
          && Names(rows[i], t.packages, usable[i].name)
          && Reflects(rows[i], server, usable[i], updates))
    && server in t.pending && t.pending[server] == Flagged(rows) == Updatable(usable, updates)
  }

  lemma CatalogueCovers(t: Tables, server: nat, facts: seq<PackageFact>, updates: map<string, Update>, i: nat)
    requires i < |Usable(facts)|
    ensures Usable(facts)[i].name in Replaced(t, server, facts, updates).packages
  {
    NewNamesCover(Usable(facts), t.packages, Usable(facts)[i]);
  }

  lemma ReplacedRows(t: Tables, server: nat, facts: seq<PackageFact>, updates: map<string, Update>)
    ensures var after := Replaced(t, server, facts, updates);
            RowsOf(after.rows, server) == RowsFor(server, Usable(facts), after.packages, updates)
  {
    var after := Replaced(t, server, facts, updates);
    var rows := RowsFor(server, Usable(facts), after.packages, updates);
    assert after.rows == Without(t.rows, server) + rows;
    RowsOfWithout(t.rows, server, server);
    RowsOfNew(server, Usable(facts), after.packages, updates, server);
    RowsOfAppend(Without(t.rows, server), rows, server);
    hide *;
    assert [] + rows == rows;
  }

  /** One row, from the collected fields. */
  lemma RowReflects(server: nat, f: PackageFact, package: nat, updates: map<string, Update>)
    ensures Reflects(RowFor(server, f, package, updates), server, f, updates)
    ensures RowFor(server, f, package, updates).package == package
  {
  }

  lemma NewRowIsRight(t: Tables, server: nat, facts: seq<PackageFact>, updates: map<string, Update>, i: nat)
    requires i < |Usable(facts)|
    ensures var after, f := Replaced(t, server, facts, updates), Usable(facts)[i];
            var row := RowsFor(server, Usable(facts), after.packages, updates)[i];
            Names(row, after.packages, f.name) && Reflects(row, server, f, updates)
  {
    hide Replaced, Usable, RowsFor, RowFor, IdOf, Reflects;
    CatalogueCovers(t, server, facts, updates, i);
    var f, packages := Usable(facts)[i], Replaced(t, server, facts, updates).packages;
    RowReflects(server, f, IdOf(packages, f.name), updates);
  }

  lemma NewPending(t: Tables, server: nat, facts: seq<PackageFact>, updates: map<string, Update>)
    ensures var after := Replaced(t, server, facts, updates);
            var rows := RowsFor(server, Usable(facts), after.packages, updates);
            server in after.pending && after.pending[server] == Flagged(rows) == Updatable(Usable(facts), updates)
  {
    FlaggedAreUpdatable(server, Usable(facts), Replaced(t, server, facts, updates).packages, updates);
  }

  lemma ReplacedDescribes(t: Tables, server: nat, facts: seq<PackageFact>, updates: map<string, Update>)
    ensures Describes(Replaced(t, server, facts, updates), server, facts, updates)
  {
    hide RowsFor, RowsOf, Usable, Replaced, Flagged, Updatable, Reflects, Names;
    ReplacedRows(t, server, facts, updates);
    NewPending(t, server, facts, updates);
    forall i | 0 <= i < |Usable(facts)|
      ensures var after, f := Replaced(t, server, facts, updates), Usable(facts)[i];
              var row := RowsOf(after.rows, server)[i];
              Names(row, after.packages, f.name) && Reflects(row, server, f, updates)
    {
      NewRowIsRight(t, server, facts, updates, i);
    }
  }

  /** A description survives whatever leaves the server's rows and count alone and only extends the catalogue. */
  lemma DescriptionSurvives(
    before: Tables, after: Tables, server: nat, facts: seq<PackageFact>, updates: map<string, Update>)
    requires Describes(before, server, facts, updates)
    requires RowsOf(after.rows, server) == RowsOf(before.rows, server)
    requires Get(after.pending, server) == Get(before.pending, server) && before.packages <= after.packages
    ensures Describes(after, server, facts, updates)
  {
    hide RowsOf, Usable, Flagged, Updatable, Reflects;
  }

  lemma OthersKeepTheirRows(t: Tables, server: nat, facts: seq<PackageFact>, updates: map<string, Update>, other: nat)
    requires other != server
    ensures RowsOf(Replaced(t, server, facts, updates).rows, other) == RowsOf(t.rows, other)
    ensures Get(Replaced(t, server, facts, updates).pending, other) == Get(t.pending, other)
  {
    var after := Replaced(t, server, facts, updates);
    var rows := RowsFor(server, Usable(facts), after.packages, updates);
    RowsOfWithout(t.rows, server, other);
    RowsOfNew(server, Usable(facts), after.packages, updates, other);
    RowsOfAppend(Without(t.rows, server), rows, other);
  }

  // ── A whole collection ────────────────────────────────────────────────────

  /** The last host that wrote package data to a server. */
  function LastWriter(hosts: seq<HostData>, servers: map<string, nat>, server: nat): (r: Option<HostData>)
    ensures r.Some? ==> r.value in hosts && Writes(r.value, servers) && Target(r.value, servers) == server
  {
    if hosts == [] then None
    else
      var last := hosts[|hosts| - 1];
      if Writes(last, servers) && Target(last, servers) == server then Some(last)
      else LastWriter(hosts[..|hosts| - 1], servers, server)
  }

  /** Packages keep their ids, no name is entered twice, and only collected names are added. */
  lemma {:induction false} CatalogueGrows(t: Tables, hosts: seq<HostData>, servers: map<string, nat>)
    requires Distinct(t.packages) && AreHosts(hosts)
    ensures t.packages <= AfterHosts(t, hosts, servers).packages
    ensures Distinct(AfterHosts(t, hosts, servers).packages)
    ensures forall n :: n in AfterHosts(t, hosts, servers).packages ==>
              n in t.packages || exists h :: h in hosts && Writes(h, servers) && Collected(h.packages.facts, n)
  {
    if hosts != [] {
      var last, rest := hosts[|hosts| - 1], hosts[..|hosts| - 1];
      CatalogueGrows(t, rest, servers);
      var before := AfterHosts(t, rest, servers);
      if Writes(last, servers) {
        assert IsHost(last);
        CatalogueStaysDistinct(last.packages.facts, before.packages);
        var usable := Usable(last.packages.facts);
        forall n | n in NewNames(usable, before.packages) ensures Collected(last.packages.facts, n) {
          var i :| 0 <= i < |usable| && usable[i].name == n;
          assert usable[i] in usable;
        }
      }
    }
  }

  /**
   After a fault-free collection the rows and the pending count of every server are those of the last host that
   wrote to it, and are untouched if none did.
   */
  lemma {:induction false} LastWriterWins(t: Tables, hosts: seq<HostData>, servers: map<string, nat>, server: nat)
    ensures var last, after := LastWriter(hosts, servers, server), AfterHosts(t, hosts, servers);
            && (last.None? ==>
                  && RowsOf(after.rows, server) == RowsOf(t.rows, server)
                  && Get(after.pending, server) == Get(t.pending, server))
            && (last.Some? ==> Describes(after, server, last.value.packages.facts, last.value.packages.updates))
  {
    if hosts != [] {
      var h, rest := hosts[|hosts| - 1], hosts[..|hosts| - 1];
      LastWriterWins(t, rest, servers, server);
      var before, last := AfterHosts(t, rest, servers), LastWriter(rest, servers, server);
      if Writes(h, servers) && Target(h, servers) == server {
        assert LastWriter(hosts, servers, server) == Some(h);
        ReplacedDescribes(before, server, h.packages.facts, h.packages.updates);
        hide *;
      } else if Writes(h, servers) {
        var after := AfterHosts(t, hosts, servers);
        assert after == Replaced(before, Target(h, servers), h.packages.facts, h.packages.updates);
        assert before.packages <= after.packages && LastWriter(hosts, servers, server) == last;
        OthersKeepTheirRows(before, Target(h, servers), h.packages.facts, h.packages.updates, server);
        hide *;
        if last.Some? {
          DescriptionSurvives(before, after, server, last.value.packages.facts, last.value.packages.updates);
        }
      }
    }
  }

  lemma {:induction false} CountOfUsable(
    rows: seq<PackageRow>, usable: seq<PackageFact>, packages: seq<string>, name: string)
    requires |rows| == |usable| && Distinct(packages) && DistinctNames(usable)
    requires forall i :: 0 <= i < |rows| ==> Names(rows[i], packages, usable[i].name)
    ensures CountNaming(rows, packages, name) == if HasName(usable, name) then 1 else 0
  {
    if usable != [] {
      var n := |usable| - 1;
      CountOfUsable(rows[..n], usable[..n], packages, name);
      NamesStay(usable);
      assert HasName(usable, name) <==> HasName(usable[..n], name) || usable[n].name == name;
    }
  }

  /** The server then has exactly one row for each package collected with versions, and no other row. */
  lemma OneRowPerCollectedPackage(
    t: Tables, server: nat, facts: seq<PackageFact>, updates: map<string, Update>, name: string)
    requires Describes(t, server, facts, updates) && Distinct(t.packages) && DistinctNames(facts)
    ensures CountNaming(RowsOf(t.rows, server), t.packages, name) == if Collected(facts, name) then 1 else 0
  {
    var usable := Usable(facts);
    UsableDistinct(facts);
    CountOfUsable(RowsOf(t.rows, server), usable, t.packages, name);
    UsableIsExact(facts);
    if HasName(usable, name) {
      var i :| 0 <= i < |usable| && usable[i].name == name;
      assert usable[i] in usable;
    }
    if Collected(facts, name) {
      var f :| f in facts && f.name == name && !f.versions.NoVersions?;
      var i :| 0 <= i < |usable| && usable[i] == f;
    }
  }

  lemma {:induction false} UsableIsExact(facts: seq<PackageFact>)
    ensures forall f :: f in Usable(facts) <==> f in facts && !f.versions.NoVersions?
  {
    if facts != [] {
      UsableIsExact(facts[..|facts| - 1]);
      assert facts == facts[..|facts| - 1] + [facts[|facts| - 1]];
    }
  }

  // ── What is counted, from the rows and the hosts ──────────────────────────

  /** The rows of a server, and those left when they are deleted. */
  lemma {:induction false} RowsAreDivided(rows: seq<PackageRow>, server: nat)
    ensures forall r :: r in RowsOf(rows, server) <==> r in rows && r.server == server
    ensures forall r :: r in Without(rows, server) <==> r in rows && r.server != server
    ensures |RowsOf(rows, server)| + |Without(rows, server)| == |rows|
  {
    if rows != [] {
      var n := |rows| - 1;
      RowsAreDivided(rows[..n], server);
      assert rows == rows[..n] + [rows[n]];
    }
  }

  function FlaggedAt(rows: seq<PackageRow>): set<nat> {
    set i: nat | i < |rows| && rows[i].updateAvailable
  }

  lemma FlaggedLast(rows: seq<PackageRow>)
    requires rows != []
    ensures var n := |rows| - 1; var rest := FlaggedAt(rows[..n]);
            n !in rest && FlaggedAt(rows) == if rows[n].updateAvailable then rest + {n} else rest
  {
  }

  /** The pending count is the number of rows with an update. */
  lemma {:induction false} FlaggedIsNumber(rows: seq<PackageRow>)
    ensures Flagged(rows) == |FlaggedAt(rows)|
  {
    if rows != [] {
      FlaggedIsNumber(rows[..|rows| - 1]);
      FlaggedLast(rows);
    }
  }

  /** The host is matched by the first of its names that is not empty and known. */
  lemma {:induction false} FirstKnownNameMatches(names: seq<string>, servers: map<string, nat>, k: nat)
    requires k <= |names| && forall j :: 0 <= j < k ==> names[j] == "" || names[j] !in servers
    ensures k < |names| && names[k] != "" && names[k] in servers ==>
              MatchServer(names, servers) == Some(servers[names[k]])
    ensures k == |names| ==> MatchServer(names, servers) == None
  {
    if k > 0 {
      assert names[0] == "" || names[0] !in servers;
      forall j | 0 <= j < k - 1 ensures names[1..][j] == "" || names[1..][j] !in servers {
        assert names[1..][j] == names[j + 1];
      }
      FirstKnownNameMatches(names[1..], servers, k - 1);
    }
  }

  predicate IsKnown(names: seq<string>, servers: map<string, nat>) {
    exists k :: 0 <= k < |names| && names[k] != "" && names[k] in servers
  }

  /**
   A host without facts has failed, one whose names are all unknown is skipped, and a matched one succeeds exactly if
   its transaction meets no fault; package data is written exactly for a host that succeeds with some.
   */
  lemma OutcomeIsExact(host: HostData, servers: map<string, nat>)
    ensures OutcomeOf(host, servers) == Failed <==>
              host.NoFacts? || (IsKnown(host.names, servers) && host.fault != NoFault)
    ensures OutcomeOf(host, servers) == Skipped <==> host.Facts? && !IsKnown(host.names, servers)
    ensures OutcomeOf(host, servers) == Succeeded <==>
              host.Facts? && IsKnown(host.names, servers) && host.fault == NoFault
    ensures Writes(host, servers) <==>
              host.Facts? && IsKnown(host.names, servers) && host.fault == NoFault && host.packages.PackageData?
  {
    if host.Facts? {
      KnownIsMatched(host.names, servers);
    }
  }

  lemma {:induction false} KnownIsMatched(names: seq<string>, servers: map<string, nat>)
    ensures MatchServer(names, servers).Some? <==> IsKnown(names, servers)
  {
    if names != [] {
      KnownIsMatched(names[1..], servers);
      assert names == [names[0]] + names[1..];
      if IsKnown(names[1..], servers) {
        var k :| 0 <= k < |names[1..]| && names[1..][k] != "" && names[1..][k] in servers;
        assert names[k + 1] == names[1..][k];
      }
      if IsKnown(names, servers) && !(names[0] != "" && names[0] in servers) {
        var k :| 0 <= k < |names| && names[k] != "" && names[k] in servers;
        assert names[1..][k - 1] == names[k];
      }
    }
  }

  function HostsWith(hosts: seq<HostData>, servers: map<string, nat>, outcome: Outcome): set<nat> {
    set i: nat | i < |hosts| && OutcomeOf(hosts[i], servers) == outcome
  }

  lemma HostsWithLast(hosts: seq<HostData>, servers: map<string, nat>, outcome: Outcome)
    requires hosts != []
    ensures var n := |hosts| - 1; var rest := HostsWith(hosts[..n], servers, outcome);
            n !in rest && HostsWith(hosts, servers, outcome)
                          == if OutcomeOf(hosts[n], servers) == outcome then rest + {n} else rest
  {
    hide OutcomeOf;
  }

  /** A counter is the number of hosts with its outcome. */
  lemma {:induction false} CountOfIsNumber(hosts: seq<HostData>, servers: map<string, nat>, outcome: Outcome)
    ensures CountOf(hosts, servers, outcome) == |HostsWith(hosts, servers, outcome)|
  {
    if hosts != [] {
      CountOfIsNumber(hosts[..|hosts| - 1], servers, outcome);
      HostsWithLast(hosts, servers, outcome);
    }
  }

  /** While n hosts are counted the progress takes n values, one more each time. */
  lemma {:induction false} TickedIsExact(shown: seq<Progress>, p: Progress, n: nat, k: nat)
    requires k < n
    ensures |Ticked(shown, p, n)| == |shown| + n && shown <= Ticked(shown, p, n)
    ensures Ticked(shown, p, n)[|shown| + k] == Progress(p.running, p.total, p.done + k + 1)
  {
    if n == 1 {
      assert Ticked(shown, p, 0) == shown;
    } else {
      TickedIsExact(shown, p, n - 1, if k < n - 1 then k else 0);
    }
  }

  /** The last writer of a server is a host that writes to it after which none does. */
  lemma {:induction false} LastWriterIsLast(hosts: seq<HostData>, servers: map<string, nat>, server: nat, k: nat)
    requires k < |hosts| && Writes(hosts[k], servers) && Target(hosts[k], servers) == server
    requires forall j :: k < j < |hosts| && Writes(hosts[j], servers) ==> Target(hosts[j], servers) != server
    ensures LastWriter(hosts, servers, server) == Some(hosts[k])
  {
    hide Writes, Target;
    if k < |hosts| - 1 {
      var n := |hosts| - 1;
      forall j | k < j < n && Writes(hosts[..n][j], servers) ensures Target(hosts[..n][j], servers) != server {
        assert hosts[..n][j] == hosts[j];
      }
      LastWriterIsLast(hosts[..n], servers, server, k);
    }
  }

  /** Whatever was collected with versions has its row, with the raw fields of what was collected. */
  lemma CollectedPackageHasItsRow(
    t: Tables, server: nat, facts: seq<PackageFact>, updates: map<string, Update>, f: PackageFact)
    requires Describes(t, server, facts, updates) && f in facts && !f.versions.NoVersions?
    ensures exists row :: row in t.rows && Names(row, t.packages, f.name) && Reflects(row, server, f, updates)
  {
    UsableIsExact(facts);
    RowsAreDivided(t.rows, server);
    var i :| 0 <= i < |Usable(facts)| && Usable(facts)[i] == f;
    var row := RowsOf(t.rows, server)[i];
    assert row in RowsOf(t.rows, server);
    hide Usable, RowsOf, Names, Reflects;
  }
}
