/**
 What a collection leaves when transactions fail: a fault undoes the part of its batch before it, so a server has the
 rows of the last host that wrote to it and was not undone.
 */
module FactCollectionFaults {
  import opened Options
  import opened FactCollection
  import opened FactCollectionLaws

  // ── One host ──────────────────────────────────────────────────────────────

  lemma {:induction false} ResolvedRows(
    owner: nat, drafts: seq<Draft>, index: map<string, nat>, updates: map<string, Update>, server: nat)
    ensures RowsOf(Resolved(owner, drafts, index, updates), server)
            == if server == owner then Resolved(owner, drafts, index, updates) else []
  {
    if drafts != [] {
      var n := |drafts| - 1;
      ResolvedRows(owner, drafts[..n], index, updates, server);
      var rest := Resolved(owner, drafts[..n], index, updates);
      var all := Resolved(owner, drafts, index, updates);
      if all != rest {
        assert all[..|rest|] == rest;
      }
    }
  }

  /** Every row of the server says what was collected about one of the packages, and the count is that of its flags. */
  ghost predicate Written(t: Tables, server: nat, facts: seq<PackageFact>, updates: map<string, Update>) {
    && (forall row :: row in RowsOf(t.rows, server) ==> FromFacts(row, server, facts, updates))
    && server in t.pending && t.pending[server] == Flagged(RowsOf(t.rows, server))
  }

  ghost predicate FromFacts(row: PackageRow, server: nat, facts: seq<PackageFact>, updates: map<string, Update>) {
    exists f :: f in facts && !f.versions.NoVersions? && Reflects(row, server, f, updates)
  }

  lemma {:induction false} ResolvedReflect(
    server: nat, facts: seq<PackageFact>, usable: seq<PackageFact>, before: map<string, nat>, index: map<string, nat>,
    updates: map<string, Update>)
    requires forall f :: f in usable ==> f in facts && !f.versions.NoVersions?
    ensures forall row :: row in Resolved(server, IndexedDrafts(usable, before), index, updates) ==>
              FromFacts(row, server, facts, updates)
  {
    hide Reflects, FromFacts, RowFor;
    if usable != [] {
      var n := |usable| - 1;
      ResolvedReflect(server, facts, usable[..n], before, index, updates);
      var drafts := IndexedDrafts(usable, before);
      assert drafts[..n] == IndexedDrafts(usable[..n], before) && drafts[n].fact == usable[n];
      var d := drafts[n];
      var id := if d.package > 0 then d.package else if d.fact.name in index then index[d.fact.name] else 0;
      OneFromFacts(server, facts, usable[n], id, updates);
    }
  }

  lemma OneFromFacts(server: nat, facts: seq<PackageFact>, f: PackageFact, id: nat, updates: map<string, Update>)
    requires f in facts && !f.versions.NoVersions?
    ensures FromFacts(RowFor(server, f, id, updates), server, facts, updates)
  {
    RowReflects(server, f, id, updates);
    hide Reflects;
  }

  lemma RowsExchanged(rows: seq<PackageRow>, new_: seq<PackageRow>, owner: nat, server: nat)
    requires RowsOf(new_, server) == if server == owner then new_ else []
    ensures RowsOf(Without(rows, owner) + new_, server) == if server == owner then new_ else RowsOf(rows, server)
  {
    RowsOfWithout(rows, owner, server);
    RowsOfAppend(Without(rows, owner), new_, server);
    hide *;
    assert [] + new_ == new_ && RowsOf(rows, server) + [] == RowsOf(rows, server);
  }

  /** Persisting replaces the rows of its server, counts them, and leaves those of every other server. */
  lemma PersistedRows(w: Work, owner: nat, facts: seq<PackageFact>, updates: map<string, Update>, server: nat)
    ensures var after := Persisted(w, owner, facts, updates);
            && (server == owner ==>
                  && Written(after.db, owner, facts, updates)
                  && after.synced == w.synced + |RowsOf(after.db.rows, owner)|)
            && (server != owner ==>
                  && RowsOf(after.db.rows, server) == RowsOf(w.db.rows, server)
                  && Get(after.db.pending, server) == Get(w.db.pending, server))
            && w.db.packages <= after.db.packages
  {
    hide RowsOf, Resolved, IndexedDrafts, UnindexedNames, Entered, Usable, Without, FromFacts, Flagged;
    var usable := Usable(facts);
    var newNames := UnindexedNames(usable, w.index);
    var index := Entered(w.index, newNames, w.db.packages + newNames);
    var rows := Resolved(owner, IndexedDrafts(usable, w.index), index, updates);
    ResolvedRows(owner, IndexedDrafts(usable, w.index), index, updates, server);
    ResolvedReflect(owner, facts, usable, w.index, index, updates);
    RowsExchanged(w.db.rows, rows, owner, server);
    assert Persisted(w, owner, facts, updates).db.rows == Without(w.db.rows, owner) + rows;
  }

  // ── One batch ─────────────────────────────────────────────────────────────

  lemma {:induction false} AfterBatchAppend(
    w: Work, committed: Tables, a: seq<HostData>, b: seq<HostData>, servers: map<string, nat>)
    ensures AfterBatch(w, committed, a + b, servers)
            == AfterBatch(AfterBatch(w, committed, a, servers), committed, b, servers)
  {
    if b == [] {
      assert a + b == a;
    } else {
      assert (a + b)[..|a + b| - 1] == a + b[..|b| - 1];
      AfterBatchAppend(w, committed, a, b[..|b| - 1], servers);
    }
  }

  /**
   A failing transaction takes the tables back to the last commit, whatever the hosts before it did, and the hosts
   after it go on from there; the counted rows stay counted.
   */
  lemma FaultUndoesTheBatchSoFar(
    w: Work, committed: Tables, a: seq<HostData>, h: HostData, b: seq<HostData>, servers: map<string, nat>)
    requires RolledBack(h, servers)
    ensures var failed := AfterBatch(w, committed, a + [h], servers);
            && failed.db == committed
            && failed.synced >= AfterBatch(w, committed, a, servers).synced
            && AfterBatch(w, committed, a + [h] + b, servers) == AfterBatch(failed, committed, b, servers)
  {
    assert (a + [h])[..|a|] == a;
    AfterBatchAppend(w, committed, a + [h], b, servers);
  }

  /** The host writes package data, and no later host of the batch fails. */
  predicate Survives(hosts: seq<HostData>, servers: map<string, nat>, j: nat)
    requires j < |hosts|
  {
    Writes(hosts[j], servers) && forall k :: j < k < |hosts| ==> !RolledBack(hosts[k], servers)
  }

  /** The host survives with data for a server. */
  predicate Delivers(hosts: seq<HostData>, servers: map<string, nat>, server: nat, j: nat)
    requires j < |hosts|
  {
    Survives(hosts, servers, j) && Target(hosts[j], servers) == server
  }

  /** What one host does to the rows of a server. */
  lemma AttemptRows(w: Work, committed: Tables, h: HostData, servers: map<string, nat>, server: nat)
    ensures var after := AfterAttempt(w, committed, h, servers).db;
            if RolledBack(h, servers) then after == committed
            else if Writes(h, servers) && Target(h, servers) == server
              then Written(after, server, h.packages.facts, h.packages.updates)
            else RowsOf(after.rows, server) == RowsOf(w.db.rows, server)
                 && Get(after.pending, server) == Get(w.db.pending, server)
  {
    if Writes(h, servers) {
      PersistedRows(w, Target(h, servers), h.packages.facts, h.packages.updates, server);
    }
    hide Persisted, Written, RowsOf, MatchServer;
  }

  lemma {:induction false} BatchKeepsRows(
    w: Work, committed: Tables, hosts: seq<HostData>, servers: map<string, nat>, server: nat)
    requires RowsOf(w.db.rows, server) == RowsOf(committed.rows, server)
    requires Get(w.db.pending, server) == Get(committed.pending, server)
    requires forall j :: 0 <= j < |hosts| ==> !Delivers(hosts, servers, server, j)
    ensures var after := AfterBatch(w, committed, hosts, servers).db;
            && RowsOf(after.rows, server) == RowsOf(committed.rows, server)
            && Get(after.pending, server) == Get(committed.pending, server)
  {
    hide AfterAttempt, RowsOf, Writes, RolledBack, Target;
    if hosts != [] {
      var n := |hosts| - 1;
      var before := AfterBatch(w, committed, hosts[..n], servers);
      AttemptRows(before, committed, hosts[n], servers, server);
      if !RolledBack(hosts[n], servers) {
        forall j | 0 <= j < n ensures !Delivers(hosts[..n], servers, server, j) {
          assert !Delivers(hosts, servers, server, j);
          if Survives(hosts[..n], servers, j) {
            SurvivesLonger(hosts, servers, j);
          }
        }
        BatchKeepsRows(w, committed, hosts[..n], servers, server);
        assert !Delivers(hosts, servers, server, n);
      }
    }
  }

  lemma SurvivesLonger(hosts: seq<HostData>, servers: map<string, nat>, j: nat)
    requires hosts != [] && j < |hosts| - 1 && !RolledBack(hosts[|hosts| - 1], servers)
    ensures Survives(hosts[..|hosts| - 1], servers, j) <==> Survives(hosts, servers, j)
  {
    var n := |hosts| - 1;
    hide Writes, RolledBack;
    if Survives(hosts[..n], servers, j) {
      forall k | j < k < |hosts| ensures !RolledBack(hosts[k], servers) {
        assert k < n ==> hosts[..n][k] == hosts[k];
      }
    }
  }

  lemma {:induction false} BatchDelivers(
    w: Work, committed: Tables, hosts: seq<HostData>, servers: map<string, nat>, server: nat, j: nat)
    requires j < |hosts| && Delivers(hosts, servers, server, j)
    requires forall k :: j < k < |hosts| ==> !Delivers(hosts, servers, server, k)
    ensures Written(AfterBatch(w, committed, hosts, servers).db, server,
                    hosts[j].packages.facts, hosts[j].packages.updates)
  {
    hide AfterAttempt, RowsOf, RolledBack, Target, Reflects, OutcomeOf;
    var n := |hosts| - 1;
    var before := AfterBatch(w, committed, hosts[..n], servers);
    AttemptRows(before, committed, hosts[n], servers, server);
    if j < n {
      SurvivesLonger(hosts, servers, j);
      forall k | j < k < n ensures !Delivers(hosts[..n], servers, server, k) {
        assert !Delivers(hosts, servers, server, k);
        SurvivesLonger(hosts, servers, k);
      }
      BatchDelivers(w, committed, hosts[..n], servers, server, j);
      assert !Delivers(hosts, servers, server, n);
    } else {
      WritersAreKept(hosts[n], servers);
    }
  }

  lemma WritersAreKept(h: HostData, servers: map<string, nat>)
    requires Writes(h, servers)
    ensures !RolledBack(h, servers)
  {
  }

  // ── A whole run ───────────────────────────────────────────────────────────

  /** A server to which no host delivers keeps its rows and its count through any faults. */
  lemma {:induction false} RunKeepsRows(
    w: Work, batches: seq<seq<HostData>>, servers: map<string, nat>, server: nat)
    requires forall b, j :: 0 <= b < |batches| && 0 <= j < |batches[b]| ==> !Delivers(batches[b], servers, server, j)
    ensures var after := AfterBatches(w, batches, servers).db;
            && RowsOf(after.rows, server) == RowsOf(w.db.rows, server)
            && Get(after.pending, server) == Get(w.db.pending, server)
  {
    hide Delivers, RowsOf, AfterBatch;
    if batches != [] {
      var n := |batches| - 1;
      RunKeepsRows(w, batches[..n], servers, server);
      var before := AfterBatches(w, batches[..n], servers);
      BatchKeepsRows(before, before.db, batches[n], servers, server);
    }
  }

  /** After any faults a server's rows say what the last host that delivered to it collected. */
  lemma {:induction false} LastDeliveryWins(
    w: Work, batches: seq<seq<HostData>>, servers: map<string, nat>, server: nat, b: nat, j: nat)
    requires b < |batches| && j < |batches[b]| && Delivers(batches[b], servers, server, j)
    requires forall k :: j < k < |batches[b]| ==> !Delivers(batches[b], servers, server, k)
    requires forall c, k :: b < c < |batches| && 0 <= k < |batches[c]| ==> !Delivers(batches[c], servers, server, k)
    ensures Written(AfterBatches(w, batches, servers).db, server,
                    batches[b][j].packages.facts, batches[b][j].packages.updates)
  {
    hide RowsOf, AfterBatch, Reflects, Writes, RolledBack, Survives, Target, FromFacts, Flagged;
    var n := |batches| - 1;
    var before := AfterBatches(w, batches[..n], servers);
    if b < n {
      LastDeliveryWins(w, batches[..n], servers, server, b, j);
      BatchKeepsRows(before, before.db, batches[n], servers, server);
    } else {
      BatchDelivers(before, before.db, batches[n], servers, server, j);
    }
  }

  /** Hosts 50 k to 50 k + 49 form the k-th batch. */
  lemma BatchOfHost<T>(hosts: seq<T>, i: nat)
    requires i < |hosts|
    ensures i / 50 < |Fifties(hosts)| && i % 50 < |Fifties(hosts)[i / 50]|
    ensures Fifties(hosts)[i / 50][i % 50] == hosts[i]
  {
    assert 50 * (i / 50) + i % 50 == i;
  }
}
