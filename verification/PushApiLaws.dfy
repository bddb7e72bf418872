/**
 What any sequence of inventory and patch pushes keeps and leaves behind, said without row positions: a server's
 packages are a partial map from package names to what the row holds.
 */
module PushApiLaws {
  import opened Options
  import opened PushApi
  import PyText

  // ── The tables as a map from (server, package name) to row contents ───────

  function View(t: Tables, server: nat, name: string): Option<Held> {
    var p := FindPackage(t.packages, name);
    if p.None? then None else HeldAt(t.rows, server, p.value)
  }

  lemma RowAt(rows: seq<PackageRow>, k: nat)
    requires UniqueRows(rows) && k < |rows|
    ensures FindRow(rows, rows[k].server, rows[k].package) == Some(k)
  {
    assert IsRowOf(rows[k], rows[k].server, rows[k].package);
  }

  lemma FindPackageAppend(packages: seq<string>, new_: string, name: string)
    ensures FindPackage(packages + [new_], name)
            == if FindPackage(packages, name).Some? then FindPackage(packages, name)
               else if new_ == name then Some(|packages|) else None
  {
    assert (packages + [new_])[..|packages|] == packages;
  }

  lemma FindRowAppend(rows: seq<PackageRow>, row: PackageRow, server: nat, package: nat)
    ensures FindRow(rows + [row], server, package)
            == if FindRow(rows, server, package).Some? then FindRow(rows, server, package)
               else if IsRowOf(row, server, package) then Some(|rows|) else None
  {
    assert (rows + [row])[..|rows|] == rows;
  }

  /** Searching looks at the keys only. */
  lemma {:induction false} FindRowSameKeys(a: seq<PackageRow>, b: seq<PackageRow>, server: nat, package: nat)
    requires |a| == |b|
    requires forall i :: 0 <= i < |a| ==> a[i].server == b[i].server && a[i].package == b[i].package
    ensures FindRow(a, server, package) == FindRow(b, server, package)
  {
    if a != [] {
      FindRowSameKeys(a[..|a| - 1], b[..|b| - 1], server, package);
    }
  }

  lemma NoRowsOfPackage(rows: seq<PackageRow>, server: nat, package: nat)
    requires forall i :: 0 <= i < |rows| ==> rows[i].package < package
    ensures HeldAt(rows, server, package) == None
  {
  }

  lemma PutHolds(rows: seq<PackageRow>, row: PackageRow, server: nat, package: nat)
    requires UniqueRows(rows)
    ensures UniqueRows(Put(rows, row))
    ensures HeldAt(Put(rows, row), server, package)
            == if IsRowOf(row, server, package) then Some(row.held) else HeldAt(rows, server, package)
  {
    var k := FindRow(rows, row.server, row.package);
    if k.Some? {
      FindRowSameKeys(rows, rows[k.value := row], server, package);
      RowAt(rows, k.value);
    } else {
      FindRowAppend(rows, row, server, package);
    }
  }

  lemma PutKeeps(rows: seq<PackageRow>, row: PackageRow, servers: nat, packages: nat)
    requires UniqueRows(rows) && row.server < servers && row.package < packages
    requires forall i :: 0 <= i < |rows| ==> rows[i].server < servers && rows[i].package < packages
    ensures UniqueRows(Put(rows, row))
    ensures var r := Put(rows, row);
            forall i :: 0 <= i < |r| ==> r[i].server < servers && r[i].package < packages
  {
  }

  lemma RecordedKeepsWellFormed(t: Tables, owner: nat, c: Change)
    requires WellFormed(t) && owner < |t.servers|
    ensures WellFormed(Recorded(t, owner, c))
  {
    var t' := Recorded(t, owner, c);
    var p := FindPackage(t.packages, c.name);
    var package := if p.Some? then p.value else |t.packages|;
    var row := PackageRow(owner, package, ChangedFrom(HeldAt(t.rows, owner, package), c));
    PutKeeps(t.rows, row, |t.servers|, |t'.packages|);
    hide Put, HeldAt, ChangedFrom, FindRow, UniqueRows;
  }

  /** One pushed package changes one entry of the map and nothing else. */
  lemma RecordedView(t: Tables, owner: nat, c: Change, server: nat, name: string)
    requires WellFormed(t)
    ensures View(Recorded(t, owner, c), server, name)
            == if server == owner && name == c.name then Some(ChangedFrom(View(t, server, name), c))
               else View(t, server, name)
  {
    hide FindRow, FindPackage, ChangedFrom, UniqueRows, Put, HeldAt;
    var p := FindPackage(t.packages, c.name);
    var package := if p.Some? then p.value else |t.packages|;
    var row := PackageRow(owner, package, ChangedFrom(HeldAt(t.rows, owner, package), c));
    FindPackageAppend(t.packages, c.name, name);
    var q := FindPackage(Recorded(t, owner, c).packages, name);
    assert q == Some(package) <==> name == c.name;
    NoRowsOfPackage(t.rows, owner, |t.packages|);
    NoRowsOfPackage(t.rows, server, |t.packages|);
    PutHolds(t.rows, row, server, if q.Some? then q.value else 0);
  }

  lemma ClearedView(t: Tables, owner: nat, server: nat, name: string)
    ensures View(FlagsCleared(t, owner), server, name)
            == if server == owner && View(t, server, name).Some? then Some(Cleared(View(t, server, name).value))
               else View(t, server, name)
  {
    var p := FindPackage(t.packages, name);
    if p.Some? {
      FindRowSameKeys(t.rows, FlagsCleared(t, owner).rows, server, p.value);
    }
  }

  // ── A whole list ──────────────────────────────────────────────────────────

  function LastNamed(changes: seq<Change>, name: string): Option<Change> {
    if changes == [] then None
    else
      var n := |changes| - 1;
      if changes[n].name == name then Some(changes[n]) else LastNamed(changes[..n], name)
  }

  /** What a list leaves in an entry: the last change of that name, over the installed version of the changes before. */
  function Folded(before: Option<Held>, changes: seq<Change>, name: string): Option<Held> {
    if changes == [] then before
    else
      var n := |changes| - 1;
      var h := Folded(before, changes[..n], name);
      if changes[n].name == name then Some(ChangedFrom(h, changes[n])) else h
  }

  lemma {:induction false} AllRecordedView(t: Tables, owner: nat, changes: seq<Change>, server: nat, name: string)
    requires WellFormed(t) && owner < |t.servers|
    ensures WellFormed(AllRecorded(t, owner, changes))
    ensures AllRecorded(t, owner, changes).servers == t.servers && AllRecorded(t, owner, changes).patching == t.patching
    ensures View(AllRecorded(t, owner, changes), server, name)
            == if server == owner then Folded(View(t, server, name), changes, name) else View(t, server, name)
  {
    if changes != [] {
      var n := |changes| - 1;
      AllRecordedView(t, owner, changes[..n], server, name);
      RecordedView(AllRecorded(t, owner, changes[..n]), owner, changes[n], server, name);
      RecordedKeepsWellFormed(AllRecorded(t, owner, changes[..n]), owner, changes[n]);
    }
  }

  /** Apart from the installed version, only the last change of a name counts. */
  lemma {:induction false} LastChangeWins(before: Option<Held>, changes: seq<Change>, name: string)
    ensures LastNamed(changes, name).None? ==> Folded(before, changes, name) == before
    ensures LastNamed(changes, name).Some? ==>
              var c, h := LastNamed(changes, name).value, Folded(before, changes, name);
              && c.name == name && c in changes && h.Some?
              && h.value == Changed(h.value, c)
              && ((forall d :: d in changes && d.name == name ==> d.version.None?) ==>
                   h.value.version == if before.Some? then before.value.version else "")
  {
    if changes != [] {
      LastChangeWins(before, changes[..|changes| - 1], name);
      assert changes == changes[..|changes| - 1] + [changes[|changes| - 1]];
    }
  }

  // ── One push, by host name ────────────────────────────────────────────────

  /** The trimmed name a push is about. */
  function HostOf(push: Push): string {
    PyText.Strip(if push.InventoryPush? then push.inventory.hostname else push.completion.hostname)
  }

  /** What a host's row for a package holds. */
  function HeldBy(t: Tables, hostname: string, name: string): Option<Held> {
    var s := FindServer(t.servers, hostname);
    if s.None? then None else View(t, s.value, name)
  }

  function PatchingOf(t: Tables, hostname: string): Option<Patching> {
    var s := FindServer(t.servers, hostname);
    if s.None? then None else Get(t.patching, s.value)
  }

  predicate Known(t: Tables, hostname: string) {
    FindServer(t.servers, hostname).Some?
  }

  /** An inventory push for any host, or a completion push for a known host. */
  predicate Accepted(t: Tables, push: Push) {
    push.InventoryPush? || Known(t, HostOf(push))
  }

  /** The package changes a push makes to its host. */
  function ChangesOf(push: Push): seq<Change> {
    if push.InventoryPush? then
      if push.inventory.available.Some? then Changes(push.inventory.available.value, true, push.now) else []
    else if push.completion.installed.Some? then
      Changes(push.completion.installed.value, false,
              if push.completion.lastPatch.Some? then push.completion.lastPatch.value else push.now)
    else []
  }

  /** Whether a push says which updates are available. */
  predicate SetsFlags(push: Push) {
    push.CompletionPush? || push.inventory.available.Some?
  }

  function ClearedIf(h: Option<Held>, clear: bool): Option<Held> {
    if h.Some? && clear then Some(Cleared(h.value)) else h
  }

  lemma FindServerAppend(servers: seq<Server>, new_: Server, hostname: string)
    ensures FindServer(servers + [new_], hostname)
            == if FindServer(servers, hostname).Some? then FindServer(servers, hostname)
               else if new_.hostname == hostname then Some(|servers|) else None
  {
    assert (servers + [new_])[..|servers|] == servers;
  }

  lemma {:induction false} FindServerSameHosts(a: seq<Server>, b: seq<Server>, hostname: string)
    requires |a| == |b| && forall i :: 0 <= i < |a| ==> a[i].hostname == b[i].hostname
    ensures FindServer(a, hostname) == FindServer(b, hostname)
  {
    if a != [] {
      FindServerSameHosts(a[..|a| - 1], b[..|b| - 1], hostname);
    }
  }

  lemma ServerAfterFinds(servers: seq<Server>, hostname: string, status: Value, other: string)
    requires DistinctHosts(servers)
    ensures DistinctHosts(ServerAfter(servers, hostname, status))
    ensures |ServerAfter(servers, hostname, status)| >= |servers|
    ensures FindServer(ServerAfter(servers, hostname, status), other)
            == if other == hostname then Some(Place(servers, hostname)) else FindServer(servers, other)
  {
    var after := ServerAfter(servers, hostname, status);
    if |after| > |servers| {
      FindServerAppend(servers, after[|servers|], other);
    } else {
      FindServerSameHosts(servers, after, other);
    }
  }

  /** The tables between the patching part and the package part of a push. */
  function Prepared(t: Tables, push: Push): Tables
    requires Accepted(t, push)
  {
    var server := Place(t.servers, HostOf(push));
    match push
    case InventoryPush(p, now) =>
      t.(servers := ServerAfter(t.servers, HostOf(push), p.status),
         patching := t.patching[server := PatchingAfterInventory(Get(t.patching, server), p)])
    case CompletionPush(p, now) =>
      t.(patching := t.patching[server := PatchingAfterCompletion(Get(t.patching, server), p, now)])
  }

  lemma AfterIsPrepared(t: Tables, push: Push)
    ensures !Accepted(t, push) ==> After(t, push) == t
    ensures Accepted(t, push) ==>
              var t', server := Prepared(t, push), Place(t.servers, HostOf(push));
              After(t, push)
              == if SetsFlags(push) then AllRecorded(FlagsCleared(t', server), server, ChangesOf(push)) else t'
  {
  }

  lemma PreparedView(t: Tables, push: Push, hostname: string, name: string)
    requires WellFormed(t) && Accepted(t, push)
    ensures WellFormed(Prepared(t, push)) && Place(t.servers, HostOf(push)) < |Prepared(t, push).servers|
    ensures FindServer(Prepared(t, push).servers, hostname)
            == if hostname == HostOf(push) then Some(Place(t.servers, HostOf(push)))
               else FindServer(t.servers, hostname)
    ensures HeldBy(Prepared(t, push), hostname, name) == HeldBy(t, hostname, name)
  {
    if push.InventoryPush? {
      ServerAfterFinds(t.servers, HostOf(push), push.inventory.status, hostname);
    }
    var p := FindPackage(t.packages, name);
    if p.Some? {
      NoRowsBeyond(t.rows, |t.servers|, p.value);
    }
  }

  lemma NoRowsBeyond(rows: seq<PackageRow>, server: nat, package: nat)
    requires forall i :: 0 <= i < |rows| ==> rows[i].server < server
    ensures HeldAt(rows, server, package) == None
  {
  }

  /** One push in one equation: its host's entries are cleared and overwritten, every other entry stays. */
  lemma PushView(t: Tables, push: Push, hostname: string, name: string)
    requires WellFormed(t)
    ensures WellFormed(After(t, push))
    ensures HeldBy(After(t, push), hostname, name)
            == if hostname == HostOf(push) && Accepted(t, push)
               then Folded(ClearedIf(HeldBy(t, hostname, name), SetsFlags(push)), ChangesOf(push), name)
               else HeldBy(t, hostname, name)
  {
    AfterIsPrepared(t, push);
    if Accepted(t, push) {
      var t', server := Prepared(t, push), Place(t.servers, HostOf(push));
      PreparedView(t, push, hostname, name);
      var cleared := FlagsCleared(t', server);
      var s := FindServer(t'.servers, hostname);
      if s.Some? {
        ClearedView(t', server, s.value, name);
      }
      FlagsClearedKeepsWellFormed(t', server);
      AllRecordedView(cleared, server, ChangesOf(push), if s.Some? then s.value else 0, name);
      DistinctPlaces(t'.servers, hostname, HostOf(push));
    }
  }

  lemma DistinctPlaces(servers: seq<Server>, a: string, b: string)
    ensures FindServer(servers, a).Some? && FindServer(servers, a) == FindServer(servers, b) ==> a == b
  {
  }

  lemma FlagsClearedKeepsWellFormed(t: Tables, server: nat)
    requires WellFormed(t)
    ensures WellFormed(FlagsCleared(t, server))
  {
  }

  // ── What a push leaves ────────────────────────────────────────────────────

  predicate Flagged(t: Tables, hostname: string, name: string) {
    HeldBy(t, hostname, name).Some? && HeldBy(t, hostname, name).value.updateAvailable
  }

  /** The last entry of a list that names a package. */
  function LastEntry(entries: seq<Entry>, name: string): (r: Option<Entry>)
    ensures r.Some? ==> r.value.Entry? && r.value in entries && SafeStr(r.value.name) == name
  {
    if entries == [] then None
    else
      var n := |entries| - 1;
      if entries[n].Entry? && SafeStr(entries[n].name) == name then Some(entries[n]) else LastEntry(entries[..n], name)
  }

  lemma {:induction false} LastChangeIsLastEntry(entries: seq<Entry>, available: bool, at: int, name: string)
    requires name != ""
    ensures LastNamed(Changes(entries, available, at), name)
            == match LastEntry(entries, name)
               case None => None
               case Some(e) => if available then UpdateOf(e, at) else InstallOf(e, at)
  {
    if entries != [] {
      var n := |entries| - 1;
      LastChangeIsLastEntry(entries[..n], available, at, name);
      var rest := Changes(entries[..n], available, at);
      var c := if available then UpdateOf(entries[n], at) else InstallOf(entries[n], at);
      if c.Some? {
        assert (rest + [c.value])[..|rest|] == rest;
      }
    }
  }

  lemma {:induction false} UpdatesKeepVersions(entries: seq<Entry>, at: int)
    ensures forall c :: c in Changes(entries, true, at) ==> c.version.None? && c.updateAvailable && c.name != ""
  {
    if entries != [] {
      UpdatesKeepVersions(entries[..|entries| - 1], at);
    }
  }

  /** What an update list should leave in an entry: the list's last word over the installed version, or no flag. */
  function AsListed(before: Option<Held>, last: Option<Entry>, now: int): Option<Held>
    requires last.Some? ==> last.value.Entry?
  {
    if last.None? then ClearedIf(before, true)
    else
      var e := last.value;
      Some(Held(if before.Some? then before.value.version else "", true, SafeStrUpTo(e.availableVersion, 100),
                SafeStrUpTo(e.updateType, 50), SafeStrUpTo(e.repository, 150), now))
  }

  lemma FoldedUpdates(before: Option<Held>, entries: seq<Entry>, now: int, name: string)
    requires name != ""
    ensures Folded(ClearedIf(before, true), Changes(entries, true, now), name)
            == AsListed(before, LastEntry(entries, name), now)
  {
    var changes := Changes(entries, true, now);
    LastChangeWins(ClearedIf(before, true), changes, name);
    LastChangeIsLastEntry(entries, true, now, name);
    UpdatesKeepVersions(entries, now);
    hide Folded, Changes, LastNamed, LastEntry, SafeStrUpTo, SafeStr;
  }

  /**
   After an inventory push with an update list exactly the packages named in the list are flagged, each as its last
   entry says; installed versions are not touched.
   */
  lemma ListIsExactlyFlagged(t: Tables, push: Push, name: string)
    requires WellFormed(t) && push.InventoryPush? && push.inventory.available.Some? && name != ""
    ensures var last := LastEntry(push.inventory.available.value, name);
            && (Flagged(After(t, push), HostOf(push), name) <==> last.Some?)
            && HeldBy(After(t, push), HostOf(push), name) == AsListed(HeldBy(t, HostOf(push), name), last, push.now)
  {
    var h, entries := HostOf(push), push.inventory.available.value;
    PushView(t, push, h, name);
    FoldedUpdates(HeldBy(t, h, name), entries, push.now, name);
    hide After, HeldBy, Folded, Changes, LastEntry, SafeStrUpTo, HostOf, WellFormed;
  }

  lemma {:induction false} InstallsClearFlags(before: Option<Held>, entries: seq<Entry>, at: int, name: string)
    requires before.Some? ==> !before.value.updateAvailable
    ensures var h := Folded(before, Changes(entries, false, at), name); h.Some? ==> !h.value.updateAvailable
  {
    if entries != [] {
      var n := |entries| - 1;
      InstallsClearFlags(before, entries[..n], at, name);
      var c, rest := InstallOf(entries[n], at), Changes(entries[..n], false, at);
      if c.Some? {
        assert (rest + [c.value])[..|rest|] == rest;
      }
    }
  }

  /** After a completion push for a known host none of its packages is flagged. */
  lemma CompletionLeavesNothingFlagged(t: Tables, push: Push, name: string)
    requires WellFormed(t) && push.CompletionPush? && Accepted(t, push)
    ensures !Flagged(After(t, push), HostOf(push), name)
  {
    var h, p := HostOf(push), push.completion;
    PushView(t, push, h, name);
    var at := if p.lastPatch.Some? then p.lastPatch.value else push.now;
    var installed := if p.installed.Some? then p.installed.value else [];
    InstallsClearFlags(ClearedIf(HeldBy(t, h, name), true), installed, at, name);
  }

  lemma FoldedInstalls(before: Option<Held>, entries: seq<Entry>, at: int, name: string)
    requires name != "" && LastEntry(entries, name).Some?
    ensures var e := LastEntry(entries, name).value;
            Folded(before, Changes(entries, false, at), name)
            == Some(Held(SafeStrUpTo(e.version, 100), false, "", SafeStrUpTo(e.action, 50),
                         SafeStrUpTo(e.repository, 150), at))
  {
    LastChangeWins(before, Changes(entries, false, at), name);
    LastChangeIsLastEntry(entries, false, at, name);
    hide Folded, Changes, LastNamed, LastEntry, SafeStrUpTo, SafeStr;
  }

  /** A completion stores each installed package as its last entry says, stamped with the patch date. */
  lemma CompletionRecordsInstalls(t: Tables, push: Push, name: string)
    requires WellFormed(t) && push.CompletionPush? && Accepted(t, push) && push.completion.installed.Some? && name != ""
    requires LastEntry(push.completion.installed.value, name).Some?
    ensures var e := LastEntry(push.completion.installed.value, name).value;
            HeldBy(After(t, push), HostOf(push), name)
            == Some(Held(SafeStrUpTo(e.version, 100), false, "", SafeStrUpTo(e.action, 50),
                         SafeStrUpTo(e.repository, 150),
                         if push.completion.lastPatch.Some? then push.completion.lastPatch.value else push.now))
  {
    var p, h := push.completion, HostOf(push);
    var at := if p.lastPatch.Some? then p.lastPatch.value else push.now;
    PushView(t, push, h, name);
    FoldedInstalls(ClearedIf(HeldBy(t, h, name), true), p.installed.value, at, name);
    hide After, HeldBy, Folded, Changes, LastEntry, SafeStrUpTo, HostOf, WellFormed;
  }

  /** A push touches nothing of any other host. */
  lemma OtherHostsUntouched(t: Tables, push: Push, other: string, name: string)
    requires WellFormed(t) && other != HostOf(push)
    ensures HeldBy(After(t, push), other, name) == HeldBy(t, other, name)
    ensures PatchingOf(After(t, push), other) == PatchingOf(t, other)
    ensures Known(After(t, push), other) == Known(t, other)
  {
    PushView(t, push, other, name);
    PushPatching(t, push, other);
  }

  /** Beyond what a push prepares, it changes packages and their rows only. */
  lemma RecordedInPackagesOnly(t: Tables, push: Push)
    requires WellFormed(t) && Accepted(t, push)
    ensures var after, t' := After(t, push), Prepared(t, push);
            after.servers == t'.servers && after.patching == t'.patching
  {
    AfterIsPrepared(t, push);
    var t', server := Prepared(t, push), Place(t.servers, HostOf(push));
    PreparedView(t, push, "", "");
    FlagsClearedKeepsWellFormed(t', server);
    AllRecordedView(FlagsCleared(t', server), server, ChangesOf(push), 0, "");
  }

  /** The patching record after a push. */
  lemma PushPatching(t: Tables, push: Push, hostname: string)
    requires WellFormed(t)
    ensures Known(After(t, push), hostname) <==> Known(t, hostname) || (push.InventoryPush? && hostname == HostOf(push))
    ensures PatchingOf(After(t, push), hostname)
            == if hostname == HostOf(push) && Accepted(t, push)
               then Some(match push
                         case InventoryPush(p, _) => PatchingAfterInventory(PatchingOf(t, hostname), p)
                         case CompletionPush(p, now) => PatchingAfterCompletion(PatchingOf(t, hostname), p, now))
               else PatchingOf(t, hostname)
  {
    AfterIsPrepared(t, push);
    hide After;
    if Accepted(t, push) {
      RecordedInPackagesOnly(t, push);
      PreparedView(t, push, hostname, "");
      DistinctPlaces(t.servers, hostname, HostOf(push));
    }
  }

  /** A stored status agrees with the pending count unless the completion created the record without a count. */
  lemma CompletionStatusAgrees(t: Tables, push: Push)
    requires WellFormed(t) && push.CompletionPush? && Accepted(t, push)
    ensures var after := PatchingOf(After(t, push), HostOf(push));
            after.Some? &&
            ((after.value.status == "up-to-date" <==> after.value.pending == Some(0))
             <==> (push.completion.pending.Some? || PatchingOf(t, HostOf(push)).Some?))
  {
    PushPatching(t, push, HostOf(push));
  }

  function StatusOf(t: Tables, hostname: string): Option<string> {
    var s := FindServer(t.servers, hostname);
    if s.None? then None else Some(t.servers[s.value].status)
  }

  lemma ServerAfterStatus(servers: seq<Server>, hostname: string, status: Value, other: string)
    requires DistinctHosts(servers)
    ensures var after := ServerAfter(servers, hostname, status);
            var was, is_ := FindServer(servers, other), FindServer(after, other);
            && (other != hostname && was.Some? ==> is_.Some? && after[is_.value] == servers[was.value])
            && (other == hostname ==>
                  is_.Some? && after[is_.value].status
                  == if SafeStr(status) in VALID_STATUSES then SafeStr(status)
                     else if was.Some? then servers[was.value].status else "active")
  {
    ServerAfterFinds(servers, hostname, status, other);
  }

  /** Only an explicit valid status changes a known server's lifecycle status; a new server starts out active. */
  lemma PushStatus(t: Tables, push: Push, hostname: string)
    requires WellFormed(t)
    ensures StatusOf(After(t, push), hostname)
            == if hostname != HostOf(push) || push.CompletionPush? then StatusOf(t, hostname)
               else if SafeStr(push.inventory.status) in VALID_STATUSES then Some(SafeStr(push.inventory.status))
               else if Known(t, hostname) then StatusOf(t, hostname)
               else Some("active")
  {
    if Accepted(t, push) {
      RecordedInPackagesOnly(t, push);
      hide After, ServerAfter;
      if push.InventoryPush? {
        ServerAfterStatus(t.servers, HostOf(push), push.inventory.status, hostname);
      }
    }
  }

  /** What an inventory push does not carry stays as it was in an existing patching record. */
  lemma InventoryKeepsWhatIsNotGiven(t: Tables, push: Push)
    requires WellFormed(t) && push.InventoryPush? && PatchingOf(t, HostOf(push)).Some?
    ensures var before, after := PatchingOf(t, HostOf(push)).value, PatchingOf(After(t, push), HostOf(push));
            && after.Some?
            && (push.inventory.lastPatch.None? ==> after.value.lastPatch == before.lastPatch)
            && (push.inventory.lastReboot.None? ==> after.value.lastReboot == before.lastReboot)
            && (push.inventory.reboot.NotGiven? ==> after.value.rebootRequired == before.rebootRequired)
            && (push.inventory.patchStatus.Absent? && before.status != "" ==> after.value.status == before.status)
  {
    PushPatching(t, push, HostOf(push));
  }

  // ── Any sequence of pushes ────────────────────────────────────────────────

  /** The constraints hold after any sequence of pushes; in particular (server, package) rows stay unique. */
  lemma {:induction false} EveryRunIsWellFormed(t: Tables, pushes: seq<Push>)
    requires WellFormed(t)
    ensures WellFormed(AfterAll(t, pushes))
  {
    if pushes != [] {
      EveryRunIsWellFormed(t, pushes[..|pushes| - 1]);
      PushView(AfterAll(t, pushes[..|pushes| - 1]), pushes[|pushes| - 1], "", "");
    }
  }

  /** The last accepted push that says which updates a host has. */
  function LastFlagging(t: Tables, pushes: seq<Push>, hostname: string): (r: Option<Push>)
    ensures r.Some? ==> r.value in pushes && SetsFlags(r.value) && HostOf(r.value) == hostname
  {
    if pushes == [] then None
    else
      var rest, last := pushes[..|pushes| - 1], pushes[|pushes| - 1];
      if HostOf(last) == hostname && SetsFlags(last) && Accepted(AfterAll(t, rest), last) then Some(last)
      else LastFlagging(t, rest, hostname)
  }

  /** At any time a host's flags are exactly those its last inventory list or completion asked for. */
  lemma {:induction false} FlagsFollowTheLastPush(t: Tables, pushes: seq<Push>, hostname: string, name: string)
    requires WellFormed(t) && name != ""
    ensures Flagged(AfterAll(t, pushes), hostname, name)
            <==> match LastFlagging(t, pushes, hostname)
                 case None => Flagged(t, hostname, name)
                 case Some(push) => push.InventoryPush? && LastEntry(push.inventory.available.value, name).Some?
  {
    if pushes != [] {
      var rest, last := pushes[..|pushes| - 1], pushes[|pushes| - 1];
      var before := AfterAll(t, rest);
      FlagsFollowTheLastPush(t, rest, hostname, name);
      EveryRunIsWellFormed(t, rest);
      if HostOf(last) != hostname {
        OtherHostsUntouched(before, last, hostname, name);
      } else if last.InventoryPush? && SetsFlags(last) {
        ListIsExactlyFlagged(before, last, name);
      } else if last.CompletionPush? && Accepted(before, last) {
        CompletionLeavesNothingFlagged(before, last, name);
      } else {
        PushView(before, last, hostname, name);
      }
    }
  }

  function DateOf(t: Tables, hostname: string): Option<int> {
    var p := PatchingOf(t, hostname);
    if p.None? then None else p.value.lastPatch
  }

  /** The date a push sets: an inventory push only one it carries, a completion failing that the time of the push. */
  function DateIn(push: Push): Option<int> {
    match push
    case InventoryPush(p, _) => p.lastPatch
    case CompletionPush(p, now) => Some(if p.lastPatch.Some? then p.lastPatch.value else now)
  }

  /** The date set by the last accepted push for a host that sets one. */
  function LastDate(t: Tables, pushes: seq<Push>, hostname: string): Option<int> {
    if pushes == [] then None
    else
      var rest, last := pushes[..|pushes| - 1], pushes[|pushes| - 1];
      if HostOf(last) == hostname && Accepted(AfterAll(t, rest), last) && DateIn(last).Some? then DateIn(last)
      else LastDate(t, rest, hostname)
  }

  /** The patch date is always that of the last dated push, so pushes without a date never change it. */
  lemma {:induction false} DateFollowsTheLastDatedPush(t: Tables, pushes: seq<Push>, hostname: string)
    requires WellFormed(t)
    ensures DateOf(AfterAll(t, pushes), hostname)
            == if LastDate(t, pushes, hostname).Some? then LastDate(t, pushes, hostname) else DateOf(t, hostname)
  {
    if pushes != [] {
      var rest, last := pushes[..|pushes| - 1], pushes[|pushes| - 1];
      DateFollowsTheLastDatedPush(t, rest, hostname);
      EveryRunIsWellFormed(t, rest);
      PushPatching(AfterAll(t, rest), last, hostname);
    }
  }
}
