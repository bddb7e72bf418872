/**
 The push endpoints: an inventory push that upserts a server with its patching record and its list of available
 updates, and a patch-completion push.  Both find or create (server, package) rows.

 Servers and packages are named by their position in their tables.  The empty string stands for NULL, and times are
 whole numbers.
 */
module PushApi {
  import opened Options
  import PyText

  /** A payload value where a string is expected. */
  datatype Value = Absent | NotText | Text(text: string)

  /** One element of a pushed package list. */
  datatype Entry =
    | NotADict
    | Entry(name: Value, version: Value, action: Value, availableVersion: Value, updateType: Value, repository: Value)

  /** What a row says about a package on a server. */
  datatype Held = Held(
    version: string, updateAvailable: bool, availableVersion: string, updateType: string, repository: string,
    collectedAt: int)

  datatype PackageRow = PackageRow(server: nat, package: nat, held: Held)

  datatype Server = Server(hostname: string, status: string)

  datatype Patching = Patching(
    status: string, lastPatch: Option<int>, lastReboot: Option<int>, pending: Option<int>, rebootRequired: Option<bool>)

  datatype Tables = Tables(
    servers: seq<Server>, packages: seq<string>, rows: seq<PackageRow>, patching: map<nat, Patching>)

  /** A validated inventory payload; the dates and numbers are `None` where they are missing or do not parse. */
  datatype Inventory = Inventory(
    hostname: string, status: Value, patchStatus: Value, lastPatch: Option<int>, lastReboot: Option<int>,
    pending: Option<int>, reboot: Reboot, available: Option<seq<Entry>>)

  /** Whether `reboot_required` is in the payload, and its value there. */
  datatype Reboot = NotGiven | Given(value: Option<bool>)

  datatype Completion = Completion(
    hostname: string, lastPatch: Option<int>, pending: Option<int>, reboot: Reboot, installed: Option<seq<Entry>>)

  const VALID_STATUSES := ["active", "inactive", "maintenance", "decommissioned"]
  const VALID_PATCH_STATUSES := ["up-to-date", "pending", "failed", "unknown"]

  function SafeStr(v: Value): string {
    if v.Text? then PyText.Strip(v.text) else ""
  }

  function SafeStrUpTo(v: Value, maxLen: nat): string {
    if |SafeStr(v)| > maxLen then SafeStr(v)[..maxLen] else SafeStr(v)
  }

  // ── Tables ────────────────────────────────────────────────────────────────

  function FindPackage(packages: seq<string>, name: string): (k: Option<nat>)
    ensures k.Some? ==> k.value < |packages| && packages[k.value] == name
    ensures k.None? ==> name !in packages
  {
    if packages == [] then None
    else
      var n := |packages| - 1;
      var k := FindPackage(packages[..n], name);
      if k.Some? then k else if packages[n] == name then Some(n) else None
  }

  function FindServer(servers: seq<Server>, hostname: string): (k: Option<nat>)
    ensures k.Some? ==> k.value < |servers| && servers[k.value].hostname == hostname
    ensures k.None? ==> forall i :: 0 <= i < |servers| ==> servers[i].hostname != hostname
  {
    if servers == [] then None
    else
      var n := |servers| - 1;
      var k := FindServer(servers[..n], hostname);
      if k.Some? then k else if servers[n].hostname == hostname then Some(n) else None
  }

  predicate IsRowOf(row: PackageRow, server: nat, package: nat) {
    row.server == server && row.package == package
  }

  function FindRow(rows: seq<PackageRow>, server: nat, package: nat): (k: Option<nat>)
    ensures k.Some? ==> k.value < |rows| && IsRowOf(rows[k.value], server, package)
    ensures k.None? ==> forall i :: 0 <= i < |rows| ==> !IsRowOf(rows[i], server, package)
  {
    if rows == [] then None
    else
      var n := |rows| - 1;
      var k := FindRow(rows[..n], server, package);
      if k.Some? then k else if IsRowOf(rows[n], server, package) then Some(n) else None
  }

  predicate DistinctHosts(servers: seq<Server>) {
    forall i, j :: 0 <= i < j < |servers| ==> servers[i].hostname != servers[j].hostname
  }

  predicate DistinctNames(packages: seq<string>) {
    forall i, j :: 0 <= i < j < |packages| ==> packages[i] != packages[j]
  }

  predicate UniqueRows(rows: seq<PackageRow>) {
    forall i, j :: 0 <= i < j < |rows| ==> !(rows[i].server == rows[j].server && rows[i].package == rows[j].package)
  }

  /** The unique constraints of the tables and the foreign keys to the servers and the packages. */
  predicate WellFormed(t: Tables) {
    && DistinctHosts(t.servers) && DistinctNames(t.packages) && UniqueRows(t.rows)
    && (forall i :: 0 <= i < |t.rows| ==> t.rows[i].server < |t.servers| && t.rows[i].package < |t.packages|)
    && (forall s :: s in t.patching ==> s < |t.servers|)
  }

  // ── One pushed package ────────────────────────────────────────────────────

  /** What an entry writes to its row; `version` is `None` when the installed version is left alone. */
  datatype Change = Change(
    name: string, version: Option<string>, updateAvailable: bool, availableVersion: string, updateType: string,
    repository: string, at: int)

  /** An available update; entries that are no dictionary or have no name are skipped. */
  function UpdateOf(e: Entry, at: int): Option<Change> {
    if e.NotADict? || SafeStr(e.name) == "" then None
    else Some(Change(SafeStr(e.name), None, true, SafeStrUpTo(e.availableVersion, 100), SafeStrUpTo(e.updateType, 50),
                     SafeStrUpTo(e.repository, 150), at))
  }

  /** An installed package: its update, if any, has been applied. */
  function InstallOf(e: Entry, at: int): Option<Change> {
    if e.NotADict? || SafeStr(e.name) == "" then None
    else Some(Change(SafeStr(e.name), Some(SafeStrUpTo(e.version, 100)), false, "", SafeStrUpTo(e.action, 50),
                     SafeStrUpTo(e.repository, 150), at))
  }

  const BLANK := Held("", false, "", "", "", 0)

  function Changed(h: Held, c: Change): Held {
    Held(if c.version.Some? then c.version.value else h.version, c.updateAvailable, c.availableVersion, c.updateType,
         c.repository, c.at)
  }

  /** Write the row of a server and package, or append it. */
  function Put(rows: seq<PackageRow>, row: PackageRow): seq<PackageRow> {
    var k := FindRow(rows, row.server, row.package);
    if k.Some? then rows[k.value := row] else rows + [row]
  }

  /** What the row of a server and package holds. */
  function HeldAt(rows: seq<PackageRow>, server: nat, package: nat): Option<Held> {
    var k := FindRow(rows, server, package);
    if k.Some? then Some(rows[k.value].held) else None
  }

  function ChangedFrom(h: Option<Held>, c: Change): Held {
    Changed(if h.Some? then h.value else BLANK, c)
  }

  /** Find or create the package and the row, then write the row. */
  function Recorded(t: Tables, server: nat, c: Change): Tables {
    var p := FindPackage(t.packages, c.name);
    var packages := if p.Some? then t.packages else t.packages + [c.name];
    var package := if p.Some? then p.value else |t.packages|;
    var held := ChangedFrom(HeldAt(t.rows, server, package), c);
    t.(packages := packages, rows := Put(t.rows, PackageRow(server, package, held)))
  }

  /** The changes an update list or an installed list asks for, in order. */
  function Changes(entries: seq<Entry>, available: bool, at: int): seq<Change> {
    if entries == [] then []
    else
      var n := |entries| - 1;
      var c := if available then UpdateOf(entries[n], at) else InstallOf(entries[n], at);
      if c.Some? then Changes(entries[..n], available, at) + [c.value] else Changes(entries[..n], available, at)
  }

  function AllRecorded(t: Tables, server: nat, changes: seq<Change>): Tables {
    if changes == [] then t
    else Recorded(AllRecorded(t, server, changes[..|changes| - 1]), server, changes[|changes| - 1])
  }

  function Cleared(h: Held): Held {
    if h.updateAvailable then h.(updateAvailable := false, availableVersion := "") else h
  }

  /** `UPDATE ... SET update_available = false ... WHERE server_id = server AND update_available`. */
  function FlagsCleared(t: Tables, server: nat): Tables {
    t.(rows := seq(|t.rows|, i requires 0 <= i < |t.rows| =>
      if t.rows[i].server == server then t.rows[i].(held := Cleared(t.rows[i].held)) else t.rows[i]))
  }

  // ── The two pushes ────────────────────────────────────────────────────────

  const NEW_PATCHING := Patching("", None, None, None, None)

  function PatchingAfterInventory(before: Option<Patching>, p: Inventory): Patching {
    var old_ := if before.Some? then before.value else NEW_PATCHING;
    Patching(
      if SafeStr(p.patchStatus) in VALID_PATCH_STATUSES then SafeStr(p.patchStatus)
      else if old_.status == "" then "unknown" else old_.status,
      if p.lastPatch.Some? then p.lastPatch else old_.lastPatch,
      if p.lastReboot.Some? then p.lastReboot else old_.lastReboot,
      Some(if p.pending.Some? then p.pending.value else 0),
      if p.reboot.Given? then p.reboot.value else old_.rebootRequired)
  }

  /** The status is computed before the insert fills in the column default 0 for the pending count. */
  function PatchingAfterCompletion(before: Option<Patching>, p: Completion, now: int): Patching {
    var old_ := if before.Some? then before.value else NEW_PATCHING;
    var pending := if p.pending.Some? then p.pending else old_.pending;
    Patching(
      if pending == Some(0) then "up-to-date" else "pending",
      Some(if p.lastPatch.Some? then p.lastPatch.value else now),
      old_.lastReboot,
      if before.None? && pending.None? then Some(0) else pending,
      if p.reboot.Given? then p.reboot.value else old_.rebootRequired)
  }

  /** The position a hostname has, or gets when it is appended. */
  function Place(servers: seq<Server>, hostname: string): (k: nat)
    ensures k <= |servers|
  {
    var found := FindServer(servers, hostname);
    if found.Some? then found.value else |servers|
  }

  /** An explicit valid status is stored; otherwise a new server is active and an old one keeps its status. */
  function ServerAfter(servers: seq<Server>, hostname: string, status: Value): seq<Server> {
    var k := Place(servers, hostname);
    var explicit := SafeStr(status);
    if k == |servers| then servers + [Server(hostname, if explicit in VALID_STATUSES then explicit else "active")]
    else if explicit in VALID_STATUSES then servers[k := servers[k].(status := explicit)]
    else servers
  }

  function AfterInventory(t: Tables, p: Inventory, now: int): Tables {
    var hostname := PyText.Strip(p.hostname);
    var server := Place(t.servers, hostname);
    var patching := PatchingAfterInventory(Get(t.patching, server), p);
    var t' := t.(servers := ServerAfter(t.servers, hostname, p.status), patching := t.patching[server := patching]);
    if p.available.None? then t'
    else AllRecorded(FlagsCleared(t', server), server, Changes(p.available.value, true, now))
  }

  function AfterCompletion(t: Tables, p: Completion, now: int): Tables {
    var found := FindServer(t.servers, PyText.Strip(p.hostname));
    if found.None? then t
    else
      var server := found.value;
      var patching := PatchingAfterCompletion(Get(t.patching, server), p, now);
      AllRecorded(FlagsCleared(t.(patching := t.patching[server := patching]), server), server,
                  if p.installed.Some? then Changes(p.installed.value, false, patching.lastPatch.value) else [])
  }

  datatype Push = InventoryPush(inventory: Inventory, now: int) | CompletionPush(completion: Completion, now: int)

  function After(t: Tables, push: Push): Tables {
    match push
    case InventoryPush(p, now) => AfterInventory(t, p, now)
    case CompletionPush(p, now) => AfterCompletion(t, p, now)
  }

  function AfterAll(t: Tables, pushes: seq<Push>): Tables {
    if pushes == [] then t else After(AfterAll(t, pushes[..|pushes| - 1]), pushes[|pushes| - 1])
  }

  datatype Action = Created | Updated

  /** Where the database fails during an inventory push, if it does: up to the search for the server, or later. */
  datatype Fault = NoFault | BeforeLookup | AfterLookup

  class PushQueries {
    var db: Tables

    constructor (db: Tables)
      ensures this.db == db
    {
      this.db := db;
    }

    /** `Package.query.filter_by(name=name).first()`. */
    method PackageNamed(name: string) returns (k: Option<nat>)
      ensures k == FindPackage(db.packages, name)
    {
      for i := 0 to |db.packages|
        invariant FindPackage(db.packages[..i], name).None?
      {
        assert db.packages[..i + 1][..i] == db.packages[..i];
        if db.packages[i] == name {
          FoundPackageStays(db.packages, i + 1, name);
          return Some(i);
        }
      }
      assert db.packages[..|db.packages|] == db.packages;
      return None;
    }

    /** `ServerPackage.query.filter_by(server_id=..., package_id=...).first()`. */
    method RowFor(server: nat, package: nat) returns (k: Option<nat>)
      ensures k == FindRow(db.rows, server, package)
    {
      for i := 0 to |db.rows|
        invariant FindRow(db.rows[..i], server, package).None?
      {
        assert db.rows[..i + 1][..i] == db.rows[..i];
        if IsRowOf(db.rows[i], server, package) {
          FoundRowStays(db.rows, i + 1, server, package);
          return Some(i);
        }
      }
      assert db.rows[..|db.rows|] == db.rows;
      return None;
    }

    /** `Server.query.filter_by(hostname=hostname).first()`. */
    method ServerNamed(hostname: string) returns (k: Option<nat>)
      ensures k == FindServer(db.servers, hostname)
    {
      for i := 0 to |db.servers|
        invariant FindServer(db.servers[..i], hostname).None?
      {
        assert db.servers[..i + 1][..i] == db.servers[..i];
        if db.servers[i].hostname == hostname {
          FoundServerStays(db.servers, i + 1, hostname);
          return Some(i);
        }
      }
      assert db.servers[..|db.servers|] == db.servers;
      return None;
    }

    method Record(server: nat, c: Change)
      modifies `db
      ensures db == Recorded(old(db), server, c)
    {
      var package := PackageNamed(c.name);
      if package.None? {
        package := Some(|db.packages|);
        db := db.(packages := db.packages + [c.name]);
      }
      var k := RowFor(server, package.value);
      if k.None? {
        k := Some(|db.rows|);
        db := db.(rows := db.rows + [PackageRow(server, package.value, BLANK)]);
      }
      var held := Changed(db.rows[k.value].held, c);
      db := db.(rows := db.rows[k.value := PackageRow(server, package.value, held)]);
    }

    method ClearFlags(server: nat)
      modifies `db
      ensures db == FlagsCleared(old(db), server)
    {
      db := FlagsCleared(db, server);
    }

    method UpsertAvailableUpdates(server: nat, entries: seq<Entry>, now: int)
      modifies `db
      ensures db == AllRecorded(FlagsCleared(old(db), server), server, Changes(entries, true, now))
    {
      ClearFlags(server);
      ghost var start := db;
      for i := 0 to |entries|
        invariant db == AllRecorded(start, server, Changes(entries[..i], true, now))
      {
        ChangesStep(entries, i, true, now);
        var c := UpdateOf(entries[i], now);
        if c.None? {
          continue;
        }
        AllRecordedStep(start, server, Changes(entries[..i], true, now), c.value);
        Record(server, c.value);
      }
      assert entries[..|entries|] == entries;
    }

    method RecordInstalledPackages(server: nat, entries: seq<Entry>, installedAt: int)
      modifies `db
      ensures db == AllRecorded(old(db), server, Changes(entries, false, installedAt))
    {
      for i := 0 to |entries|
        invariant db == AllRecorded(old(db), server, Changes(entries[..i], false, installedAt))
      {
        ChangesStep(entries, i, false, installedAt);
        var c := InstallOf(entries[i], installedAt);
        if c.None? {
          continue;
        }
        AllRecordedStep(old(db), server, Changes(entries[..i], false, installedAt), c.value);
        Record(server, c.value);
      }
      assert entries[..|entries|] == entries;
    }

    /** A patch completion; nothing changes for an unknown server, nor when the database fails and is rolled back. */
    method RecordPatchCompletion(p: Completion, now: int, fault: bool) returns (success: bool)
      modifies `db
      ensures db == if fault then old(db) else AfterCompletion(old(db), p, now)
      ensures success <==> FindServer(old(db).servers, PyText.Strip(p.hostname)).Some? && !fault
    {
      var committed := db;
      var found := ServerNamed(PyText.Strip(p.hostname));
      if found.None? {
        return false;
      }
      var server := found.value;
      var patching := if server in db.patching then db.patching[server] else NEW_PATCHING;
      var inserting := server !in db.patching;
      var patchDate := if p.lastPatch.Some? then p.lastPatch.value else now;
      patching := patching.(lastPatch := Some(patchDate));
      if p.pending.Some? {
        patching := patching.(pending := p.pending);
      }
      if p.reboot.Given? {
        patching := patching.(rebootRequired := p.reboot.value);
      }
      patching := patching.(status := if patching.pending == Some(0) then "up-to-date" else "pending");
      if inserting && patching.pending.None? {
        patching := patching.(pending := Some(0));
      }
      db := db.(patching := db.patching[server := patching]);
      ClearFlags(server);
      if p.installed.Some? && p.installed.value != [] {
        RecordInstalledPackages(server, p.installed.value, patchDate);
      }
      if fault {
        db := committed;
      }
      return !fault;
    }

    method UpsertServerRow(hostname: string, status: Value) returns (server: nat, action: Action)
      modifies `db
      ensures server == Place(old(db).servers, hostname) && server < |db.servers|
      ensures db == old(db).(servers := ServerAfter(old(db).servers, hostname, status))
      ensures action.Updated? <==> server < |old(db).servers|
    {
      var found := ServerNamed(hostname);
      if found.None? {
        action, server := Created, |db.servers|;
        db := db.(servers := db.servers + [Server(hostname, "")]);
      } else {
        action, server := Updated, found.value;
      }
      var explicit := SafeStr(status);
      if explicit in VALID_STATUSES {
        db := db.(servers := db.servers[server := db.servers[server].(status := explicit)]);
      } else if action.Created? {
        db := db.(servers := db.servers[server := db.servers[server].(status := "active")]);
      }
    }

    method UpsertPatching(server: nat, p: Inventory)
      modifies `db
      ensures var after := PatchingAfterInventory(Get(old(db).patching, server), p);
              db == old(db).(patching := old(db).patching[server := after])
    {
      var patching := if server in db.patching then db.patching[server] else NEW_PATCHING;
      var patchStatus := SafeStr(p.patchStatus);
      if patchStatus in VALID_PATCH_STATUSES {
        patching := patching.(status := patchStatus);
      } else if patching.status == "" {
        patching := patching.(status := "unknown");
      }
      if p.lastPatch.Some? {
        patching := patching.(lastPatch := p.lastPatch);
      }
      if p.lastReboot.Some? {
        patching := patching.(lastReboot := p.lastReboot);
      }
      patching := patching.(pending := Some(if p.pending.Some? then p.pending.value else 0));
      if p.reboot.Given? {
        patching := patching.(rebootRequired := p.reboot.value);
      }
      db := db.(patching := db.patching[server := patching]);
    }

    /**
     An inventory push; a database failure rolls everything back.  The reported action is "updated" until the host is
     found missing.
     */
    method UpsertServer(p: Inventory, now: int, fault: Fault) returns (success: bool, action: Action)
      modifies `db
      ensures success <==> fault == NoFault
      ensures db == if success then AfterInventory(old(db), p, now) else old(db)
      ensures action.Updated? <==>
                fault == BeforeLookup || FindServer(old(db).servers, PyText.Strip(p.hostname)).Some?
    {
      if fault == BeforeLookup {
        return false, Updated;
      }
      var server: nat, committed := 0, db;
      server, action := UpsertServerRow(PyText.Strip(p.hostname), p.status);
      UpsertPatching(server, p);
      if p.available.Some? {
        UpsertAvailableUpdates(server, p.available.value, now);
      }
      success := fault == NoFault;
      if !success {
        db := committed;
      }
    }
  }

  // ── Steps of the methods above ────────────────────────────────────────────

  lemma {:induction false} FoundPackageStays(packages: seq<string>, n: nat, name: string)
    requires n <= |packages| && FindPackage(packages[..n], name).Some?
    ensures FindPackage(packages, name) == FindPackage(packages[..n], name)
    decreases |packages|
  {
    if n == |packages| {
      assert packages[..n] == packages;
    } else {
      assert packages[..|packages| - 1][..n] == packages[..n];
      FoundPackageStays(packages[..|packages| - 1], n, name);
    }
  }

  lemma {:induction false} FoundServerStays(servers: seq<Server>, n: nat, hostname: string)
    requires n <= |servers| && FindServer(servers[..n], hostname).Some?
    ensures FindServer(servers, hostname) == FindServer(servers[..n], hostname)
    decreases |servers|
  {
    if n == |servers| {
      assert servers[..n] == servers;
    } else {
      assert servers[..|servers| - 1][..n] == servers[..n];
      FoundServerStays(servers[..|servers| - 1], n, hostname);
    }
  }

  lemma {:induction false} FoundRowStays(rows: seq<PackageRow>, n: nat, server: nat, package: nat)
    requires n <= |rows| && FindRow(rows[..n], server, package).Some?
    ensures FindRow(rows, server, package) == FindRow(rows[..n], server, package)
    decreases |rows|
  {
    if n == |rows| {
      assert rows[..n] == rows;
    } else {
      assert rows[..|rows| - 1][..n] == rows[..n];
      FoundRowStays(rows[..|rows| - 1], n, server, package);
    }
  }

  lemma ChangesStep(entries: seq<Entry>, i: nat, available: bool, at: int)
    requires i < |entries|
    ensures var c := if available then UpdateOf(entries[i], at) else InstallOf(entries[i], at);
            var before := Changes(entries[..i], available, at);
            Changes(entries[..i + 1], available, at) == if c.Some? then before + [c.value] else before
  {
    assert entries[..i + 1][..i] == entries[..i];
  }

  lemma AllRecordedStep(t: Tables, server: nat, changes: seq<Change>, c: Change)
    ensures AllRecorded(t, server, changes + [c]) == Recorded(AllRecorded(t, server, changes), server, c)
  {
    assert (changes + [c])[..|changes|] == changes;
  }
}
