/** What a push stores, field by field, from the values in its payload and what the tables held before. */
module PushApiFields {
  import opened Options
  import opened PushApi
  import opened PushApiLaws
  import PyText

  // ── Texts ─────────────────────────────────────────────────────────────────

  /** The stored text of a payload value: stripped and cut to a length, or empty if it is no text. */
  predicate Stores(stored: string, v: Value, maxLen: nat) {
    && (!v.Text? ==> stored == "")
    && (v.Text? ==>
          && stored <= PyText.Strip(v.text)
          && (stored == PyText.Strip(v.text) || (|stored| == maxLen < |PyText.Strip(v.text)|)))
    && |stored| <= maxLen
  }

  lemma CutTextIsStored(v: Value, maxLen: nat)
    ensures Stores(SafeStrUpTo(v, maxLen), v, maxLen)
  {
  }

  /** The entry is a dictionary with a name that is this one once stripped. */
  predicate NamesPackage(e: Entry, name: string) {
    e.Entry? && e.name.Text? && PyText.Strip(e.name.text) == name
  }

  // ── Package rows ──────────────────────────────────────────────────────────

  lemma {:induction false} LastEntryIsLast(entries: seq<Entry>, name: string, k: nat)
    requires name != "" && k < |entries| && NamesPackage(entries[k], name)
    requires forall j :: k < j < |entries| ==> !NamesPackage(entries[j], name)
    ensures LastEntry(entries, name) == Some(entries[k])
  {
    if k < |entries| - 1 {
      var n := |entries| - 1;
      assert !NamesPackage(entries[n], name);
      LastEntryIsLast(entries[..n], name, k);
    }
  }

  lemma {:induction false} NoEntryNames(entries: seq<Entry>, name: string)
    requires name != "" && forall j :: 0 <= j < |entries| ==> !NamesPackage(entries[j], name)
    ensures LastEntry(entries, name) == None
  {
    if entries != [] {
      assert !NamesPackage(entries[|entries| - 1], name);
      NoEntryNames(entries[..|entries| - 1], name);
    }
  }

  /** A listed package is flagged, with the fields of the last entry that names it, over its installed version. */
  lemma ListedPackageIsStored(t: Tables, push: Push, name: string, k: nat)
    requires WellFormed(t) && push.InventoryPush? && push.inventory.available.Some? && name != ""
    requires var entries := push.inventory.available.value;
             && k < |entries| && NamesPackage(entries[k], name)
             && forall j :: k < j < |entries| ==> !NamesPackage(entries[j], name)
    ensures var e, before := push.inventory.available.value[k], HeldBy(t, HostOf(push), name);
            var after := HeldBy(After(t, push), HostOf(push), name);
            && after.Some? && after.value.updateAvailable && after.value.collectedAt == push.now
            && after.value.version == (if before.Some? then before.value.version else "")
            && Stores(after.value.availableVersion, e.availableVersion, 100)
            && Stores(after.value.updateType, e.updateType, 50)
            && Stores(after.value.repository, e.repository, 150)
  {
    var entries, e := push.inventory.available.value, push.inventory.available.value[k];
    ListIsExactlyFlagged(t, push, name);
    LastEntryIsLast(entries, name, k);
    CutTextIsStored(e.availableVersion, 100);
    CutTextIsStored(e.updateType, 50);
    CutTextIsStored(e.repository, 150);
    hide After, HeldBy, LastEntry, NamesPackage, Stores, SafeStrUpTo, WellFormed;
  }

  /** Only the flag and the available version of a package can go, and only if it was flagged. */
  predicate Unflagged(before: Option<Held>, after: Option<Held>) {
    && (after.Some? <==> before.Some?)
    && (before.Some? ==>
          && !after.value.updateAvailable
          && after.value.availableVersion
             == (if before.value.updateAvailable then "" else before.value.availableVersion)
          && after.value.version == before.value.version && after.value.updateType == before.value.updateType
          && after.value.repository == before.value.repository && after.value.collectedAt == before.value.collectedAt)
  }

  /** A package that the list does not name loses its flag and keeps everything else. */
  lemma UnlistedPackageIsUnflagged(t: Tables, push: Push, name: string)
    requires WellFormed(t) && push.InventoryPush? && push.inventory.available.Some? && name != ""
    requires forall j :: 0 <= j < |push.inventory.available.value| ==>
               !NamesPackage(push.inventory.available.value[j], name)
    ensures Unflagged(HeldBy(t, HostOf(push), name), HeldBy(After(t, push), HostOf(push), name))
  {
    ListIsExactlyFlagged(t, push, name);
    NoEntryNames(push.inventory.available.value, name);
    hide After, HeldBy, LastEntry, NamesPackage, WellFormed;
  }

  /** An inventory push without a list touches no package. */
  lemma WithoutListNothingChanges(t: Tables, push: Push, hostname: string, name: string)
    requires WellFormed(t) && push.InventoryPush? && push.inventory.available.None?
    ensures HeldBy(After(t, push), hostname, name) == HeldBy(t, hostname, name)
  {
    PushView(t, push, hostname, name);
  }

  /** An installed package is stored unflagged, with the fields of the last entry that names it and the patch date. */
  lemma InstalledPackageIsStored(t: Tables, push: Push, name: string, k: nat)
    requires WellFormed(t) && push.CompletionPush? && Accepted(t, push) && push.completion.installed.Some? && name != ""
    requires var entries := push.completion.installed.value;
             && k < |entries| && NamesPackage(entries[k], name)
             && forall j :: k < j < |entries| ==> !NamesPackage(entries[j], name)
    ensures var e, after := push.completion.installed.value[k], HeldBy(After(t, push), HostOf(push), name);
            && after.Some? && !after.value.updateAvailable && after.value.availableVersion == ""
            && after.value.collectedAt
               == (if push.completion.lastPatch.Some? then push.completion.lastPatch.value else push.now)
            && Stores(after.value.version, e.version, 100)
            && Stores(after.value.updateType, e.action, 50)
            && Stores(after.value.repository, e.repository, 150)
  {
    var entries, e := push.completion.installed.value, push.completion.installed.value[k];
    LastEntryIsLast(entries, name, k);
    CompletionRecordsInstalls(t, push, name);
    CutTextIsStored(e.version, 100);
    CutTextIsStored(e.action, 50);
    CutTextIsStored(e.repository, 150);
    hide After, HeldBy, LastEntry, NamesPackage, Stores, SafeStrUpTo, WellFormed;
  }

  /** A completion takes the flag of every package it did not install, and nothing else. */
  lemma OtherPackageIsUnflagged(t: Tables, push: Push, name: string)
    requires WellFormed(t) && push.CompletionPush? && Accepted(t, push) && name != ""
    requires push.completion.installed.Some? ==>
               forall j :: 0 <= j < |push.completion.installed.value| ==>
                 !NamesPackage(push.completion.installed.value[j], name)
    ensures Unflagged(HeldBy(t, HostOf(push), name), HeldBy(After(t, push), HostOf(push), name))
  {
    var p := push.completion;
    var at := if p.lastPatch.Some? then p.lastPatch.value else push.now;
    var entries := if p.installed.Some? then p.installed.value else [];
    PushView(t, push, HostOf(push), name);
    NoEntryNames(entries, name);
    assert ChangesOf(push) == Changes(entries, false, at);
    LastChangeIsLastEntry(entries, false, at, name);
    LastChangeWins(ClearedIf(HeldBy(t, HostOf(push), name), true), Changes(entries, false, at), name);
    hide After, HeldBy, LastEntry, NamesPackage, WellFormed, Changes, Folded, LastNamed, HostOf, Accepted;
  }

  // ── The patching record ───────────────────────────────────────────────────

  /** A date or flag that is given is stored, one that is not stays, or is unset in a new record. */
  function GivenOr<T>(given: Option<T>, before: Option<T>): Option<T> {
    if given.Some? then given else before
  }

  function RebootOr(reboot: Reboot, before: Option<bool>): Option<bool> {
    match reboot case NotGiven => before case Given(v) => v
  }

  /** The patching record after an inventory push, value by value. */
  lemma InventoryPatchingFields(t: Tables, push: Push)
    requires WellFormed(t) && push.InventoryPush?
    ensures var p, h := push.inventory, HostOf(push);
            var before, after := PatchingOf(t, h), PatchingOf(After(t, push), h);
            && after.Some?
            && after.value.pending == Some(if p.pending.Some? then p.pending.value else 0)
            && after.value.lastPatch
               == GivenOr(p.lastPatch, if before.Some? then before.value.lastPatch else None)
            && after.value.lastReboot
               == GivenOr(p.lastReboot, if before.Some? then before.value.lastReboot else None)
            && after.value.rebootRequired
               == RebootOr(p.reboot, if before.Some? then before.value.rebootRequired else None)
            && after.value.status
               == (if p.patchStatus.Text?
                      && PyText.Strip(p.patchStatus.text) in {"up-to-date", "pending", "failed", "unknown"}
                   then PyText.Strip(p.patchStatus.text)
                   else if before.Some? && before.value.status != "" then before.value.status
                   else "unknown")
  {
    PushPatching(t, push, HostOf(push));
    var text := SafeStr(push.inventory.patchStatus);
    PatchStatuses(text);
    hide After, PatchingOf, WellFormed, HostOf;
  }

  lemma PatchStatuses(text: string)
    ensures text in VALID_PATCH_STATUSES <==> text in {"up-to-date", "pending", "failed", "unknown"}
    ensures "" !in VALID_PATCH_STATUSES
  {
    var v := VALID_PATCH_STATUSES;
    assert v[0] == "up-to-date" && v[1] == "pending" && v[2] == "failed" && v[3] == "unknown" && |v| == 4;
  }

  lemma ServerStatuses(text: string)
    ensures text in VALID_STATUSES <==> text in {"active", "inactive", "maintenance", "decommissioned"}
    ensures "" !in VALID_STATUSES
  {
    var v := VALID_STATUSES;
    assert v[0] == "active" && v[1] == "inactive" && v[2] == "maintenance" && v[3] == "decommissioned" && |v| == 4;
  }

  /** The patching record after a completion, value by value. */
  lemma CompletionPatchingFields(t: Tables, push: Push)
    requires WellFormed(t) && push.CompletionPush? && Accepted(t, push)
    ensures var p, h := push.completion, HostOf(push);
            var before, after := PatchingOf(t, h), PatchingOf(After(t, push), h);
            var pending := GivenOr(p.pending, if before.Some? then before.value.pending else None);
            && after.Some?
            && after.value.lastPatch == Some(if p.lastPatch.Some? then p.lastPatch.value else push.now)
            && after.value.lastReboot == (if before.Some? then before.value.lastReboot else None)
            && after.value.rebootRequired
               == RebootOr(p.reboot, if before.Some? then before.value.rebootRequired else None)
            && after.value.pending == (if before.None? then GivenOr(pending, Some(0)) else pending)
            && after.value.status == (if pending == Some(0) then "up-to-date" else "pending")
  {
    PushPatching(t, push, HostOf(push));
    hide After, PatchingOf, WellFormed, HostOf;
  }

  /** The lifecycle status after an inventory push. */
  lemma InventoryStatus(t: Tables, push: Push)
    requires WellFormed(t) && push.InventoryPush?
    ensures var v, before := push.inventory.status, StatusOf(t, HostOf(push));
            StatusOf(After(t, push), HostOf(push))
            == Some(if v.Text? && PyText.Strip(v.text) in {"active", "inactive", "maintenance", "decommissioned"}
                    then PyText.Strip(v.text)
                    else if before.Some? then before.value else "active")
  {
    PushStatus(t, push, HostOf(push));
    ServerStatuses(SafeStr(push.inventory.status));
    hide After, WellFormed, HostOf;
  }

  // ── The catalogue ─────────────────────────────────────────────────────────

  /** Every change a list asks for comes from one of its entries. */
  lemma {:induction false} ChangesNameEntries(entries: seq<Entry>, available: bool, at: int, c: Change)
    requires c in Changes(entries, available, at)
    ensures c.name != "" && exists k :: 0 <= k < |entries| && NamesPackage(entries[k], c.name)
  {
    var n := |entries| - 1;
    var last := if available then UpdateOf(entries[n], at) else InstallOf(entries[n], at);
    if last == Some(c) {
      assert NamesPackage(entries[n], c.name);
    } else {
      ChangesNameEntries(entries[..n], available, at, c);
      var k :| 0 <= k < n && NamesPackage(entries[..n][k], c.name);
      assert entries[k] == entries[..n][k];
    }
  }

  lemma {:induction false} RecordedNames(t: Tables, server: nat, changes: seq<Change>)
    ensures t.packages <= AllRecorded(t, server, changes).packages
    ensures forall n :: n in AllRecorded(t, server, changes).packages ==>
              n in t.packages || exists c :: c in changes && c.name == n
  {
    if changes != [] {
      var n := |changes| - 1;
      RecordedNames(t, server, changes[..n]);
      RecordedName(AllRecorded(t, server, changes[..n]), server, changes[n]);
      hide Recorded;
      forall name | name in AllRecorded(t, server, changes).packages && name !in t.packages
        ensures exists c :: c in changes && c.name == name
      {
        if name == changes[n].name {
          assert changes[n] in changes;
        } else {
          var c :| c in changes[..n] && c.name == name;
          assert c in changes;
        }
      }
    }
  }

  lemma RecordedName(t: Tables, server: nat, c: Change)
    ensures Recorded(t, server, c).packages
            == if FindPackage(t.packages, c.name).Some? then t.packages else t.packages + [c.name]
  {
  }

  /** A push keeps the ids of the packages and adds only names from its own list. */
  lemma OnlyListedNamesAreAdded(t: Tables, push: Push, name: string)
    requires name in After(t, push).packages && name !in t.packages
    ensures var listed := if push.InventoryPush? then push.inventory.available else push.completion.installed;
            listed.Some? && exists k :: 0 <= k < |listed.value| && NamesPackage(listed.value[k], name)
  {
    AfterIsPrepared(t, push);
    assert Accepted(t, push);
    var server := Place(t.servers, HostOf(push));
    RecordedNames(FlagsCleared(Prepared(t, push), server), server, ChangesOf(push));
    var c :| c in ChangesOf(push) && c.name == name;
    if push.InventoryPush? {
      ChangesNameEntries(push.inventory.available.value, true, push.now, c);
    } else {
      var p := push.completion;
      ChangesNameEntries(p.installed.value, false, if p.lastPatch.Some? then p.lastPatch.value else push.now, c);
    }
  }

  /** Package ids never change. */
  lemma PackagesKeepTheirIds(t: Tables, push: Push)
    ensures t.packages <= After(t, push).packages
  {
    AfterIsPrepared(t, push);
    if Accepted(t, push) {
      var server := Place(t.servers, HostOf(push));
      RecordedNames(FlagsCleared(Prepared(t, push), server), server, ChangesOf(push));
    }
  }
}
