/**
 The refresh loop of the mockup preview plugin: requests that arrive during a scan are coalesced into one follow-up
 scan.  Atomic steps are the synchronous stretches between `await`s.

 The component tree changes over time; a tree is represented by the module source generated from it, which is never
 empty.  A scan sees one of the trees that existed while it was running.
 */
module PreviewRefresh {

  datatype Event =
    | Change(source: string)     // files are added or removed
    | Request                    // refresh() is called
    | Done(seen: nat)            // the running scan resolves with what tree number `seen` generates
    | ScanFailed                 // the running scan rejects
    | WriteFailed(seen: nat)     // the scan resolves but the module cannot be written

  datatype State = State(
    trees: seq<string>, inFlight: bool, queued: bool, current: string, file: string,
    begun: nat,          // the tree at the beginning of the running or last scan
    requested: nat,      // the tree at the last request
    started: nat, finished: nat,
    seen: nat,           // the tree the last resolved scan saw
    lastFailed: bool,    // the last scan to finish failed
    asked: bool)         // a request came since the last scan began

  function Init(tree: string, file: string): State {
    State([tree], false, false, "", file, 0, 0, 0, 0, 0, true, false)
  }

  function Now(s: State): nat
    requires s.trees != []
  {
    |s.trees| - 1
  }

  predicate Enabled(s: State, e: Event) {
    && s.trees != []
    && match e
       case Change(source) => source != ""
       case Request => true
       case Done(seen) => s.inFlight && s.begun <= seen < |s.trees|
       case ScanFailed => s.inFlight
       case WriteFailed(seen) => s.inFlight && s.begun <= seen < |s.trees| && s.trees[seen] != s.current
  }

  /** A scan sees one of the trees since it began; its write can fail exactly if it has one to do. */
  lemma PossibleResults(s: State, seen: nat)
    requires s.trees != []
    ensures Enabled(s, Done(seen)) <==> s.inFlight && s.begun <= seen <= Now(s)
    ensures Enabled(s, WriteFailed(seen))
            <==> Enabled(s, Done(seen)) && Step(s, Done(seen)).current != s.current
  {
  }

  function BeginScan(s: State): State
    requires s.trees != []
  {
    s.(inFlight := true, begun := Now(s), started := s.started + 1, asked := false)
  }

  /** The running scan resolved: a source other than the remembered one is remembered and written. */
  function Scanned(s: State, seen: nat): State
    requires seen < |s.trees|
  {
    s.(inFlight := false, current := s.trees[seen],
       file := if s.trees[seen] != s.current then s.trees[seen] else s.file,
       finished := s.finished + 1, seen := seen, lastFailed := false)
  }

  /** After a scan that did not fail, a queued request starts the next one at once. */
  function FollowUp(s: State): State
    requires s.trees != []
  {
    if s.queued then BeginScan(s.(queued := false)) else s
  }

  function Step(s: State, e: Event): State
    requires Enabled(s, e)
  {
    match e
    case Change(source) => s.(trees := s.trees + [source])
    case Request => (if s.inFlight then s.(queued := true, asked := true) else BeginScan(s)).(requested := Now(s))
    case Done(seen) => FollowUp(Scanned(s, seen))
    case ScanFailed => s.(inFlight := false, finished := s.finished + 1, lastFailed := true)
    case WriteFailed(seen) =>
      s.(inFlight := false, current := s.trees[seen], finished := s.finished + 1, seen := seen, lastFailed := true)
  }

  predicate Run(s: State, events: seq<Event>)
    decreases |events|, 0
  {
    events == [] || (Run(s, events[..|events| - 1]) && Enabled(After(s, events[..|events| - 1]), events[|events| - 1]))
  }

  function After(s: State, events: seq<Event>): State
    requires Run(s, events)
    decreases |events|, 1
  {
    if events == [] then s else Step(After(s, events[..|events| - 1]), events[|events| - 1])
  }

  // ── The plugin ────────────────────────────────────────────────────────────

  class Plugin {
    var refreshInFlight: bool
    var refreshQueued: bool
    var currentSource: string
    var file: string
    ghost var trees: seq<string>
    ghost var begun: nat
    ghost var requested: nat
    ghost var started: nat
    ghost var finished: nat
    ghost var seen: nat
    ghost var lastFailed: bool
    ghost var asked: bool

    ghost function Abs(): State
      reads this
    {
      State(
        trees, refreshInFlight, refreshQueued, currentSource, file, begun, requested, started, finished, seen,
        lastFailed, asked)
    }

    constructor (ghost tree: string, file: string)
      ensures Abs() == Init(tree, file)
    {
      refreshInFlight, refreshQueued, currentSource, this.file := false, false, "", file;
      trees, begun, requested, started, finished, seen, lastFailed, asked := [tree], 0, 0, 0, 0, 0, true, false;
    }

    /** Begin a scan: what `refresh` does before its `await` when none is in flight. */
    method StartScan()
      requires trees != []
      modifies this
      ensures Abs() == BeginScan(old(Abs()))
    {
      refreshInFlight := true;
      begun, started, asked := |trees| - 1, started + 1, false;
    }

    /** The part of `refresh` before its `await`; true if a scan was started. */
    method Refresh() returns (scanning: bool)
      requires trees != []
      modifies this
      ensures Abs() == Step(old(Abs()), Request)
      ensures scanning <==> !old(refreshInFlight)
    {
      requested := |trees| - 1;
      if refreshInFlight {
        refreshQueued, asked := true, true;
        return false;
      }
      StartScan();
      return true;
    }

    /** The synchronous part after the `await` when the scan resolved, up to the end of its `finally`. */
    method Remember(newSource: string, ghost at: nat)
      requires Enabled(Abs(), Done(at)) && newSource == trees[at]
      modifies this
      ensures Abs() == Scanned(old(Abs()), at)
    {
      if newSource != currentSource {
        currentSource := newSource;
        file := currentSource;
      }
      refreshInFlight := false;
      finished, seen, lastFailed := finished + 1, at, false;
    }

    /** The part after the `await` when the scan resolved. */
    method Resolved(newSource: string, ghost at: nat)
      requires Enabled(Abs(), Done(at)) && newSource == trees[at]
      modifies this
      ensures Abs() == Step(old(Abs()), Done(at))
    {
      Remember(newSource, at);
      if refreshQueued {
        refreshQueued := false;
        StartScan();
      }
    }

    /** The `finally` part when the scan rejected. */
    method Rejected()
      requires Enabled(Abs(), ScanFailed)
      modifies this
      ensures Abs() == Step(old(Abs()), ScanFailed)
    {
      refreshInFlight := false;
      finished, lastFailed := finished + 1, true;
    }

    /** The new source is remembered before the write that fails. */
    method WriteRejected(newSource: string, ghost at: nat)
      requires Enabled(Abs(), WriteFailed(at)) && newSource == trees[at]
      modifies this
      ensures Abs() == Step(old(Abs()), WriteFailed(at))
    {
      currentSource := newSource;
      refreshInFlight := false;
      finished, seen, lastFailed := finished + 1, at, true;
    }
  }

  // ── What every run keeps ──────────────────────────────────────────────────

  predicate NoWriteFails(events: seq<Event>) {
    forall e :: e in events ==> !e.WriteFailed?
  }

  predicate NothingFails(events: seq<Event>) {
    forall e :: e in events ==> !e.WriteFailed? && !e.ScanFailed?
  }

  predicate Inv(s: State) {
    && s.trees != [] && (forall i :: 0 <= i < |s.trees| ==> s.trees[i] != "")
    && s.requested < |s.trees| && s.begun < |s.trees| && s.seen < |s.trees|
    // What is remembered is what the last resolved scan saw.
    && (s.current != "" ==> s.current == s.trees[s.seen])
    // One scan at most is running.
    && s.started == s.finished + (if s.inFlight then 1 else 0)
    // A request that nobody has queued is covered by the running scan.
    && (s.inFlight && !s.queued ==> s.begun >= s.requested)
    // Once a scan has succeeded and nothing is running, nothing is queued and every request is covered.
    && (!s.inFlight && !s.lastFailed ==> !s.queued && s.seen >= s.requested)
  }

  /** Without a failed write the file is what is remembered. */
  predicate InStep(s: State) {
    s.current != "" ==> s.file == s.current
  }

  /** What holds as long as nothing fails. */
  predicate Unfailing(s: State) {
    (!s.inFlight ==> !s.queued) && (!s.inFlight && s.started > 0 ==> !s.lastFailed)
  }

  lemma StepKeepsInv(s: State, e: Event)
    requires Inv(s) && Enabled(s, e)
    ensures Inv(Step(s, e))
  {
  }

  lemma StepKeepsInStep(s: State, e: Event)
    requires Inv(s) && InStep(s) && Enabled(s, e) && !e.WriteFailed?
    ensures InStep(Step(s, e))
  {
  }

  lemma {:induction false} RunKeepsInv(tree: string, file: string, events: seq<Event>)
    requires tree != "" && Run(Init(tree, file), events)
    ensures Inv(After(Init(tree, file), events))
    ensures NoWriteFails(events) ==> InStep(After(Init(tree, file), events))
    ensures NothingFails(events) ==> Unfailing(After(Init(tree, file), events))
    ensures !After(Init(tree, file), events).lastFailed ==> After(Init(tree, file), events).current != ""
  {
    if events != [] {
      var n := |events| - 1;
      RunKeepsInv(tree, file, events[..n]);
      assert events == events[..n] + [events[n]];
      var s := After(Init(tree, file), events[..n]);
      StepKeepsInv(s, events[n]);
      if NoWriteFails(events) {
        StepKeepsInStep(s, events[n]);
      }
    }
  }

  /** At most one scan is in flight, in every run. */
  lemma OneScanAtATime(tree: string, file: string, events: seq<Event>)
    requires tree != "" && Run(Init(tree, file), events)
    ensures var s := After(Init(tree, file), events); s.finished <= s.started <= s.finished + 1
  {
    RunKeepsInv(tree, file, events);
  }

  /**
   Whenever nothing is running and the last scan succeeded, the module is generated from a tree no older than the last
   request, if no write ever failed.
   */
  lemma QuietFileIsFresh(tree: string, file: string, events: seq<Event>)
    requires tree != "" && Run(Init(tree, file), events) && NoWriteFails(events)
    ensures var s := After(Init(tree, file), events);
            !s.inFlight && !s.lastFailed ==> s.requested <= s.seen < |s.trees| && s.file == s.trees[s.seen]
  {
    RunKeepsInv(tree, file, events);
  }

  /**
   With no failing scan or write, once nothing is running the module on disk is the one of the present tree, provided
   the last change was followed by a request.
   */
  lemma QuietFileIsUpToDate(tree: string, file: string, events: seq<Event>)
    requires tree != "" && Run(Init(tree, file), events) && NothingFails(events)
    ensures var s := After(Init(tree, file), events);
            !s.inFlight && s.started > 0 && s.requested == Now(s) ==> s.file == s.trees[Now(s)] && !s.queued
  {
    RunKeepsInv(tree, file, events);
  }

  // ── How many scans ────────────────────────────────────────────────────────

  function Requests(events: seq<Event>): nat {
    if events == [] then 0
    else Requests(events[..|events| - 1]) + (if events[|events| - 1].Request? then 1 else 0)
  }

  /** The scans still to finish if no further request comes and nothing fails. */
  function Pending(s: State): nat {
    if !s.inFlight then 0 else if s.queued then 2 else 1
  }

  /** Every scan is asked for: there are never more scans, the queued one included, than requests. */
  lemma {:induction false} ScansAreAskedFor(tree: string, file: string, events: seq<Event>)
    requires tree != "" && Run(Init(tree, file), events)
    ensures var s := After(Init(tree, file), events);
            s.started + (if s.queued then 1 else 0) <= Requests(events)
  {
    if events != [] {
      ScansAreAskedFor(tree, file, events[..|events| - 1]);
    }
  }

  /**
   Without further requests at most the pending scans finish, two in all, and exactly those if nothing fails until
   nothing is running.
   */
  lemma {:induction false} PendingScansFinish(s: State, later: seq<Event>)
    requires Run(s, later) && Requests(later) == 0
    ensures After(s, later).finished + Pending(After(s, later)) <= s.finished + Pending(s)
    ensures NothingFails(later) ==> After(s, later).finished + Pending(After(s, later)) == s.finished + Pending(s)
  {
    if later != [] {
      var n := |later| - 1;
      assert later == later[..n] + [later[n]];
      PendingScansFinish(s, later[..n]);
    }
  }

  // ── What failures do ──────────────────────────────────────────────────────

  /** The event begins a scan. */
  predicate Begins(s: State, e: Event) {
    (e.Request? && !s.inFlight) || (e.Done? && s.queued)
  }

  /** No scan begins at event i or later. */
  ghost predicate NoScanFrom(s: State, events: seq<Event>, i: nat)
    requires Run(s, events)
  {
    forall j :: i <= j < |events| ==> Run(s, events[..j]) && !Begins(After(s, events[..j]), events[j])
  }

  /** Some request was followed by no scan. */
  ghost predicate Unserved(s: State, events: seq<Event>)
    requires Run(s, events)
  {
    exists i :: 0 <= i < |events| && events[i].Request? && NoScanFrom(s, events, i)
  }

  /** A scan that begins serves every request so far. */
  lemma BeginningServesAll(s: State, events: seq<Event>)
    requires Run(s, events) && events != [] && Begins(After(s, events[..|events| - 1]), events[|events| - 1])
    ensures !Unserved(s, events)
  {
  }

  lemma StillUnserved(s: State, events: seq<Event>)
    requires Run(s, events) && events != [] && !Begins(After(s, events[..|events| - 1]), events[|events| - 1])
    requires events[|events| - 1].Request? || Unserved(s, events[..|events| - 1])
    ensures Unserved(s, events)
  {
    hide Step, Enabled, Begins;
    var n := |events| - 1;
    if events[n].Request? {
      assert NoScanFrom(s, events, n);
    } else {
      var i :| 0 <= i < n && events[..n][i].Request? && NoScanFrom(s, events[..n], i);
      NoScanLonger(s, events, i);
    }
  }

  lemma UnservedBefore(s: State, events: seq<Event>)
    requires Run(s, events) && events != [] && Unserved(s, events) && !events[|events| - 1].Request?
    ensures Unserved(s, events[..|events| - 1])
  {
    hide Step, Enabled, Begins;
    var n := |events| - 1;
    var i :| 0 <= i < |events| && events[i].Request? && NoScanFrom(s, events, i);
    NoScanShorter(s, events, i);
    assert events[..n][i] == events[i];
  }

  lemma UnservedStep(s: State, events: seq<Event>)
    requires Run(s, events) && events != []
    ensures var n := |events| - 1;
            Unserved(s, events) <==>
              !Begins(After(s, events[..n]), events[n]) && (events[n].Request? || Unserved(s, events[..n]))
  {
    hide Step, Enabled, Begins, Unserved;
    var n := |events| - 1;
    if Begins(After(s, events[..n]), events[n]) {
      BeginningServesAll(s, events);
    } else if events[n].Request? || Unserved(s, events[..n]) {
      StillUnserved(s, events);
    } else if Unserved(s, events) {
      UnservedBefore(s, events);
    }
  }

  lemma NoScanLonger(s: State, events: seq<Event>, i: nat)
    requires events != [] && i < |events| - 1 && Run(s, events)
    requires NoScanFrom(s, events[..|events| - 1], i)
    requires !Begins(After(s, events[..|events| - 1]), events[|events| - 1])
    ensures NoScanFrom(s, events, i)
  {
    hide Step, Enabled, Begins;
    var n := |events| - 1;
    forall j | i <= j < |events| ensures Run(s, events[..j]) && !Begins(After(s, events[..j]), events[j]) {
      if j < n {
        assert events[..n][..j] == events[..j] && events[..n][j] == events[j];
      }
    }
  }

  lemma NoScanShorter(s: State, events: seq<Event>, i: nat)
    requires events != [] && i < |events| - 1 && Run(s, events) && NoScanFrom(s, events, i)
    ensures NoScanFrom(s, events[..|events| - 1], i)
  {
    hide Step, Enabled, Begins;
    var n := |events| - 1;
    forall j | i <= j < n
      ensures Run(s, events[..n][..j]) && !Begins(After(s, events[..n][..j]), events[..n][j])
    {
      assert events[..n][..j] == events[..j] && events[..n][j] == events[j];
    }
  }

  /** Requests are waiting for a scan exactly if one came since the last scan began; then it is marked. */
  lemma {:induction false} AskedMeansUnserved(tree: string, file: string, events: seq<Event>)
    requires tree != "" && Run(Init(tree, file), events)
    ensures var s := After(Init(tree, file), events);
            && (Unserved(Init(tree, file), events) <==> s.asked)
            && (s.asked ==> s.queued && (s.inFlight || s.lastFailed))
  {
    if events != [] {
      var n := |events| - 1;
      AskedMeansUnserved(tree, file, events[..n]);
      UnservedStep(Init(tree, file), events);
    }
  }

  /**
   Exactly when a request is left without a later scan at rest: when it came while a scan was running that failed.
   */
  lemma UnservedAtRestExactlyAfterFailure(tree: string, file: string, events: seq<Event>)
    requires tree != "" && Run(Init(tree, file), events)
    ensures var s := After(Init(tree, file), events);
            !s.inFlight ==> (Unserved(Init(tree, file), events) <==> s.lastFailed && s.asked)
  {
    AskedMeansUnserved(tree, file, events);
  }

  /**
   A request at rest serves every request before it.  Its cost is exact: if no other request comes and nothing fails,
   one scan runs until nothing is running, and two if a failed scan left the mark of a queued request.
   */
  lemma RequestAtRestServesAll(tree: string, file: string, events: seq<Event>, later: seq<Event>)
    requires tree != "" && Run(Init(tree, file), events)
    requires var s := After(Init(tree, file), events); !s.inFlight && Run(Step(s, Request), later)
    requires Requests(later) == 0 && NothingFails(later)
    ensures Run(Init(tree, file), events + [Request]) && !Unserved(Init(tree, file), events + [Request])
    ensures var s := After(Init(tree, file), events); var end := After(Step(s, Request), later);
            !end.inFlight ==> end.finished == s.finished + (if s.queued then 2 else 1)
  {
    var more := events + [Request];
    assert more[..|events|] == events;
    BeginningServesAll(Init(tree, file), more);
    PendingScansFinish(Step(After(Init(tree, file), events), Request), later);
  }

  /** One run in which a request is left waiting and the file is out of date. */
  lemma RequestLeftWaiting()
    ensures var events := [Request, Change("b"), Request, ScanFailed];
            Run(Init("a", ""), events) &&
            var s := After(Init("a", ""), events);
            !s.inFlight && s.asked && s.requested == Now(s) && s.file != s.trees[Now(s)]
  {
    var e1, e2 := [Request], [Request, Change("b")];
    var e3, e4 := [Request, Change("b"), Request], [Request, Change("b"), Request, ScanFailed];
    assert e1[..0] == [] && e2[..1] == e1 && e3[..2] == e2 && e4[..3] == e3;
    assert Run(Init("a", ""), e1) && Run(Init("a", ""), e2) && Run(Init("a", ""), e3);
  }

  // ── Lost writes ───────────────────────────────────────────────────────────

  /** Some scan resolves with another source than the one remembered at the beginning. */
  predicate SeesAnother(s: State, later: seq<Event>)
    requires Run(s, later)
  {
    later != [] &&
    var n := |later| - 1;
    || SeesAnother(s, later[..n])
    || (later[n].Done? && After(s, later[..n]).trees[later[n].seen] != s.current)
  }

  lemma FileStep(s: State, e: Event)
    requires Enabled(s, e) && !e.WriteFailed?
    ensures var next := Step(s, e);
            if e.Done? && s.trees[e.seen] != s.current then next.file == next.current == s.trees[e.seen]
            else next.file == s.file && next.current == s.current
  {
  }

  lemma {:induction false} FileFollowsAnotherSource(s: State, later: seq<Event>)
    requires Run(s, later) && NoWriteFails(later)
    ensures var end := After(s, later);
            if SeesAnother(s, later) then end.file == end.current else end.file == s.file && end.current == s.current
  {
    hide Step, Enabled;
    if later != [] {
      var n := |later| - 1;
      assert later == later[..n] + [later[n]];
      FileFollowsAnotherSource(s, later[..n]);
      FileStep(After(s, later[..n]), later[n]);
    }
  }

  /**
   A lost write is repaired exactly by a scan that sees another source, however many scans see the same one: from the
   last failed write on, the file is what the last resolved scan saw exactly if there was such a scan, or if the file
   held the lost source anyway.  Until then the file stays as it was.
   */
  lemma LostWriteIsRepairedExactlyByAnotherSource(
    tree: string, file: string, events: seq<Event>, seen: nat, later: seq<Event>)
    requires tree != "" && Run(Init(tree, file), events) && NoWriteFails(later)
    requires var s := After(Init(tree, file), events);
             Enabled(s, WriteFailed(seen)) && Run(Step(s, WriteFailed(seen)), later)
    ensures var s := After(Init(tree, file), events);
            var lost := Step(s, WriteFailed(seen)); var end := After(lost, later);
            && end.seen < |end.trees|
            && (end.file == end.trees[end.seen] <==> SeesAnother(lost, later) || s.file == s.trees[seen])
            && (!SeesAnother(lost, later) ==> end.file == s.file)
  {
    var s := After(Init(tree, file), events);
    RunKeepsInv(tree, file, events);
    StepKeepsInv(s, WriteFailed(seen));
    LaterKeepsInv(Step(s, WriteFailed(seen)), later);
    FileFollowsAnotherSource(Step(s, WriteFailed(seen)), later);
  }

  lemma {:induction false} LaterKeepsInv(s: State, later: seq<Event>)
    requires Inv(s) && s.current != "" && Run(s, later)
    ensures Inv(After(s, later)) && After(s, later).current != ""
  {
    if later != [] {
      LaterKeepsInv(s, later[..|later| - 1]);
      StepKeepsInv(After(s, later[..|later| - 1]), later[|later| - 1]);
    }
  }
}
