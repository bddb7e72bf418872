/**
 Editing the steps of runbooks.  Rows carry a position; the routes add at the end, delete and renumber, swap two
 neighbours, and clone.  Each is proved to be the plain operation on the ordered list of steps.
 */
module RunbookEditor {
  import opened Options

  datatype Definition = Definition(
    stepType: string, playbook: Option<nat>, template: Option<nat>, caption: string, notes: string, required: bool,
    enabled: bool, onFailure: string)

  datatype Step = Step(id: nat, runbook: nat, position: nat, def: Definition)

  /** A step without its place. */
  datatype Entry = Entry(id: nat, def: Definition)

  // ── Queries ───────────────────────────────────────────────────────────────

  function Insert(list: seq<Step>, s: Step): (r: seq<Step>)
    ensures forall x :: x in r <==> x in list || x == s
  {
    if list != [] && list[|list| - 1].position > s.position then
      var n := |list| - 1;
      assert list == list[..n] + [list[n]];
      Insert(list[..n], s) + [list[n]]
    else list + [s]
  }

  /** `WHERE runbook_id = runbook ORDER BY position`. */
  function Ordered(steps: seq<Step>, runbook: nat): (r: seq<Step>)
    ensures forall x :: x in r <==> x in steps && x.runbook == runbook
  {
    if steps == [] then []
    else
      var n := |steps| - 1;
      assert steps == steps[..n] + [steps[n]];
      if steps[n].runbook == runbook then Insert(Ordered(steps[..n], runbook), steps[n])
      else Ordered(steps[..n], runbook)
  }

  predicate UniqueIds(steps: seq<Step>) {
    forall i, j :: 0 <= i < j < |steps| ==> steps[i].id != steps[j].id
  }

  /** The rows a list of entries stands for: entry number i is at position i + 1. */
  function Rows(runbook: nat, plan: seq<Entry>): (r: seq<Step>)
    ensures |r| == |plan|
    ensures forall i :: 0 <= i < |r| ==> r[i] == Step(plan[i].id, runbook, i + 1, plan[i].def)
  {
    seq(|plan|, i requires 0 <= i < |plan| => Step(plan[i].id, runbook, i + 1, plan[i].def))
  }

  function Entries(list: seq<Step>): (r: seq<Entry>)
    ensures |r| == |list| && forall i :: 0 <= i < |r| ==> r[i] == Entry(list[i].id, list[i].def)
  {
    seq(|list|, i requires 0 <= i < |list| => Entry(list[i].id, list[i].def))
  }

  /** The positions of a runbook's rows are exactly 1 to n, each once, in the order of the plan. */
  predicate Holds(steps: seq<Step>, runbook: nat, plan: seq<Entry>) {
    Ordered(steps, runbook) == Rows(runbook, plan)
  }

  // ── Row updates ───────────────────────────────────────────────────────────

  function SetPosition(steps: seq<Step>, id: nat, position: nat): (r: seq<Step>)
    ensures |r| == |steps|
    ensures forall i :: 0 <= i < |r| ==> r[i] == if steps[i].id == id then steps[i].(position := position) else steps[i]
  {
    seq(|steps|, i requires 0 <= i < |steps| => if steps[i].id == id then steps[i].(position := position) else steps[i])
  }

  /** Assign positions 1, 2, ... in the order of a list. */
  function Renumber(steps: seq<Step>, list: seq<Step>): (r: seq<Step>)
    ensures |r| == |steps|
  {
    if list == [] then steps
    else
      var n := |list| - 1;
      SetPosition(Renumber(steps, list[..n]), list[n].id, n + 1)
  }

  function MaxPosition(list: seq<Step>): nat {
    if list == [] then 0
    else
      var n := |list| - 1;
      if list[n].position > MaxPosition(list[..n]) then list[n].position else MaxPosition(list[..n])
  }

  // ── The same edits on a plain list ────────────────────────────────────────

  function Removed<T>(plan: seq<T>, k: nat): (r: seq<T>)
    requires k < |plan|
  {
    plan[..k] + plan[k + 1..]
  }

  /** Whether a step can move in a direction. */
  predicate CanMove<T>(plan: seq<T>, k: nat, up: bool) {
    k < |plan| && if up then k > 0 else k + 1 < |plan|
  }

  function Swapped<T>(plan: seq<T>, i: nat, j: nat): seq<T>
    requires i < |plan| && j < |plan|
  {
    plan[i := plan[j]][j := plan[i]]
  }

  function Moved<T>(plan: seq<T>, k: nat, up: bool): seq<T>
    requires CanMove(plan, k, up)
  {
    Swapped(plan, k, if up then k - 1 else k + 1)
  }

  // ── Sorted lists ──────────────────────────────────────────────────────────

  predicate Increasing(list: seq<Step>) {
    forall i, j :: 0 <= i < j < |list| ==> list[i].position < list[j].position
  }

  lemma {:induction false} SameElementsSameList(a: seq<Step>, b: seq<Step>)
    requires Increasing(a) && Increasing(b)
    requires forall x :: x in a <==> x in b
    ensures a == b
    decreases |a|
  {
    if a == [] || b == [] {
      NoMembers(a, b);
    } else {
      var m, n := |a| - 1, |b| - 1;
      assert a[m] in b && b[n] in a;
      assert a[m] == b[n];
      LastIsNew(a);
      LastIsNew(b);
      SameElementsSameList(a[..m], b[..n]);
      assert a == a[..m] + [a[m]] && b == b[..n] + [b[n]];
    }
  }

  lemma LastIsNew(list: seq<Step>)
    requires Increasing(list) && list != []
    ensures var n := |list| - 1; forall x :: x in list[..n] <==> x in list && x != list[n]
  {
    var n := |list| - 1;
    assert list == list[..n] + [list[n]];
  }

  lemma NoMembers(a: seq<Step>, b: seq<Step>)
    requires forall x :: x in a <==> x in b
    ensures a == [] <==> b == []
  {
    assert a != [] ==> a[0] in a;
    assert b != [] ==> b[0] in b;
  }

  lemma {:induction false} InsertKeepsIncreasing(list: seq<Step>, s: Step)
    requires Increasing(list) && forall x :: x in list ==> x.position != s.position
    ensures Increasing(Insert(list, s))
  {
    if list != [] && list[|list| - 1].position > s.position {
      var n := |list| - 1;
      InsertKeepsIncreasing(list[..n], s);
      var r := Insert(list[..n], s);
      forall i | 0 <= i < |r| ensures r[i].position < list[n].position {
        assert r[i] in r;
        if r[i] != s {
          assert r[i] in list[..n];
          var j :| 0 <= j < n && list[j] == r[i];
        }
      }
    } else {
      forall i | 0 <= i < |list| ensures list[i].position < s.position {
        assert list[i] in list;
        assert list[i].position <= list[|list| - 1].position;
        assert list[|list| - 1] in list;
      }
    }
  }

  /** Distinct rows of a runbook have distinct positions. */
  predicate DistinctPositions(steps: seq<Step>, runbook: nat) {
    forall i, j :: 0 <= i < j < |steps| && steps[i].runbook == runbook && steps[j].runbook == runbook ==>
      steps[i].position != steps[j].position
  }

  lemma {:induction false} OrderedIsIncreasing(steps: seq<Step>, runbook: nat)
    requires DistinctPositions(steps, runbook)
    ensures Increasing(Ordered(steps, runbook))
  {
    if steps != [] {
      var n := |steps| - 1;
      OrderedIsIncreasing(steps[..n], runbook);
      if steps[n].runbook == runbook {
        forall x | x in Ordered(steps[..n], runbook) ensures x.position != steps[n].position {
          var i :| 0 <= i < n && steps[..n][i] == x;
        }
        InsertKeepsIncreasing(Ordered(steps[..n], runbook), steps[n]);
      }
    }
  }

  /** The query returns the one increasing list of a runbook's rows. */
  lemma QueryReturns(steps: seq<Step>, runbook: nat, list: seq<Step>)
    requires DistinctPositions(steps, runbook) && Increasing(list)
    requires forall x :: x in list <==> x in steps && x.runbook == runbook
    ensures Ordered(steps, runbook) == list
  {
    OrderedIsIncreasing(steps, runbook);
    SameElementsSameList(Ordered(steps, runbook), list);
  }

  // ── Each edit on rows is the edit on the list ─────────────────────────────

  lemma RowsIncrease(runbook: nat, plan: seq<Entry>)
    ensures Increasing(Rows(runbook, plan))
  {
  }

  lemma {:induction false} InsertLast(list: seq<Step>, s: Step)
    requires forall x :: x in list ==> x.position < s.position
    ensures Insert(list, s) == list + [s]
  {
    if list != [] {
      assert list[|list| - 1] in list;
    }
  }

  lemma {:induction false} MaxOfRows(runbook: nat, plan: seq<Entry>)
    ensures MaxPosition(Rows(runbook, plan)) == |plan|
  {
    if plan != [] {
      var n := |plan| - 1;
      MaxOfRows(runbook, plan[..n]);
      assert Rows(runbook, plan)[..n] == Rows(runbook, plan[..n]);
    }
  }

  /** A row at the end position is a new last entry; no other runbook is touched. */
  lemma AddingAppends(steps: seq<Step>, runbook: nat, plan: seq<Entry>, e: Entry, other: nat)
    requires Holds(steps, runbook, plan)
    ensures Holds(steps + [Step(e.id, runbook, |plan| + 1, e.def)], runbook, plan + [e])
    ensures other != runbook ==>
              Ordered(steps + [Step(e.id, runbook, |plan| + 1, e.def)], other) == Ordered(steps, other)
  {
    var s := Step(e.id, runbook, |plan| + 1, e.def);
    assert (steps + [s])[..|steps|] == steps;
    InsertLast(Rows(runbook, plan), s);
    assert Rows(runbook, plan + [e]) == Rows(runbook, plan) + [s];
  }

  /** The position a row has after renumbering. */
  lemma {:induction false} RenumberAt(steps: seq<Step>, list: seq<Step>, k: nat)
    requires k < |steps| && UniqueIds(list)
    ensures (forall i :: 0 <= i < |list| ==> list[i].id != steps[k].id) ==> Renumber(steps, list)[k] == steps[k]
    ensures forall i :: 0 <= i < |list| && list[i].id == steps[k].id ==>
              Renumber(steps, list)[k] == steps[k].(position := i + 1)
  {
    if list != [] {
      RenumberAt(steps, list[..|list| - 1], k);
    }
  }

  /** Only positions differ. */
  predicate Repositioned(steps: seq<Step>, after: seq<Step>) {
    |steps| == |after| && forall k :: 0 <= k < |steps| ==> after[k] == steps[k].(position := after[k].position)
  }

  lemma MembersApart(steps: seq<Step>, runbook: nat, list: seq<Step>)
    requires UniqueIds(steps) && Increasing(list)
    requires forall k :: 0 <= k < |steps| && steps[k].runbook == runbook ==> steps[k] in list
    ensures DistinctPositions(steps, runbook)
  {
    forall i, j | 0 <= i < j < |steps| && steps[i].runbook == runbook && steps[j].runbook == runbook
      ensures steps[i].position != steps[j].position
    {
      var p :| 0 <= p < |list| && list[p] == steps[i];
      var q :| 0 <= q < |list| && list[q] == steps[j];
      assert p != q;
    }
  }

  /** The query after rows of a runbook got new positions. */
  lemma QueryAfterRepositioning(steps: seq<Step>, after: seq<Step>, runbook: nat, list: seq<Step>)
    requires UniqueIds(steps) && Repositioned(steps, after) && Increasing(list)
    requires forall k :: 0 <= k < |steps| && steps[k].runbook == runbook ==> after[k] in list
    requires forall i :: 0 <= i < |list| ==> list[i].runbook == runbook && list[i] in after
    ensures Ordered(after, runbook) == list
  {
    MembersApart(after, runbook, list);
    QueryReturns(after, runbook, list);
  }

  lemma {:induction false} SameRowsSameQuery(a: seq<Step>, b: seq<Step>, runbook: nat)
    requires |a| == |b|
    requires forall k :: 0 <= k < |a| && (a[k].runbook == runbook || b[k].runbook == runbook) ==> a[k] == b[k]
    ensures Ordered(a, runbook) == Ordered(b, runbook)
  {
    if a != [] {
      SameRowsSameQuery(a[..|a| - 1], b[..|b| - 1], runbook);
    }
  }

  lemma RowMembers(steps: seq<Step>, runbook: nat, plan: seq<Entry>, k: nat) returns (i: nat)
    requires Holds(steps, runbook, plan) && k < |steps| && steps[k].runbook == runbook
    ensures i < |plan| && steps[k] == Rows(runbook, plan)[i]
  {
    assert steps[k] in Ordered(steps, runbook);
    i :| 0 <= i < |plan| && steps[k] == Rows(runbook, plan)[i];
  }

  lemma RowPlace(steps: seq<Step>, runbook: nat, plan: seq<Entry>, i: nat) returns (k: nat)
    requires Holds(steps, runbook, plan) && i < |plan|
    ensures k < |steps| && steps[k] == Rows(runbook, plan)[i]
  {
    assert Rows(runbook, plan)[i] in Ordered(steps, runbook);
    k :| 0 <= k < |steps| && steps[k] == Rows(runbook, plan)[i];
  }

  /** Entries of a plan are rows of a table with unique ids. */
  lemma PlanIds(steps: seq<Step>, runbook: nat, plan: seq<Entry>)
    requires UniqueIds(steps) && Holds(steps, runbook, plan)
    ensures forall i, j :: 0 <= i < j < |plan| ==> plan[i].id != plan[j].id
  {
    forall i, j | 0 <= i < j < |plan| ensures plan[i].id != plan[j].id {
      var p := RowPlace(steps, runbook, plan, i);
      var q := RowPlace(steps, runbook, plan, j);
    }
  }

  function SwapPositions(steps: seq<Step>, a: Step, b: Step): seq<Step> {
    SetPosition(SetPosition(steps, a.id, b.position), b.id, a.position)
  }

  lemma SwapAt(steps: seq<Step>, a: Step, b: Step, k: nat)
    requires k < |steps| && a.id != b.id
    ensures |SwapPositions(steps, a, b)| == |steps|
    ensures SwapPositions(steps, a, b)[k]
            == steps[k].(position := if steps[k].id == a.id then b.position
                                     else if steps[k].id == b.id then a.position else steps[k].position)
  {
  }

  function Exchange(i: nat, j: nat, m: nat): nat {
    if m == i then j else if m == j then i else m
  }

  /** The row at one place of the plan is at the exchanged place after the swap. */
  lemma SwappedRow(steps: seq<Step>, runbook: nat, plan: seq<Entry>, i: nat, j: nat, m: nat, k: nat)
    requires UniqueIds(steps) && Holds(steps, runbook, plan) && i < |plan| && j < |plan| && i != j
    requires m < |plan| && k < |steps| && steps[k] == Rows(runbook, plan)[m]
    ensures SwapPositions(steps, Rows(runbook, plan)[i], Rows(runbook, plan)[j])[k]
            == Rows(runbook, Swapped(plan, i, j))[Exchange(i, j, m)]
  {
    PlanIds(steps, runbook, plan);
    hide Holds, UniqueIds;
    SwapAt(steps, Rows(runbook, plan)[i], Rows(runbook, plan)[j], k);
  }

  lemma SwapTouchesOnly(steps: seq<Step>, runbook: nat, plan: seq<Entry>, i: nat, j: nat, other: nat)
    requires UniqueIds(steps) && Holds(steps, runbook, plan) && i < |plan| && j < |plan| && i != j
    ensures var after := SwapPositions(steps, Rows(runbook, plan)[i], Rows(runbook, plan)[j]);
            Repositioned(steps, after) && (other != runbook ==> Ordered(after, other) == Ordered(steps, other))
  {
    var a, b := Rows(runbook, plan)[i], Rows(runbook, plan)[j];
    var after := SwapPositions(steps, a, b);
    PlanIds(steps, runbook, plan);
    var p := RowPlace(steps, runbook, plan, i);
    var q := RowPlace(steps, runbook, plan, j);
    forall k | 0 <= k < |steps|
      ensures after[k] == steps[k].(position := after[k].position)
      ensures steps[k].runbook != runbook ==> after[k] == steps[k]
    {
      SwapAt(steps, a, b, k);
      assert steps[k].id == a.id ==> k == p;
      assert steps[k].id == b.id ==> k == q;
    }
    if other != runbook {
      SameRowsSameQuery(after, steps, other);
    }
  }

  /** Swapping the positions of two rows swaps two entries; no other runbook is touched. */
  lemma SwappingSwaps(steps: seq<Step>, runbook: nat, plan: seq<Entry>, i: nat, j: nat, other: nat)
    requires UniqueIds(steps) && Holds(steps, runbook, plan) && i < |plan| && j < |plan| && i != j
    ensures var after := SwapPositions(steps, Rows(runbook, plan)[i], Rows(runbook, plan)[j]);
            && Repositioned(steps, after)
            && Holds(after, runbook, Swapped(plan, i, j))
            && (other != runbook ==> Ordered(after, other) == Ordered(steps, other))
  {
    var after := SwapPositions(steps, Rows(runbook, plan)[i], Rows(runbook, plan)[j]);
    var target := Rows(runbook, Swapped(plan, i, j));
    SwapTouchesOnly(steps, runbook, plan, i, j, other);
    forall k | 0 <= k < |steps| && steps[k].runbook == runbook ensures after[k] in target {
      var m := RowMembers(steps, runbook, plan, k);
      SwappedRow(steps, runbook, plan, i, j, m, k);
      assert after[k] == target[Exchange(i, j, m)];
    }
    forall m | 0 <= m < |target| ensures target[m].runbook == runbook && target[m] in after {
      var k := RowPlace(steps, runbook, plan, Exchange(i, j, m));
      SwappedRow(steps, runbook, plan, i, j, Exchange(i, j, m), k);
      assert target[m] == after[k];
    }
    RowsIncrease(runbook, Swapped(plan, i, j));
    hide SwapPositions, Swapped, Exchange;
    QueryAfterRepositioning(steps, after, runbook, target);
  }

  // ── Deleting ──────────────────────────────────────────────────────────────

  lemma {:induction false} RemovingOther(steps: seq<Step>, k: nat, runbook: nat)
    requires k < |steps| && steps[k].runbook != runbook
    ensures Ordered(Removed(steps, k), runbook) == Ordered(steps, runbook)
    decreases |steps|
  {
    hide Ordered, Insert, Removed;
    var n := |steps| - 1;
    OrderedLast(steps, runbook);
    RemovedLast(steps, k);
    if k < n {
      RemovingOther(steps[..n], k, runbook);
      OrderedLast(Removed(steps, k), runbook);
    }
  }

  lemma OrderedLast(steps: seq<Step>, runbook: nat)
    requires steps != []
    ensures var n := |steps| - 1;
            Ordered(steps, runbook)
            == if steps[n].runbook == runbook then Insert(Ordered(steps[..n], runbook), steps[n])
               else Ordered(steps[..n], runbook)
  {
  }

  lemma RemovedLast<T>(s: seq<T>, k: nat)
    requires k < |s|
    ensures var n := |s| - 1;
            && (k == n ==> Removed(s, k) == s[..n])
            && (k < n ==>
                  && |Removed(s, k)| == n
                  && Removed(s, k)[..n - 1] == Removed(s[..n], k) && Removed(s, k)[n - 1] == s[n])
  {
  }

  lemma RemovedMembers<T>(s: seq<T>, k: nat)
    requires k < |s| && forall i, j :: 0 <= i < j < |s| ==> s[i] != s[j]
    ensures forall x :: x in Removed(s, k) <==> x in s && x != s[k]
  {
    assert s == s[..k] + [s[k]] + s[k + 1..];
  }

  lemma RemovedKeeps(steps: seq<Step>, k: nat)
    requires k < |steps|
    ensures UniqueIds(steps) ==> UniqueIds(Removed(steps, k))
    ensures Increasing(steps) ==> Increasing(Removed(steps, k))
    ensures forall runbook :: DistinctPositions(steps, runbook) ==> DistinctPositions(Removed(steps, k), runbook)
  {
    var rest := Removed(steps, k);
    assert forall m :: 0 <= m < |rest| ==> rest[m] == if m < k then steps[m] else steps[m + 1];
  }

  /** Without the deleted row the query returns the rest of the list, with a gap in the positions. */
  lemma QueryAfterRemoval(steps: seq<Step>, runbook: nat, plan: seq<Entry>, k: nat, i: nat)
    requires UniqueIds(steps) && Holds(steps, runbook, plan) && i < |plan| && k < |steps|
    requires steps[k] == Rows(runbook, plan)[i]
    ensures Ordered(Removed(steps, k), runbook) == Removed(Rows(runbook, plan), i)
  {
    hide Ordered, Removed, Rows;
    var list := Rows(runbook, plan);
    RowsIncrease(runbook, plan);
    assert list == Ordered(steps, runbook);
    MembersApart(steps, runbook, list);
    RemovedKeeps(steps, k);
    RemovedKeeps(list, i);
    RemovedMembers(steps, k);
    RemovedMembers(list, i);
    assert forall x :: x in list <==> x in steps && x.runbook == runbook;
    hide *;
    QueryReturns(Removed(steps, k), runbook, Removed(list, i));
  }

  /** Renumbering what is left gives the rows of the plan without the entry; no other runbook is touched. */
  lemma DeletingRemoves(steps: seq<Step>, runbook: nat, plan: seq<Entry>, k: nat, i: nat, other: nat)
    requires UniqueIds(steps) && Holds(steps, runbook, plan) && i < |plan| && k < |steps|
    requires steps[k] == Rows(runbook, plan)[i]
    ensures var rest := Removed(steps, k);
            var after := Renumber(rest, Ordered(rest, runbook));
            && Repositioned(rest, after)
            && Holds(after, runbook, Removed(plan, i))
            && (other != runbook ==> Ordered(after, other) == Ordered(steps, other))
  {
    var rest, list := Removed(steps, k), Removed(Rows(runbook, plan), i);
    QueryAfterRemoval(steps, runbook, plan, k, i);
    RemovedKeeps(steps, k);
    RowsIncrease(runbook, plan);
    RemovedKeeps(Rows(runbook, plan), i);
    RenumberingGapless(rest, runbook, list, other);
    ClosingTheGap(runbook, plan, i);
    assert other != runbook ==> steps[k].runbook != other;
    var after := Renumber(rest, list);
    assert Holds(after, runbook, Removed(plan, i)) by { hide Renumber, Removed, Ordered, Closed, Rows; }
    hide *;
    if other != runbook {
      RemovingOther(steps, k, other);
    }
  }

  lemma ClosingTheGap(runbook: nat, plan: seq<Entry>, i: nat)
    requires i < |plan|
    ensures Closed(Removed(Rows(runbook, plan), i)) == Rows(runbook, Removed(plan, i))
  {
  }

  /** A list with its positions closed up. */
  function Closed(list: seq<Step>): (r: seq<Step>)
    ensures |r| == |list| && forall i :: 0 <= i < |r| ==> r[i] == list[i].(position := i + 1)
  {
    seq(|list|, i requires 0 <= i < |list| => list[i].(position := i + 1))
  }

  lemma ListIds(steps: seq<Step>, list: seq<Step>)
    requires UniqueIds(steps) && Increasing(list) && forall x :: x in list ==> x in steps
    ensures UniqueIds(list)
  {
    forall i, j | 0 <= i < j < |list| ensures list[i].id != list[j].id {
      assert list[i] in steps && list[j] in steps;
    }
  }

  lemma RenumberRow(steps: seq<Step>, runbook: nat, list: seq<Step>, k: nat)
    requires UniqueIds(steps) && UniqueIds(list) && Ordered(steps, runbook) == list && k < |steps|
    ensures var after := Renumber(steps, list);
            && after[k] == steps[k].(position := after[k].position)
            && (steps[k].runbook != runbook ==> after[k] == steps[k])
            && (forall i :: 0 <= i < |list| && list[i] == steps[k] ==> after[k] == Closed(list)[i])
  {
    hide Renumber, Ordered;
    RenumberAt(steps, list, k);
    if steps[k].runbook != runbook {
      forall i | 0 <= i < |list| ensures list[i].id != steps[k].id {
        assert list[i] in list;
        var j :| 0 <= j < |steps| && steps[j] == list[i];
      }
      hide *;
    } else {
      assert steps[k] in list;
      var i :| 0 <= i < |list| && list[i] == steps[k];
      hide UniqueIds;
    }
  }

  lemma RenumberingGapless(steps: seq<Step>, runbook: nat, list: seq<Step>, other: nat)
    requires UniqueIds(steps) && Ordered(steps, runbook) == list && Increasing(list)
    ensures var after := Renumber(steps, list);
            && Repositioned(steps, after) && Ordered(after, runbook) == Closed(list)
            && (other != runbook ==> Ordered(after, other) == Ordered(steps, other))
  {
    hide Renumber, Ordered;
    var after := Renumber(steps, list);
    ListIds(steps, list);
    forall k | 0 <= k < |steps|
      ensures after[k] == steps[k].(position := after[k].position)
      ensures steps[k].runbook != runbook ==> after[k] == steps[k]
      ensures steps[k].runbook == runbook ==> after[k] in Closed(list)
    {
      RenumberRow(steps, runbook, list, k);
      if steps[k].runbook == runbook {
        assert steps[k] in list;
        var i :| 0 <= i < |list| && list[i] == steps[k];
      }
    }
    forall i | 0 <= i < |list| ensures Closed(list)[i].runbook == runbook && Closed(list)[i] in after {
      assert list[i] in list;
      var k :| 0 <= k < |steps| && steps[k] == list[i];
      RenumberRow(steps, runbook, list, k);
      assert after[k] == Closed(list)[i];
    }
    QueryAfterRepositioning(steps, after, runbook, Closed(list));
    if other != runbook {
      SameRowsSameQuery(after, steps, other);
    }
  }

  // ── The editor ────────────────────────────────────────────────────────────

  function FindStep(steps: seq<Step>, id: nat): (k: Option<nat>)
    ensures k.Some? ==> k.value < |steps| && steps[k.value].id == id
    ensures k.None? ==> forall i :: 0 <= i < |steps| ==> steps[i].id != id
  {
    if steps == [] then None
    else if steps[|steps| - 1].id == id then Some(|steps| - 1)
    else FindStep(steps[..|steps| - 1], id)
  }

  /** The place of a step in a plan. */
  function PlaceOf(plan: seq<Entry>, id: nat): (k: Option<nat>)
    ensures k.Some? ==> k.value < |plan| && plan[k.value].id == id
    ensures k.None? ==> forall i :: 0 <= i < |plan| ==> plan[i].id != id
  {
    if plan == [] then None
    else if plan[|plan| - 1].id == id then Some(|plan| - 1)
    else PlaceOf(plan[..|plan| - 1], id)
  }

  /** A row of the runbook with an id exists exactly when the plan has the id, and then they are the same step. */
  lemma FoundInPlan(steps: seq<Step>, runbook: nat, plan: seq<Entry>, id: nat)
    requires UniqueIds(steps) && Holds(steps, runbook, plan)
    ensures var k, i := FindStep(steps, id), PlaceOf(plan, id);
            && (i.Some? <==> k.Some? && steps[k.value].runbook == runbook)
            && (i.Some? ==> steps[k.value] == Rows(runbook, plan)[i.value])
            && PlaceOf(Entries(Rows(runbook, plan)), id) == i
  {
    var k, i := FindStep(steps, id), PlaceOf(plan, id);
    assert Entries(Rows(runbook, plan)) == plan;
    if i.Some? {
      var p := RowPlace(steps, runbook, plan, i.value);
      assert steps[p].id == id && k.Some? && k.value == p;
    }
    if k.Some? && steps[k.value].runbook == runbook {
      var p := RowMembers(steps, runbook, plan, k.value);
      assert plan[p].id == id;
    }
  }

  lemma {:induction false} NoRowsNoList(steps: seq<Step>, runbook: nat)
    requires forall k :: 0 <= k < |steps| ==> steps[k].runbook != runbook
    ensures Ordered(steps, runbook) == []
  {
    if steps != [] {
      NoRowsNoList(steps[..|steps| - 1], runbook);
    }
  }

  datatype StepForm = StepForm(
    stepType: string, playbook: nat, template: nat, caption: string, notes: string, required: bool, enabled: bool,
    onFailure: string)

  /** A playbook step needs a playbook and a template step a template; 0 stands for none. */
  predicate ValidForm(f: StepForm) {
    !(f.stepType == "playbook" && f.playbook == 0) && !(f.stepType == "template" && f.template == 0)
  }

  function DefinitionOf(f: StepForm): Definition {
    Definition(
      f.stepType, if f.stepType == "playbook" then Some(f.playbook) else None,
      if f.stepType == "template" then Some(f.template) else None,
      f.caption, f.notes, f.required, f.enabled, f.onFailure)
  }

  /** A plan copied under new step ids. */
  function Copied(plan: seq<Entry>, firstId: nat): (r: seq<Entry>)
    ensures |r| == |plan| && forall i :: 0 <= i < |r| ==> r[i] == Entry(firstId + i, plan[i].def)
  {
    seq(|plan|, i requires 0 <= i < |plan| => Entry(firstId + i, plan[i].def))
  }

  lemma OverwrittenTwice<K, V>(m: map<K, V>, k: K, v: V, w: V)
    ensures m[k := v][k := w] == m[k := w]
  {
  }

  lemma CopiedStep(plan: seq<Entry>, first: nat, n: nat)
    requires n < |plan|
    ensures Copied(plan[..n + 1], first) == Copied(plan[..n], first) + [Entry(first + n, plan[n].def)]
  {
  }

  /** The rows of every runbook are numbered 1 to n in the order of its plan, and every row is in a plan. */
  predicate Planned(steps: seq<Step>, nextStep: nat, nextRunbook: nat, plans: map<nat, seq<Entry>>) {
    && UniqueIds(steps)
    && (forall rb :: rb in plans ==> rb < nextRunbook && Holds(steps, rb, plans[rb]))
    && (forall k :: 0 <= k < |steps| ==> steps[k].id < nextStep && steps[k].runbook in plans)
  }

  lemma CreationIsPlanned(steps: seq<Step>, nextStep: nat, nextRunbook: nat, plans: map<nat, seq<Entry>>)
    requires Planned(steps, nextStep, nextRunbook, plans)
    ensures nextRunbook !in plans && Planned(steps, nextStep, nextRunbook + 1, plans[nextRunbook := []])
  {
    NoRowsNoList(steps, nextRunbook);
  }

  lemma AdditionIsPlanned(
    steps: seq<Step>, nextStep: nat, nextRunbook: nat, plans: map<nat, seq<Entry>>, rb: nat, def: Definition)
    requires Planned(steps, nextStep, nextRunbook, plans) && rb in plans
    ensures var e := Entry(nextStep, def);
            Planned(steps + [Step(e.id, rb, |plans[rb]| + 1, def)], nextStep + 1, nextRunbook,
                    plans[rb := plans[rb] + [e]])
  {
    var e := Entry(nextStep, def);
    var after, plans' := steps + [Step(e.id, rb, |plans[rb]| + 1, def)], plans[rb := plans[rb] + [e]];
    forall other | other in plans' ensures Holds(after, other, plans'[other]) {
      AddingAppends(steps, rb, plans[rb], e, other);
    }
    hide Holds;
  }

  lemma DeletionIsPlanned(
    steps: seq<Step>, nextStep: nat, nextRunbook: nat, plans: map<nat, seq<Entry>>, rb: nat, k: nat, i: nat)
    requires Planned(steps, nextStep, nextRunbook, plans) && rb in plans && k < |steps| && i < |plans[rb]|
    requires steps[k] == Rows(rb, plans[rb])[i]
    ensures var rest := Removed(steps, k);
            Planned(Renumber(rest, Ordered(rest, rb)), nextStep, nextRunbook, plans[rb := Removed(plans[rb], i)])
  {
    hide Removed, Renumber, Ordered, Rows;
    var rest := Removed(steps, k);
    var after, plans' := Renumber(rest, Ordered(rest, rb)), plans[rb := Removed(plans[rb], i)];
    forall other | other in plans ensures Holds(after, other, plans'[other]) {
      DeletingRemoves(steps, rb, plans[rb], k, i, other);
    }
    DeletingRemoves(steps, rb, plans[rb], k, i, rb);
    RemovedKeeps(steps, k);
    hide Holds;
    KeysStay(steps, nextStep, plans, k, after);
  }

  lemma KeysStay(steps: seq<Step>, nextStep: nat, plans: map<nat, seq<Entry>>, k: nat, after: seq<Step>)
    requires forall m :: 0 <= m < |steps| ==> steps[m].id < nextStep && steps[m].runbook in plans
    requires k < |steps| && Repositioned(Removed(steps, k), after)
    ensures forall m :: 0 <= m < |after| ==> after[m].id < nextStep && after[m].runbook in plans
  {
    forall m | 0 <= m < |after| ensures after[m].id < nextStep && after[m].runbook in plans {
      assert Removed(steps, k)[m] == steps[if m < k then m else m + 1];
    }
  }

  lemma MoveIsPlanned(
    steps: seq<Step>, nextStep: nat, nextRunbook: nat, plans: map<nat, seq<Entry>>, rb: nat, i: nat, j: nat)
    requires Planned(steps, nextStep, nextRunbook, plans) && rb in plans && i < |plans[rb]| && j < |plans[rb]| && i != j
    ensures Planned(SwapPositions(steps, Rows(rb, plans[rb])[i], Rows(rb, plans[rb])[j]), nextStep, nextRunbook,
                    plans[rb := Swapped(plans[rb], i, j)])
  {
    hide SwapPositions, Swapped, Ordered, Rows;
    var after := SwapPositions(steps, Rows(rb, plans[rb])[i], Rows(rb, plans[rb])[j]);
    var plans' := plans[rb := Swapped(plans[rb], i, j)];
    forall other | other in plans ensures Holds(after, other, plans'[other]) {
      SwappingSwaps(steps, rb, plans[rb], i, j, other);
    }
    SwappingSwaps(steps, rb, plans[rb], i, j, rb);
    hide Holds;
  }

  /** Looking a step up in the table or in the plan of its runbook comes to the same. */
  lemma LookupIsPlanned(
    steps: seq<Step>, nextStep: nat, nextRunbook: nat, plans: map<nat, seq<Entry>>, rb: nat, id: nat)
    requires Planned(steps, nextStep, nextRunbook, plans)
    ensures var k := FindStep(steps, id);
            && (k.Some? && steps[k.value].runbook == rb <==> rb in plans && PlaceOf(plans[rb], id).Some?)
            && (rb in plans ==>
                  && Ordered(steps, rb) == Rows(rb, plans[rb])
                  && PlaceOf(Entries(Rows(rb, plans[rb])), id) == PlaceOf(plans[rb], id)
                  && (PlaceOf(plans[rb], id).Some? ==>
                        steps[k.value] == Rows(rb, plans[rb])[PlaceOf(plans[rb], id).value]))
  {
    if rb in plans {
      FoundInPlan(steps, rb, plans[rb], id);
    }
  }

  class Editor {
    var steps: seq<Step>
    var runbooks: set<nat>
    var nextStep: nat
    var nextRunbook: nat
    ghost var plans: map<nat, seq<Entry>>

    ghost predicate Valid()
      reads this
    {
      (forall rb :: rb in plans <==> rb in runbooks) && Planned(steps, nextStep, nextRunbook, plans)
    }

    constructor ()
      ensures Valid() && plans == map[]
    {
      steps, runbooks, nextStep, nextRunbook, plans := [], {}, 1, 1, map[];
    }

    method CreateRunbook() returns (rb: nat)
      requires Valid()
      modifies `runbooks, `nextRunbook, `plans
      ensures Valid() && rb !in old(plans) && plans == old(plans)[rb := []]
    {
      hide Planned;
      rb := nextRunbook;
      CreationIsPlanned(steps, nextStep, nextRunbook, plans);
      runbooks, nextRunbook, plans := runbooks + {rb}, nextRunbook + 1, plans[rb := []];
    }

    method LastPosition(rb: nat) returns (position: nat)
      ensures position == MaxPosition(Ordered(steps, rb))
    {
      var list := Ordered(steps, rb);
      position := 0;
      for i := 0 to |list|
        invariant position == MaxPosition(list[..i])
      {
        assert list[..i + 1][..i] == list[..i];
        if list[i].position > position {
          position := list[i].position;
        }
      }
      assert list[..|list|] == list;
    }

    /** A new step becomes the last one. */
    method AddStep(rb: nat, f: StepForm) returns (ok: bool)
      requires Valid()
      modifies this
      ensures Valid() && (ok <==> rb in old(plans) && ValidForm(f))
      ensures plans == if ok then old(plans)[rb := old(plans)[rb] + [Entry(old(nextStep), DefinitionOf(f))]]
              else old(plans)
    {
      if rb !in runbooks || !ValidForm(f) {
        return false;
      }
      var position := LastPosition(rb);
      MaxOfRows(rb, plans[rb]);
      AppendRow(rb, position + 1, DefinitionOf(f));
      return true;
    }

    method AppendRow(rb: nat, position: nat, def: Definition)
      requires Valid() && rb in plans && position == |plans[rb]| + 1
      modifies `steps, `nextStep, `plans
      ensures Valid() && nextStep == old(nextStep) + 1
      ensures plans == old(plans)[rb := old(plans)[rb] + [Entry(old(nextStep), def)]]
    {
      hide Planned;
      AdditionIsPlanned(steps, nextStep, nextRunbook, plans, rb, def);
      steps := steps + [Step(nextStep, rb, position, def)];
      plans := plans[rb := plans[rb] + [Entry(nextStep, def)]];
      nextStep := nextStep + 1;
    }

    /** The step disappears, the others keep their order. */
    method DeleteStep(rb: nat, id: nat) returns (ok: bool)
      requires Valid()
      modifies `steps, `plans
      ensures Valid() && (ok <==> rb in old(plans) && PlaceOf(old(plans)[rb], id).Some?)
      ensures plans == if ok then old(plans)[rb := Removed(old(plans)[rb], PlaceOf(old(plans)[rb], id).value)]
              else old(plans)
    {
      hide Planned, Ordered, Renumber, FindStep, PlaceOf, Removed, Rows, Entries;
      LookupIsPlanned(steps, nextStep, nextRunbook, plans, rb, id);
      var k := FindStep(steps, id);
      if k.None? || steps[k.value].runbook != rb {
        return false;
      }
      ghost var i := PlaceOf(plans[rb], id).value;
      DeletionIsPlanned(steps, nextStep, nextRunbook, plans, rb, k.value, i);
      steps := Removed(steps, k.value);
      RenumberSteps(Ordered(steps, rb));
      plans := plans[rb := Removed(plans[rb], i)];
      return true;
    }

    method RenumberSteps(remaining: seq<Step>)
      modifies `steps
      ensures steps == Renumber(old(steps), remaining)
    {
      for n := 0 to |remaining|
        invariant steps == Renumber(old(steps), remaining[..n])
      {
        assert remaining[..n + 1][..n] == remaining[..n];
        steps := SetPosition(steps, remaining[n].id, n + 1);
      }
      assert remaining[..|remaining|] == remaining;
    }

    /** One step up or down changes places with its neighbour; at the end of the list nothing happens. */
    method MoveStep(rb: nat, id: nat, up: bool) returns (ok: bool)
      requires Valid()
      modifies `steps, `plans
      ensures Valid()
      ensures ok <==> (&& rb in old(plans) && PlaceOf(old(plans)[rb], id).Some?
                       && CanMove(old(plans)[rb], PlaceOf(old(plans)[rb], id).value, up))
      ensures plans == if ok then old(plans)[rb := Moved(old(plans)[rb], PlaceOf(old(plans)[rb], id).value, up)]
              else old(plans)
    {
      hide Planned, Ordered, SwapPositions, FindStep, PlaceOf, Swapped, Rows, Entries;
      LookupIsPlanned(steps, nextStep, nextRunbook, plans, rb, id);
      var k := FindStep(steps, id);
      if k.None? || steps[k.value].runbook != rb {
        return false;
      }
      var siblings := Ordered(steps, rb);
      var idx := PlaceOf(Entries(siblings), id).value;
      var swap: int := idx as int + if up then -1 else 1;
      if swap < 0 || swap >= |siblings| {
        return false;
      }
      MoveIsPlanned(steps, nextStep, nextRunbook, plans, rb, idx, swap);
      steps := SwapPositions(steps, siblings[idx], siblings[swap]);
      plans := plans[rb := Moved(plans[rb], idx, up)];
      return true;
    }

    /** The copy has the same steps in the same order, and the original is not touched. */
    method Clone(rb: nat) returns (clone: Option<nat>)
      requires Valid()
      modifies this
      ensures Valid() && (clone.Some? <==> rb in old(plans))
      ensures clone.None? ==> plans == old(plans)
      ensures clone.Some? ==>
                && clone.value !in old(plans)
                && plans == old(plans)[clone.value := Copied(old(plans)[rb], old(nextStep))]
    {
      if rb !in runbooks {
        return None;
      }
      hide Planned, Ordered, Rows, PlaceOf, FindStep, Entries, Copied;
      LookupIsPlanned(steps, nextStep, nextRunbook, plans, rb, 0);
      var list := Ordered(steps, rb);
      ghost var plan := plans[rb];
      var copy := CreateRunbook();
      OverwrittenTwice(old(plans), copy, [], Copied(plan, nextStep));
      CopySteps(list, copy, rb, plan);
      return Some(copy);
    }

    method CopySteps(list: seq<Step>, copy: nat, ghost rb: nat, ghost plan: seq<Entry>)
      requires Valid() && copy in plans && plans[copy] == [] && list == Rows(rb, plan)
      modifies `steps, `nextStep, `plans
      ensures Valid() && plans == old(plans)[copy := Copied(plan, old(nextStep))]
    {
      hide Planned;
      ghost var original, first := plans, nextStep;
      for n := 0 to |list|
        invariant Valid() && nextStep == first + n
        invariant plans == original[copy := Copied(plan[..n], first)]
      {
        CopiedStep(plan, first, n);
        AppendRow(copy, list[n].position, list[n].def);
      }
      assert plan[..|plan|] == plan;
    }
  }

  // ── What the edits mean ───────────────────────────────────────────────────

  /** The positions of a runbook's rows are 1 to n, each exactly once. */
  lemma PositionsAreExact(steps: seq<Step>, runbook: nat, plan: seq<Entry>)
    requires UniqueIds(steps) && Holds(steps, runbook, plan)
    ensures forall k :: 0 <= k < |steps| && steps[k].runbook == runbook ==> 1 <= steps[k].position <= |plan|
    ensures forall i :: 0 <= i < |plan| ==> Step(plan[i].id, runbook, i + 1, plan[i].def) in steps
    ensures DistinctPositions(steps, runbook)
  {
    forall k | 0 <= k < |steps| && steps[k].runbook == runbook ensures 1 <= steps[k].position <= |plan| {
      var i := RowMembers(steps, runbook, plan, k);
    }
    forall i | 0 <= i < |plan| ensures Step(plan[i].id, runbook, i + 1, plan[i].def) in steps {
      var k := RowPlace(steps, runbook, plan, i);
    }
    RowsIncrease(runbook, plan);
    assert Rows(runbook, plan) == Ordered(steps, runbook);
    MembersApart(steps, runbook, Rows(runbook, plan));
  }

  /** A move up can be undone by a move down of the same step, and the other way round. */
  lemma MovingBackIsIdentity<T>(plan: seq<T>, k: nat, up: bool)
    requires CanMove(plan, k, up)
    ensures var there := if up then k - 1 else k + 1;
            && Moved(plan, k, up)[there] == plan[k]
            && CanMove(Moved(plan, k, up), there, !up)
            && Moved(Moved(plan, k, up), there, !up) == plan
  {
  }

  /** A move keeps the steps of the runbook. */
  lemma MovingPermutes<T>(plan: seq<T>, k: nat, up: bool)
    requires CanMove(plan, k, up)
    ensures multiset(Moved(plan, k, up)) == multiset(plan)
  {
  }

  /** What a form stores: a playbook step its playbook, a template step its template, any step everything else. */
  lemma FormIsStored(f: StepForm)
    ensures ValidForm(f) <==>
              (f.stepType == "playbook" ==> f.playbook > 0) && (f.stepType == "template" ==> f.template > 0)
    ensures var d := DefinitionOf(f);
            && d.stepType == f.stepType && d.caption == f.caption && d.notes == f.notes
            && d.required == f.required && d.enabled == f.enabled && d.onFailure == f.onFailure
            && (f.stepType == "playbook" ==> d.playbook == Some(f.playbook) && d.template == None)
            && (f.stepType == "template" ==> d.template == Some(f.template) && d.playbook == None)
            && (f.stepType != "playbook" && f.stepType != "template" ==> d.playbook == d.template == None)
  {
  }

  /** A move exchanges a step with its neighbour in the direction given, if there is one, and no other. */
  lemma MoveIsExact<T>(plan: seq<T>, k: nat, up: bool)
    requires k < |plan|
    ensures CanMove(plan, k, up) <==> (if up then k != 0 else k != |plan| - 1)
    ensures CanMove(plan, k, up) ==>
              var there, after := if up then k - 1 else k + 1, Moved(plan, k, up);
              && |after| == |plan| && after[there] == plan[k] && after[k] == plan[there]
              && forall i :: 0 <= i < |plan| && i != k && i != there ==> after[i] == plan[i]
  {
  }

  /** A removal takes one step out and closes the gap. */
  lemma RemovalIsExact<T>(plan: seq<T>, k: nat)
    requires k < |plan|
    ensures |Removed(plan, k)| == |plan| - 1
    ensures forall i :: 0 <= i < |plan| - 1 ==> Removed(plan, k)[i] == plan[if i < k then i else i + 1]
  {
  }
}
