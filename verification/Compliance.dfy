/**
 Patch compliance: the property on a patching record that counts whole days, the report's date cut-offs that should
 mirror it, and the counts and pages of the report.  Times are whole microseconds.
 */
module Compliance {
  import opened Options

  const DAY: nat := 86_400_000_000

  datatype Class = Compliant | DueSoon | Overdue | Unknown

  datatype Patching = Patching(server: nat, lastPatch: Option<int>)

  datatype Thresholds = Thresholds(window: int, dueSoon: int)

  /** The settings form: a number that does not parse falls back to the default, then both are clamped. */
  function Saved(window: Option<nat>, dueSoon: Option<nat>): (t: Thresholds)
    ensures 1 <= t.window <= 3650 && 1 <= t.dueSoon <= 365
    ensures window.Some? && 1 <= window.value <= 3650 ==> t.window == window.value
    ensures dueSoon.Some? && 1 <= dueSoon.value <= 365 ==> t.dueSoon == dueSoon.value
  {
    var w: int := if window.Some? then window.value else 90;
    var d: int := if dueSoon.Some? then dueSoon.value else 15;
    Thresholds(Max(1, Min(w, 3650)), Max(1, Min(d, 365)))
  }

  function Max(a: int, b: int): int {
    if a >= b then a else b
  }

  function Min(a: int, b: int): int {
    if a <= b then a else b
  }

  // ── The two classifiers ───────────────────────────────────────────────────

  /** The property of a patching record; `timedelta.days` rounds down, also for dates in the future. */
  function StatusByDays(lastPatch: Option<int>, now: int, t: Thresholds): Class {
    if lastPatch.None? then Unknown
    else
      var days := (now - lastPatch.value) / DAY;
      if days <= t.window then Compliant
      else if days <= t.window + t.dueSoon then DueSoon
      else Overdue
  }

  function CutoffCompliant(now: int, t: Thresholds): int {
    now - t.window * DAY
  }

  function CutoffOverdue(now: int, t: Thresholds): int {
    now - (t.window + t.dueSoon) * DAY
  }

  /** The report's filter for one class, as its query states it; NULL dates satisfy only the last. */
  predicate Selects(class_: Class, lastPatch: Option<int>, now: int, t: Thresholds) {
    match class_
    case Compliant => lastPatch.Some? && lastPatch.value >= CutoffCompliant(now, t)
    case DueSoon => lastPatch.Some? && CutoffOverdue(now, t) <= lastPatch.value < CutoffCompliant(now, t)
    case Overdue => lastPatch.Some? && lastPatch.value < CutoffOverdue(now, t)
    case Unknown => lastPatch.None?
  }

  /** The one filter of the report that selects a date. */
  function ReportClass(lastPatch: Option<int>, now: int, t: Thresholds): (r: Class)
    requires t.dueSoon >= 0
    ensures forall c :: Selects(c, lastPatch, now, t) <==> c == r
  {
    assert CutoffOverdue(now, t) <= CutoffCompliant(now, t);
    assert forall c: Class :: c.Compliant? || c.DueSoon? || c.Overdue? || c.Unknown?;
    if lastPatch.None? then Unknown
    else if lastPatch.value >= CutoffCompliant(now, t) then Compliant
    else if lastPatch.value >= CutoffOverdue(now, t) then DueSoon
    else Overdue
  }

  function Severity(c: Class): int {
    match c
    case Compliant => 0
    case DueSoon => 1
    case Overdue => 2
    case Unknown => 3
  }

  /** The part of a day that rounding down forgives: strictly between `days` and `days + 1` days. */
  predicate WithinDay(elapsed: int, days: int) {
    days * DAY < elapsed < (days + 1) * DAY
  }

  lemma WholeDays(elapsed: int, days: int)
    ensures elapsed / DAY <= days <==> elapsed < (days + 1) * DAY
  {
  }

  /**
   The report and the property disagree about a date exactly when the elapsed time is within the day after the
   compliance window or within the day after the due-soon buffer, and then the report is one class stricter.
   */
  lemma ClassifiersDisagreeWithinADay(lastPatch: Option<int>, now: int, t: Thresholds)
    requires t.window >= 1 && t.dueSoon >= 1
    ensures var report, property := ReportClass(lastPatch, now, t), StatusByDays(lastPatch, now, t);
            && (report != property <==>
                  lastPatch.Some? &&
                  (WithinDay(now - lastPatch.value, t.window)
                    || WithinDay(now - lastPatch.value, t.window + t.dueSoon)))
            && (report != property ==> Severity(report) == Severity(property) + 1)
  {
    if lastPatch.Some? {
      var elapsed := now - lastPatch.value;
      WholeDays(elapsed, t.window);
      WholeDays(elapsed, t.window + t.dueSoon);
      assert (t.window + 1) * DAY <= (t.window + t.dueSoon) * DAY;
    }
  }

  /** Twelve hours past a 90-day window the two classifiers differ. */
  lemma ReportIsStricter()
    ensures var now, t := 91 * DAY, Thresholds(90, 15);
            var last := Some(DAY / 2);
            StatusByDays(last, now, t) == Compliant && ReportClass(last, now, t) == DueSoon
  {
  }

  /** A date's class by the property, in microseconds of elapsed time: whole days count, so a day's grace is left. */
  lemma PropertyIsExact(lastPatch: Option<int>, now: int, t: Thresholds)
    requires t.dueSoon >= 0
    ensures lastPatch.None? <==> StatusByDays(lastPatch, now, t) == Unknown
    ensures lastPatch.Some? ==>
              var elapsed, day := now - lastPatch.value, 24 * 60 * 60 * 1_000_000;
              && (StatusByDays(lastPatch, now, t) == Compliant <==> elapsed < (t.window + 1) * day)
              && (StatusByDays(lastPatch, now, t) == DueSoon
                  <==> (t.window + 1) * day <= elapsed < (t.window + t.dueSoon + 1) * day)
              && (StatusByDays(lastPatch, now, t) == Overdue <==> (t.window + t.dueSoon + 1) * day <= elapsed)
  {
    if lastPatch.Some? {
      var elapsed := now - lastPatch.value;
      WholeDays(elapsed, t.window);
      WholeDays(elapsed, t.window + t.dueSoon);
      assert (t.window + 1) * DAY <= (t.window + t.dueSoon + 1) * DAY;
    }
  }

  /** The same of the report, which leaves none. */
  lemma ReportIsExact(lastPatch: Option<int>, now: int, t: Thresholds)
    requires t.dueSoon >= 0
    ensures lastPatch.None? <==> ReportClass(lastPatch, now, t) == Unknown
    ensures lastPatch.Some? ==>
              var elapsed, day := now - lastPatch.value, 24 * 60 * 60 * 1_000_000;
              && (ReportClass(lastPatch, now, t) == Compliant <==> elapsed <= t.window * day)
              && (ReportClass(lastPatch, now, t) == DueSoon
                  <==> t.window * day < elapsed <= (t.window + t.dueSoon) * day)
              && (ReportClass(lastPatch, now, t) == Overdue <==> (t.window + t.dueSoon) * day < elapsed)
  {
  }

  /** A number in range is saved as it is, one out of range as the nearest in range, and no number as the default. */
  lemma SavedIsNearest(window: Option<nat>, dueSoon: Option<nat>)
    ensures var t := Saved(window, dueSoon);
            && (window.None? ==> t.window == 90) && (dueSoon.None? ==> t.dueSoon == 15)
            && (window.Some? ==> t.window == if window.value == 0 then 1
                                             else if window.value > 3650 then 3650 else window.value)
            && (dueSoon.Some? ==> t.dueSoon == if dueSoon.value == 0 then 1
                                               else if dueSoon.value > 365 then 365 else dueSoon.value)
  {
  }

  // ── The report's counts ───────────────────────────────────────────────────

  /** `COUNT(patching.id)` under the filter of a class. */
  function CountPatching(rows: seq<Patching>, class_: Class, now: int, t: Thresholds): nat {
    if rows == [] then 0
    else
      var n := |rows| - 1;
      CountPatching(rows[..n], class_, now, t) + if Selects(class_, rows[n].lastPatch, now, t) then 1 else 0
  }

  /** The patching rows of a server, in order. */
  function RowsOf(rows: seq<Patching>, server: nat): seq<Patching> {
    if rows == [] then []
    else
      var n := |rows| - 1;
      if rows[n].server == server then RowsOf(rows[..n], server) + [rows[n]] else RowsOf(rows[..n], server)
  }

  /** `servers LEFT OUTER JOIN patching`: the joined dates; a server without a row is joined to NULL once. */
  function Joined(servers: seq<nat>, rows: seq<Patching>): seq<(nat, Option<int>)> {
    if servers == [] then []
    else
      var n := |servers| - 1;
      var matches := RowsOf(rows, servers[n]);
      Joined(servers[..n], rows)
      + if matches == [] then [(servers[n], None)]
        else seq(|matches|, i requires 0 <= i < |matches| => (servers[n], matches[i].lastPatch))
  }

  /** The server rows the report lists for a class. */
  function CountJoined(joined: seq<(nat, Option<int>)>, class_: Class, now: int, t: Thresholds): nat {
    if joined == [] then 0
    else
      var n := |joined| - 1;
      CountJoined(joined[..n], class_, now, t) + if Selects(class_, joined[n].1, now, t) then 1 else 0
  }

  predicate Distinct(servers: seq<nat>) {
    forall i, j :: 0 <= i < j < |servers| ==> servers[i] != servers[j]
  }

  /** Server ids are a primary key; a patching row belongs to an existing server, and a server has at most one. */
  predicate Keyed(servers: seq<nat>, rows: seq<Patching>) {
    && Distinct(servers)
    && (forall p :: p in rows ==> p.server in servers)
    && OnePerServer(rows)
  }

  /** The rows of every other server. */
  function Others(rows: seq<Patching>, server: nat): (r: seq<Patching>)
    ensures forall p :: p in r <==> p in rows && p.server != server
  {
    if rows == [] then []
    else
      var n := |rows| - 1;
      assert rows == rows[..n] + [rows[n]];
      if rows[n].server == server then Others(rows[..n], server) else Others(rows[..n], server) + [rows[n]]
  }

  lemma {:induction false} CountSplits(rows: seq<Patching>, server: nat, c: Class, now: int, t: Thresholds)
    ensures CountPatching(rows, c, now, t)
            == CountPatching(Others(rows, server), c, now, t) + CountPatching(RowsOf(rows, server), c, now, t)
  {
    if rows != [] {
      CountSplits(rows[..|rows| - 1], server, c, now, t);
    }
  }

  predicate OnePerServer(rows: seq<Patching>) {
    forall i, j :: 0 <= i < j < |rows| ==> rows[i].server != rows[j].server
  }

  lemma {:induction false} OthersStayUnique(rows: seq<Patching>, server: nat)
    requires OnePerServer(rows)
    ensures OnePerServer(Others(rows, server))
  {
    if rows != [] {
      var n := |rows| - 1;
      OthersStayUnique(rows[..n], server);
      var r := Others(rows[..n], server);
      forall i | 0 <= i < |r| ensures r[i].server != rows[n].server {
        assert r[i] in rows[..n];
      }
    }
  }

  lemma {:induction false} NoRowsOf(rows: seq<Patching>, server: nat)
    requires forall i :: 0 <= i < |rows| ==> rows[i].server != server
    ensures RowsOf(rows, server) == []
  {
    if rows != [] {
      NoRowsOf(rows[..|rows| - 1], server);
    }
  }

  lemma {:induction false} AtMostOneRow(rows: seq<Patching>, server: nat)
    requires OnePerServer(rows)
    ensures |RowsOf(rows, server)| <= 1
  {
    if rows != [] {
      var n := |rows| - 1;
      AtMostOneRow(rows[..n], server);
      if rows[n].server == server {
        NoRowsOf(rows[..n], server);
      }
    }
  }

  lemma SomeMember<T>(s: seq<T>)
    ensures s != [] ==> s[0] in s
  {
  }

  lemma NoServersNoRows(servers: seq<nat>, rows: seq<Patching>)
    requires Keyed(servers, rows) && servers == []
    ensures rows == []
  {
    SomeMember(rows);
  }

  lemma {:induction false} RowsOfOthers(rows: seq<Patching>, gone: nat, server: nat)
    ensures RowsOf(Others(rows, gone), server) == if server == gone then [] else RowsOf(rows, server)
  {
    if rows != [] {
      RowsOfOthers(rows[..|rows| - 1], gone, server);
    }
  }

  lemma {:induction false} JoinedIgnores(servers: seq<nat>, rows: seq<Patching>, gone: nat)
    requires gone !in servers
    ensures Joined(servers, Others(rows, gone)) == Joined(servers, rows)
  {
    if servers != [] {
      var n := |servers| - 1;
      assert servers[n] in servers;
      JoinedIgnores(servers[..n], rows, gone);
      RowsOfOthers(rows, gone, servers[n]);
    }
  }

  lemma CountLast(joined: seq<(nat, Option<int>)>, last: (nat, Option<int>), c: Class, now: int, t: Thresholds)
    ensures CountJoined(joined + [last], c, now, t)
            == CountJoined(joined, c, now, t) + if Selects(c, last.1, now, t) then 1 else 0
  {
    assert (joined + [last])[..|joined|] == joined;
  }

  /** The date a server is joined to, given that it has at most one row. */
  lemma JoinedLast(servers: seq<nat>, rows: seq<Patching>)
    requires servers != [] && |RowsOf(rows, servers[|servers| - 1])| <= 1
    ensures var s, own := servers[|servers| - 1], RowsOf(rows, servers[|servers| - 1]);
            Joined(servers, rows)
              == Joined(servers[..|servers| - 1], rows) + [(s, if own == [] then None else own[0].lastPatch)]
  {
  }

  /** Counting patching rows gives the number of servers the report lists, for every class but `Unknown`. */
  lemma {:induction false} CountsAgree(servers: seq<nat>, rows: seq<Patching>, c: Class, now: int, t: Thresholds)
    requires Keyed(servers, rows) && !c.Unknown?
    ensures CountPatching(rows, c, now, t) == CountJoined(Joined(servers, rows), c, now, t)
    decreases |servers|
  {
    if servers == [] {
      NoServersNoRows(servers, rows);
    } else {
      var n := |servers| - 1;
      var s, rest, own := servers[n], servers[..n], RowsOf(rows, servers[n]);
      RestIsKeyed(servers, rows);
      CountsAgree(rest, Others(rows, s), c, now, t);
      CountSplits(rows, s, c, now, t);
      JoinedIgnores(rest, rows, s);
      AtMostOneRow(rows, s);
      JoinedLast(servers, rows);
      CountLast(Joined(rest, rows), (s, if own == [] then None else own[0].lastPatch), c, now, t);
      CountOfOne(own, c, now, t);
      hide *;
    }
  }

  lemma RestIsKeyed(servers: seq<nat>, rows: seq<Patching>)
    requires Keyed(servers, rows) && servers != []
    ensures var n := |servers| - 1;
            servers[n] !in servers[..n] && Keyed(servers[..n], Others(rows, servers[n]))
  {
    var n := |servers| - 1;
    OthersStayUnique(rows, servers[n]);
    assert servers == servers[..n] + [servers[n]];
  }

  lemma CountOfOne(own: seq<Patching>, c: Class, now: int, t: Thresholds)
    requires |own| <= 1 && !c.Unknown?
    ensures CountPatching(own, c, now, t)
            == if Selects(c, if own == [] then None else own[0].lastPatch, now, t) then 1 else 0
  {
  }

  lemma {:induction false} JoinedSize(servers: seq<nat>, rows: seq<Patching>)
    requires OnePerServer(rows)
    ensures |Joined(servers, rows)| == |servers|
  {
    if servers != [] {
      var n := |servers| - 1;
      AtMostOneRow(rows, servers[n]);
      JoinedLast(servers, rows);
      JoinedSize(servers[..n], rows);
    }
  }

  lemma {:induction false} ClassesPartition(joined: seq<(nat, Option<int>)>, now: int, t: Thresholds)
    requires t.dueSoon >= 0
    ensures CountJoined(joined, Compliant, now, t) + CountJoined(joined, DueSoon, now, t)
            + CountJoined(joined, Overdue, now, t) + CountJoined(joined, Unknown, now, t) == |joined|
  {
    if joined != [] {
      var n := |joined| - 1;
      ClassesPartition(joined[..n], now, t);
      assert Selects(ReportClass(joined[n].1, now, t), joined[n].1, now, t);
    }
  }

  lemma KeyedIsUnique(servers: seq<nat>, rows: seq<Patching>)
    requires Keyed(servers, rows)
    ensures OnePerServer(rows)
  {
  }

  /** Every server is joined once, to the date of its row, or to NULL if it has no row or its row no date. */
  lemma {:induction false} JoinedIsExact(servers: seq<nat>, rows: seq<Patching>, k: nat)
    requires OnePerServer(rows) && k < |servers|
    ensures |Joined(servers, rows)| == |servers| && Joined(servers, rows)[k].0 == servers[k]
    ensures forall p :: p in rows && p.server == servers[k] ==> Joined(servers, rows)[k].1 == p.lastPatch
    ensures (forall p :: p in rows ==> p.server != servers[k]) ==> Joined(servers, rows)[k].1 == None
  {
    var n := |servers| - 1;
    JoinedSize(servers, rows);
    JoinedSize(servers[..n], rows);
    AtMostOneRow(rows, servers[n]);
    JoinedLast(servers, rows);
    if k < n {
      JoinedIsExact(servers[..n], rows, k);
    } else {
      RowsOfMembers(rows, servers[n]);
    }
  }

  lemma {:induction false} RowsOfMembers(rows: seq<Patching>, server: nat)
    ensures forall p :: p in RowsOf(rows, server) <==> p in rows && p.server == server
  {
    if rows != [] {
      var n := |rows| - 1;
      RowsOfMembers(rows[..n], server);
      assert rows == rows[..n] + [rows[n]];
    }
  }

  function Selected(joined: seq<(nat, Option<int>)>, class_: Class, now: int, t: Thresholds): set<nat> {
    set k: nat | k < |joined| && Selects(class_, joined[k].1, now, t)
  }

  lemma SelectedLast(joined: seq<(nat, Option<int>)>, class_: Class, now: int, t: Thresholds)
    requires joined != []
    ensures var n := |joined| - 1; var rest := Selected(joined[..n], class_, now, t);
            n !in rest && Selected(joined, class_, now, t)
                          == if Selects(class_, joined[n].1, now, t) then rest + {n} else rest
  {
    hide Selects;
  }

  /** The count of a class is the number of joined servers whose date its filter selects. */
  lemma {:induction false} CountIsNumber(joined: seq<(nat, Option<int>)>, class_: Class, now: int, t: Thresholds)
    ensures CountJoined(joined, class_, now, t) == |Selected(joined, class_, now, t)|
  {
    if joined != [] {
      CountIsNumber(joined[..|joined| - 1], class_, now, t);
      SelectedLast(joined, class_, now, t);
    }
  }

  datatype Report = Report(compliant: nat, dueSoon: nat, overdue: nat, unknown: nat)

  /** The summary counts: three count patching rows, the fourth counts joined servers; together they are all servers. */
  method ComplianceCounts(servers: seq<nat>, rows: seq<Patching>, now: int, t: Thresholds) returns (r: Report)
    requires Keyed(servers, rows) && t.dueSoon >= 0
    ensures r.compliant + r.dueSoon + r.overdue + r.unknown == |servers|
    ensures forall c :: CountJoined(Joined(servers, rows), c, now, t)
                        == match c
                           case Compliant => r.compliant
                           case DueSoon => r.dueSoon
                           case Overdue => r.overdue
                           case Unknown => r.unknown
  {
    hide CountPatching, CountJoined, Joined, Keyed, Selects;
    r := Report(
      CountPatching(rows, Compliant, now, t), CountPatching(rows, DueSoon, now, t),
      CountPatching(rows, Overdue, now, t), CountJoined(Joined(servers, rows), Unknown, now, t));
    CountsAgree(servers, rows, Compliant, now, t);
    CountsAgree(servers, rows, DueSoon, now, t);
    CountsAgree(servers, rows, Overdue, now, t);
    ClassesPartition(Joined(servers, rows), now, t);
    assert OnePerServer(rows) by { KeyedIsUnique(servers, rows); }
    JoinedSize(servers, rows);
  }

  // ── Pages ─────────────────────────────────────────────────────────────────

  function TotalPages(total: nat, perPage: nat): (pages: nat)
    requires perPage > 0
    ensures pages >= 1 && (pages - 1) * perPage <= total <= pages * perPage
    ensures total > 0 ==> (pages - 1) * perPage < total
  {
    var up := -((-(total as int)) / perPage as int);
    if up >= 1 then up else 1
  }

  /** `query.offset((page - 1) * per_page).limit(per_page)`. */
  function Page<T>(rows: seq<T>, page: nat, perPage: nat): seq<T>
    requires page >= 1
  {
    var from := (page - 1) * perPage;
    if from >= |rows| then [] else rows[from..Min(from + perPage, |rows|)]
  }

  /** Row i of page p is row (p - 1) * perPage + i; every page but the last is full. */
  lemma PageIsExact<T>(rows: seq<T>, page: nat, perPage: nat)
    requires page >= 1 && perPage > 0
    ensures |Page(rows, page, perPage)| <= perPage
    ensures |Page(rows, page, perPage)| < perPage ==> page >= TotalPages(|rows|, perPage)
    ensures forall i :: 0 <= i < |Page(rows, page, perPage)| ==>
              (page - 1) * perPage + i < |rows| && Page(rows, page, perPage)[i] == rows[(page - 1) * perPage + i]
  {
    var pages := TotalPages(|rows|, perPage);
    if page < pages {
      assert page * perPage <= (pages - 1) * perPage;
      assert page * perPage == (page - 1) * perPage + perPage;
    }
  }

  function FirstPages<T>(rows: seq<T>, pages: nat, perPage: nat): seq<T> {
    if pages == 0 then [] else FirstPages(rows, pages - 1, perPage) + Page(rows, pages, perPage)
  }

  lemma {:induction false} FirstPagesArePrefix<T>(rows: seq<T>, pages: nat, perPage: nat)
    ensures FirstPages(rows, pages, perPage) == rows[..Min(pages * perPage, |rows|)]
  {
    if pages > 0 {
      FirstPagesArePrefix(rows, pages - 1, perPage);
      assert pages * perPage == (pages - 1) * perPage + perPage;
    }
  }

  lemma EnoughPages(total: nat, perPage: nat)
    requires perPage > 0
    ensures Min(TotalPages(total, perPage) * perPage, total) == total
  {
  }

  /** The pages offered show every row once, in order, and the last is not empty unless there is no row. */
  lemma PagesShowEveryRow<T>(rows: seq<T>, perPage: nat)
    requires perPage > 0
    ensures FirstPages(rows, TotalPages(|rows|, perPage), perPage) == rows
    ensures rows != [] ==> Page(rows, TotalPages(|rows|, perPage), perPage) != []
  {
    hide FirstPages, TotalPages;
    FirstPagesArePrefix(rows, TotalPages(|rows|, perPage), perPage);
    EnoughPages(|rows|, perPage);
    assert rows[..|rows|] == rows;
  }
}
