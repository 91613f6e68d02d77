// Keyset pagination of the audit log (backend/app/audit_log.py:154-197).
//
// The table is a list of rows in any order with distinct ids; times are
// integers. The cursor's text form is taken to round-trip.
module AuditLog {
  import opened Basics

  datatype Row = Row(id: int, tenant: int, application: int, occurredAt: int, actor: int, eventType: string, result: string)

  datatype Cursor = Cursor(occurredAt: int, id: int)

  datatype Query = Query(application: Option<int>, occurredFrom: Option<int>, occurredTo: Option<int>,
                         actor: Option<int>, eventType: string, result: string,
                         cursor: Option<Cursor>, limit: int)

  datatype Page = Page(items: seq<Row>, next: Option<Cursor>, total: nat)

  // ----- filters -----

  datatype Filter =
    | TenantIs(tenant: int)
    | ApplicationIs(application: int)
    | FromTime(time: int)
    | ToTime(time: int)
    | ActorIs(actor: int)
    | EventTypeIs(name: string)
    | ResultIs(name: string)

  predicate Passes(r: Row, f: Filter) {
    match f
    case TenantIs(t) => r.tenant == t
    case ApplicationIs(a) => r.application == a
    case FromTime(t) => r.occurredAt >= t
    case ToTime(t) => r.occurredAt <= t
    case ActorIs(a) => r.actor == a
    case EventTypeIs(n) => r.eventType == n
    case ResultIs(n) => r.result == n
  }

  predicate PassesAll(r: Row, fs: seq<Filter>) {
    forall f :: f in fs ==> Passes(r, f)
  }

  // What the query asks for.
  ghost predicate Wanted(r: Row, tenant: int, q: Query) {
    && r.tenant == tenant
    && (q.application.Some? ==> r.application == q.application.value)
    && (q.occurredFrom.Some? ==> r.occurredAt >= q.occurredFrom.value)
    && (q.occurredTo.Some? ==> r.occurredAt <= q.occurredTo.value)
    && (q.actor.Some? ==> r.actor == q.actor.value)
    && (q.eventType != "" ==> r.eventType == q.eventType)
    && (q.result != "" ==> r.result == q.result)
  }

  function AddIf(fs: seq<Filter>, given: bool, f: Filter): seq<Filter> {
    if given then fs + [f] else fs
  }

  // What a query restricts, in the order the code adds it. `Or` reads a value
  // that is only looked at when it is there.
  function FiltersOf(tenant: int, q: Query): seq<Filter> {
    var f0 := [TenantIs(tenant)];
    var f1 := AddIf(f0, q.application.Some?, ApplicationIs(Or(q.application)));
    var f2 := AddIf(f1, q.occurredFrom.Some?, FromTime(Or(q.occurredFrom)));
    var f3 := AddIf(f2, q.occurredTo.Some?, ToTime(Or(q.occurredTo)));
    var f4 := AddIf(f3, q.actor.Some?, ActorIs(Or(q.actor)));
    var f5 := AddIf(f4, q.eventType != "", EventTypeIs(q.eventType));
    AddIf(f5, q.result != "", ResultIs(q.result))
  }

  function Or(o: Option<int>): int {
    if o.Some? then o.value else 0
  }

  lemma AddIfPasses(r: Row, fs: seq<Filter>, given: bool, f: Filter)
    ensures PassesAll(r, AddIf(fs, given, f)) <==> PassesAll(r, fs) && (given ==> Passes(r, f))
  {
    if given {
      assert f in fs + [f];
      assert PassesAll(r, fs + [f]) ==> forall g :: g in fs ==> g in fs + [f];
    }
  }

  // A row passes all the filters exactly when it is what the query asks for.
  lemma FiltersMean(tenant: int, q: Query, r: Row)
    ensures PassesAll(r, FiltersOf(tenant, q)) <==> Wanted(r, tenant, q)
  {
    var f0 := [TenantIs(tenant)];
    assert PassesAll(r, f0) <==> Passes(r, f0[0]);
    hide PassesAll;
    var f1 := AddIf(f0, q.application.Some?, ApplicationIs(Or(q.application)));
    var f2 := AddIf(f1, q.occurredFrom.Some?, FromTime(Or(q.occurredFrom)));
    var f3 := AddIf(f2, q.occurredTo.Some?, ToTime(Or(q.occurredTo)));
    var f4 := AddIf(f3, q.actor.Some?, ActorIs(Or(q.actor)));
    var f5 := AddIf(f4, q.eventType != "", EventTypeIs(q.eventType));
    AddIfPasses(r, f0, q.application.Some?, ApplicationIs(Or(q.application)));
    AddIfPasses(r, f1, q.occurredFrom.Some?, FromTime(Or(q.occurredFrom)));
    AddIfPasses(r, f2, q.occurredTo.Some?, ToTime(Or(q.occurredTo)));
    AddIfPasses(r, f3, q.actor.Some?, ActorIs(Or(q.actor)));
    AddIfPasses(r, f4, q.eventType != "", EventTypeIs(q.eventType));
    AddIfPasses(r, f5, q.result != "", ResultIs(q.result));
    hide AddIf;
  }

  method AuditFilters(tenant: int, q: Query) returns (fs: seq<Filter>)
    ensures fs == FiltersOf(tenant, q)
    ensures forall r :: PassesAll(r, fs) <==> Wanted(r, tenant, q)
  {
    hide PassesAll, Wanted;
    fs := [TenantIs(tenant)];
    if q.application.Some? {
      fs := fs + [ApplicationIs(q.application.value)];
    }
    if q.occurredFrom.Some? {
      fs := fs + [FromTime(q.occurredFrom.value)];
    }
    if q.occurredTo.Some? {
      fs := fs + [ToTime(q.occurredTo.value)];
    }
    if q.actor.Some? {
      fs := fs + [ActorIs(q.actor.value)];
    }
    if q.eventType != "" {
      fs := fs + [EventTypeIs(q.eventType)];
    }
    if q.result != "" {
      fs := fs + [ResultIs(q.result)];
    }
    assert fs == FiltersOf(tenant, q);
    forall r
      ensures PassesAll(r, fs) <==> Wanted(r, tenant, q)
    {
      FiltersMean(tenant, q, r);
    }
  }

  // ----- the order and the database query -----

  // Newest first, larger ids first among equal times.
  predicate Precedes(a: Row, b: Row) {
    a.occurredAt > b.occurredAt || (a.occurredAt == b.occurredAt && a.id > b.id)
  }

  predicate Follows(c: Option<Cursor>, r: Row) {
    c.None? || r.occurredAt < c.value.occurredAt || (r.occurredAt == c.value.occurredAt && r.id < c.value.id)
  }

  function CursorOf(r: Row): Cursor {
    Cursor(r.occurredAt, r.id)
  }

  function Select(table: seq<Row>, fs: seq<Filter>, c: Option<Cursor>): seq<Row> {
    if table == [] then []
    else
      var r := table[|table| - 1];
      Select(table[..|table| - 1], fs, c) + (if PassesAll(r, fs) && Follows(c, r) then [r] else [])
  }

  function InsertSorted(r: Row, s: seq<Row>): seq<Row> {
    if s == [] || Precedes(r, s[0]) then [r] + s else [s[0]] + InsertSorted(r, s[1..])
  }

  function Sort(s: seq<Row>): seq<Row> {
    if s == [] then [] else InsertSorted(s[0], Sort(s[1..]))
  }

  function Clamp(limit: int): (r: nat)
    ensures 1 <= r <= 200
  {
    var atMost := if limit < 200 then limit else 200;
    if atMost < 1 then 1 else atMost
  }

  function PageOf(table: seq<Row>, fs: seq<Filter>, limit: nat, c: Option<Cursor>): Page
    requires limit >= 1
  {
    var rows := Sort(Select(table, fs, c));
    var total := |Select(table, fs, None)|;
    if |rows| > limit then Page(rows[..limit], Some(CursorOf(rows[limit - 1])), total)
    else Page(rows, None, total)
  }

  method ListAuditLogs(table: seq<Row>, tenant: int, q: Query) returns (page: Page)
    ensures page == PageOf(table, FiltersOf(tenant, q), Clamp(q.limit), q.cursor)
    ensures DistinctIds(table) ==> IsPage(table, tenant, q, page)
  {
    hide Sort, Select, IsPage;
    var filters := AuditFilters(tenant, q);
    var total := |Select(table, filters, None)|;
    var limit := Clamp(q.limit);
    var sorted := Sort(Select(table, filters, q.cursor));
    var rows := if |sorted| > limit + 1 then sorted[..limit + 1] else sorted;
    var hasMore := |rows| > limit;
    var items := if hasMore then rows[..limit] else rows;
    var next := if hasMore then Some(CursorOf(items[|items| - 1])) else None;
    assert hasMore ==> items == sorted[..limit];
    page := Page(items, next, total);
    if DistinctIds(table) {
      PageSays(table, tenant, q, page);
    }
  }

  // ----- what a page is -----

  // Newest first, and of equal times the larger id first.
  ghost predicate NewestFirst(rows: seq<Row>) {
    forall i, j :: 0 <= i < j < |rows| ==>
      rows[i].occurredAt > rows[j].occurredAt || (rows[i].occurredAt == rows[j].occurredAt && rows[i].id > rows[j].id)
  }

  // The wanted rows that come after the cursor in that order.
  ghost predicate Remains(table: seq<Row>, tenant: int, q: Query, after: Option<Cursor>, r: Row) {
    && r in table && Wanted(r, tenant, q)
    && (after.Some? ==>
          r.occurredAt < after.value.occurredAt || (r.occurredAt == after.value.occurredAt && r.id < after.value.id))
  }

  ghost predicate AreRemaining(rows: seq<Row>, table: seq<Row>, tenant: int, q: Query, after: Option<Cursor>) {
    NewestFirst(rows) && forall r :: r in rows <==> Remains(table, tenant, q, after, r)
  }

  // At least 1 and at most 200 rows, as asked for in between.
  ghost predicate IsPageSize(limit: int, n: nat) {
    (1 <= limit <= 200 && n == limit) || (limit < 1 && n == 1) || (limit > 200 && n == 200)
  }

  // The first `n` of the rows that remain, a cursor at the last of them when
  // there are more, and the number of all wanted rows.
  ghost predicate IsPageOf(page: Page, n: nat, rest: seq<Row>, wanted: seq<Row>) {
    && page.total == |wanted|
    && (if |rest| <= n then page.items == rest && page.next.None?
        else n >= 1 && page.items == rest[..n] && page.next == Some(Cursor(rest[n - 1].occurredAt, rest[n - 1].id)))
  }

  ghost predicate IsPage(table: seq<Row>, tenant: int, q: Query, page: Page) {
    exists n, rest, wanted ::
      && IsPageSize(q.limit, n)
      && AreRemaining(rest, table, tenant, q, q.cursor) && AreRemaining(wanted, table, tenant, q, None)
      && IsPageOf(page, n, rest, wanted)
  }

  lemma RemainingAre(table: seq<Row>, tenant: int, q: Query, after: Option<Cursor>)
    requires DistinctIds(table)
    ensures AreRemaining(Sort(Select(table, FiltersOf(tenant, q), after)), table, tenant, q, after)
  {
    hide Sort, Select, PassesAll, FiltersOf, Wanted, DistinctIds;
    SelectionIs(table, FiltersOf(tenant, q), after);
    forall r
      ensures PassesAll(r, FiltersOf(tenant, q)) <==> Wanted(r, tenant, q)
    {
      FiltersMean(tenant, q, r);
    }
  }

  lemma PageSays(table: seq<Row>, tenant: int, q: Query, page: Page)
    requires DistinctIds(table) && page == PageOf(table, FiltersOf(tenant, q), Clamp(q.limit), q.cursor)
    ensures IsPage(table, tenant, q, page)
  {
    hide Sort, Select, PassesAll, FiltersOf, Wanted, DistinctIds, AreRemaining;
    var fs := FiltersOf(tenant, q);
    RemainingAre(table, tenant, q, q.cursor);
    RemainingAre(table, tenant, q, None);
    SortLength(Select(table, fs, None));
    assert IsPageSize(q.limit, Clamp(q.limit));
    assert IsPageOf(page, Clamp(q.limit), Sort(Select(table, fs, q.cursor)), Sort(Select(table, fs, None)));
  }

  // ----- the sorted selection -----

  ghost predicate DistinctIds(s: seq<Row>) {
    forall i, j :: 0 <= i < j < |s| ==> s[i].id != s[j].id
  }

  ghost predicate Descending(s: seq<Row>) {
    forall i, j :: 0 <= i < j < |s| ==> Precedes(s[i], s[j])
  }

  lemma {:induction false} SelectMembers(table: seq<Row>, fs: seq<Filter>, c: Option<Cursor>)
    ensures forall r :: r in Select(table, fs, c) <==> r in table && PassesAll(r, fs) && Follows(c, r)
    ensures DistinctIds(table) ==> DistinctIds(Select(table, fs, c))
    decreases |table|
  {
    hide PassesAll, Follows;
    if table != [] {
      var n := |table| - 1;
      SelectMembers(table[..n], fs, c);
      assert table == table[..n] + [table[n]];
      var front := Select(table[..n], fs, c);
      if DistinctIds(table) {
        forall i | 0 <= i < |front|
          ensures front[i].id != table[n].id
        {
          assert front[i] in table[..n];
        }
      }
    }
  }

  lemma {:induction false} InsertKeepsOrder(r: Row, s: seq<Row>)
    requires Descending(s) && forall x :: x in s ==> x.id != r.id
    ensures Descending(InsertSorted(r, s))
    ensures |InsertSorted(r, s)| == |s| + 1
    ensures forall x :: x in InsertSorted(r, s) <==> x == r || x in s
  {
    if s != [] && !Precedes(r, s[0]) {
      assert s == [s[0]] + s[1..];
      var rest := InsertSorted(r, s[1..]);
      InsertKeepsOrder(r, s[1..]);
      assert s[0] in s;
      forall x | x in rest
        ensures Precedes(s[0], x)
      {
        if x != r {
          var i :| 0 <= i < |s[1..]| && s[1..][i] == x;
          assert s[i + 1] == x;
        }
      }
    }
  }

  lemma {:induction false} SortOrders(s: seq<Row>)
    requires DistinctIds(s)
    ensures Descending(Sort(s)) && |Sort(s)| == |s|
    ensures forall x :: x in Sort(s) <==> x in s
    decreases |s|
  {
    if s != [] {
      SortOrders(s[1..]);
      assert s == [s[0]] + s[1..];
      forall x | x in s[1..]
        ensures x.id != s[0].id
      {
        var i :| 0 <= i < |s[1..]| && s[1..][i] == x;
        assert s[i + 1] == x;
      }
      InsertKeepsOrder(s[0], Sort(s[1..]));
    }
  }

  // The rows a page is cut from: the wanted rows after the cursor, in order.
  lemma SelectionIs(table: seq<Row>, fs: seq<Filter>, c: Option<Cursor>)
    requires DistinctIds(table)
    ensures var s := Sort(Select(table, fs, c));
            Descending(s) && forall r :: r in s <==> r in table && PassesAll(r, fs) && Follows(c, r)
  {
    SelectMembers(table, fs, c);
    SortOrders(Select(table, fs, c));
  }

  // ----- following the cursor -----

  // Fetches one after the other, each of the table as it is at that time.
  datatype Chain = First(table: seq<Row>, page: Page) | Then(before: Chain, table: seq<Row>, page: Page)

  ghost predicate IsChain(ch: Chain, fs: seq<Filter>, limit: nat)
    requires limit >= 1
  {
    && DistinctIds(ch.table)
    && match ch
       case First(t, p) => p == PageOf(t, fs, limit, None)
       case Then(b, t, p) =>
         && IsChain(b, fs, limit)
         && b.page.next.Some?
         && (forall r :: r in b.table ==> r in t)
         && p == PageOf(t, fs, limit, b.page.next)
  }

  function Delivered(ch: Chain): seq<Row> {
    match ch
    case First(_, p) => p.items
    case Then(b, _, p) => Delivered(b) + p.items
  }

  function FirstTable(ch: Chain): seq<Row> {
    match ch
    case First(t, _) => t
    case Then(b, _, _) => FirstTable(b)
  }

  function Pages(ch: Chain): nat {
    match ch
    case First(_, _) => 1
    case Then(b, _, _) => Pages(b) + 1
  }

  // Everything delivered comes before everything that follows the cursor.
  ghost predicate AllBefore(d: seq<Row>, c: Option<Cursor>) {
    c.Some? ==> forall r :: r in d ==> !Follows(c, r)
  }

  // In a descending list, what does not follow its n-th row is among the first n.
  lemma LaterFollows(s: seq<Row>, n: nat, r: Row)
    requires Descending(s) && 1 <= n <= |s| && r in s
    ensures Follows(Some(CursorOf(s[n - 1])), r) || r in s[..n]
  {
    var j :| 0 <= j < |s| && s[j] == r;
    if j < n {
      assert s[..n][j] == r;
    } else {
      assert Precedes(s[n - 1], s[j]);
    }
  }

  lemma PageFacts(table: seq<Row>, fs: seq<Filter>, limit: nat, c: Option<Cursor>)
    requires DistinctIds(table) && limit >= 1
    ensures var p := PageOf(table, fs, limit, c);
            && Descending(p.items)
            && (forall r :: r in p.items ==> r in table && PassesAll(r, fs) && Follows(c, r))
            && (forall r :: r in table && PassesAll(r, fs) && Follows(c, r) && !(p.next.Some? && Follows(p.next, r)) ==> r in p.items)
            && AllBefore(p.items, p.next)
            && (p.next.Some? ==> |p.items| == limit)
            && |p.items| <= limit
  {
    hide Sort, Select;
    SelectionIs(table, fs, c);
    var s := Sort(Select(table, fs, c));
    if |s| > limit {
      var last := s[limit - 1];
      forall r | r in s && !Follows(Some(CursorOf(last)), r)
        ensures r in s[..limit]
      {
        LaterFollows(s, limit, r);
      }
      forall r | r in s[..limit]
        ensures !Follows(Some(CursorOf(last)), r)
      {
        var j :| 0 <= j < limit && s[j] == r;
      }
    }
  }

  // Rows may be inserted between the fetches. Nothing is delivered twice and
  // everything in descending order, and every wanted row that was there from
  // the start is delivered by the time the cursor has passed it, hence all of
  // them when there is no next cursor.
  lemma {:induction false} FollowingTheCursor(ch: Chain, fs: seq<Filter>, limit: nat)
    requires limit >= 1 && IsChain(ch, fs, limit)
    ensures Descending(Delivered(ch)) && AllBefore(Delivered(ch), ch.page.next)
    ensures forall r :: r in Delivered(ch) ==> r in ch.table && PassesAll(r, fs)
    ensures forall r :: r in FirstTable(ch) ==> r in ch.table
    ensures forall r :: r in FirstTable(ch) && PassesAll(r, fs) && (ch.page.next.Some? ==> !Follows(ch.page.next, r))
                        ==> r in Delivered(ch)
    decreases ch
  {
    hide PageOf, PassesAll, DistinctIds;
    match ch {
      case First(t, p) =>
        PageFacts(t, fs, limit, None);
      case Then(b, t, p) =>
        FollowingTheCursor(b, fs, limit);
        PageFacts(t, fs, limit, b.page.next);
        CursorMovesOn(t, fs, limit, b.page.next, p);
        DescendingAppend(Delivered(b), p.items, b.page.next);
    }
  }

  lemma CursorMovesOn(t: seq<Row>, fs: seq<Filter>, limit: nat, c: Option<Cursor>, p: Page)
    requires limit >= 1 && DistinctIds(t) && c.Some? && p == PageOf(t, fs, limit, c)
    ensures p.next.Some? ==> forall r :: Follows(p.next, r) ==> Follows(c, r)
  {
    PageFacts(t, fs, limit, c);
    if p.next.Some? {
      assert p.items[limit - 1] in p.items;
    }
  }

  lemma DescendingAppend(a: seq<Row>, b: seq<Row>, c: Option<Cursor>)
    requires Descending(a) && Descending(b) && c.Some?
    requires forall r :: r in a ==> !Follows(c, r)
    requires forall r :: r in b ==> Follows(c, r)
    ensures Descending(a + b)
  {
    var s := a + b;
    forall i, j | 0 <= i < j < |s|
      ensures Precedes(s[i], s[j])
    {
      assert i < |a| ==> s[i] in a;
      assert j >= |a| ==> s[j] in b;
    }
  }

  // ----- a table that does not change -----

  ghost predicate Steady(ch: Chain, table: seq<Row>) {
    ch.table == table && (ch.Then? ==> Steady(ch.before, table))
  }

  // Two descending lists of the same rows are the same list.
  lemma {:induction false} DescendingIsUnique(a: seq<Row>, b: seq<Row>)
    requires Descending(a) && Descending(b)
    requires forall r :: r in a <==> r in b
    ensures a == b
    decreases |a|
  {
    SomeRow(a);
    SomeRow(b);
    if a != [] && b != [] {
      assert a[0] in b && a[0] in a;
      assert b[0] in a && b[0] in b;
      assert a[0] == b[0];
      forall r
        ensures r in a[1..] <==> r in b[1..]
      {
        TailMembers(a, r);
        TailMembers(b, r);
      }
      DescendingIsUnique(a[1..], b[1..]);
      assert a == [a[0]] + a[1..];
      assert b == [b[0]] + b[1..];
    }
  }

  lemma SomeRow(a: seq<Row>)
    ensures a == [] || a[0] in a
  {
  }

  lemma TailMembers(a: seq<Row>, r: Row)
    requires Descending(a) && a != []
    ensures r in a[1..] <==> r in a && r != a[0]
  {
    if r in a && r != a[0] {
      var i :| 0 <= i < |a| && a[i] == r;
      assert a[1..][i - 1] == r;
    }
    if r in a[1..] {
      var i :| 0 <= i < |a[1..]| && a[1..][i] == r;
      assert a[i + 1] == r && Precedes(a[0], a[i + 1]);
    }
  }

  // What follows the n-th row of a descending list is the list without its first n.
  lemma AfterCursor(s: seq<Row>, n: nat, r: Row)
    requires Descending(s) && 1 <= n <= |s|
    ensures r in s[n..] <==> r in s && Follows(Some(CursorOf(s[n - 1])), r)
  {
    if r in s[n..] {
      var i :| 0 <= i < |s[n..]| && s[n..][i] == r;
      assert s[n + i] == r && Precedes(s[n - 1], s[n + i]);
    }
    if r in s && Follows(Some(CursorOf(s[n - 1])), r) {
      var j :| 0 <= j < |s| && s[j] == r;
      assert j < n - 1 ==> Precedes(s[j], s[n - 1]);
      assert s[n..][j - n] == r;
    }
  }

  // The query that starts after the n-th wanted row finds the rest of them.
  lemma QueryAfterCursor(table: seq<Row>, fs: seq<Filter>, n: nat)
    requires DistinctIds(table)
    requires 1 <= n <= |Sort(Select(table, fs, None))|
    ensures var all := Sort(Select(table, fs, None));
            Sort(Select(table, fs, Some(CursorOf(all[n - 1])))) == all[n..]
  {
    hide Sort, Select, PassesAll, DistinctIds, CursorOf;
    var all := Sort(Select(table, fs, None));
    var c := Some(CursorOf(all[n - 1]));
    SelectionIs(table, fs, None);
    SelectionIs(table, fs, c);
    forall r
      ensures r in all[n..] <==> r in Sort(Select(table, fs, c))
    {
      AfterCursor(all, n, r);
    }
    DescendingIsUnique(all[n..], Sort(Select(table, fs, c)));
  }

  // How much of a list of n rows has been delivered after so many pages.
  function Upto(limit: nat, pages: nat, n: nat): (k: nat)
    ensures k <= n
  {
    if limit * pages < n then limit * pages else n
  }

  // The cursor that k delivered rows leave behind.
  function CursorAt(all: seq<Row>, k: nat): (c: Option<Cursor>)
    requires k <= |all|
    ensures c.Some? <==> k > 0
  {
    if k == 0 then None else Some(CursorOf(all[k - 1]))
  }

  // A page fetched after k rows is the next slice of the sorted selection.
  lemma PageIsSlice(table: seq<Row>, fs: seq<Filter>, limit: nat, k: nat)
    requires DistinctIds(table) && limit >= 1
    requires k <= |Sort(Select(table, fs, None))|
    ensures var all := Sort(Select(table, fs, None));
            PageOf(table, fs, limit, CursorAt(all, k))
            == Page(if k + limit < |all| then all[k..k + limit] else all[k..],
                    if k + limit < |all| then CursorAt(all, k + limit) else None,
                    |Select(table, fs, None)|)
  {
    hide Sort, Select, DistinctIds, CursorOf;
    var all := Sort(Select(table, fs, None));
    if k > 0 {
      QueryAfterCursor(table, fs, k);
    }
    assert all[0..] == all;
    if k + limit < |all| {
      assert all[k..][..limit] == all[k..k + limit];
      assert all[k..][limit - 1] == all[k + limit - 1];
    }
  }

  // Over a table that does not change, the pages fetched so far are the first
  // rows of the sorted selection, in order and cut every `limit` rows, and there
  // is a next cursor as long as rows are left.
  lemma {:induction false} PagesAreSlices(ch: Chain, table: seq<Row>, fs: seq<Filter>, limit: nat)
    requires limit >= 1 && IsChain(ch, fs, limit) && Steady(ch, table)
    ensures var all := Sort(Select(table, fs, None));
            var k := Upto(limit, Pages(ch), |all|);
            && Delivered(ch) == all[..k]
            && (ch.page.next.Some? <==> k < |all|)
            && (ch.page.next.Some? ==> ch.page.next == CursorAt(all, k))
            && ch.page.total == |Select(table, fs, None)|
            && (Pages(ch) > 1 ==> limit * (Pages(ch) - 1) < |all|)
    decreases ch
  {
    hide Sort, Select, DistinctIds, PageOf, CursorAt;
    var all := Sort(Select(table, fs, None));
    match ch {
      case First(t, p) =>
        PageIsSlice(table, fs, limit, 0);
        assert limit * 1 == limit;
        assert all[..|all|] == all;
      case Then(b, t, p) =>
        PagesAreSlices(b, table, fs, limit);
        MultiplySucc(limit, Pages(b));
        var k := Upto(limit, Pages(b), |all|);
        PageIsSlice(table, fs, limit, k);
        SlicesJoin(all, k, limit);
    }
  }

  lemma SlicesJoin(all: seq<Row>, k: nat, limit: nat)
    requires k <= |all|
    ensures k + limit < |all| ==> all[..k] + all[k..k + limit] == all[..k + limit]
    ensures all[..k] + all[k..] == all && all[..|all|] == all
  {
  }

  // Following the cursor from the start to the end over a fixed table delivers
  // exactly the wanted rows, each once and in order, in as few pages as there
  // can be: one for no rows, and otherwise the quotient rounded up.
  lemma WalkToTheEnd(ch: Chain, table: seq<Row>, fs: seq<Filter>, limit: nat)
    requires limit >= 1 && IsChain(ch, fs, limit) && Steady(ch, table) && ch.page.next.None?
    ensures Delivered(ch) == Sort(Select(table, fs, None))
    ensures Descending(Delivered(ch))
    ensures forall r :: r in Delivered(ch) <==> r in table && PassesAll(r, fs)
    ensures |Delivered(ch)| == ch.page.total
    ensures Pages(ch) == if ch.page.total == 0 then 1 else (ch.page.total + limit - 1) / limit
  {
    hide Sort, Select, DistinctIds, PassesAll;
    PagesAreSlices(ch, table, fs, limit);
    SelectionIs(table, fs, None);
    SortLength(Select(table, fs, None));
    var all := Sort(Select(table, fs, None));
    assert all[..|all|] == all;
    PagesBound(limit, Pages(ch), |all|);
  }

  lemma {:induction false} SortLength(s: seq<Row>)
    ensures |Sort(s)| == |s|
  {
    if s != [] {
      SortLength(s[1..]);
      InsertLength(s[0], Sort(s[1..]));
    }
  }

  lemma {:induction false} InsertLength(r: Row, s: seq<Row>)
    ensures |InsertSorted(r, s)| == |s| + 1
  {
    if s != [] && !Precedes(r, s[0]) {
      InsertLength(r, s[1..]);
    }
  }

  lemma PagesBound(limit: nat, pages: nat, n: nat)
    requires limit >= 1 && pages >= 1 && n <= limit * pages
    requires pages > 1 ==> limit * (pages - 1) < n
    ensures pages == if n == 0 then 1 else (n + limit - 1) / limit
  {
    Grows(limit, 0, pages - 1);
    if n > 0 {
      var rest := n + limit - 1 - limit * pages;
      assert limit * (pages - 1) == limit * pages - limit;
      assert 0 <= rest < limit;
      QuotientIs(n + limit - 1, limit, pages, rest);
    }
  }

  // Multiples of a number grow by at least that number.
  lemma {:induction false} Grows(d: nat, p: nat, q: nat)
    ensures p <= q ==> d * p <= d * q
    ensures p < q ==> d * p + d <= d * q
    decreases q
  {
    if p < q {
      Grows(d, p, q - 1);
      MultiplySucc(d, q - 1);
    }
  }

  lemma MultiplySucc(d: nat, p: nat)
    ensures d * (p + 1) == d * p + d
  {
  }

  lemma QuotientIs(a: int, d: nat, q: nat, r: nat)
    requires d >= 1 && a == d * q + r && r < d
    ensures a / d == q
  {
    var p := a / d;
    assert a == d * p + a % d;
    assert p >= 0;
    Grows(d, p, q);
    Grows(d, q, p);
  }
}
