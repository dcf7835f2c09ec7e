/**
 Cursor pagination of the activity center (protocol/activity_center_persistence.go:577-609, 728-760,
 1305-1321): every page fetches one row more than asked for and hands out that row's cursor.
 */
module ActivityPages {
  import opened Wrappers
  import opened ActivityCursor
  import opened ActivityQuery
  import opened ActivityStatement
  import opened DescendingOrder

  const INT64_MAX := 0x7FFF_FFFF_FFFF_FFFF
  const TWO64 := 0x1_0000_0000_0000_0000

  function Matching(t: Table, p: Params): set<Id> {
    set id | id in t && Satisfies(p, id, t[id])
  }

  function Cur(t: Table, id: Id): string
    requires id in t
  {
    CursorOf(id, t[id])
  }

  // ---------------------------------------------------------------------------
  // ORDER BY cursor DESC
  // ---------------------------------------------------------------------------

  /** Whether row a comes after row b in the listing. */
  function ByCursor(t: Table): (Id, Id) -> bool {
    (a: Id, b: Id) => a in t && b in t && TextLess(Cur(t, a), Cur(t, b))
  }

  lemma CursorsTransitive(t: Table, a: Id, b: Id, c: Id)
    requires ByCursor(t)(a, b) && ByCursor(t)(b, c)
    ensures ByCursor(t)(a, c)
  {
    TextTransitive(Cur(t, a), Cur(t, b), Cur(t, c));
  }

  /** Distinct rows have distinct cursors. */
  lemma CursorsDiffer(t: Table, a: Id, b: Id)
    requires a in t && b in t && a != b
    ensures ByCursor(t)(a, b) || ByCursor(t)(b, a)
  {
    TimestampFits(t[a].timestamp);
    TimestampFits(t[b].timestamp);
    CursorOrder(t[a].timestamp, a, t[b].timestamp, b);
    TextTotal(Cur(t, a), Cur(t, b));
  }

  lemma CursorsOrderRows(t: Table, ids: set<Id>)
    requires ids <= t.Keys
    ensures StrictTotal(ByCursor(t), ids)
  {
    var less := ByCursor(t);
    forall a | a in ids ensures !less(a, a) { TextIrreflexive(Cur(t, a)); }
    forall a, b | a in ids && b in ids && a != b ensures less(a, b) || less(b, a) { CursorsDiffer(t, a, b); }
    forall a, b, c | a in ids && b in ids && c in ids && less(a, b) && less(b, c) ensures less(a, c) {
      CursorsTransitive(t, a, b, c);
    }
  }

  /** The matching rows, largest cursor first. */
  ghost function Listing(t: Table, p: Params): seq<Id> {
    Descending(ByCursor(t), Matching(t, p))
  }

  lemma ListingFacts(t: Table, p: Params)
    ensures Sorted(ByCursor(t), Listing(t, p))
    ensures Elements(Listing(t, p)) == Matching(t, p) && |Listing(t, p)| == |Matching(t, p)|
  {
    CursorsOrderRows(t, Matching(t, p));
    DescendingSorted(ByCursor(t), Matching(t, p));
  }

  lemma ListingElement(t: Table, p: Params, k: nat)
    requires k < |Listing(t, p)|
    ensures Listing(t, p)[k] in Matching(t, p)
  {
    ListingFacts(t, p);
    assert Listing(t, p)[k] in Elements(Listing(t, p));
  }

  // ---------------------------------------------------------------------------
  // One page
  // ---------------------------------------------------------------------------

  /** int(limit) + 1 with 64-bit wrap-around. */
  function IncrementedLimit(limit: Uint64): int {
    if limit == INT64_MAX then -INT64_MAX - 1 else if limit < INT64_MAX then limit + 1 else limit + 1 - TWO64
  }

  datatype PageResult = Page(cursor: string, rows: seq<Id>) | DriverRejects | Panics

  /** What the statement returns: the first `limit` rows, all of them when no limit is given. */
  ghost function Fetched(t: Table, p: Params): seq<Id> {
    First(Listing(t, p), p.limit)
  }

  function Cur0(t: Table, id: Id): string {
    if id in t then Cur(t, id) else ""
  }

  /** The page with `limit` rows at most, followed by the cursor of the next row if there is one. */
  ghost function PageOf(t: Table, p: Params): PageResult {
    var q := Listing(t, p);
    if p.limit < |q| then Page(Cur0(t, q[p.limit]), q[..p.limit]) else Page("", q)
  }

  /** A statement as the database runs it: LIMIT reads the argument that the conditions leave. */
  method RunStatement(t: Table, stmt: Statement, args: seq<Arg>, ghost p: Params) returns (rows: seq<Id>)
    requires stmt.limited == (p.limit != 0)
    requires forall id: Id, row: Row :: Consume(stmt.conditions, args, id, row) == Some((Satisfies(p, id, row), LimitArgs(p)))
    ensures rows == Fetched(t, p)
  {
    var selected := set id | id in t && var c := Consume(stmt.conditions, args, id, t[id]); c.Some? && c.value.0;
    assert selected == Matching(t, p);
    LimitIsLeft(stmt, args, p, [], Row(0, 0, "", "", "", None, false, false, false, false, 0, "", ""));
    var left := args[TotalArity(stmt.conditions)..];
    var limit := if stmt.limited then left[0].n else 0;
    CursorsOrderRows(t, selected);
    rows := PickTop(ByCursor(t), selected, limit);
  }

  lemma LimitIsLeft(stmt: Statement, args: seq<Arg>, p: Params, id: Id, row: Row)
    requires Consume(stmt.conditions, args, id, row) == Some((Satisfies(p, id, row), LimitArgs(p)))
    ensures TotalArity(stmt.conditions) <= |args| && args[TotalArity(stmt.conditions)..] == LimitArgs(p)
  {
    LeftIsConsumed(stmt.conditions, args, id, row);
  }

  /** The cursor of the last scanned row. */
  method LatestCursor(t: Table, rows: seq<Id>) returns (latest: string)
    ensures latest == if rows == [] then "" else Cur0(t, rows[|rows| - 1])
  {
    latest := "";
    for i := 0 to |rows|
      invariant latest == if i == 0 then "" else Cur0(t, rows[i - 1])
    {
      latest := Cur0(t, rows[i]);
    }
  }

  /** buildActivityCenterQuery: conditions, LIMIT, rows and the cursor of the last row. */
  method BuildQuery(t: Table, p: Params) returns (latest: string, rows: seq<Id>)
    ensures rows == Fetched(t, p)
    ensures latest == if rows == [] then "" else Cur0(t, rows[|rows| - 1])
  {
    SelectFrameValid();
    var query, stmt, args := BuildStatement(SELECT_FRAME, p);
    rows := RunStatement(t, stmt, args, p);
    latest := LatestCursor(t, rows);
  }

  /** activityCenterNotifications */
  method NotificationsPage(t: Table, p: Params) returns (r: PageResult)
    requires p.limit < TWO64
    ensures p.limit < INT64_MAX ==> r == PageOf(t, p)
    ensures INT64_MAX <= p.limit < TWO64 - 1 ==> r == DriverRejects
    ensures p.limit == TWO64 - 1 ==> r == if Listing(t, p) == [] then Panics else Page("", Listing(t, p))
  {
    var incremented := IncrementedLimit(p.limit);
    var asUint64 := if incremented < 0 then incremented + TWO64 else incremented;
    if asUint64 > INT64_MAX { return DriverRejects; }
    var latest, rows := BuildQuery(t, p.(limit := asUint64));
    assert Matching(t, p.(limit := asUint64)) == Matching(t, p);
    if |rows| == incremented {
      if p.limit > |rows| { return Panics; }
      return Page(latest, rows[..p.limit]);
    }
    return Page("", rows);
  }

  /** buildActivityCenterNotificationsCountQuery: the same conditions, counted. */
  method NotificationsCount(t: Table, kinds: seq<int>, read: nat, accepted: bool) returns (count: nat)
    ensures count == |Matching(t, NO_PARAMS.(kinds := kinds, read := read, accepted := accepted))|
  {
    var p := NO_PARAMS.(kinds := kinds, read := read, accepted := accepted);
    var conditions, args := PrepareConditionsAndArgs(p);
    var selected := set id | id in t && Evaluate(conditions, args, id, t[id]) == Some(true);
    assert selected == Matching(t, p);
    count := |selected|;
  }

  // ---------------------------------------------------------------------------
  // All pages
  // ---------------------------------------------------------------------------

  lemma CursorNotEmpty(t: Table, id: Id)
    requires id in t
    ensures Cur(t, id) != ""
  {
    TimestampFits(t[id].timestamp);
    PaddedIsDigits(t[id].timestamp);
  }

  /** A cursor of a matching row narrows the query to the rows not above it. */
  lemma CursorNarrows(t: Table, p: Params, x: Id)
    requires x in Matching(t, p)
    ensures Cur(t, x) != ""
    ensures Matching(t, p.(cursor := Cur(t, x))) == Below(ByCursor(t), Matching(t, p), x)
  {
    CursorNotEmpty(t, x);
    var c, next := Cur(t, x), p.(cursor := Cur(t, x));
    forall id | id in Matching(t, next) ensures id in Matching(t, p) {
      if p.cursor != "" && TextLess(p.cursor, Cur(t, id)) {
        TextTotal(c, p.cursor);
        if TextLess(c, p.cursor) { TextTransitive(c, p.cursor, Cur(t, id)); }
      }
    }
  }

  lemma ListingSuffix(t: Table, p: Params, next: Params, k: nat)
    requires k < |Listing(t, p)|
    requires Matching(t, next) == Below(ByCursor(t), Matching(t, p), Listing(t, p)[k])
    ensures Listing(t, next) == Listing(t, p)[k..]
  {
    CursorsOrderRows(t, Matching(t, p));
    SuffixFrom(ByCursor(t), Matching(t, p), k);
  }

  /** The returned cursor continues exactly where the page stopped. */
  lemma NextPageContinues(t: Table, p: Params)
    requires p.limit < |Listing(t, p)|
    ensures var next := p.(cursor := Cur0(t, Listing(t, p)[p.limit]));
            next.cursor != "" && Listing(t, next) == Listing(t, p)[p.limit..]
  {
    var x := Listing(t, p)[p.limit];
    ListingElement(t, p, p.limit);
    CursorNarrows(t, p, x);
    ListingSuffix(t, p, p.(cursor := Cur(t, x)), p.limit);
  }

  /** The pages a caller gets by feeding the cursor back until it is empty. */
  ghost function AllPages(t: Table, p: Params): seq<seq<Id>>
    requires p.limit >= 1
    decreases |Listing(t, p)|
  {
    var page := PageOf(t, p);
    if page.cursor == "" then [page.rows]
    else
      NextPageContinues(t, p);
      assert |Listing(t, p.(cursor := page.cursor))| < |Listing(t, p)|;
      [page.rows] + AllPages(t, p.(cursor := page.cursor))
  }

  function Flatten(pages: seq<seq<Id>>): seq<Id> {
    if pages == [] then [] else pages[0] + Flatten(pages[1..])
  }

  /** A listing cut into pages. */
  function Chunks(q: seq<Id>, limit: nat): seq<seq<Id>>
    requires limit >= 1
  {
    if |q| <= limit then [q] else [q[..limit]] + Chunks(q[limit..], limit)
  }

  lemma {:induction false} ChunksFlatten(q: seq<Id>, limit: nat)
    requires limit >= 1
    ensures Flatten(Chunks(q, limit)) == q
    ensures forall i | 0 <= i < |Chunks(q, limit)| - 1 :: |Chunks(q, limit)[i]| == limit
    ensures Chunks(q, limit) != [] && |Chunks(q, limit)[|Chunks(q, limit)| - 1]| <= limit
  {
    var pages := Chunks(q, limit);
    if |q| <= limit {
      assert pages[1..] == [] && q + [] == q;
    } else {
      ChunksFlatten(q[limit..], limit);
      assert pages[1..] == Chunks(q[limit..], limit);
      assert q[..limit] + q[limit..] == q;
    }
  }

  lemma {:induction false} PagesAreChunks(t: Table, p: Params)
    requires p.limit >= 1
    ensures AllPages(t, p) == Chunks(Listing(t, p), p.limit)
    decreases |Listing(t, p)|
  {
    var q := Listing(t, p);
    if p.limit < |q| {
      NextPageContinues(t, p);
      PagesAreChunks(t, p.(cursor := Cur0(t, q[p.limit])));
    }
  }

  /**
   From an empty cursor the pages end, hold the matching rows once each in descending cursor order, and
   add up to the count of the same filter.
   */
  lemma PagesAreTheResult(t: Table, kinds: seq<int>, read: nat, accepted: bool, limit: nat)
    requires limit >= 1
    ensures var filter := NO_PARAMS.(kinds := kinds, read := read, accepted := accepted);
            var rows := Flatten(AllPages(t, filter.(limit := limit)));
            && Sorted(ByCursor(t), rows)
            && (forall id :: id in rows <==> id in t && Satisfies(filter, id, t[id]))
            && |rows| == |Matching(t, filter)|
  {
    var filter := NO_PARAMS.(kinds := kinds, read := read, accepted := accepted);
    var p := filter.(limit := limit);
    PagesAreListing(t, p);
    ListingIsResult(t, p);
    assert Matching(t, p) == Matching(t, filter);
  }

  /** The pages put together are the listing. */
  lemma PagesAreListing(t: Table, p: Params)
    requires p.limit >= 1
    ensures Flatten(AllPages(t, p)) == Listing(t, p)
  {
    PagesAreChunks(t, p);
    ChunksFlatten(Listing(t, p), p.limit);
  }

  lemma ListingIsResult(t: Table, p: Params)
    ensures var rows := Listing(t, p);
            Sorted(ByCursor(t), rows) && (forall id :: id in rows <==> id in Matching(t, p)) && |rows| == |Matching(t, p)|
  {
    ListingFacts(t, p);
    var rows := Listing(t, p);
    forall id ensures id in rows <==> id in Matching(t, p) {
      if id in rows { var i :| 0 <= i < |rows| && rows[i] == id; assert id in Elements(rows); }
    }
  }

  /** With limit 0 the caller is handed the same empty page and the same cursor for ever. */
  lemma ZeroLimitNeverEnds(t: Table, p: Params)
    requires p.limit == 0 && Listing(t, p) != []
    ensures var page := PageOf(t, p);
            page.rows == [] && page.cursor != "" && PageOf(t, p.(cursor := page.cursor)) == page
  {
    var q := Listing(t, p);
    assert |q| > 0;
    NextPageContinues(t, p);
    assert q[0..] == q;
  }
}
