/**
 The keyset walk over a host's listings: pages of `limit` rows, newest first, resumed from a cursor
 that keeps the last row's id and its creation time cut to whole milliseconds, while the database
 orders by microseconds.
 */
module CursorWalk {
  import opened Wrappers

  type Micros = us: int | 0 <= us < 1000

  /**
   A creation time as `timestamptz` keeps it: whole milliseconds and the microseconds beyond them.
   Ids are compared as the database compares them.
   */
  datatype Listing = Listing(id: int, ms: int, us: Micros)

  /** The whole milliseconds are what a JavaScript `Date` keeps of the last row. */
  datatype Cursor = Cursor(ms: int, id: int)

  const MICROS_PER_MS := 1000

  /** `created_at` in microseconds. */
  function CreatedAt(l: Listing): int {
    l.ms * MICROS_PER_MS + l.us
  }

  function CursorOf(l: Listing): Cursor {
    Cursor(l.ms, l.id)
  }

  /** `ORDER BY created_at DESC, id DESC`: does `a` come strictly before `b`? */
  predicate Before(a: Listing, b: Listing) {
    CreatedAt(a) > CreatedAt(b) || (CreatedAt(a) == CreatedAt(b) && a.id > b.id)
  }

  /** The `WHERE` clause of a follow-up page, with its one-millisecond tie window. */
  predicate After(l: Listing, cursor: Option<Cursor>) {
    match cursor
    case None => true
    case Some(c) =>
      var start := c.ms * MICROS_PER_MS;
      var end := (c.ms + 1) * MICROS_PER_MS;
      CreatedAt(l) < start || (start <= CreatedAt(l) < end && l.id < c.id)
  }

  function Filter(rows: seq<Listing>, cursor: Option<Cursor>): seq<Listing> {
    if rows == [] then []
    else (if After(rows[0], cursor) then [rows[0]] else []) + Filter(rows[1..], cursor)
  }

  function Insert(l: Listing, sorted: seq<Listing>): seq<Listing> {
    if sorted == [] || Before(l, sorted[0]) then [l] + sorted
    else [sorted[0]] + Insert(l, sorted[1..])
  }

  function Sort(rows: seq<Listing>): seq<Listing> {
    if rows == [] then [] else Insert(rows[0], Sort(rows[1..]))
  }

  function Take(rows: seq<Listing>, n: nat): seq<Listing> {
    if |rows| <= n then rows else rows[..n]
  }

  /** What the page query answers for each cursor, before its `LIMIT` cuts it. */
  type Source = Option<Cursor> -> seq<Listing>

  /** The table in its `ORDER BY` order, read through the `WHERE` clause of the cursor. */
  function Ordered(table: seq<Listing>): Source {
    cursor => Filter(table, cursor)
  }

  function Query(source: Source, cursor: Option<Cursor>, n: nat): seq<Listing> {
    Take(source(cursor), n)
  }

  /** Resuming after a full page leaves strictly fewer rows, so that the walk ends. */
  ghost predicate ShrinksAt(source: Source, limit: nat, cursor: Option<Cursor>) {
    |source(cursor)| > limit > 0 ==>
      |source(Some(CursorOf(source(cursor)[limit - 1])))| < |source(cursor)|
  }

  ghost predicate Shrinks(source: Source, limit: nat) {
    forall cursor :: ShrinksAt(source, limit, cursor)
  }

  ghost predicate DistinctIds(rows: seq<Listing>) {
    forall i, j :: 0 <= i < j < |rows| ==> rows[i].id != rows[j].id
  }

  ghost predicate Sorted(rows: seq<Listing>) {
    forall i, j :: 0 <= i < j < |rows| ==> Before(rows[i], rows[j])
  }

  /** Within one millisecond, later creation means larger id. */
  ghost predicate IdsFollowTime(rows: seq<Listing>) {
    forall a, b :: a in rows && b in rows && a.ms == b.ms && CreatedAt(a) > CreatedAt(b) ==> a.id > b.id
  }

  // ---------------------------------------------------------------------------------------------
  // The walk
  // ---------------------------------------------------------------------------------------------

  datatype Outcome = Walked(rows: seq<Listing>, pages: nat) | Duplicate(id: int)

  predicate HasId(seen: seq<Listing>, id: int) {
    exists l :: l in seen && l.id == id
  }

  /** Adds a page to what was seen, stopping at the first listing seen before. */
  function AddPage(seen: seq<Listing>, page: seq<Listing>): Outcome
    decreases |page|
  {
    if page == [] then Walked(seen, 0)
    else if HasId(seen, page[0].id) then Duplicate(page[0].id)
    else AddPage(seen + [page[0]], page[1..])
  }

  /** The rows of the pages fetched from a cursor on, in order, and how many pages there were. */
  datatype Trail = Trail(rows: seq<Listing>, pages: nat)

  function FetchFrom(source: Source, cursor: Option<Cursor>, limit: nat): Trail
    requires limit > 0 && Shrinks(source, limit)
    decreases |source(cursor)|
  {
    var left := source(cursor);
    if |left| <= limit then Trail(left, 1)
    else
      assert ShrinksAt(source, limit, cursor);
      var rest := FetchFrom(source, Some(CursorOf(left[limit - 1])), limit);
      Trail(left[..limit] + rest.rows, rest.pages + 1)
  }

  /** Asking for one row too many tells whether there is a next page. */
  lemma OneRowTooMany(source: Source, cursor: Option<Cursor>, limit: nat)
    ensures |Query(source, cursor, limit + 1)| > limit <==> |source(cursor)| > limit
    ensures Take(Query(source, cursor, limit + 1), limit) == Take(source(cursor), limit)
  {
  }

  /** What the walk ends with once `seen` was gathered in `pages` pages and `trail` is still to come. */
  function Finish(seen: seq<Listing>, pages: nat, trail: Trail): Outcome {
    match AddPage(seen, trail.rows)
    case Walked(all, _) => Walked(all, pages + trail.pages)
    case Duplicate(id) => Duplicate(id)
  }

  function Walk(rows: seq<Listing>, limit: nat): Outcome
    requires limit > 0
  {
    PagesShrink(Sort(rows), limit);
    Finish([], 0, FetchFrom(Ordered(Sort(rows)), None, limit))
  }

  /** Notes the ids of a page in `seen`, unless one is there already. */
  method NotePage(seen: set<int>, ghost gathered: seq<Listing>, page: seq<Listing>)
    returns (duplicate: Option<int>, seen': set<int>)
    requires forall id :: id in seen <==> HasId(gathered, id)
    ensures match AddPage(gathered, page)
            case Duplicate(id) => duplicate == Some(id)
            case Walked(all, _) =>
              duplicate == None && all == gathered + page && forall id :: id in seen' <==> HasId(all, id)
  {
    seen' := seen;
    ghost var sofar := gathered;
    for i := 0 to |page|
      invariant sofar == gathered + page[..i]
      invariant forall id :: id in seen' <==> HasId(sofar, id)
      invariant AddPage(gathered, page) == AddPage(sofar, page[i..])
    {
      if page[i].id in seen' {
        return Some(page[i].id), seen';
      }
      seen' := seen' + {page[i].id};
      assert page[i..][1..] == page[i + 1..];
      sofar := sofar + [page[i]];
    }
    assert gathered + page[..|page|] == gathered + page;
    duplicate := None;
  }

  lemma AddPageInTwoParts(seen: seq<Listing>, a: seq<Listing>, b: seq<Listing>)
    ensures AddPage(seen, a + b)
            == match AddPage(seen, a) case Duplicate(id) => Duplicate(id) case Walked(all, _) => AddPage(all, b)
    decreases |a|
  {
    if a == [] {
      assert a + b == b;
    } else {
      assert (a + b)[1..] == a[1..] + b;
      AddPageInTwoParts(seen + [a[0]], a[1..], b);
    }
  }

  /** The script's loop. Ids seen are kept as a set; `gathered` lists the rows in the order met. */
  method RunWalk(source: Source, limit: nat) returns (outcome: Outcome)
    requires limit > 0 && Shrinks(source, limit)
    ensures outcome == Finish([], 0, FetchFrom(source, None, limit))
  {
    var seen: set<int> := {};
    var gathered: seq<Listing> := [];
    var cursor: Option<Cursor> := None;
    var pages := 0;
    var hasNext := true;
    while hasNext
      invariant forall id :: id in seen <==> HasId(gathered, id)
      invariant Finish([], 0, FetchFrom(source, None, limit))
                == if hasNext then Finish(gathered, pages, FetchFrom(source, cursor, limit))
                   else Walked(gathered, pages)
      decreases hasNext, |source(cursor)|
    {
      var fetched := Query(source, cursor, limit + 1);
      pages := pages + 1;
      hasNext := |fetched| > limit;
      var page := Take(fetched, limit);
      OneRowTooMany(source, cursor, limit);
      var duplicate;
      duplicate, seen := NotePage(seen, gathered, page);
      ghost var rest := FetchFrom(source, cursor, limit).rows[|page|..];
      assert FetchFrom(source, cursor, limit).rows == page + rest;
      AddPageInTwoParts(gathered, page, rest);
      if duplicate.Some? {
        return Duplicate(duplicate.value);
      }
      gathered := gathered + page;
      if page == [] {
        break;
      }
      assert ShrinksAt(source, limit, cursor);
      cursor := Some(CursorOf(page[|page| - 1]));
    }
    return Walked(gathered, pages);
  }

  // ---------------------------------------------------------------------------------------------
  // Filtering and sorting
  // ---------------------------------------------------------------------------------------------

  /** The tie window makes the clause a comparison of (millisecond, id) pairs. */
  lemma AfterComparesMillisThenId(l: Listing, c: Cursor)
    ensures After(l, Some(c)) <==> l.ms < c.ms || (l.ms == c.ms && l.id < c.id)
  {
  }

  lemma FilterMembers(rows: seq<Listing>, cursor: Option<Cursor>)
    ensures forall l :: l in Filter(rows, cursor) <==> l in rows && After(l, cursor)
    ensures |Filter(rows, cursor)| <= |rows|
  {
  }

  lemma InsertMembers(l: Listing, sorted: seq<Listing>)
    ensures forall x :: x in Insert(l, sorted) <==> x == l || x in sorted
    ensures |Insert(l, sorted)| == |sorted| + 1
  {
  }

  lemma SortMembers(rows: seq<Listing>)
    ensures forall l :: l in Sort(rows) <==> l in rows
    ensures |Sort(rows)| == |rows|
  {
    if rows != [] {
      SortMembers(rows[1..]);
      InsertMembers(rows[0], Sort(rows[1..]));
    }
  }

  lemma InsertSorts(l: Listing, sorted: seq<Listing>)
    requires Sorted(sorted) && forall x :: x in sorted ==> x.id != l.id
    ensures Sorted(Insert(l, sorted))
  {
    if sorted != [] && !Before(l, sorted[0]) {
      var rest := sorted[1..];
      assert forall x :: x in rest ==> x in sorted;
      InsertSorts(l, rest);
      InsertMembers(l, rest);
      assert forall x :: x in rest ==> Before(sorted[0], x);
    } else if sorted != [] {
      assert forall x :: x in sorted ==> x == sorted[0] || Before(sorted[0], x);
    }
  }

  lemma SortSorts(rows: seq<Listing>)
    requires DistinctIds(rows)
    ensures Sorted(Sort(rows))
  {
    if rows != [] {
      SortSorts(rows[1..]);
      SortMembers(rows[1..]);
      assert forall l :: l in rows[1..] ==> l.id != rows[0].id;
      InsertSorts(rows[0], Sort(rows[1..]));
    }
  }

  lemma FilterShrinks(rows: seq<Listing>, wide: Option<Cursor>, narrow: Option<Cursor>, gone: Listing)
    requires forall l :: After(l, narrow) ==> After(l, wide)
    requires gone in rows ==> After(gone, wide) && !After(gone, narrow)
    ensures |Filter(rows, narrow)| <= |Filter(rows, wide)|
    ensures gone in rows ==> |Filter(rows, narrow)| < |Filter(rows, wide)|
  {
  }

  lemma PagesShrink(table: seq<Listing>, limit: nat)
    ensures Shrinks(Ordered(table), limit)
  {
    forall cursor ensures ShrinksAt(Ordered(table), limit, cursor) {
      if |Filter(table, cursor)| > limit > 0 {
        ResumingShrinks(table, limit, cursor);
      }
    }
  }

  lemma ResumingShrinks(table: seq<Listing>, limit: nat, cursor: Option<Cursor>)
    requires |Filter(table, cursor)| > limit > 0
    ensures |Filter(table, Some(CursorOf(Filter(table, cursor)[limit - 1])))| < |Filter(table, cursor)|
  {
    var last := Filter(table, cursor)[limit - 1];
    FilterMembers(table, cursor);
    assert last in Filter(table, cursor);
    FilterShrinks(table, cursor, Some(CursorOf(last)), last);
  }

  // ---------------------------------------------------------------------------------------------
  // When the pages are exactly the sorted table
  // ---------------------------------------------------------------------------------------------

  lemma {:induction false} FilterSplit(table: seq<Listing>, cursor: Option<Cursor>, n: nat)
    requires n <= |table|
    requires forall i :: 0 <= i < n ==> !After(table[i], cursor)
    requires forall i :: n <= i < |table| ==> After(table[i], cursor)
    ensures Filter(table, cursor) == table[n..]
    decreases |table|
  {
    if table != [] {
      FilterSplit(table[1..], cursor, if n == 0 then 0 else n - 1);
    }
  }

  /** With ids following time, the rows after the cursor of the k-th row are the rest of the table. */
  lemma RestOfTable(rows: seq<Listing>, k: nat)
    requires DistinctIds(rows) && IdsFollowTime(rows) && k < |Sort(rows)|
    ensures ResumesAt(Ordered(Sort(rows)), Sort(rows), k)
  {
    var table := Sort(rows);
    SortSorts(rows);
    SortMembers(rows);
    var c := CursorOf(table[k]);
    assert table[k] in rows;
    forall i | 0 <= i < |table| ensures After(table[i], Some(c)) <==> i > k {
      assert table[i] in rows;
      AfterComparesMillisThenId(table[i], c);
      assert i < k ==> Before(table[i], table[k]);
      assert k < i ==> Before(table[k], table[i]);
    }
    FilterSplit(table, Some(c), k + 1);
  }

  lemma {:induction false} AddFreshPage(seen: seq<Listing>, page: seq<Listing>)
    requires DistinctIds(seen + page)
    ensures AddPage(seen, page) == Walked(seen + page, 0)
    decreases |page|
  {
    if page == [] {
      assert seen + page == seen;
    } else {
      assert forall i :: 0 <= i < |seen| ==> seen[i] == (seen + page)[i];
      assert (seen + page)[|seen|] == page[0];
      assert !HasId(seen, page[0].id);
      assert seen + [page[0]] + page[1..] == seen + page;
      AddFreshPage(seen + [page[0]], page[1..]);
    }
  }

  function PageCount(n: nat, limit: nat): nat
    requires limit > 0
    decreases n
  {
    if n <= limit then 1 else 1 + PageCount(n - limit, limit)
  }

  /** `PageCount` is max(1, ceil(n / limit)). */
  lemma {:induction false} PageCountIsCeiling(n: nat, limit: nat)
    requires limit > 0
    ensures n <= PageCount(n, limit) * limit
    ensures PageCount(n, limit) == 1 || (PageCount(n, limit) - 1) * limit < n
    decreases n
  {
    if n > limit {
      PageCountIsCeiling(n - limit, limit);
    }
  }

  /** The cursor of the k-th row of `table` leaves exactly the rows below it. */
  ghost predicate ResumesAt(source: Source, table: seq<Listing>, k: nat)
    requires k < |table|
  {
    source(Some(CursorOf(table[k]))) == table[k + 1..]
  }

  lemma {:induction false} FetchRest(
      source: Source, table: seq<Listing>, cursor: Option<Cursor>, i: nat, limit: nat)
    requires limit > 0 && i <= |table| && Shrinks(source, limit)
    requires source(cursor) == table[i..]
    requires forall k :: 0 <= k < |table| ==> ResumesAt(source, table, k)
    ensures FetchFrom(source, cursor, limit) == Trail(table[i..], PageCount(|table| - i, limit))
    decreases |table| - i
  {
    if |table| - i > limit {
      assert table[i..][limit - 1] == table[i + limit - 1];
      assert ResumesAt(source, table, i + limit - 1);
      FetchRest(source, table, Some(CursorOf(table[i + limit - 1])), i + limit, limit);
      assert table[i..][..limit] + table[i + limit..] == table[i..];
    }
  }

  lemma SortedHasDistinctIds(rows: seq<Listing>)
    requires DistinctIds(rows)
    ensures DistinctIds(Sort(rows))
  {
    var table := Sort(rows);
    SortSorts(rows);
    SortMembers(rows);
    forall i, j | 0 <= i < j < |table| ensures table[i].id != table[j].id {
      assert table[i] in rows && table[j] in rows;
      assert Before(table[i], table[j]);
    }
  }

  /**
   The main guarantee: no listing repeated or missed, in order, in the least number of pages, for
   every page size.
   */
  lemma WalkIsSortedTable(rows: seq<Listing>, limit: nat)
    requires limit > 0 && DistinctIds(rows) && IdsFollowTime(rows)
    ensures Walk(rows, limit) == Walked(Sort(rows), PageCount(|rows|, limit))
  {
    var table := Sort(rows);
    SortMembers(rows);
    PagesShrink(table, limit);
    FilterAll(table);
    forall k | 0 <= k < |table| ensures ResumesAt(Ordered(table), table, k) {
      RestOfTable(rows, k);
    }
    FetchTable(Ordered(table), table, limit);
    SortedHasDistinctIds(rows);
    FreshTrail(table, FetchFrom(Ordered(table), None, limit));
  }

  lemma FetchTable(source: Source, table: seq<Listing>, limit: nat)
    requires limit > 0 && Shrinks(source, limit) && source(None) == table
    requires forall k :: 0 <= k < |table| ==> ResumesAt(source, table, k)
    ensures FetchFrom(source, None, limit) == Trail(table, PageCount(|table|, limit))
  {
    assert table[0..] == table;
    FetchRest(source, table, None, 0, limit);
  }

  lemma FreshTrail(table: seq<Listing>, trail: Trail)
    requires DistinctIds(table) && trail.rows == table
    ensures Finish([], 0, trail) == Walked(table, trail.pages)
  {
    assert [] + table == table;
    AddFreshPage([], table);
  }

  lemma FilterAll(rows: seq<Listing>)
    ensures Filter(rows, None) == rows
  {
  }

  /** Whole-millisecond timestamps are one case where ids need not follow time. */
  lemma WholeMillisecondsSuffice(rows: seq<Listing>)
    requires forall l :: l in rows ==> l.us == 0
    ensures IdsFollowTime(rows)
  {
  }

  // ---------------------------------------------------------------------------------------------
  // The condition is exact
  // ---------------------------------------------------------------------------------------------

  lemma AddedPage(seen: seq<Listing>, page: seq<Listing>)
    requires AddPage(seen, page).Walked?
    ensures AddPage(seen, page) == Walked(seen + page, 0)
    decreases |page|
  {
    if page == [] {
      assert seen + page == seen;
    } else {
      AddedPage(seen + [page[0]], page[1..]);
      assert seen + [page[0]] + page[1..] == seen + page;
    }
  }

  /** Every row a source answers lies after the cursor. */
  ghost predicate AnswersAfter(source: Source) {
    forall cursor, l :: l in source(cursor) ==> After(l, cursor)
  }

  /** With one row per page, each row fetched lies after the cursor of the row before it. */
  lemma {:induction false} SingleRowPagesDescend(source: Source, cursor: Option<Cursor>, i: nat)
    requires Shrinks(source, 1) && AnswersAfter(source)
    ensures var all := FetchFrom(source, cursor, 1).rows;
            && (all != [] ==> After(all[0], cursor))
            && (i < |all| - 1 ==> After(all[i + 1], Some(CursorOf(all[i]))))
    decreases |source(cursor)|
  {
    var left := source(cursor);
    if |left| > 0 {
      assert left[0] in source(cursor);
    }
    if |left| > 1 {
      assert ShrinksAt(source, 1, cursor);
      SingleRowPagesDescend(source, Some(CursorOf(left[0])), if i == 0 then 0 else i - 1);
    }
  }

  /** Each row lies after the cursor of the row before it. */
  ghost predicate DescendsAt(table: seq<Listing>, k: nat)
    requires k < |table|
  {
    k > 0 ==> After(table[k], Some(CursorOf(table[k - 1])))
  }

  ghost predicate Descends(table: seq<Listing>) {
    forall k :: 0 <= k < |table| ==> DescendsAt(table, k)
  }

  lemma {:induction false} DescendingChain(table: seq<Listing>, i: nat, j: nat)
    requires i < j < |table| && Descends(table)
    ensures After(table[j], Some(CursorOf(table[i])))
    decreases j
  {
    assert DescendsAt(table, j);
    if i < j - 1 {
      DescendingChain(table, i, j - 1);
    }
  }

  lemma DescendingTableFollowsTime(rows: seq<Listing>)
    requires DistinctIds(rows) && Descends(Sort(rows))
    ensures IdsFollowTime(rows)
  {
    var table := Sort(rows);
    SortSorts(rows);
    SortMembers(rows);
    forall a, b | a in rows && b in rows && a.ms == b.ms && CreatedAt(a) > CreatedAt(b)
      ensures a.id > b.id
    {
      var i :| 0 <= i < |table| && table[i] == a;
      var j :| 0 <= j < |table| && table[j] == b;
      assert Before(a, b) && i < j;
      DescendingChain(table, i, j);
    }
  }

  lemma SingleRowWalkNeedsOrder(rows: seq<Listing>)
    requires DistinctIds(rows) && Walk(rows, 1).Walked? && Walk(rows, 1).rows == Sort(rows)
    ensures IdsFollowTime(rows)
  {
    var table := Sort(rows);
    var source := Ordered(table);
    PagesShrink(table, 1);
    forall cursor, l | l in source(cursor) ensures After(l, cursor) {
      FilterMembers(table, cursor);
    }
    var trail := FetchFrom(source, None, 1).rows;
    AddedPage([], trail);
    assert [] + trail == trail;
    forall k | 0 <= k < |trail| ensures DescendsAt(trail, k) {
      if k > 0 {
        SingleRowPagesDescend(source, None, k - 1);
      }
    }
    DescendingTableFollowsTime(rows);
  }

  /** The walk gathers the sorted table for every page size exactly when ids follow time. */
  lemma WalkIsSortedTableIff(rows: seq<Listing>)
    requires DistinctIds(rows)
    ensures (forall limit: nat {:trigger Walk(rows, limit)} :: limit > 0 ==>
               Walk(rows, limit) == Walked(Sort(rows), PageCount(|rows|, limit)))
            <==> IdsFollowTime(rows)
  {
    if IdsFollowTime(rows) {
      forall limit: nat | limit > 0
        ensures Walk(rows, limit) == Walked(Sort(rows), PageCount(|rows|, limit))
      {
        WalkIsSortedTable(rows, limit);
      }
    }
    if forall limit: nat {:trigger Walk(rows, limit)} :: limit > 0 ==>
         Walk(rows, limit) == Walked(Sort(rows), PageCount(|rows|, limit)) {
      assert Walk(rows, 1) == Walked(Sort(rows), PageCount(|rows|, 1));
      SingleRowWalkNeedsOrder(rows);
    }
  }

  // ---------------------------------------------------------------------------------------------
  // The exact condition for one page size
  // ---------------------------------------------------------------------------------------------

  /** Around row k, the rows of its millisecond that sort above it have larger ids, those below smaller. */
  ghost predicate CleanCut(table: seq<Listing>, k: nat)
    requires k < |table|
  {
    forall i :: 0 <= i < |table| && table[i].ms == table[k].ms ==>
      (i < k ==> table[i].id > table[k].id) && (i > k ==> table[i].id < table[k].id)
  }

  /** Is the last row of the p-th page, if another page follows, a clean cut? */
  ghost predicate CleanPage(table: seq<Listing>, limit: nat, p: nat)
  {
    0 < p * limit < |table| ==> CleanCut(table, p * limit - 1)
  }

  ghost predicate CleanPages(table: seq<Listing>, limit: nat) {
    forall p: nat :: CleanPage(table, limit, p)
  }

  /** Resuming works after a row exactly if the row is a clean cut. */
  lemma ResumesIffCleanCut(table: seq<Listing>, k: nat)
    requires k < |table| && Sorted(table) && DistinctIds(table)
    ensures ResumesAt(Ordered(table), table, k) <==> CleanCut(table, k)
  {
    var c := Some(CursorOf(table[k]));
    forall i | 0 <= i < |table|
      ensures After(table[i], c)
              <==> table[i].ms < table[k].ms || (table[i].ms == table[k].ms && table[i].id < table[k].id)
      ensures i < k ==> table[i].ms >= table[k].ms
      ensures i > k ==> table[i].ms <= table[k].ms
    {
      AfterComparesMillisThenId(table[i], CursorOf(table[k]));
      assert i < k ==> Before(table[i], table[k]);
      assert i > k ==> Before(table[k], table[i]);
    }
    if CleanCut(table, k) {
      FilterSplit(table, c, k + 1);
    }
    if Filter(table, c) == table[k + 1..] {
      FilterMembers(table, c);
      forall i | 0 <= i < |table| ensures After(table[i], c) <==> i > k {
        assert i > k ==> table[i] == table[k + 1..][i - k - 1];
        assert i <= k ==> table[i] !in table[k + 1..];
      }
    }
  }

  lemma {:induction false} FilterFirst(table: seq<Listing>, cursor: Option<Cursor>, m: nat)
    requires m < |table| && DistinctIds(table)
    requires Filter(table, cursor) != [] && Filter(table, cursor)[0] == table[m]
    ensures forall i :: 0 <= i < m ==> !After(table[i], cursor)
    decreases |table|
  {
    if m > 0 {
      assert table[0].id != table[m].id;
      FilterFirst(table[1..], cursor, m - 1);
      assert forall i :: 0 < i < m ==> table[i] == table[1..][i - 1];
    }
  }

  /** Whatever is fetched from a cursor on lies after that cursor. */
  lemma {:induction false} FetchedLiesAfter(table: seq<Listing>, cursor: Option<Cursor>, limit: nat)
    requires limit > 0 && Shrinks(Ordered(table), limit)
    ensures forall l :: l in FetchFrom(Ordered(table), cursor, limit).rows ==> After(l, cursor)
    decreases |Filter(table, cursor)|
  {
    var left := Filter(table, cursor);
    FilterMembers(table, cursor);
    if |left| > limit {
      assert ShrinksAt(Ordered(table), limit, cursor);
      var last := left[limit - 1];
      assert last in left;
      FetchedLiesAfter(table, Some(CursorOf(last)), limit);
      forall l | After(l, Some(CursorOf(last))) ensures After(l, cursor) {
        AfterComparesMillisThenId(l, CursorOf(last));
      }
    }
  }

  lemma FetchStartsWithSource(source: Source, cursor: Option<Cursor>, limit: nat)
    requires limit > 0 && Shrinks(source, limit) && FetchFrom(source, cursor, limit).rows != []
    ensures source(cursor) != [] && source(cursor)[0] == FetchFrom(source, cursor, limit).rows[0]
  {
  }

  /** If fetching from a cursor gives the end of the table, the rows after the cursor are that end. */
  lemma FetchPinsCursor(table: seq<Listing>, cursor: Option<Cursor>, limit: nat, m: nat)
    requires limit > 0 && Shrinks(Ordered(table), limit) && DistinctIds(table) && m < |table|
    requires FetchFrom(Ordered(table), cursor, limit).rows == table[m..]
    ensures Ordered(table)(cursor) == table[m..]
  {
    FetchStartsWithSource(Ordered(table), cursor, limit);
    FilterFirst(table, cursor, m);
    FetchedLiesAfter(table, cursor, limit);
    forall i | m <= i < |table| ensures After(table[i], cursor) {
      assert table[i] == table[m..][i - m];
    }
    FilterSplit(table, cursor, m);
  }

  /** The two facts above, for a source: a clean cut is where it resumes, and what it yields pins the cursor. */
  ghost predicate ResumesAtCut(source: Source, table: seq<Listing>, k: nat)
    requires k < |table|
  {
    ResumesAt(source, table, k) <==> CleanCut(table, k)
  }

  ghost predicate Pins(source: Source, table: seq<Listing>, limit: nat, k: nat)
    requires limit > 0 && Shrinks(source, limit) && k < |table|
  {
    var cursor := Some(CursorOf(table[k]));
    k + 1 < |table| && FetchFrom(source, cursor, limit).rows == table[k + 1..] ==> source(cursor) == table[k + 1..]
  }

  lemma TablePins(table: seq<Listing>, limit: nat, k: nat)
    requires limit > 0 && Shrinks(Ordered(table), limit) && DistinctIds(table) && k < |table|
    ensures Pins(Ordered(table), table, limit, k)
  {
    var cursor := Some(CursorOf(table[k]));
    if k + 1 < |table| && FetchFrom(Ordered(table), cursor, limit).rows == table[k + 1..] {
      FetchPinsCursor(table, cursor, limit, k + 1);
    }
  }

  /** A full page followed by others: the fetch is right exactly if its cut is clean and the rest is right. */
  lemma FetchSplits(source: Source, table: seq<Listing>, cursor: Option<Cursor>, limit: nat, i: nat)
    requires limit > 0 && Shrinks(source, limit)
    requires i + limit < |table| && source(cursor) == table[i..]
    requires ResumesAtCut(source, table, i + limit - 1) && Pins(source, table, limit, i + limit - 1)
    ensures var next := Some(CursorOf(table[i + limit - 1]));
            FetchFrom(source, cursor, limit).rows == table[i..]
            <==> FetchFrom(source, next, limit).rows == table[i + limit..]
    ensures FetchFrom(source, cursor, limit).rows == table[i..] ==> CleanCut(table, i + limit - 1)
  {
  }

  ghost predicate CleanFrom(table: seq<Listing>, limit: nat, p: nat) {
    forall q: nat :: q > p ==> CleanPage(table, limit, q)
  }

  lemma PageStartsGrow(p: nat, q: nat, limit: nat)
    requires q > p
    ensures (p + 1) * limit == p * limit + limit
    ensures q * limit >= p * limit + limit
  {
  }

  lemma LastPageIsClean(table: seq<Listing>, limit: nat, p: nat, i: nat)
    requires i == p * limit && |table| - i <= limit
    ensures CleanFrom(table, limit, p)
  {
    forall q: nat | q > p ensures CleanPage(table, limit, q) {
      PageStartsGrow(p, q, limit);
    }
  }

  lemma CleanFromNext(table: seq<Listing>, limit: nat, p: nat, i: nat)
    requires i == p * limit && limit > 0 && i + limit < |table|
    ensures CleanFrom(table, limit, p) <==> CleanCut(table, i + limit - 1) && CleanFrom(table, limit, p + 1)
    ensures i + limit == (p + 1) * limit
  {
    PageStartsGrow(p, p + 1, limit);
    assert CleanPage(table, limit, p + 1) <==> CleanCut(table, i + limit - 1);
    if CleanCut(table, i + limit - 1) && CleanFrom(table, limit, p + 1) {
      forall q: nat | q > p ensures CleanPage(table, limit, q) {
        assert q == p + 1 || q > p + 1;
      }
    }
  }

  /** `CleanFrom`, page by page. */
  ghost predicate CleanAfter(table: seq<Listing>, limit: nat, i: nat)
    requires limit > 0
    decreases |table| - i
  {
    i + limit < |table| ==> CleanCut(table, i + limit - 1) && CleanAfter(table, limit, i + limit)
  }

  lemma {:induction false} CleanAfterIsCleanFrom(table: seq<Listing>, limit: nat, p: nat, i: nat)
    requires limit > 0 && i == p * limit
    ensures CleanAfter(table, limit, i) <==> CleanFrom(table, limit, p)
    decreases |table| - i
  {
    if |table| - i <= limit {
      LastPageIsClean(table, limit, p, i);
    } else {
      CleanFromNext(table, limit, p, i);
      CleanAfterIsCleanFrom(table, limit, p + 1, i + limit);
    }
  }

  lemma {:induction false} FetchExactly(
      source: Source, table: seq<Listing>, cursor: Option<Cursor>, limit: nat, i: nat)
    requires limit > 0 && Shrinks(source, limit)
    requires forall k :: 0 <= k < |table| ==> ResumesAtCut(source, table, k)
    requires forall k :: 0 <= k < |table| ==> Pins(source, table, limit, k)
    requires i <= |table| && source(cursor) == table[i..]
    ensures FetchFrom(source, cursor, limit).rows == table[i..] <==> CleanAfter(table, limit, i)
    decreases |table| - i
  {
    if |table| - i > limit {
      assert ResumesAtCut(source, table, i + limit - 1) && Pins(source, table, limit, i + limit - 1);
      FetchSplits(source, table, cursor, limit, i);
      if CleanCut(table, i + limit - 1) {
        FetchExactly(source, table, Some(CursorOf(table[i + limit - 1])), limit, i + limit);
      }
    }
  }

  /**
   For one page size: the walk ends normally with exactly the sorted table, in order and without
   repetition, if and only if every page that another page follows ends at a clean cut.
   */
  lemma WalkIsExactIff(rows: seq<Listing>, limit: nat)
    requires limit > 0 && DistinctIds(rows)
    ensures Walk(rows, limit).Walked? && Walk(rows, limit).rows == Sort(rows)
            <==> CleanPages(Sort(rows), limit)
  {
    var table := Sort(rows);
    SortSorts(rows);
    SortedHasDistinctIds(rows);
    PagesShrink(table, limit);
    FilterAll(table);
    assert table[0..] == table;
    forall k | 0 <= k < |table|
      ensures ResumesAtCut(Ordered(table), table, k) && Pins(Ordered(table), table, limit, k)
    {
      ResumesIffCleanCut(table, k);
      TablePins(table, limit, k);
    }
    FetchExactly(Ordered(table), table, None, limit, 0);
    CleanAfterIsCleanFrom(table, limit, 0, 0);
    assert CleanPages(table, limit) <==> CleanFrom(table, limit, 0) by {
      assert CleanPage(table, limit, 0);
    }
    WalkedRows(table, limit);
  }

  lemma WalkedRows(table: seq<Listing>, limit: nat)
    requires limit > 0 && Shrinks(Ordered(table), limit) && DistinctIds(table)
    ensures var trail := FetchFrom(Ordered(table), None, limit);
            Finish([], 0, trail).Walked? && Finish([], 0, trail).rows == table <==> trail.rows == table
  {
    var trail := FetchFrom(Ordered(table), None, limit);
    if trail.rows == table {
      FreshTrail(table, trail);
    } else if AddPage([], trail.rows).Walked? {
      AddedPage([], trail.rows);
      assert [] + trail.rows == trail.rows;
    }
  }

  // ---------------------------------------------------------------------------------------------
  // A row is lost for every page size
  // ---------------------------------------------------------------------------------------------

  lemma {:induction false} SortOfSorted(table: seq<Listing>)
    requires Sorted(table)
    ensures Sort(table) == table
    decreases |table|
  {
    if table != [] {
      SortOfSorted(table[1..]);
      assert [table[0]] + table[1..] == table;
    }
  }

  /** A full page in one millisecond, and a row one microsecond older with the largest id. */
  function LateLargeId(limit: nat): seq<Listing> {
    seq(limit + 1, i => if i < limit then Listing(limit - i, 0, 1) else Listing(limit + 1, 0, 0))
  }

  lemma LateLargeIdIsSorted(limit: nat)
    ensures Sorted(LateLargeId(limit)) && DistinctIds(LateLargeId(limit))
  {
  }

  /** The cursor of a full page after which the source has nothing: the walk ends there with two pages. */
  lemma EmptySecondPage(source: Source, table: seq<Listing>, limit: nat)
    requires limit > 0 && Shrinks(source, limit) && |table| > limit && DistinctIds(table)
    requires source(None) == table && source(Some(CursorOf(table[limit - 1]))) == []
    ensures Finish([], 0, FetchFrom(source, None, limit)) == Walked(table[..limit], 2)
  {
    var second := FetchFrom(source, Some(CursorOf(table[limit - 1])), limit);
    assert second == Trail([], 1);
    assert table[..limit] + [] == table[..limit];
    assert FetchFrom(source, None, limit) == Trail(table[..limit], 2);
    FreshTrail(table[..limit], Trail(table[..limit], 2));
  }

  /** For every page size there are rows of one millisecond with ids against time of which one is lost. */
  lemma OutOfOrderIdsLoseARow(limit: nat)
    requires limit > 0
    ensures var rows := LateLargeId(limit);
            && DistinctIds(rows) && !IdsFollowTime(rows) && |rows| == limit + 1
            && Walk(rows, limit) == Walked(rows[..limit], 2)
  {
    var rows := LateLargeId(limit);
    LateLargeIdIsSorted(limit);
    SortOfSorted(rows);
    PagesShrink(rows, limit);
    FilterAll(rows);
    var c := CursorOf(rows[limit - 1]);
    forall i | 0 <= i < |rows| ensures !After(rows[i], Some(c)) {
      AfterComparesMillisThenId(rows[i], c);
    }
    FilterSplit(rows, Some(c), |rows|);
    EmptySecondPage(Ordered(rows), rows, limit);
    assert rows[0] in rows && rows[limit] in rows;
  }
}
