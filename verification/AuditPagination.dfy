/**
 * Keyset pagination over the audit table: rows newest first by (occurredAt,
 * sequence), one page at a time, each page ending in a cursor to the next.
 */
module AuditPagination {
  import opened Wrappers
  import Sorting

  const MAX_SAFE_INTEGER := 0x1F_FFFF_FFFF_FFFF
  const NINETY_DAYS_MS := 90 * 24 * 60 * 60 * 1000

  datatype Column =
    | EventId | Category | Action | ActorType | ActorId | TargetType | TargetId
    | Outcome | Severity | RequestId | CorrelationId | Source

  /** A stored event; a column that is NULL is absent from `text`. */
  datatype Event = Event(sequence: nat, occurredAt: int, text: map<Column, string>)

  /** A date parameter: not given, not a date, or an instant. */
  datatype When = Absent | NotADate | At(ms: int)

  datatype Cursor = Cursor(occurredAt: int, sequence: int)

  datatype Query = Query(from: When, to: When, equals: map<Column, string>, limit: Option<int>, cursor: Option<Cursor>)

  datatype Page = Page(data: seq<Event>, nextCursor: Option<Cursor>)

  datatype QueryError =
    | InvalidDates | FromAfterTo | WindowTooLong | InvalidLimit | InvalidEnum(column: Column) | TooLong(column: Column)
    | InvalidCursor

  function AllowedValues(c: Column): Option<seq<string>> {
    match c
    case ActorType => Some(["user", "api_key", "system", "anonymous"])
    case Outcome => Some(["attempted", "succeeded", "failed", "denied"])
    case Severity => Some(["info", "warning", "high", "critical"])
    case Source => Some(["rest", "graphql", "auth", "job"])
    case _ => None
  }

  function LimitOf(q: Query): int { if q.limit.Some? then q.limit.value else 50 }

  predicate EnumOk(q: Query, c: Column) {
    c in q.equals && q.equals[c] != "" && AllowedValues(c).Some? ==> q.equals[c] in AllowedValues(c).value
  }

  const ENUM_ORDER := [ActorType, Outcome, Severity, Source]

  function FirstBadEnum(q: Query, columns: seq<Column>): Option<Column> {
    if columns == [] then None
    else if !EnumOk(q, columns[0]) then Some(columns[0])
    else FirstBadEnum(q, columns[1..])
  }

  ghost function OverlongColumn(equals: map<Column, string>): Option<Column> {
    if c :| c in equals && |equals[c]| > 1000 then Some(c) else None
  }

  /** The checks in the order the service makes them; only the reported column of an over-long text is left open. */
  ghost function Validate(q: Query): Option<QueryError> {
    if q.from.NotADate? || q.to.NotADate? then Some(InvalidDates)
    else if q.from.At? && q.to.At? && q.from.ms > q.to.ms then Some(FromAfterTo)
    else if q.from.At? && q.to.At? && q.to.ms - q.from.ms > NINETY_DAYS_MS then Some(WindowTooLong)
    else if LimitOf(q) < 1 || LimitOf(q) > 200 then Some(InvalidLimit)
    else if FirstBadEnum(q, ENUM_ORDER).Some? then Some(InvalidEnum(FirstBadEnum(q, ENUM_ORDER).value))
    else if OverlongColumn(q.equals).Some? then Some(TooLong(OverlongColumn(q.equals).value))
    else None
  }

  /** The filter part of the conditions; an empty text filters nothing. */
  predicate Matches(q: Query, e: Event) {
    && (q.from.At? ==> e.occurredAt >= q.from.ms)
    && (q.to.At? ==> e.occurredAt <= q.to.ms)
    && (forall c <- q.equals :: q.equals[c] != "" ==> c in e.text && e.text[c] == q.equals[c])
  }

  predicate After(cursor: Option<Cursor>, e: Event) {
    cursor.None?
    || e.occurredAt < cursor.value.occurredAt
    || (e.occurredAt == cursor.value.occurredAt && e.sequence < cursor.value.sequence)
  }

  predicate NewestFirst(a: Event, b: Event) {
    a.occurredAt > b.occurredAt || (a.occurredAt == b.occurredAt && a.sequence >= b.sequence)
  }

  function Filter(events: seq<Event>, p: Event -> bool): seq<Event> {
    if events == [] then []
    else if p(events[0]) then [events[0]] + Filter(events[1..], p)
    else Filter(events[1..], p)
  }

  /** All events matching the query, newest first. */
  function Listing(table: seq<Event>, q: Query): seq<Event> {
    Sorting.Sort(Filter(table, e => Matches(q, e)), NewestFirst)
  }

  /** The rows the database returns: matching, beyond the cursor, newest first. */
  function Selected(table: seq<Event>, q: Query): seq<Event> {
    Sorting.Sort(Filter(table, e => Matches(q, e) && After(q.cursor, e)), NewestFirst)
  }

  function KeyOf(e: Event): Cursor { Cursor(e.occurredAt, e.sequence) }

  /** A page of `limit` rows, and a cursor exactly when a further row was seen. */
  function PageOf(rows: seq<Event>, limit: int): Page
    requires limit >= 1
  {
    if |rows| > limit then Page(rows[..limit], Some(KeyOf(rows[limit - 1]))) else Page(rows, None)
  }

  predicate CursorAccepted(cursor: Option<Cursor>) {
    cursor.Some? ==> -MAX_SAFE_INTEGER <= cursor.value.sequence <= MAX_SAFE_INTEGER
  }

  ghost function RunQuery(table: seq<Event>, q: Query): Result<Page, QueryError> {
    var error := Validate(q);
    if error.Some? then Err(error.value)
    else if !CursorAccepted(q.cursor) then Err(InvalidCursor)
    else PageOk(table, q)
  }

  ghost function PageOk(table: seq<Event>, q: Query): Result<Page, QueryError> {
    if LimitOf(q) < 1 then Err(InvalidLimit) else Ok(PageOf(Selected(table, q), LimitOf(q)))
  }

  // ----- the table -----

  /** Sequence numbers are unique, and small enough to survive in a cursor. */
  ghost predicate TableOk(table: seq<Event>) {
    && (forall i, j :: 0 <= i < j < |table| ==> table[i].sequence != table[j].sequence)
    && (forall i :: 0 <= i < |table| ==> table[i].sequence <= MAX_SAFE_INTEGER)
  }

  ghost predicate Descending(rows: seq<Event>) {
    forall i, j :: 0 <= i < j < |rows| ==> After(Some(KeyOf(rows[i])), rows[j])
  }

  lemma NewestFirstTotal()
    ensures Sorting.TotalOrder(NewestFirst)
  {
  }

  lemma {:induction false} FilterMembers(events: seq<Event>, p: Event -> bool, e: Event)
    ensures e in Filter(events, p) <==> e in events && p(e)
  {
    if events != [] {
      FilterMembers(events[1..], p, e);
      assert events == [events[0]] + events[1..];
    }
  }

  lemma {:induction false} FilterInsert(x: Event, events: seq<Event>, p: Event -> bool)
    requires Sorting.Sorted(events, NewestFirst)
    ensures Filter(Sorting.Insert(x, events, NewestFirst), p)
            == if p(x) then Sorting.Insert(x, Filter(events, p), NewestFirst) else Filter(events, p)
  {
    if events != [] {
      var kept := Filter(events[1..], p);
      if NewestFirst(x, events[0]) {
        assert ([x] + events)[1..] == events;
        if p(x) && Filter(events, p) != [] {
          FilterMembers(events, p, Filter(events, p)[0]);
        }
      } else {
        FilterInsert(x, events[1..], p);
        var rest := Sorting.Insert(x, events[1..], NewestFirst);
        assert ([events[0]] + rest)[1..] == rest;
        assert ([events[0]] + kept)[1..] == kept;
      }
    }
  }

  /** Filtering before sorting is filtering after it. */
  lemma {:induction false} FilterSort(events: seq<Event>, p: Event -> bool)
    ensures Sorting.Sort(Filter(events, p), NewestFirst) == Filter(Sorting.Sort(events, NewestFirst), p)
  {
    if events != [] {
      NewestFirstTotal();
      Sorting.SortSorts(events[1..], NewestFirst);
      FilterSort(events[1..], p);
      FilterInsert(events[0], Sorting.Sort(events[1..], NewestFirst), p);
      assert ([events[0]] + Filter(events[1..], p))[1..] == Filter(events[1..], p);
    }
  }

  lemma {:induction false} FilterFilter(events: seq<Event>, p: Event -> bool, r: Event -> bool, both: Event -> bool)
    requires forall e :: both(e) <==> p(e) && r(e)
    ensures Filter(events, both) == Filter(Filter(events, p), r)
  {
    if events != [] {
      FilterFilter(events[1..], p, r, both);
      if p(events[0]) {
        assert Filter(events, p)[1..] == Filter(events[1..], p);
      }
    }
  }

  lemma {:induction false} FilterUnique(events: seq<Event>, p: Event -> bool)
    requires TableOk(events)
    ensures TableOk(Filter(events, p))
  {
    if events != [] {
      FilterUnique(events[1..], p);
      var rest := Filter(events[1..], p);
      forall i | 0 <= i < |rest| ensures rest[i].sequence != events[0].sequence && rest[i].sequence <= MAX_SAFE_INTEGER {
        FilterMembers(events[1..], p, rest[i]);
      }
    }
  }

  lemma SortUnique(events: seq<Event>)
    requires TableOk(events)
    ensures Descending(Sorting.Sort(events, NewestFirst))
    ensures forall e :: e in Sorting.Sort(events, NewestFirst) <==> e in events
    decreases |events|
  {
    NewestFirstTotal();
    var s := Sorting.Sort(events, NewestFirst);
    Sorting.SortSorts(events, NewestFirst);
    Sorting.SortKeepsElements(events, NewestFirst);
    forall e ensures e in s <==> e in events {
      Sorting.SameMembers(s, events, e);
    }
    forall i, j | 0 <= i < j < |s| ensures After(Some(KeyOf(s[i])), s[j]) {
      TwoPlaces(s, events, i, j);
    }
  }

  /** Different positions of a permutation hold different sequence numbers. */
  lemma TwoPlaces(s: seq<Event>, events: seq<Event>, i: nat, j: nat)
    requires TableOk(events) && multiset(s) == multiset(events) && i < j < |s|
    ensures s[i].sequence != s[j].sequence
  {
    if s[i] == s[j] {
      assert s == s[..i] + [s[i]] + s[i + 1..j] + [s[j]] + s[j + 1..];
      assert multiset(s)[s[i]] >= 2;
      Multiplicity(events, s[i]);
    } else {
      assert s[i] in multiset(s) && s[j] in multiset(s);
      assert s[i] in events && s[j] in events;
    }
  }

  lemma {:induction false} Multiplicity(events: seq<Event>, e: Event)
    requires TableOk(events)
    ensures multiset(events)[e] <= 1
  {
    if events != [] {
      Multiplicity(events[1..], e);
      assert events == [events[0]] + events[1..];
      if e == events[0] {
        assert e !in events[1..];
      }
    }
  }

  // ----- one page -----

  lemma SelectedFacts(table: seq<Event>, q: Query)
    requires TableOk(table)
    ensures Descending(Selected(table, q))
    ensures forall e :: e in Selected(table, q) <==> e in table && Matches(q, e) && After(q.cursor, e)
  {
    var p := e => Matches(q, e) && After(q.cursor, e);
    FilterUnique(table, p);
    SortUnique(Filter(table, p));
    forall e ensures e in Filter(table, p) <==> e in table && p(e) {
      FilterMembers(table, p, e);
    }
  }

  /**
   * A page splits the rows beyond its cursor: each is either on the page or beyond the page's
   * own next cursor, never both, and without a next cursor all of them are on the page.
   */
  lemma PageSplits(table: seq<Event>, q: Query, e: Event)
    requires TableOk(table) && LimitOf(q) >= 1
    ensures var page := PageOf(Selected(table, q), LimitOf(q));
            && Descending(page.data)
            && (e in page.data ==> e in table && Matches(q, e) && After(q.cursor, e)
                                   && !(page.nextCursor.Some? && After(page.nextCursor, e)))
            && (e in table && Matches(q, e) && After(q.cursor, e) ==>
                  e in page.data || (page.nextCursor.Some? && After(page.nextCursor, e)))
  {
    SelectedFacts(table, q);
    var rows := Selected(table, q);
    var limit := LimitOf(q);
    if |rows| > limit && e in rows {
      var i :| 0 <= i < |rows| && rows[i] == e;
      if i >= limit {
        assert After(Some(KeyOf(rows[limit - 1])), rows[i]);
      } else {
        assert rows[..limit][i] == e;
      }
      if j :| 0 <= j < limit && rows[j] == e {
        assert j < limit - 1 ==> After(Some(KeyOf(rows[j])), rows[limit - 1]);
      }
    }
  }

  // ----- following the cursors over a fixed table -----

  function WithCursor(q: Query, c: Option<Cursor>): Query { q.(cursor := c) }

  /** The pages met by following each next cursor until there is none. */
  function Pages(rows: seq<Event>, limit: int): (pages: seq<seq<Event>>)
    requires limit >= 1
    decreases |rows|
  {
    if |rows| > limit then [rows[..limit]] + Pages(rows[limit..], limit) else [rows]
  }

  function Concat(pages: seq<seq<Event>>): seq<Event> {
    if pages == [] then [] else pages[0] + Concat(pages[1..])
  }

  /** `k` is the number of pages of `limit` rows that `n` rows fill, and 1 for no rows. */
  ghost predicate PageCount(k: nat, n: nat, limit: int) {
    if n == 0 then k == 1 else (k - 1) * limit < n <= k * limit
  }

  lemma {:induction false} PagesConcat(rows: seq<Event>, limit: int)
    requires limit >= 1
    ensures Concat(Pages(rows, limit)) == rows
    ensures PageCount(|Pages(rows, limit)|, |rows|, limit)
    decreases |rows|
  {
    if |rows| > limit {
      PagesConcat(rows[limit..], limit);
      var rest := Pages(rows[limit..], limit);
      assert Pages(rows, limit)[1..] == rest;
      assert rows == rows[..limit] + rows[limit..];
      assert (|rest| + 1) * limit == |rest| * limit + limit;
      assert (|rest| - 1) * limit + limit == |rest| * limit;
    } else {
      assert Concat([rows]) == rows + Concat([]);
    }
  }

  /** The rows selected beyond the k-th row of the listing are the listing's remaining rows. */
  lemma SelectedIsSuffix(table: seq<Event>, q: Query, k: nat)
    requires TableOk(table)
    requires k <= |Listing(table, q)|
    requires q.cursor == if k == 0 then None else Some(KeyOf(Listing(table, q)[k - 1]))
    ensures Selected(table, q) == Listing(table, q)[k..]
  {
    var matching := e => Matches(q, e);
    var beyond := e => After(q.cursor, e);
    var both := e => Matches(q, e) && After(q.cursor, e);
    FilterFilter(table, matching, beyond, both);
    FilterSort(Filter(table, matching), beyond);
    FilterUnique(table, matching);
    SortUnique(Filter(table, matching));
    var listing := Listing(table, q);
    assert Selected(table, q) == Filter(listing, beyond);
    if k == 0 {
      KeepAll(listing, beyond);
    } else {
      forall i | 0 <= i < k ensures !beyond(listing[i]) {
        assert i < k - 1 ==> After(Some(KeyOf(listing[i])), listing[k - 1]);
      }
      DropPrefix(listing, beyond, k);
      KeepAll(listing[k..], beyond);
    }
  }

  lemma {:induction false} KeepAll(events: seq<Event>, p: Event -> bool)
    requires forall i :: 0 <= i < |events| ==> p(events[i])
    ensures Filter(events, p) == events
  {
    if events != [] { KeepAll(events[1..], p); }
  }

  lemma {:induction false} DropPrefix(events: seq<Event>, p: Event -> bool, k: nat)
    requires k <= |events| && forall i :: 0 <= i < k ==> !p(events[i])
    ensures Filter(events, p) == Filter(events[k..], p)
  {
    if k > 0 {
      DropPrefix(events[1..], p, k - 1);
      assert events[1..][k - 1..] == events[k..];
    }
  }

  /** A walk: each page is answered for the cursor of the one before, until a page has no next cursor. */
  ghost predicate Walk(table: seq<Event>, q: Query, pages: seq<seq<Event>>)
    decreases |pages|
  {
    pages != [] && RunQuery(table, q).Ok? && RunQuery(table, q).value.data == pages[0] &&
    var next := RunQuery(table, q).value.nextCursor;
    if next.None? then |pages| == 1 else Walk(table, WithCursor(q, next), pages[1..])
  }

  lemma ValidateIgnoresCursor(q: Query, c: Option<Cursor>)
    ensures Validate(WithCursor(q, c)) == Validate(q)
  {
    FirstBadIgnoresCursor(q, c, ENUM_ORDER);
  }

  lemma {:induction false} FirstBadIgnoresCursor(q: Query, c: Option<Cursor>, columns: seq<Column>)
    ensures FirstBadEnum(WithCursor(q, c), columns) == FirstBadEnum(q, columns)
  {
    if columns != [] { FirstBadIgnoresCursor(q, c, columns[1..]); }
  }

  /** The page read after `k` rows, and where its cursor points. */
  lemma PageAt(table: seq<Event>, q: Query, listing: seq<Event>, k: nat)
    requires TableOk(table) && Validate(q).None? && listing == Listing(table, q)
    requires k < |listing| || (k == 0 && listing == [])
    requires q.cursor == if k == 0 then None else Some(KeyOf(listing[k - 1]))
    ensures RunQuery(table, q) == Ok(PageOf(listing[k..], LimitOf(q)))
  {
    SelectedIsSuffix(table, q, k);
    if k > 0 {
      ListingSafe(table, q, k - 1);
    }
  }

  lemma WalkOn(table: seq<Event>, q: Query, rows: seq<Event>)
    requires LimitOf(q) >= 1 && RunQuery(table, q) == Ok(PageOf(rows, LimitOf(q)))
    requires |rows| > LimitOf(q)
    requires Walk(table, WithCursor(q, Some(KeyOf(rows[LimitOf(q) - 1]))), Pages(rows[LimitOf(q)..], LimitOf(q)))
    ensures Walk(table, q, Pages(rows, LimitOf(q)))
  {
    assert Pages(rows, LimitOf(q))[1..] == Pages(rows[LimitOf(q)..], LimitOf(q));
  }

  lemma WalkEnd(table: seq<Event>, q: Query, rows: seq<Event>)
    requires LimitOf(q) >= 1 && RunQuery(table, q) == Ok(PageOf(rows, LimitOf(q))) && |rows| <= LimitOf(q)
    ensures Walk(table, q, Pages(rows, LimitOf(q)))
  {
  }

  lemma SameButCursor(table: seq<Event>, q: Query, c: Option<Cursor>)
    requires Validate(q).None?
    ensures Validate(WithCursor(q, c)).None? && Listing(table, WithCursor(q, c)) == Listing(table, q)
    ensures LimitOf(WithCursor(q, c)) == LimitOf(q) && WithCursor(q, c).cursor == c
  {
    ListingIgnoresCursor(table, q, c);
    ValidateIgnoresCursor(q, c);
  }

  /** `k` rows have been read, and the cursor stands after them. */
  ghost predicate StandsAt(table: seq<Event>, q: Query, listing: seq<Event>, k: nat) {
    && Validate(q).None? && listing == Listing(table, q)
    && (k < |listing| || (k == 0 && listing == []))
    && q.cursor == if k == 0 then None else Some(KeyOf(listing[k - 1]))
  }

  lemma WalkLast(table: seq<Event>, q: Query, listing: seq<Event>, k: nat)
    requires TableOk(table) && StandsAt(table, q, listing, k) && k + LimitOf(q) >= |listing|
    ensures Walk(table, q, Pages(listing[k..], LimitOf(q)))
  {
    PageAt(table, q, listing, k);
    WalkEnd(table, q, listing[k..]);
  }

  /** A page that is not the last, and the walk from its cursor on. */
  lemma WalkMore(table: seq<Event>, q: Query, listing: seq<Event>, k: nat, next: Query)
    requires TableOk(table) && StandsAt(table, q, listing, k) && k + LimitOf(q) < |listing| && LimitOf(q) >= 1
    requires next == WithCursor(q, Some(KeyOf(listing[k + LimitOf(q) - 1])))
    requires Walk(table, next, Pages(listing[k + LimitOf(q)..], LimitOf(q)))
    ensures Walk(table, q, Pages(listing[k..], LimitOf(q)))
  {
    var rows, limit := listing[k..], LimitOf(q);
    PageAt(table, q, listing, k);
    assert rows[limit..] == listing[k + limit..] && rows[limit - 1] == listing[k + limit - 1];
    WalkOn(table, q, rows);
  }

  lemma {:induction false} WalkFrom(table: seq<Event>, q: Query, listing: seq<Event>, k: nat)
    requires TableOk(table) && StandsAt(table, q, listing, k)
    ensures Walk(table, q, Pages(listing[k..], LimitOf(q)))
    decreases |listing| - k
  {
    var limit := LimitOf(q);
    assert limit >= 1;
    if k + limit < |listing| {
      var cursor := Some(KeyOf(listing[k + limit - 1]));
      var next := WithCursor(q, cursor);
      SameButCursor(table, q, cursor);
      WalkFrom(table, next, listing, k + limit);
      WalkMore(table, q, listing, k, next);
    } else {
      WalkLast(table, q, listing, k);
    }
  }

  lemma ListingIgnoresCursor(table: seq<Event>, q: Query, c: Option<Cursor>)
    ensures Listing(table, WithCursor(q, c)) == Listing(table, q)
  {
    SameFilter(table, e => Matches(WithCursor(q, c), e), e => Matches(q, e));
  }

  lemma {:induction false} SameFilter(events: seq<Event>, p: Event -> bool, r: Event -> bool)
    requires forall e :: p(e) == r(e)
    ensures Filter(events, p) == Filter(events, r)
  {
    if events != [] { SameFilter(events[1..], p, r); }
  }

  lemma ListingSafe(table: seq<Event>, q: Query, i: nat)
    requires TableOk(table) && i < |Listing(table, q)|
    ensures Listing(table, q)[i].sequence <= MAX_SAFE_INTEGER
  {
    var matching := e => Matches(q, e);
    FilterUnique(table, matching);
    SortUnique(Filter(table, matching));
    assert Listing(table, q)[i] in Filter(table, matching);
  }

  /**
   * Following the cursors over a table that does not change visits every matching row once, newest
   * first, and stops after max(1, ceil(n / limit)) pages.
   */
  lemma WalkIsComplete(table: seq<Event>, q: Query)
    requires TableOk(table) && Validate(q).None? && q.cursor.None?
    ensures var n := |Listing(table, q)|;
            exists pages ::
              && Walk(table, q, pages)
              && Concat(pages) == Listing(table, q)
              && PageCount(|pages|, n, LimitOf(q))
    ensures Descending(Listing(table, q))
    ensures forall e :: e in Listing(table, q) <==> e in table && Matches(q, e)
  {
    var listing := Listing(table, q);
    WalkFrom(table, q, listing, 0);
    assert listing[0..] == listing;
    PagesConcat(listing, LimitOf(q));
    assert Walk(table, q, Pages(listing, LimitOf(q)));
    SelectedFacts(table, q);
    SelectedIsSuffix(table, q, 0);
  }

  // ----- following the cursors while rows are appended -----

  /** The rows met when the i-th page is read from the i-th table. */
  ghost function Collected(tables: seq<seq<Event>>, q: Query): seq<Event>
    requires LimitOf(q) >= 1
    decreases |tables|
  {
    if tables == [] then []
    else
      var page := PageOf(Selected(tables[0], q), LimitOf(q));
      page.data + (if page.nextCursor.None? then [] else Collected(tables[1..], WithCursor(q, page.nextCursor)))
  }

  /** The walk reached a page without a next cursor. */
  ghost predicate Ends(tables: seq<seq<Event>>, q: Query)
    requires LimitOf(q) >= 1
    decreases |tables|
  {
    tables != [] &&
    var page := PageOf(Selected(tables[0], q), LimitOf(q));
    page.nextCursor.None? || Ends(tables[1..], WithCursor(q, page.nextCursor))
  }

  lemma {:induction false} CollectedBeyond(tables: seq<seq<Event>>, q: Query, e: Event)
    requires LimitOf(q) >= 1 && forall i :: 0 <= i < |tables| ==> TableOk(tables[i])
    ensures e in Collected(tables, q) ==> Matches(q, e) && After(q.cursor, e)
    ensures multiset(Collected(tables, q))[e] <= 1
    decreases |tables|
  {
    if tables != [] {
      PageSplits(tables[0], q, e);
      var page := PageOf(Selected(tables[0], q), LimitOf(q));
      DescendingOnce(page.data, e);
      if page.nextCursor.Some? {
        var rest := Collected(tables[1..], WithCursor(q, page.nextCursor));
        CollectedBeyond(tables[1..], WithCursor(q, page.nextCursor), e);
        assert Collected(tables, q) == page.data + rest;
        assert multiset(page.data + rest)[e] == multiset(page.data)[e] + multiset(rest)[e];
        assert multiset(rest)[e] > 0 ==> e in rest;
        assert multiset(page.data)[e] > 0 ==> e in page.data;
        NextIsOnward(tables[0], q, e);
      } else {
        assert Collected(tables, q) == page.data + [] == page.data;
      }
    }
  }

  lemma DescendingOnce(rows: seq<Event>, e: Event)
    requires Descending(rows)
    ensures multiset(rows)[e] <= 1
    decreases |rows|
  {
    if rows != [] {
      DescendingOnce(rows[1..], e);
      assert rows == [rows[0]] + rows[1..];
      forall i | 1 <= i < |rows| ensures rows[i] != rows[0] {
        assert After(Some(KeyOf(rows[0])), rows[i]);
      }
    }
  }

  lemma NextIsOnward(table: seq<Event>, q: Query, e: Event)
    requires TableOk(table) && LimitOf(q) >= 1
    ensures var next := PageOf(Selected(table, q), LimitOf(q)).nextCursor;
            next.Some? && After(next, e) ==> After(q.cursor, e)
  {
    var rows := Selected(table, q);
    if |rows| > LimitOf(q) {
      SelectedFacts(table, q);
      assert rows[LimitOf(q) - 1] in rows;
    }
  }

  /**
   * While rows are appended between pages (whatever their times), a finished walk returns every row
   * that was there at the start exactly once, and no row at all twice.
   */
  lemma {:induction false} AppendsLoseNothing(tables: seq<seq<Event>>, q: Query, e: Event)
    requires LimitOf(q) >= 1 && forall i :: 0 <= i < |tables| ==> TableOk(tables[i])
    requires Ends(tables, q)
    requires forall i :: 0 <= i < |tables| ==> e in tables[i]
    requires Matches(q, e) && After(q.cursor, e)
    ensures multiset(Collected(tables, q))[e] == 1
    decreases |tables|
  {
    PageSplits(tables[0], q, e);
    CollectedBeyond(tables, q, e);
    var page := PageOf(Selected(tables[0], q), LimitOf(q));
    if page.nextCursor.Some? {
      var rest := Collected(tables[1..], WithCursor(q, page.nextCursor));
      assert Collected(tables, q) == page.data + rest;
      if e !in page.data {
        AppendsLoseNothing(tables[1..], WithCursor(q, page.nextCursor), e);
        assert multiset(page.data + rest)[e] == multiset(page.data)[e] + multiset(rest)[e];
      } else {
        assert e in page.data + rest;
      }
    } else {
      assert Collected(tables, q) == page.data + [];
    }
  }

  /** A cursor is refused exactly when it names a sequence number beyond the safe integers. */
  lemma NextCursorRefusedIff(table: seq<Event>, q: Query)
    requires RunQuery(table, q).Ok? && RunQuery(table, q).value.nextCursor.Some?
    ensures var page := RunQuery(table, q).value;
            RunQuery(table, WithCursor(q, page.nextCursor)) == Err(InvalidCursor)
            <==> page.data[|page.data| - 1].sequence > MAX_SAFE_INTEGER
  {
    ValidateIgnoresCursor(q, RunQuery(table, q).value.nextCursor);
  }
}
