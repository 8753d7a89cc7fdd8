/** What an audit query returns and refuses, in terms of the query and the rows themselves. */
module AuditFilters {
  import opened Wrappers
  import opened AuditPagination
  import Sorting

  // ----- which rows -----

  /** The event's own column, absent when it is NULL. */
  predicate Has(e: Event, c: Column, value: string) { c in e.text && e.text[c] == value }

  /** Not before `from`, not after `to`, and equal to every filter that was given and is not empty. */
  ghost predicate AskedFor(q: Query, e: Event) {
    && (q.from.At? ==> q.from.ms <= e.occurredAt)
    && (q.to.At? ==> e.occurredAt <= q.to.ms)
    && (forall c :: c in q.equals && q.equals[c] != "" ==> Has(e, c, q.equals[c]))
  }

  predicate OnSomePage(pages: seq<seq<Event>>, e: Event) { exists i :: 0 <= i < |pages| && e in pages[i] }

  lemma {:induction false} PagedOrNot(pages: seq<seq<Event>>, e: Event)
    ensures e in Concat(pages) <==> OnSomePage(pages, e)
  {
    if pages != [] {
      PagedOrNot(pages[1..], e);
      if i :| 0 <= i < |pages[1..]| && e in pages[1..][i] {
        assert e in pages[1 + i];
      }
      if i :| 0 <= i < |pages| && e in pages[i] {
        assert i > 0 ==> e in pages[1..][i - 1];
      }
    }
  }

  /** A walk has no choice. */
  lemma {:induction false} OneWalk(table: seq<Event>, q: Query, a: seq<seq<Event>>, b: seq<seq<Event>>)
    requires Walk(table, q, a) && Walk(table, q, b)
    ensures a == b
    decreases |a|
  {
    var next := RunQuery(table, q).value.nextCursor;
    if next.Some? {
      OneWalk(table, WithCursor(q, next), a[1..], b[1..]);
      assert a == [a[0]] + a[1..] && b == [b[0]] + b[1..];
    }
  }

  /** The newest first; of the same time, the larger sequence first. */
  ghost predicate InOrder(rows: seq<Event>) {
    forall i, j :: 0 <= i < j < |rows| ==>
      rows[i].occurredAt > rows[j].occurredAt
      || (rows[i].occurredAt == rows[j].occurredAt && rows[i].sequence > rows[j].sequence)
  }

  lemma MatchesAsked(q: Query, e: Event)
    ensures Matches(q, e) <==> AskedFor(q, e)
  {
  }

  lemma ListingInOrder(table: seq<Event>, q: Query)
    requires TableOk(table)
    ensures InOrder(Listing(table, q))
  {
    var listing := Listing(table, q);
    FilterUnique(table, e => Matches(q, e));
    SortUnique(Filter(table, e => Matches(q, e)));
    forall i, j | 0 <= i < j < |listing|
      ensures listing[i].occurredAt > listing[j].occurredAt
           || (listing[i].occurredAt == listing[j].occurredAt && listing[i].sequence > listing[j].sequence) {
      assert After(Some(KeyOf(listing[i])), listing[j]);
    }
  }

  /**
   * Walking the pages of an accepted query over a table that does not change: an event is on some page exactly when it is
   * in the table and was asked for, and the pages together are in order, newest first.
   */
  lemma WalkReturns(table: seq<Event>, q: Query, pages: seq<seq<Event>>, e: Event)
    requires TableOk(table) && Validate(q).None? && q.cursor.None? && Walk(table, q, pages)
    ensures OnSomePage(pages, e) <==> e in table && AskedFor(q, e)
    ensures InOrder(Concat(pages))
  {
    WalkIsComplete(table, q);
    var whole :| Walk(table, q, whole) && Concat(whole) == Listing(table, q);
    OneWalk(table, q, pages, whole);
    PagedOrNot(pages, e);
    MatchesAsked(q, e);
    ListingInOrder(table, q);
  }

  /** Each page but the last is full: fifty rows unless the query says otherwise. */
  lemma {:induction false} PagesFull(table: seq<Event>, q: Query, pages: seq<seq<Event>>, i: nat)
    requires Validate(q).None? && Walk(table, q, pages) && i < |pages|
    ensures var limit := if q.limit.Some? then q.limit.value else 50;
            |pages[i]| <= limit && (i < |pages| - 1 ==> |pages[i]| == limit)
    decreases |pages|
  {
    var next := RunQuery(table, q).value.nextCursor;
    if i > 0 {
      ValidateIgnoresCursor(q, next);
      PagesFull(table, WithCursor(q, next), pages[1..], i - 1);
    }
  }

  // ----- which queries -----

  predicate NoDate(w: When) { w == NotADate }

  predicate OneOf4(value: string, a: string, b: string, c: string, d: string) {
    value == a || value == b || value == c || value == d
  }

  /** A filter on a column with a fixed set of values asks for one of them. */
  predicate KnownValue(q: Query, c: Column) {
    c in q.equals && q.equals[c] != "" ==>
      match c
      case ActorType => OneOf4(q.equals[c], "user", "api_key", "system", "anonymous")
      case Outcome => OneOf4(q.equals[c], "attempted", "succeeded", "failed", "denied")
      case Severity => OneOf4(q.equals[c], "info", "warning", "high", "critical")
      case Source => OneOf4(q.equals[c], "rest", "graphql", "auth", "job")
      case _ => true
  }

  lemma KnownIff(q: Query, c: Column)
    requires c == ActorType || c == Outcome || c == Severity || c == Source
    ensures EnumOk(q, c) <==> KnownValue(q, c)
  {
    if c in q.equals {
      var allowed := AllowedValues(c).value;
      assert allowed == [allowed[0], allowed[1], allowed[2], allowed[3]];
    }
  }

  /**
   * An accepted query has readable dates in order and at most ninety days apart, a limit from 1 to 200, known values in
   * the four columns that have such, and no filter longer than 1000 characters; every other query is refused.
   */
  lemma AcceptedIff(q: Query)
    ensures Validate(q).None?
            <==> && !NoDate(q.from) && !NoDate(q.to)
                 && (q.from.At? && q.to.At? ==> 0 <= q.to.ms - q.from.ms <= 7_776_000_000)
                 && (q.limit.Some? ==> 1 <= q.limit.value <= 200)
                 && KnownValue(q, ActorType) && KnownValue(q, Outcome) && KnownValue(q, Severity) && KnownValue(q, Source)
                 && (forall c :: c in q.equals ==> |q.equals[c]| <= 1000)
  {
    KnownIff(q, ActorType);
    KnownIff(q, Outcome);
    KnownIff(q, Severity);
    KnownIff(q, Source);
    FirstBadNone(q);
  }

  lemma FirstBadStep(q: Query, c: Column, rest: seq<Column>)
    ensures FirstBadEnum(q, [c] + rest).None? <==> EnumOk(q, c) && FirstBadEnum(q, rest).None?
  {
    assert ([c] + rest)[1..] == rest;
  }

  lemma FirstBadNone(q: Query)
    ensures FirstBadEnum(q, ENUM_ORDER).None?
            <==> EnumOk(q, ActorType) && EnumOk(q, Outcome) && EnumOk(q, Severity) && EnumOk(q, Source)
  {
    FirstBadStep(q, ActorType, [Outcome, Severity, Source]);
    FirstBadStep(q, Outcome, [Severity, Source]);
    FirstBadStep(q, Severity, [Source]);
    FirstBadStep(q, Source, []);
    assert [ActorType] + [Outcome, Severity, Source] == ENUM_ORDER;
    assert [Outcome] + [Severity, Source] == [Outcome, Severity, Source];
    assert [Severity] + [Source] == [Severity, Source] && [Source] + [] == [Source];
  }

  /** The first complaint wins: dates, their order, the window, the limit, the values, the lengths; then the cursor. */
  lemma ComplaintOrder(table: seq<Event>, q: Query)
    ensures var r := RunQuery(table, q);
            && (r == Err(InvalidDates) <==> NoDate(q.from) || NoDate(q.to))
            && (r == Err(FromAfterTo) <==> q.from.At? && q.to.At? && q.from.ms > q.to.ms)
            && (r == Err(WindowTooLong) <==> q.from.At? && q.to.At? && q.to.ms - q.from.ms > 7_776_000_000)
            && (r == Err(InvalidCursor) <==>
                  && Validate(q).None? && q.cursor.Some?
                  && (q.cursor.value.sequence > 9_007_199_254_740_991 || q.cursor.value.sequence < -9_007_199_254_740_991))
  {
  }
}
