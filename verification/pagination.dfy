/**
 * Paginated listing: the `page`/`limit` query parameters with their defaults
 * and validation, and the window and counts the `findAll` methods compute.
 */
module Pagination {
  import opened Wrappers
  import opened Text
  import opened HttpErrors
  import opened Repository

  const DEFAULT_PAGE := 1
  const DEFAULT_LIMIT := 40

  datatype Query = Query(page: int, limit: int)

  /** A query parameter converted with `Number` and checked with `@IsInt`; absent means the default. */
  function Param(text: Option<string>, default: int): (r: Option<int>)
    ensures text.None? ==> r == Some(default)
    ensures text.Some? ==> r == NumberOf(text.value)
  {
    if text.None? then Some(default) else NumberOf(text.value)
  }

  /** The query as the declared constraints admit it: `page` an integer at least 1, `limit` any integer. */
  function ValidateQuery(page: Option<string>, limit: Option<string>): (r: Option<Query>)
    ensures r.Some? <==> Param(page, DEFAULT_PAGE).Some? && Param(page, DEFAULT_PAGE).value >= 1 &&
                         Param(limit, DEFAULT_LIMIT).Some?
    ensures r.Some? ==> r.value == Query(Param(page, DEFAULT_PAGE).value, Param(limit, DEFAULT_LIMIT).value)
    ensures r.Some? ==> r.value.page >= 1
  {
    var p := Param(page, DEFAULT_PAGE);
    var l := Param(limit, DEFAULT_LIMIT);
    if p.Some? && p.value >= 1 && l.Some? then Some(Query(p.value, l.value)) else None
  }

  /** `Number` reads the numerals the examples below use. */
  lemma ReadsNumerals()
    ensures NumberOf("0") == Some(0) && NumberOf("-5") == Some(-5) && NumberOf("2") == Some(2)
  {
    ReadsNumeral(0, "0");
    ReadsNumeral(2, "2");
    ReadsNumeral(-5, "-5");
  }

  /** `Number` reads back the numeral `text` printed for `i`. */
  lemma ReadsNumeral(i: int, text: string)
    requires text == IntToString(i)
    ensures NumberOf(text) == Some(i)
  {
    NumberOfNumeral(i);
  }

  /** A zero or negative `limit` passes the declared validation. */
  lemma LimitWithoutMinimum()
    ensures ValidateQuery(None, Some("0")) == Some(Query(1, 0))
    ensures ValidateQuery(Some("2"), Some("-5")) == Some(Query(2, -5))
  {
    ReadsNumerals();
  }

  /** The query with the lower bound on `limit` that its documentation states: both at least 1. */
  function ValidateQueryWithMinimum(page: Option<string>, limit: Option<string>): (r: Option<Query>)
    ensures r.Some? ==> r.value.page >= 1 && r.value.limit >= 1
    ensures r.Some? <==> ValidateQuery(page, limit).Some? && ValidateQuery(page, limit).value.limit >= 1
    ensures r.Some? ==> r == ValidateQuery(page, limit)
  {
    var q := ValidateQuery(page, limit);
    if q.Some? && q.value.limit >= 1 then q else None
  }

  /** Absent parameters take the defaults 1 and 40. */
  lemma Defaults()
    ensures ValidateQueryWithMinimum(None, None) == Some(Query(DEFAULT_PAGE, DEFAULT_LIMIT))
  {
  }

  /**
   * `(page - 1) * limit`, the `skip` a `findAll` passes: zero on the first
   * page and for limit 0, positive past the first page for a positive limit,
   * and negative past the first page for a negative one.
   */
  function Offset(q: Query): (n: int)
    ensures q.page == 1 || q.limit == 0 ==> n == 0
    ensures q.page > 1 && q.limit > 0 ==> n >= q.limit
    ensures q.page > 1 && q.limit < 0 ==> n <= q.limit
    ensures q.page >= 1 && q.limit >= 0 ==> n >= 0
  {
    (q.page - 1) * q.limit
  }

  /**
   * `Math.ceil(total / limit)` as the JSON body carries it: dividing by 0
   * gives `Infinity`, or `NaN` for `0 / 0`, and both are written as `null`.
   */
  function TotalPages(total: nat, limit: int): (r: Option<int>)
    ensures r.None? <==> limit == 0
    ensures limit > 0 ==> r.value >= 0 && r.value * limit >= total && (r.value - 1) * limit < total
    ensures limit < 0 ==> r.value <= 0 && r.value * limit <= total && (r.value - 1) * limit > total
  {
    if limit == 0 then None
    else if limit > 0 then Some((total + limit - 1) / limit)
    else Some(-(total / -limit))
  }

  /** The response body of a `findAll`; `totalPages` is `null` when the limit is 0. */
  datatype Page<T> = Page(items: seq<T>, currentPage: int, limit: int, totalItems: nat, totalPages: Option<int>)

  /** SQLSTATE 2201X, invalid_row_count_in_result_offset_clause, with PostgreSQL's message. */
  const OFFSET_STATE := "2201X"
  const OFFSET_MESSAGE := "OFFSET must not be negative"

  /** SQLSTATE 2201W, invalid_row_count_in_limit_clause, with PostgreSQL's message. */
  const LIMIT_STATE := "2201W"
  const LIMIT_MESSAGE := "LIMIT must not be negative"

  /**
   * `findAndCount({ take: limit, skip: offset })` wrapped into the response
   * body. A `take` or `skip` of 0 is falsy and adds no LIMIT or OFFSET
   * clause; PostgreSQL refuses a negative OFFSET first, then a negative LIMIT.
   */
  function PageOf<D>(t: Table<D>, q: Query): (r: Outcome<Page<Row<D>>>)
    ensures r.Failure? <==> Offset(q) < 0 || q.limit < 0
    ensures Offset(q) < 0 ==> r == Failure(DatabaseError(OFFSET_STATE, OFFSET_MESSAGE))
    ensures Offset(q) >= 0 && q.limit < 0 ==> r == Failure(DatabaseError(LIMIT_STATE, LIMIT_MESSAGE))
    ensures r.Success? ==>
              var p := r.value;
              p.currentPage == q.page && p.limit == q.limit &&
              p.totalItems == |t.rows| && p.totalPages == TotalPages(|t.rows|, q.limit) &&
              (forall i :: 0 <= i < |p.items| ==> Offset(q) + i < |t.rows| && p.items[i] == t.rows[Offset(q) + i]) &&
              (q.limit > 0 ==> |p.items| <= q.limit) &&
              (q.limit > 0 && Offset(q) + q.limit <= |t.rows| ==> |p.items| == q.limit) &&
              (Offset(q) >= |t.rows| ==> p.items == [])
    ensures q.limit == 0 ==> r.Success? && r.value.items == t.rows
  {
    var skip := Offset(q);
    if skip < 0 then Failure(DatabaseError(OFFSET_STATE, OFFSET_MESSAGE))
    else if q.limit < 0 then Failure(DatabaseError(LIMIT_STATE, LIMIT_MESSAGE))
    else
      var take := if q.limit == 0 then |t.rows| else q.limit;
      Success(Page(Window(t, skip, take), q.page, q.limit, |t.rows|, TotalPages(|t.rows|, q.limit)))
  }

  /**
   * For a validated query, only a negative limit fails: past the first page
   * the database names the offset, on the first page the limit.
   */
  lemma NegativeLimitRefused<D>(t: Table<D>, q: Query)
    requires q.page >= 1
    ensures PageOf(t, q).Failure? <==> q.limit < 0
    ensures q.limit < 0 && q.page > 1 ==> PageOf(t, q).error == DatabaseError(OFFSET_STATE, OFFSET_MESSAGE)
    ensures q.limit < 0 && q.page == 1 ==> PageOf(t, q).error == DatabaseError(LIMIT_STATE, LIMIT_MESSAGE)
  {
  }

  /** Every row is on exactly one of the pages 1..totalPages, at position `index % limit`. */
  lemma RowOnItsPage<D>(t: Table<D>, limit: int, index: nat)
    requires limit >= 1 && index < |t.rows|
    ensures var q := Query(index / limit + 1, limit);
            PageOf(t, q).Success? && q.page <= TotalPages(|t.rows|, limit).value &&
            |PageOf(t, q).value.items| > index % limit &&
            PageOf(t, q).value.items[index % limit] == t.rows[index]
  {
    var q := Query(index / limit + 1, limit);
    assert Offset(q) == (index / limit) * limit;
    assert Offset(q) + index % limit == index;
  }
}
