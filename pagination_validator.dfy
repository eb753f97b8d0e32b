/**
 * The pagination query schema: `page` and `limit` optional positive whole
 * numbers defaulting to 1 and 10, `limit` at most 100, and an optional
 * `orderBy` with a field name and a direction `asc` or `desc`. What
 * `safeParse` hands on is the parsed options, or nothing when a rule is
 * broken.
 */
module PaginationValidator {
  import opened Wrappers
  import opened Schema
  import opened Pagination

  const MaxLimit: int := 100

  datatype RawOrderBy = RawOrderBy(field: string, direction: string)

  /** The query as numbers and strings; `None` is an absent key. */
  datatype RawQuery = RawQuery(page: Option<real>, limit: Option<real>, orderBy: Option<RawOrderBy>)

  /** `z.enum(['asc', 'desc'])`. */
  function ParseDirection(s: string): (d: Option<Direction>)
    ensures d == Some(Asc) <==> s == "asc"
    ensures d == Some(Desc) <==> s == "desc"
    ensures d.None? <==> s != "asc" && s != "desc"
  {
    if s == "asc" then Some(Asc) else if s == "desc" then Some(Desc) else None
  }

  /** Every rule of the schema holds. */
  predicate ValidQuery(q: RawQuery) {
    (q.page.None? || IsPositiveInteger(q.page.value))
    && (q.limit.None? || (IsPositiveInteger(q.limit.value) && q.limit.value <= MaxLimit as real))
    && (q.orderBy.None? || ParseDirection(q.orderBy.value.direction).Some?)
  }

  /** `PaginationValidator.safeParse(query).data`: the options with the
      defaults filled in when every rule holds, otherwise nothing. */
  function ParsePagination(q: RawQuery): (r: Option<PaginationOptions>)
    ensures r.Some? <==> ValidQuery(q)
    ensures r.Some? ==> 1 <= r.value.page && 1 <= r.value.limit <= MaxLimit
    ensures r.Some? ==> r.value.page == (if q.page.None? then DefaultPage else q.page.value.Floor)
                        && r.value.page as real == (if q.page.None? then 1.0 else q.page.value)
    ensures r.Some? ==> r.value.limit == (if q.limit.None? then DefaultLimit else q.limit.value.Floor)
                        && r.value.limit as real == (if q.limit.None? then 10.0 else q.limit.value)
    ensures r.Some? ==> (r.value.orderBy.Some? <==> q.orderBy.Some?)
    ensures r.Some? && q.orderBy.Some? ==>
              r.value.orderBy.value.field == q.orderBy.value.field
              && Some(r.value.orderBy.value.direction) == ParseDirection(q.orderBy.value.direction)
  {
    if !ValidQuery(q) then None
    else
      var page := if q.page.None? then DefaultPage else q.page.value.Floor;
      var limit := if q.limit.None? then DefaultLimit else q.limit.value.Floor;
      var orderBy := match q.orderBy
        case None => None
        case Some(o) => Some(OrderBy(o.field, ParseDirection(o.direction).value));
      Some(PaginationOptions(page, limit, orderBy))
  }

  /** Whatever the query, what reaches the repositories is within the
      options they cover: parsed options are used as given, with no further
      defaulting, and a refused query falls back to page 1, limit 10 and
      `createdAt desc`. */
  lemma ParsedOptionsReachRepositories(q: RawQuery)
    ensures NonNegative(ParsePagination(q))
    ensures ValidQuery(q) ==> PageOf(ParsePagination(q)) == ParsePagination(q).value.page
                              && LimitOf(ParsePagination(q)) == ParsePagination(q).value.limit
                              && LimitOf(ParsePagination(q)) <= MaxLimit
    ensures !ValidQuery(q) ==> PageOf(ParsePagination(q)) == 1 && LimitOf(ParsePagination(q)) == 10
                               && OrderByOf(ParsePagination(q)) == OrderBy("createdAt", Desc)
  {
  }

  /** The empty query gives the defaults; a limit of 101 or a page of 0 is
      refused. */
  lemma QueryExamples()
    ensures ParsePagination(RawQuery(None, None, None)) == Some(PaginationOptions(1, 10, None))
    ensures ParsePagination(RawQuery(None, Some(101.0), None)).None?
    ensures ParsePagination(RawQuery(Some(0.0), None, None)).None?
    ensures ParsePagination(RawQuery(Some(2.5), None, None)).None?
  {
  }
}
