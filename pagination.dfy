/**
 * The pagination contract shared by the repositories: the options a caller
 * passes, their defaults, the rows a page holds and the envelope returned
 * with them.
 */
module Pagination {
  import opened Wrappers

  datatype Direction = Asc | Desc
  datatype OrderBy = OrderBy(field: string, direction: Direction)
  datatype PaginationOptions = PaginationOptions(page: int, limit: int, orderBy: Option<OrderBy>)

  datatype PageInfo = PageInfo(page: int, limit: int, total: nat, totalPages: nat, hasNext: bool, hasPrev: bool)
  datatype Paginated<T> = Paginated(data: seq<T>, pagination: PageInfo)

  const DefaultPage: int := 1
  const DefaultLimit: int := 10
  const DefaultOrderBy: OrderBy := OrderBy("createdAt", Desc)

  /** The options this model covers: absent, or with a page and a limit that
      are not negative. */
  predicate NonNegative(options: Option<PaginationOptions>) {
    options.None? || (options.value.page >= 0 && options.value.limit >= 0)
  }

  /** `options?.page || 1`: the page asked for, with an absent page and page 0
      both becoming page 1. */
  function PageOf(options: Option<PaginationOptions>): (page: int)
    requires NonNegative(options)
    ensures page >= 1
    ensures options.None? || options.value.page == 0 ==> page == DefaultPage
    ensures options.Some? && options.value.page != 0 ==> page == options.value.page
  {
    if options.None? || options.value.page == 0 then DefaultPage else options.value.page
  }

  /** `options?.limit || 10`: the limit asked for, with an absent limit and
      limit 0 both becoming 10. */
  function LimitOf(options: Option<PaginationOptions>): (limit: int)
    requires NonNegative(options)
    ensures limit >= 1
    ensures options.None? || options.value.limit == 0 ==> limit == DefaultLimit
    ensures options.Some? && options.value.limit != 0 ==> limit == options.value.limit
  {
    if options.None? || options.value.limit == 0 then DefaultLimit else options.value.limit
  }

  /** The ordering sent to the database: the caller's field and direction
      when given, otherwise `createdAt` descending. */
  function OrderByOf(options: Option<PaginationOptions>): (ob: OrderBy)
    ensures options.Some? && options.value.orderBy.Some? ==> ob == options.value.orderBy.value
    ensures options.None? || options.value.orderBy.None? ==> ob == OrderBy("createdAt", Desc)
  {
    if options.Some? && options.value.orderBy.Some? then options.value.orderBy.value else DefaultOrderBy
  }

  /** `(page - 1) * limit`: the number of rows on the pages before `page`. */
  function Skip(page: int, limit: int): nat
    requires page >= 1 && limit >= 1
  {
    (page - 1) * limit
  }

  /** `Math.ceil(total / limit)`: the least number of pages of `limit` rows
      that holds `total` rows. */
  function CeilDiv(total: nat, limit: int): (pages: nat)
    requires limit >= 1
    ensures limit * pages >= total
    ensures limit * (pages - 1) < total || pages == 0
  {
    (total + limit - 1) / limit
  }

  /** The ceiling of the quotient is the only count of pages with that
      property. */
  lemma CeilDivUnique(total: nat, limit: int, q: nat)
    requires limit >= 1
    requires limit * q >= total && (limit * (q - 1) < total || q == 0)
    ensures q == CeilDiv(total, limit)
  {
    var c := CeilDiv(total, limit);
    if c > 0 {
      CancelFactor(limit, c - 1, q);
    }
    if q > 0 {
      CancelFactor(limit, q - 1, c);
    }
  }

  /** A positive factor can be cancelled from a strict inequality. */
  lemma CancelFactor(limit: int, a: int, b: int)
    requires limit >= 1 && limit * a < limit * b
    ensures a < b
  {
    assert limit * (b - a) == limit * b - limit * a;
  }

  /** Multiplying by a positive factor keeps a non-strict inequality. */
  lemma ScaleMonotone(limit: int, a: int, b: int)
    requires limit >= 1 && a <= b
    ensures a * limit <= b * limit
  {
    assert b * limit - a * limit == (b - a) * limit;
  }

  /** The envelope built from the effective page and limit and the row count. */
  function Envelope(page: int, limit: int, total: nat): (info: PageInfo)
    requires page >= 1 && limit >= 1
  {
    var totalPages := CeilDiv(total, limit);
    PageInfo(page, limit, total, totalPages, page < totalPages, page > 1)
  }

  /** `hasNext` says that rows remain beyond this page, and `hasPrev` that
      rows were skipped before it. */
  lemma EnvelopeMeaning(page: int, limit: int, total: nat)
    requires page >= 1 && limit >= 1
    ensures Envelope(page, limit, total).totalPages == CeilDiv(total, limit)
    ensures Envelope(page, limit, total).hasNext <==> Skip(page, limit) + limit < total
    ensures Envelope(page, limit, total).hasPrev <==> Skip(page, limit) > 0
  {
    var q := CeilDiv(total, limit);
    assert Skip(page, limit) + limit == page * limit;
    if page < q {
      ScaleMonotone(limit, page, q - 1);
    } else {
      ScaleMonotone(limit, q, page);
    }
  }

  /** How many of `n` rows a window of `take` rows from position `skip`
      holds: none past the end, otherwise `take` or what is left. */
  function WindowSize(n: nat, skip: nat, take: nat): nat {
    if skip >= n then 0 else if take <= n - skip then take else n - skip
  }

  /** The `take` rows from position `skip` on, or fewer at the end. */
  function Window<T>(s: seq<T>, skip: nat, take: nat): (w: seq<T>)
    ensures |w| == WindowSize(|s|, skip, take)
    ensures |w| <= take
    ensures skip + take <= |s| ==> |w| == take
    ensures skip < |s| < skip + take ==> |w| == |s| - skip
    ensures skip >= |s| ==> w == []
    ensures forall i :: 0 <= i < |w| ==> skip + i < |s| && w[i] == s[skip + i]
  {
    if skip >= |s| then [] else if skip + take <= |s| then s[skip..skip + take] else s[skip..]
  }

  /** A page holds rows exactly when it is one of the `totalPages` pages. */
  lemma PageInRange<T>(s: seq<T>, page: int, limit: int)
    requires page >= 1 && limit >= 1
    ensures |Window(s, Skip(page, limit), limit)| > 0 <==> page <= CeilDiv(|s|, limit)
  {
    var q := CeilDiv(|s|, limit);
    if page <= q {
      ScaleMonotone(limit, page - 1, q - 1);
    } else {
      ScaleMonotone(limit, q, page - 1);
    }
  }

  /** The module's own example: 20 rows with the defaults give two pages. */
  lemma DefaultsExample()
    ensures PageOf(None) == 1 && LimitOf(None) == 10 && Skip(1, 10) == 0
    ensures OrderByOf(None) == OrderBy("createdAt", Desc)
    ensures Envelope(1, 10, 20) == PageInfo(1, 10, 20, 2, true, false)
  {
  }

  /** Page 2 of 3 rows each over 5 rows is the last page. */
  lemma CustomPageExample(s: seq<int>)
    requires |s| == 5
    ensures Skip(2, 3) == 3
    ensures Envelope(2, 3, 5) == PageInfo(2, 3, 5, 2, false, true)
    ensures Window(s, 3, 3) == s[3..]
  {
  }

  /** 25 rows in pages of 10: three pages, the last holding five rows. */
  lemma TwentyFiveRowsExample(s: seq<int>)
    requires |s| == 25
    ensures Envelope(1, 10, 25) == PageInfo(1, 10, 25, 3, true, false)
    ensures Envelope(3, 10, 25) == PageInfo(3, 10, 25, 3, false, true)
    ensures |Window(s, Skip(3, 10), 10)| == 5
  {
  }
}
