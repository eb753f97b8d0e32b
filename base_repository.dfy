/**
 * The generic repository over one table: lookup by id through the
 * repository's where clause, the paginated listing, and the writes
 * (create, update, soft delete, hard delete, restore). The table is a
 * sequence of rows in insertion order.
 */
module BaseRepository {
  import opened Wrappers
  import opened Errors
  import opened Pagination

  type Id = nat

  /** A stored record: the fields every entity shares (`id`, `createdAt`,
      `updatedAt`, `deletedAt`) and the entity's own data. Timestamps are
      ticks of the store's clock. */
  datatype Row<T> = Row(id: Id, createdAt: nat, updatedAt: nat, deletedAt: Option<nat>, data: T)

  /** `getWhereClause()`: `{ deletedAt: null }` in the base repository, the
      empty clause in a repository that overrides it. */
  datatype WhereClause = ActiveOnly | AnyRow

  predicate InScope<T>(scope: WhereClause, r: Row<T>) {
    scope == AnyRow || r.deletedAt.None?
  }

  /** Rows are kept in insertion order: ids and creation times strictly
      increase along the table, so in particular ids are unique. */
  predicate Ordered<T>(rows: seq<Row<T>>) {
    forall i, j :: 0 <= i < j < |rows| ==> rows[i].id < rows[j].id && rows[i].createdAt < rows[j].createdAt
  }

  /** The position of the row with identifier `id`, if there is one. */
  function IndexOf<T>(rows: seq<Row<T>>, id: Id): (k: Option<nat>)
    ensures k.Some? ==> k.value < |rows| && rows[k.value].id == id
    ensures k.None? <==> forall i :: 0 <= i < |rows| ==> rows[i].id != id
    decreases |rows|
  {
    if rows == [] then None
    else if rows[0].id == id then Some(0)
    else match IndexOf(rows[1..], id)
      case None => None
      case Some(k) => Some(k + 1)
  }

  /** `findById`: `findUnique` on the id together with the where clause. A
      row is returned exactly when one with that id exists and the clause
      admits it; otherwise null. */
  function Lookup<T>(rows: seq<Row<T>>, scope: WhereClause, id: Id): (r: Option<Row<T>>)
    requires Ordered(rows)
    ensures r.Some? ==> r.value in rows && r.value.id == id && InScope(scope, r.value)
    ensures r.None? <==> forall i :: 0 <= i < |rows| && rows[i].id == id ==> !InScope(scope, rows[i])
  {
    match IndexOf(rows, id)
    case None => None
    case Some(k) => if InScope(scope, rows[k]) then Some(rows[k]) else None
  }

  /** The `where` of a listing: the repository's clause and, when given, the
      caller's filter on the entity's own fields. */
  predicate Matches<T>(scope: WhereClause, filter: Option<T -> bool>, r: Row<T>) {
    InScope(scope, r) && (filter.None? || filter.value(r.data))
  }

  /** The rows a `where` selects, in table order. */
  function Select<T>(rows: seq<Row<T>>, scope: WhereClause, filter: Option<T -> bool>): (s: seq<Row<T>>)
    ensures |s| <= |rows|
    ensures forall i :: 0 <= i < |s| ==> s[i] in rows && Matches(scope, filter, s[i])
    ensures forall i :: 0 <= i < |rows| && Matches(scope, filter, rows[i]) ==> rows[i] in s
    decreases |rows|
  {
    if rows == [] then []
    else
      var rest := Select(rows[1..], scope, filter);
      assert forall i :: 0 < i < |rows| ==> rows[i] == rows[1..][i - 1];
      if Matches(scope, filter, rows[0]) then [rows[0]] + rest else rest
  }

  /** Selecting keeps the table order. */
  lemma {:induction false} SelectKeepsOrder<T>(rows: seq<Row<T>>, scope: WhereClause, filter: Option<T -> bool>)
    requires Ordered(rows)
    ensures Ordered(Select(rows, scope, filter))
    decreases |rows|
  {
    if rows != [] {
      var rest := Select(rows[1..], scope, filter);
      assert Ordered(rows[1..]);
      SelectKeepsOrder(rows[1..], scope, filter);
      if Matches(scope, filter, rows[0]) {
        forall j | 0 <= j < |rest|
          ensures rows[0].id < rest[j].id && rows[0].createdAt < rest[j].createdAt
        {
          HeadPrecedes(rows, rest[j]);
        }
        ConsOrdered(rows[0], rest);
      }
    }
  }

  /** A row placed before an ordered table it precedes keeps it ordered. */
  lemma ConsOrdered<T>(x: Row<T>, rest: seq<Row<T>>)
    requires Ordered(rest)
    requires forall j :: 0 <= j < |rest| ==> x.id < rest[j].id && x.createdAt < rest[j].createdAt
    ensures Ordered([x] + rest)
  {
    var s := [x] + rest;
    forall i, j | 0 <= i < j < |s|
      ensures s[i].id < s[j].id && s[i].createdAt < s[j].createdAt
    {
      assert s[j] == rest[j - 1];
      if i > 0 {
        assert s[i] == rest[i - 1];
      }
    }
  }

  /** In an ordered table the first row precedes every later one. */
  lemma HeadPrecedes<T>(rows: seq<Row<T>>, x: Row<T>)
    requires Ordered(rows) && rows != [] && x in rows[1..]
    ensures rows[0].id < x.id && rows[0].createdAt < x.createdAt
  {
    var m :| 0 <= m < |rows[1..]| && rows[1..][m] == x;
    assert rows[m + 1] == x;
  }

  /** A caller's filter can only narrow the selection. */
  lemma {:induction false} FilterNarrows<T>(rows: seq<Row<T>>, scope: WhereClause, f: T -> bool)
    ensures |Select(rows, scope, Some(f))| <= |Select(rows, scope, None)|
    decreases |rows|
  {
    if rows != [] {
      FilterNarrows(rows[1..], scope, f);
    }
  }

  /** A sequence read backwards: the same elements, last first. */
  function Reverse<T>(s: seq<T>): (r: seq<T>)
    ensures |r| == |s|
    ensures forall i :: 0 <= i < |s| ==> r[i] == s[|s| - 1 - i]
    ensures multiset(r) == multiset(s)
    decreases |s|
  {
    if s == [] then []
    else
      assert s == [s[0]] + s[1..];
      Reverse(s[1..]) + [s[0]]
  }

  /** The order the listing returns the selected rows in: `createdAt desc`
      is the reverse of table order and `createdAt asc` is table order. */
  function Arrange<T>(s: seq<Row<T>>, ob: OrderBy): (a: seq<Row<T>>)
    ensures |a| == |s| && multiset(a) == multiset(s)
    ensures forall i :: 0 <= i < |a| ==> a[i] in s
    ensures forall i :: 0 <= i < |s| ==> s[i] in a
  {
    if ob == OrderBy("createdAt", Desc) then
      var a := Reverse(s);
      assert forall i :: 0 <= i < |s| ==> a[|s| - 1 - i] == s[i];
      a
    else s
  }

  /** The pagination both listings share: the matching rows in the
      requested order, `skip` rows dropped and at most `limit` kept, with the
      envelope computed from the effective page and limit and `total`. */
  function Paginate<T>(matching: seq<Row<T>>, total: nat, options: Option<PaginationOptions>): (p: Paginated<Row<T>>)
    requires NonNegative(options)
    ensures |p.data| <= LimitOf(options)
    ensures |p.data| == WindowSize(|matching|, Skip(PageOf(options), LimitOf(options)), LimitOf(options))
    ensures forall i :: 0 <= i < |p.data| ==>
              p.data[i] == Arrange(matching, OrderByOf(options))[Skip(PageOf(options), LimitOf(options)) + i]
    ensures forall i :: 0 <= i < |p.data| ==> p.data[i] in matching
    ensures p.pagination == Envelope(PageOf(options), LimitOf(options), total)
    ensures p.pagination.page == PageOf(options) && p.pagination.limit == LimitOf(options)
    ensures p.pagination.total == total
  {
    var page := PageOf(options);
    var limit := LimitOf(options);
    var data := Window(Arrange(matching, OrderByOf(options)), Skip(page, limit), limit);
    Paginated(data, Envelope(page, limit, total))
  }

  /** `findMany` of the base repository. The rows returned are at most
      `limit` rows that pass the where clause and the caller's filters;
      `total` counts what the where clause alone admits, whatever the
      filters. */
  function FindMany<T>(rows: seq<Row<T>>, scope: WhereClause, filters: Option<T -> bool>,
                       options: Option<PaginationOptions>): (p: Paginated<Row<T>>)
    requires NonNegative(options)
    ensures |p.data| <= LimitOf(options)
    ensures |p.data| == WindowSize(|Select(rows, scope, filters)|, Skip(PageOf(options), LimitOf(options)), LimitOf(options))
    ensures forall i :: 0 <= i < |p.data| ==>
              p.data[i] == Arrange(Select(rows, scope, filters), OrderByOf(options))[Skip(PageOf(options), LimitOf(options)) + i]
    ensures forall i :: 0 <= i < |p.data| ==> p.data[i] in rows && Matches(scope, filters, p.data[i])
    ensures p.pagination == Envelope(PageOf(options), LimitOf(options), |Select(rows, scope, None)|)
  {
    Paginate(Select(rows, scope, filters), |Select(rows, scope, None)|, options)
  }

  /** With the default ordering a page lists its rows newest first: it is a
      window on the selected rows in reverse table order, and creation times
      strictly decrease along it. */
  lemma DefaultOrderNewestFirst<T>(rows: seq<Row<T>>, scope: WhereClause, filters: Option<T -> bool>,
                                   options: Option<PaginationOptions>)
    requires Ordered(rows) && NonNegative(options)
    requires options.None? || options.value.orderBy.None?
    ensures FindMany(rows, scope, filters, options).data
            == Window(Reverse(Select(rows, scope, filters)), Skip(PageOf(options), LimitOf(options)), LimitOf(options))
    ensures var data := FindMany(rows, scope, filters, options).data;
            forall i, j :: 0 <= i < j < |data| ==> data[i].createdAt > data[j].createdAt
  {
    SelectKeepsOrder(rows, scope, filters);
    NewestFirst(Select(rows, scope, filters), Skip(PageOf(options), LimitOf(options)), LimitOf(options));
  }

  /** Any window on an ordered table read backwards has strictly decreasing
      creation times. */
  lemma NewestFirst<T>(s: seq<Row<T>>, skip: nat, take: nat)
    requires Ordered(s)
    ensures var w := Window(Reverse(s), skip, take);
            forall i, j :: 0 <= i < j < |w| ==> w[i].createdAt > w[j].createdAt
  {
    var w := Window(Reverse(s), skip, take);
    forall i, j | 0 <= i < j < |w|
      ensures w[i].createdAt > w[j].createdAt
    {
      assert w[i] == s[|s| - 1 - (skip + i)];
      assert w[j] == s[|s| - 1 - (skip + j)];
    }
  }

  /** The base repository's `total` does not depend on the caller's filters:
      it can exceed the number of rows the filters match, and with the
      `deletedAt: null` clause it counts every row not soft-deleted. */
  lemma TotalIgnoresFilters<T>(rows: seq<Row<T>>, f: T -> bool, options: Option<PaginationOptions>)
    requires NonNegative(options)
    ensures FindMany(rows, ActiveOnly, Some(f), options).pagination
            == FindMany(rows, ActiveOnly, None, options).pagination
    ensures FindMany(rows, ActiveOnly, Some(f), options).pagination.total >= |Select(rows, ActiveOnly, Some(f))|
    ensures forall r :: r in Select(rows, ActiveOnly, None) <==> r in rows && r.deletedAt.None?
  {
    FilterNarrows(rows, ActiveOnly, f);
  }

  /** The store's answer for a write aimed at an id that has no row: Prisma's
      "record not found" request error (code P2025), which is not an
      `AppError`. */
  const RecordNotFound: Thrown := Other("PrismaClientKnownRequestError", "P2025")

  /** The table after setting the `deletedAt` of the row at `k`. */
  function SetDeletedAt<T>(rows: seq<Row<T>>, k: nat, d: Option<nat>): (r: seq<Row<T>>)
    requires k < |rows|
    ensures |r| == |rows| && r[k].deletedAt == d
    ensures r[k].id == rows[k].id && r[k].data == rows[k].data
    ensures r[k].createdAt == rows[k].createdAt && r[k].updatedAt == rows[k].updatedAt
    ensures forall i :: 0 <= i < |rows| && i != k ==> r[i] == rows[i]
  {
    rows[k := rows[k].(deletedAt := d)]
  }

  /** The table without the row at `k`. */
  function RemoveAt<T>(rows: seq<Row<T>>, k: nat): (r: seq<Row<T>>)
    requires k < |rows|
    ensures |r| == |rows| - 1
    ensures forall i :: 0 <= i < k ==> r[i] == rows[i]
    ensures forall i :: k <= i < |r| ==> r[i] == rows[i + 1]
  {
    rows[..k] + rows[k + 1..]
  }

  /** Soft delete keeps the row but hides it from `findById` under the
      `deletedAt: null` clause; a repository without that clause still sees
      it. */
  lemma SoftDeleteHides<T>(rows: seq<Row<T>>, id: Id, at: nat)
    requires Ordered(rows) && IndexOf(rows, id).Some?
    ensures var after := SetDeletedAt(rows, IndexOf(rows, id).value, Some(at));
            Ordered(after)
            && Lookup(after, ActiveOnly, id).None?
            && Lookup(after, AnyRow, id).Some?
            && |after| == |rows|
  {
    var k := IndexOf(rows, id).value;
    var after := SetDeletedAt(rows, k, Some(at));
    assert after[k].id == id;
  }

  /** Restore sets `deletedAt` back to null, so after a soft delete the row
      is visible to `findById` again; restoring a row that was active before
      the delete gives back the very table it started from. */
  lemma RestoreUndoesDelete<T>(rows: seq<Row<T>>, id: Id, at: nat, scope: WhereClause)
    requires Ordered(rows) && IndexOf(rows, id).Some?
    ensures var k := IndexOf(rows, id).value;
            var restored := SetDeletedAt(SetDeletedAt(rows, k, Some(at)), k, None);
            Ordered(restored)
            && Lookup(restored, scope, id).Some?
            && Lookup(restored, scope, id).value.data == rows[k].data
            && (rows[k].deletedAt.None? ==> restored == rows)
  {
    var k := IndexOf(rows, id).value;
    var restored := SetDeletedAt(SetDeletedAt(rows, k, Some(at)), k, None);
    assert restored[k].id == id;
    if rows[k].deletedAt.None? {
      assert restored[k] == rows[k];
    }
  }

  /** Hard delete removes the row: no scope finds it afterwards, and the
      other rows stay, in order. */
  lemma HardDeleteRemoves<T>(rows: seq<Row<T>>, id: Id, scope: WhereClause)
    requires Ordered(rows) && IndexOf(rows, id).Some?
    ensures var after := RemoveAt(rows, IndexOf(rows, id).value);
            Ordered(after) && Lookup(after, scope, id).None?
            && forall r :: r in rows && r.id != id ==> r in after
  {
    var k := IndexOf(rows, id).value;
    var after := RemoveAt(rows, k);
    forall i | 0 <= i < |after| ensures after[i].id != id {
      if i < k { assert after[i] == rows[i]; } else { assert after[i] == rows[i + 1]; }
    }
    forall r | r in rows && r.id != id ensures r in after {
      var i :| 0 <= i < |rows| && rows[i] == r;
      if i < k { assert after[i] == r; } else { assert i != k; assert after[i - 1] == r; }
    }
  }

  /** One table together with the repository's where clause, its id counter
      and its clock. */
  class Repository<T> {
    const scope: WhereClause
    var rows: seq<Row<T>>
    var nextId: Id
    var clock: nat

    ghost predicate Valid()
      reads this
    {
      Ordered(rows) && forall i :: 0 <= i < |rows| ==> rows[i].id < nextId && rows[i].createdAt < clock
    }

    /** An empty table under the given where clause. */
    constructor (scope: WhereClause)
      ensures Valid() && this.scope == scope && rows == []
    {
      this.scope := scope;
      rows := [];
      nextId := 0;
      clock := 0;
    }

    /** `create`: a new row with a fresh id, stamped with the current time,
        not deleted, appended to the table. */
    method Create(data: T) returns (row: Row<T>)
      requires Valid()
      modifies this`rows, this`nextId, this`clock
      ensures Valid()
      ensures row == Row(old(nextId), old(clock), old(clock), None, data)
      ensures rows == old(rows) + [row]
      ensures nextId == old(nextId) + 1 && clock == old(clock) + 1
    {
      row := Row(nextId, clock, clock, None, data);
      rows := rows + [row];
      nextId := nextId + 1;
      clock := clock + 1;
    }

    /** `update(id, data)`: `where: { id }` alone, so a soft-deleted row is
        updated too. The row's data is patched and returned; an id with no
        row is the store's not-found error and nothing is written. */
    method Update(id: Id, patch: T -> T) returns (r: Result<Row<T>, Thrown>)
      requires Valid()
      modifies this`rows
      ensures Valid()
      ensures IndexOf(old(rows), id).None? ==> r == Err(RecordNotFound) && rows == old(rows)
      ensures IndexOf(old(rows), id).Some? ==>
                var k := IndexOf(old(rows), id).value;
                r == Ok(old(rows)[k].(data := patch(old(rows)[k].data)))
                && rows == old(rows)[k := r.value]
    {
      var k := IndexOf(rows, id);
      if k.None? {
        return Err(RecordNotFound);
      }
      var row := rows[k.value].(data := patch(rows[k.value].data));
      rows := rows[k.value := row];
      r := Ok(row);
    }

    /** `delete(id, hardDelete)`: with the flag, `hardDelete`; otherwise the
        row's `deletedAt` is set to the current time and the row is kept. */
    method Delete(id: Id, hardDelete: bool) returns (r: Result<Row<T>, Thrown>)
      requires Valid()
      modifies this`rows, this`clock
      ensures Valid()
      ensures IndexOf(old(rows), id).None? ==> r == Err(RecordNotFound) && rows == old(rows)
      ensures IndexOf(old(rows), id).Some? && hardDelete ==>
                var k := IndexOf(old(rows), id).value;
                r == Ok(old(rows)[k]) && rows == RemoveAt(old(rows), k)
      ensures IndexOf(old(rows), id).Some? && !hardDelete ==>
                var k := IndexOf(old(rows), id).value;
                rows == SetDeletedAt(old(rows), k, Some(old(clock))) && r == Ok(rows[k])
    ensures clock == old(clock) + (if IndexOf(old(rows), id).Some? && !hardDelete then 1 else 0)
    {
      if hardDelete {
        r := HardDelete(id);
        return;
      }
      var k := IndexOf(rows, id);
      if k.None? {
        return Err(RecordNotFound);
      }
      rows := SetDeletedAt(rows, k.value, Some(clock));
      clock := clock + 1;
      r := Ok(rows[k.value]);
    }

    /** `hardDelete(id)`: the row is removed from the table and returned. */
    method HardDelete(id: Id) returns (r: Result<Row<T>, Thrown>)
      requires Valid()
      modifies this`rows
      ensures Valid()
      ensures IndexOf(old(rows), id).None? ==> r == Err(RecordNotFound) && rows == old(rows)
      ensures IndexOf(old(rows), id).Some? ==>
                var k := IndexOf(old(rows), id).value;
                r == Ok(old(rows)[k]) && rows == RemoveAt(old(rows), k)
    {
      var k := IndexOf(rows, id);
      if k.None? {
        return Err(RecordNotFound);
      }
      var row := rows[k.value];
      rows := RemoveAt(rows, k.value);
      r := Ok(row);
    }

    /** `restore(id)`: the row's `deletedAt` is set back to null. */
    method Restore(id: Id) returns (r: Result<Row<T>, Thrown>)
      requires Valid()
      modifies this`rows
      ensures Valid()
      ensures IndexOf(old(rows), id).None? ==> r == Err(RecordNotFound) && rows == old(rows)
      ensures IndexOf(old(rows), id).Some? ==>
                var k := IndexOf(old(rows), id).value;
                rows == SetDeletedAt(old(rows), k, None) && r == Ok(rows[k])
    {
      var k := IndexOf(rows, id);
      if k.None? {
        return Err(RecordNotFound);
      }
      rows := SetDeletedAt(rows, k.value, None);
      r := Ok(rows[k.value]);
    }
  }
}
