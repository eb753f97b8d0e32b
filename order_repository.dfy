/**
 * The order repository: the base repository over the order table with the
 * where clause emptied, a listing that counts with the caller's filter, the
 * lookup that brings an order's items along, and the creation of an order
 * together with its items.
 */
module OrderRepository {
  import opened Wrappers
  import opened Orders
  import opened Pagination
  import opened BaseRepository
  import opened Errors
  import OrderItems

  /** The order table's own columns. */
  datatype OrderFields = OrderFields(customerId: string, totalAmount: int, status: Status)

  /** The item table's columns; `orderId` is the owning order. */
  datatype ItemFields = ItemFields(orderId: Id, name: string, quantity: int, price: int)

  /** An item as handed to `create`. */
  datatype ItemInput = ItemInput(name: string, quantity: int, price: int)

  /** The `Partial<Order>` handed to `create`: status and items may be absent. */
  datatype NewOrder = NewOrder(customerId: string, totalAmount: int, status: Option<Status>,
                               items: Option<seq<ItemInput>>)

  /** The `Partial<Order>` filter of a listing; an absent status matches
      every order. */
  datatype OrderFilter = OrderFilter(status: Option<Status>)

  /** An order row as returned with `include: { items: true }`. */
  datatype OrderWithItems = OrderWithItems(order: Row<OrderFields>, items: seq<Row<ItemFields>>)

  /** The filter as a condition on an order's columns. */
  function Condition(f: OrderFilter): OrderFields -> bool {
    (d: OrderFields) => f.status.None? || d.status == f.status.value
  }

  /** `filters || {}`: the caller's filter, or none. */
  function Where(filters: Option<OrderFilter>): (w: Option<OrderFields -> bool>)
    ensures w.Some? <==> filters.Some?
  {
    match filters
    case None => None
    case Some(f) => Some(Condition(f))
  }

  /** The order repository's `findMany`: the same `where` selects the rows
      and counts them, so `total` is the number of matching orders, deleted
      ones included since the where clause is empty. */
  function FindOrders(rows: seq<Row<OrderFields>>, filters: Option<OrderFilter>,
                      options: Option<PaginationOptions>): (p: Paginated<Row<OrderFields>>)
    requires NonNegative(options)
    ensures |p.data| <= LimitOf(options)
    ensures |p.data| == WindowSize(|Select(rows, AnyRow, Where(filters))|, Skip(PageOf(options), LimitOf(options)), LimitOf(options))
    ensures forall i :: 0 <= i < |p.data| ==>
              p.data[i] == Arrange(Select(rows, AnyRow, Where(filters)), OrderByOf(options))[Skip(PageOf(options), LimitOf(options)) + i]
    ensures forall i :: 0 <= i < |p.data| ==> p.data[i] in rows && Matches(AnyRow, Where(filters), p.data[i])
    ensures p.pagination == Envelope(PageOf(options), LimitOf(options), |Select(rows, AnyRow, Where(filters))|)
  {
    var matching := Select(rows, AnyRow, Where(filters));
    Paginate(matching, |matching|, options)
  }

  /** Without a caller's ordering the order listing is newest first: a
      window on the matching orders in reverse table order, with creation
      times strictly decreasing along the page. */
  lemma OrdersNewestFirst(rows: seq<Row<OrderFields>>, filters: Option<OrderFilter>,
                          options: Option<PaginationOptions>)
    requires Ordered(rows) && NonNegative(options)
    requires options.None? || options.value.orderBy.None?
    ensures FindOrders(rows, filters, options).data
            == Window(Reverse(Select(rows, AnyRow, Where(filters))), Skip(PageOf(options), LimitOf(options)), LimitOf(options))
    ensures var data := FindOrders(rows, filters, options).data;
            forall i, j :: 0 <= i < j < |data| ==> data[i].createdAt > data[j].createdAt
  {
    DefaultOrderNewestFirst(rows, AnyRow, Where(filters), options);
  }

  /** The number of orders with status `s`, counted one row at a time. */
  function CountStatus(rows: seq<Row<OrderFields>>, s: Status): nat
    decreases |rows|
  {
    if rows == [] then 0
    else (if rows[0].data.status == s then 1 else 0) + CountStatus(rows[1..], s)
  }

  /** With a status filter the order listing's `total` is the number of
      orders with that status, soft-deleted ones included; without a filter
      it is the number of orders. */
  lemma TotalCountsMatches(rows: seq<Row<OrderFields>>, s: Status, options: Option<PaginationOptions>)
    requires NonNegative(options)
    ensures FindOrders(rows, Some(OrderFilter(Some(s))), options).pagination.total == CountStatus(rows, s)
    ensures FindOrders(rows, None, options).pagination.total == |rows|
  {
    SelectCounts(rows, s);
  }

  /** The status filter selects as many rows as have that status, and no
      filter selects every row. */
  lemma {:induction false} SelectCounts(rows: seq<Row<OrderFields>>, s: Status)
    ensures |Select(rows, AnyRow, Where(Some(OrderFilter(Some(s)))))| == CountStatus(rows, s)
    ensures |Select(rows, AnyRow, Where(None))| == |rows|
    decreases |rows|
  {
    if rows != [] {
      SelectCounts(rows[1..], s);
    }
  }

  /** The rows of the items belonging to order `id`. */
  function BelongsTo(id: Id): ItemFields -> bool {
    (d: ItemFields) => d.orderId == id
  }

  /** The item rows `create` writes for a list of inputs: consecutive fresh
      ids from `first`, the order's id and creation time, and from each input
      its name, quantity and price alone. */
  function ItemRows(orderId: Id, at: nat, first: Id, inputs: seq<ItemInput>): (r: seq<Row<ItemFields>>)
    ensures |r| == |inputs|
    ensures forall i :: 0 <= i < |r| ==> r[i].id == first + i && r[i].deletedAt.None?
                                         && r[i].data.orderId == orderId && r[i].createdAt == at
    decreases |inputs|
  {
    if inputs == [] then []
    else [Row(first, at, at, None, ItemFields(orderId, inputs[0].name, inputs[0].quantity, inputs[0].price))]
         + ItemRows(orderId, at, first + 1, inputs[1..])
  }

  /** The inputs read back from item rows. */
  function Inputs(rows: seq<Row<ItemFields>>): (r: seq<ItemInput>)
    ensures |r| == |rows|
    ensures forall i :: 0 <= i < |rows| ==>
              r[i] == ItemInput(rows[i].data.name, rows[i].data.quantity, rows[i].data.price)
    decreases |rows|
  {
    if rows == [] then []
    else
      assert forall i :: 0 < i < |rows| ==> rows[i] == rows[1..][i - 1];
      [ItemInput(rows[0].data.name, rows[0].data.quantity, rows[0].data.price)] + Inputs(rows[1..])
  }

  /** Each created item carries exactly its input's name, quantity and price,
      and there is one item per input, in order. */
  lemma {:induction false} ItemRowsKeepInputs(orderId: Id, at: nat, first: Id, inputs: seq<ItemInput>)
    ensures Inputs(ItemRows(orderId, at, first, inputs)) == inputs
    decreases |inputs|
  {
    if inputs != [] {
      ItemRowsKeepInputs(orderId, at, first + 1, inputs[1..]);
    }
  }

  /** An input whose columns every setter of the item entity accepts. */
  predicate Loads(i: ItemInput) {
    OrderItems.Accepted(i.name, i.quantity, i.price)
  }

  /** Loading the items one after another: the position of the first item
      whose setters refuse, or none when every item loads. */
  function FirstRefused(inputs: seq<ItemInput>): (k: Option<nat>)
    ensures k.None? <==> forall i :: 0 <= i < |inputs| ==> Loads(inputs[i])
    ensures k.Some? ==> k.value < |inputs| && !Loads(inputs[k.value])
                        && forall j :: 0 <= j < k.value ==> Loads(inputs[j])
    decreases |inputs|
  {
    if inputs == [] then None
    else if !Loads(inputs[0]) then Some(0)
    else
      assert forall i :: 0 < i < |inputs| ==> inputs[i] == inputs[1..][i - 1];
      match FirstRefused(inputs[1..])
      case None => None
      case Some(k) => Some(k + 1)
  }

  /** What loading the items throws: the first refusing item's refusal. */
  function LoadError(inputs: seq<ItemInput>): (e: Option<AppError>)
    ensures e.None? <==> forall i :: 0 <= i < |inputs| ==> Loads(inputs[i])
  {
    match FirstRefused(inputs)
    case None => None
    case Some(k) => OrderItems.Refusal(inputs[k].name, inputs[k].quantity, inputs[k].price)
  }

  /** When every item before position `k` loads and item `k` does not, item
      `k` is the first refused. */
  lemma {:induction false} FirstRefusedAt(inputs: seq<ItemInput>, k: nat)
    requires k < |inputs| && !Loads(inputs[k])
    requires forall j :: 0 <= j < k ==> Loads(inputs[j])
    ensures FirstRefused(inputs) == Some(k)
    decreases k
  {
    if k > 0 {
      assert Loads(inputs[0]);
      assert forall j :: 0 <= j < k - 1 ==> inputs[1..][j] == inputs[j + 1];
      FirstRefusedAt(inputs[1..], k - 1);
    }
  }

  /** An item entity holding the columns of an item row. */
  predicate Holds(item: OrderItems.OrderItem, d: ItemFields)
    reads item
  {
    item.orderId == Some(d.orderId) && item.name == Some(d.name)
    && item.quantity == Some(d.quantity) && item.price == Some(d.price)
  }

  /** The `@Type(() => OrderItem)` mapping of an order's item rows: each row
      is loaded into a fresh item entity in turn, and the first refusal is
      thrown. On success there is one entity per row holding its columns. */
  method LoadItems(rows: seq<Row<ItemFields>>) returns (r: Result<seq<OrderItems.OrderItem>, AppError>)
    ensures r.Err? <==> LoadError(Inputs(rows)).Some?
    ensures r.Err? ==> LoadError(Inputs(rows)) == Some(r.error)
    ensures r.Ok? ==> |r.value| == |rows|
    ensures r.Ok? ==> forall i :: 0 <= i < |rows| ==> fresh(r.value[i]) && Holds(r.value[i], rows[i].data)
  {
    var loaded: seq<OrderItems.OrderItem> := [];
    var i := 0;
    while i < |rows|
      invariant 0 <= i <= |rows| && |loaded| == i
      invariant forall j :: 0 <= j < i ==> Loadable(rows[j])
      invariant forall j :: 0 <= j < i ==> fresh(loaded[j]) && Holds(loaded[j], rows[j].data)
    {
      var d := rows[i].data;
      var item := OrderItems.Load(d.orderId, d.name, d.quantity, d.price);
      if item.Err? {
        LoadErrorAt(rows, i);
        return Err(item.error);
      }
      loaded := loaded + [item.value];
      i := i + 1;
    }
    LoadErrorNone(rows);
    r := Ok(loaded);
  }

  /** The load error of a table is the refusal of its first unloadable row. */
  lemma LoadErrorAt(rows: seq<Row<ItemFields>>, k: nat)
    requires k < |rows| && !Loadable(rows[k])
    requires forall j :: 0 <= j < k ==> Loadable(rows[j])
    ensures LoadError(Inputs(rows)) == OrderItems.Refusal(rows[k].data.name, rows[k].data.quantity, rows[k].data.price)
  {
    var inputs := Inputs(rows);
    forall j | 0 <= j < k
      ensures Loads(inputs[j])
    {
      assert Loadable(rows[j]);
    }
    FirstRefusedAt(inputs, k);
  }

  /** A table whose rows all load has no load error. */
  lemma LoadErrorNone(rows: seq<Row<ItemFields>>)
    requires forall j :: 0 <= j < |rows| ==> Loadable(rows[j])
    ensures LoadError(Inputs(rows)).None?
  {
    InputsLoad(rows);
  }

  /** The inputs read back from loadable rows all load. */
  lemma InputsLoad(rows: seq<Row<ItemFields>>)
    requires forall j :: 0 <= j < |rows| ==> Loadable(rows[j])
    ensures forall j :: 0 <= j < |rows| ==> Loads(Inputs(rows)[j])
  {
    forall j | 0 <= j < |rows|
      ensures Loads(Inputs(rows)[j])
    {
      assert Loadable(rows[j]);
    }
  }

  /** Selecting from two tables laid end to end selects from each. */
  lemma {:induction false} SelectConcat<T>(a: seq<Row<T>>, b: seq<Row<T>>, scope: WhereClause,
                                           filter: Option<T -> bool>)
    ensures Select(a + b, scope, filter) == Select(a, scope, filter) + Select(b, scope, filter)
    decreases |a|
  {
    if a == [] {
      assert a + b == b;
    } else {
      assert (a + b)[0] == a[0];
      assert (a + b)[1..] == a[1..] + b;
      SelectConcat(a[1..], b, scope, filter);
    }
  }

  /** Selecting every row of a table keeps all of it; selecting none keeps
      nothing. */
  lemma {:induction false} SelectAllOrNone<T>(a: seq<Row<T>>, scope: WhereClause, filter: Option<T -> bool>)
    ensures (forall i :: 0 <= i < |a| ==> Matches(scope, filter, a[i])) ==> Select(a, scope, filter) == a
    ensures (forall i :: 0 <= i < |a| ==> !Matches(scope, filter, a[i])) ==> Select(a, scope, filter) == []
    decreases |a|
  {
    if a != [] {
      SelectAllOrNone(a[1..], scope, filter);
    }
  }

  /** After `create` appends item rows for a new order, the items belonging
      to that order are exactly the appended ones. */
  lemma NewItemsAlone(before: seq<Row<ItemFields>>, created: seq<Row<ItemFields>>, id: Id)
    requires forall i :: 0 <= i < |before| ==> before[i].data.orderId != id
    requires forall i :: 0 <= i < |created| ==> created[i].data.orderId == id
    ensures Select(before + created, AnyRow, Some(BelongsTo(id))) == created
  {
    SelectConcat(before, created, AnyRow, Some(BelongsTo(id)));
    SelectAllOrNone(before, AnyRow, Some(BelongsTo(id)));
    SelectAllOrNone(created, AnyRow, Some(BelongsTo(id)));
  }

  /** The row appended last to an ordered table is the one found by its id. */
  lemma IndexOfLast<T>(rows: seq<Row<T>>)
    requires Ordered(rows) && rows != []
    ensures IndexOf(rows, rows[|rows| - 1].id) == Some(|rows| - 1)
  {
    var k := IndexOf(rows, rows[|rows| - 1].id);
    assert k.Some?;
  }

  /** An item row whose columns every setter of the item entity accepts. */
  predicate Loadable(row: Row<ItemFields>) {
    Loads(ItemInput(row.data.name, row.data.quantity, row.data.price))
  }

  /** The item table's invariant: ids below the item counter, owners below
      the order counter, and columns the item entity accepts, since `create`
      never commits an item whose setters refuse. */
  predicate ItemTable(items: seq<Row<ItemFields>>, nextItemId: Id, nextOrderId: Id) {
    forall i :: 0 <= i < |items| ==>
      items[i].id < nextItemId && items[i].data.orderId < nextOrderId && Loadable(items[i])
  }

  /** Appending the item rows of a new order whose items all load keeps the
      item table's invariant, with both counters moved past them. */
  lemma ItemTableAppend(items: seq<Row<ItemFields>>, nextItemId: Id, orderId: Id, at: nat, inputs: seq<ItemInput>)
    requires ItemTable(items, nextItemId, orderId)
    requires LoadError(inputs).None?
    ensures ItemTable(items + ItemRows(orderId, at, nextItemId, inputs), nextItemId + |inputs|, orderId + 1)
  {
    var created := ItemRows(orderId, at, nextItemId, inputs);
    ItemRowsKeepInputs(orderId, at, nextItemId, inputs);
    var all := items + created;
    forall i | 0 <= i < |all|
      ensures all[i].id < nextItemId + |inputs| && all[i].data.orderId < orderId + 1 && Loadable(all[i])
    {
      if i >= |items| {
        var j := i - |items|;
        assert all[i] == created[j];
        assert Inputs(created)[j] == inputs[j];
      }
    }
  }

  /** The order table (a base repository whose where clause is empty) and the
      item table, which is written only through `create`. */
  class OrderRepository {
    const orders: Repository<OrderFields>
    var items: seq<Row<ItemFields>>
    var nextItemId: Id

    ghost predicate Valid()
      reads this, orders
    {
      orders.Valid() && orders.scope == AnyRow && ItemTable(items, nextItemId, orders.nextId)
    }

    constructor ()
      ensures Valid() && fresh(orders)
      ensures orders.rows == [] && items == []
    {
      orders := new Repository<OrderFields>(AnyRow);
      items := [];
      nextItemId := 0;
    }

    /** `findByIdWithItems`: `findUnique` on the id alone, so a soft-deleted
        order is found too, together with every item that belongs to it. */
    function FindByIdWithItems(id: Id): (r: Option<OrderWithItems>)
      reads this, orders
      requires Valid()
      ensures r.Some? <==> exists i :: 0 <= i < |orders.rows| && orders.rows[i].id == id
      ensures r.Some? ==> r.value.order in orders.rows && r.value.order.id == id
      ensures r.Some? ==> forall i :: 0 <= i < |r.value.items| ==> r.value.items[i] in items && r.value.items[i].data.orderId == id
      ensures r.Some? ==> forall i :: 0 <= i < |items| && items[i].data.orderId == id ==> items[i] in r.value.items
      ensures r.Some? ==> LoadError(Inputs(r.value.items)).None?
    {
      match IndexOf(orders.rows, id)
      case None => None
      case Some(k) => Some(OrderWithItems(orders.rows[k], Select(items, AnyRow, Some(BelongsTo(id)))))
    }

    /** `create`: inside one transaction the order row is written with its
        status, pending when none is given, and one item row per input under
        the new order's id; the result is then mapped to entities, which runs
        the item setters. When a setter refuses, its error is thrown and the
        transaction rolls back, so neither table changes; the model decides
        that before writing. Otherwise looking the order up afterwards gives
        back exactly the order and those items. */
    method Create(data: NewOrder) returns (r: Result<OrderWithItems, AppError>)
      requires Valid()
      modifies this, orders
      ensures Valid()
      ensures r.Err? <==> LoadError(data.items.GetOr([])).Some?
      ensures r.Err? ==> Some(r.error) == LoadError(data.items.GetOr([])) && unchanged(this, orders)
      ensures r.Ok? ==>
                r.value.order == Row(old(orders.nextId), old(orders.clock), old(orders.clock), None,
                                     OrderFields(data.customerId, data.totalAmount, data.status.GetOr(Pending)))
                && orders.rows == old(orders.rows) + [r.value.order]
                && orders.nextId == old(orders.nextId) + 1 && orders.clock == old(orders.clock) + 1
      ensures r.Ok? ==>
                r.value.items == ItemRows(r.value.order.id, r.value.order.createdAt, old(nextItemId), data.items.GetOr([]))
                && Inputs(r.value.items) == data.items.GetOr([])
                && items == old(items) + r.value.items
                && nextItemId == old(nextItemId) + |data.items.GetOr([])|
      ensures r.Ok? ==> FindByIdWithItems(r.value.order.id) == Some(r.value)
    {
      var inputs := data.items.GetOr([]);
      var created := ItemRows(orders.nextId, orders.clock, nextItemId, inputs);
      ItemRowsKeepInputs(orders.nextId, orders.clock, nextItemId, inputs);
      var loaded := LoadItems(created);
      if loaded.Err? {
        return Err(loaded.error);
      }
      ItemTableAppend(items, nextItemId, orders.nextId, orders.clock, inputs);
      var order := orders.Create(OrderFields(data.customerId, data.totalAmount, data.status.GetOr(Pending)));
      NewItemsAlone(items, created, order.id);
      IndexOfLast(orders.rows);
      items := items + created;
      nextItemId := nextItemId + |inputs|;
      r := Ok(OrderWithItems(order, created));
    }
  }
}
