/**
 * The order service: creation with the computed total and a forced pending
 * status, the listing with an optional status filter, lookup by id, and the
 * status update (and cancellation) that checks the transition on the entity
 * before anything is written.
 */
module OrderService {
  import opened Wrappers
  import opened Errors
  import opened Orders
  import opened Pagination
  import opened BaseRepository
  import opened OrderRepository
  import ErrorHandler

  /** The body of a create request. */
  datatype CreateOrderDto = CreateOrderDto(customerId: string, items: seq<ItemInput>)

  /** `items.reduce((sum, item) => sum + item.price * item.quantity, 0)`:
      each line total added, left to right, to the running sum. */
  function TotalAmount(items: seq<ItemInput>): int
    decreases |items|
  {
    if items == [] then 0
    else TotalAmount(items[..|items| - 1]) + items[|items| - 1].price * items[|items| - 1].quantity
  }

  /** The order's amount as the sum of its line totals, first line first. */
  function LineSum(items: seq<ItemInput>): int
    decreases |items|
  {
    if items == [] then 0 else items[0].price * items[0].quantity + LineSum(items[1..])
  }

  /** Adding a line at the end adds its line total. */
  lemma {:induction false} LineSumAppend(items: seq<ItemInput>, x: ItemInput)
    ensures LineSum(items + [x]) == LineSum(items) + x.price * x.quantity
    decreases |items|
  {
    if items == [] {
      assert items + [x] == [x];
    } else {
      assert (items + [x])[1..] == items[1..] + [x];
      LineSumAppend(items[1..], x);
    }
  }

  /** The fold computes the sum of the line totals; an empty order is 0. */
  lemma {:induction false} TotalIsLineSum(items: seq<ItemInput>)
    ensures TotalAmount(items) == LineSum(items)
    ensures items == [] ==> TotalAmount(items) == 0
    decreases |items|
  {
    if items != [] {
      var init := items[..|items| - 1];
      TotalIsLineSum(init);
      LineSumAppend(init, items[|items| - 1]);
      assert init + [items[|items| - 1]] == items;
    }
  }

  /** Items with positive prices and quantities, as the create validator
      admits them, give a positive total. */
  lemma {:induction false} PositiveLinesPositiveTotal(items: seq<ItemInput>)
    requires items != []
    requires forall i :: 0 <= i < |items| ==> items[i].price > 0 && items[i].quantity > 0
    ensures TotalAmount(items) > 0
    decreases |items|
  {
    var init := items[..|items| - 1];
    var last := items[|items| - 1];
    assert last.price * last.quantity > 0;
    if init != [] {
      PositiveLinesPositiveTotal(init);
    }
  }

  /** Two units at 1000 and one at 2000 come to 4000. */
  lemma TotalExample()
    ensures TotalAmount([ItemInput("a", 2, 1000), ItemInput("b", 1, 2000)]) == 4000
  {
    assert [ItemInput("a", 2, 1000), ItemInput("b", 1, 2000)][..1] == [ItemInput("a", 2, 1000)];
  }

  /** `status ? { status } : undefined`: every status is a non-empty
      string, so a given status always becomes a filter. */
  function StatusFilter(status: Option<Status>): (f: Option<OrderFilter>)
    ensures f.None? <==> status.None?
    ensures status.Some? ==> f == Some(OrderFilter(status))
  {
    if status.Some? then Some(OrderFilter(status)) else None
  }

  /** The error thrown for an absent order. */
  function OrderNotFound(id: Id): (e: AppError)
    ensures e.cls == AppErrorClass && e.message == "Order not found" && e.statusCode == 404
    ensures e.context == map["id" := Key(id)]
  {
    NewAppError("Order not found", Some(404), Some(map["id" := Key(id)]))
  }

  /** The patch `{ status }` handed to `update`. */
  function SetStatus(t: Status): OrderFields -> OrderFields {
    (d: OrderFields) => d.(status := t)
  }

  /** What `updateStatus(id, { status: t })` decides on a table: the order
      is looked up with the repository's empty where clause; an absent one is
      the 404, a refused transition is the entity's validation error, and an
      accepted one is the row with its status replaced and nothing else. */
  function Decide(rows: seq<Row<OrderFields>>, id: Id, t: Status): (r: Result<Row<OrderFields>, AppError>)
    requires Ordered(rows)
    ensures Lookup(rows, AnyRow, id).None? ==> r == Err(OrderNotFound(id))
    ensures Lookup(rows, AnyRow, id).Some? ==>
              var row := Lookup(rows, AnyRow, id).value;
              (r.Ok? <==> CanTransitionTo(Some(row.data.status), t))
              && (r.Ok? ==> r.value == row.(data := row.data.(status := t)))
              && (r.Err? ==> r.error == TransitionError(row.data.status, t))
  {
    match Lookup(rows, AnyRow, id)
    case None => Err(OrderNotFound(id))
    case Some(row) =>
      match Step(Some(row.data.status), t)
      case Err(e) => Err(e)
      case Ok(s) => Ok(row.(data := row.data.(status := s)))
  }

  /** `cancel` succeeds from pending and from processing, is refused from
      completed with the transition message, and (because the same status is
      always accepted) succeeds on an order that is already cancelled. */
  lemma CancelOutcomes(rows: seq<Row<OrderFields>>, id: Id)
    requires Ordered(rows) && Lookup(rows, AnyRow, id).Some?
    ensures var s := Lookup(rows, AnyRow, id).value.data.status;
            (s == Pending || s == Processing || s == Cancelled) <==> Decide(rows, id, Cancelled).Ok?
    ensures var s := Lookup(rows, AnyRow, id).value.data.status;
            s == Completed ==>
              Decide(rows, id, Cancelled).Err?
              && FieldErrorsOf(Decide(rows, id, Cancelled).error.context)["status"]
                 == ["Cannot transition from completed to cancelled"]
  {
    assert TransitionMessage(Completed, Cancelled) == "Cannot transition from completed to cancelled";
  }

  /** The error handler answers an absent order with a 404 carrying the id,
      and a refused transition with a 422 `ValidationError`. */
  lemma UpdateStatusReplies(rows: seq<Row<OrderFields>>, id: Id, t: Status)
    requires Ordered(rows)
    ensures Decide(rows, id, t).Err? ==>
              var reply := ErrorHandler.HandleError(Raised(Decide(rows, id, t).error));
              (Lookup(rows, AnyRow, id).None? ==>
                 reply.status == 404 && reply.body.typeName == "AppError"
                 && reply.body.message == "Order not found"
                 && reply.body.context == Some(map["id" := Key(id)]))
              && (Lookup(rows, AnyRow, id).Some? ==>
                 reply.status == 422 && reply.body.typeName == "ValidationError"
                 && reply.body.message == "Invalid data")
  {
  }

  /** What the service's listing returns on a table: the count of the
      orders with the given status, or of all orders, and only matching
      orders. */
  lemma ListingMatches(rows: seq<Row<OrderFields>>, status: Option<Status>, options: Option<PaginationOptions>)
    requires NonNegative(options)
    ensures var p := FindOrders(rows, StatusFilter(status), options);
            (status.Some? ==> p.pagination.total == CountStatus(rows, status.value))
            && (status.None? ==> p.pagination.total == |rows|)
            && (forall i :: 0 <= i < |p.data| ==>
                  (p.data[i] in rows && (status.None? || p.data[i].data.status == status.value)))
  {
    TotalCountsMatches(rows, if status.Some? then status.value else Pending, options);
  }

  /** Without a caller's ordering the service's listing is newest first. */
  lemma ListingNewestFirst(rows: seq<Row<OrderFields>>, status: Option<Status>, options: Option<PaginationOptions>)
    requires Ordered(rows) && NonNegative(options)
    ensures var p := FindOrders(rows, StatusFilter(status), options);
            options.None? || options.value.orderBy.None? ==>
              forall i, j :: 0 <= i < j < |p.data| ==> p.data[i].createdAt > p.data[j].createdAt
  {
    if options.None? || options.value.orderBy.None? {
      OrdersNewestFirst(rows, StatusFilter(status), options);
    }
  }

  /** The service over an order repository. */
  class OrderService {
    const repo: OrderRepository

    ghost predicate Valid()
      reads this, repo, repo.orders
    {
      repo.Valid()
    }

    constructor (repo: OrderRepository)
      requires repo.Valid()
      ensures this.repo == repo && Valid()
    {
      this.repo := repo;
    }

    /** `create`: the repository receives the customer, the total of the
        items' line totals, status pending and the items unchanged. The
        repository's error, thrown when an item's setters refuse it, is
        passed on and nothing is written; otherwise the created order with
        its items is returned. */
    method Create(dto: CreateOrderDto) returns (r: Result<OrderWithItems, AppError>)
      requires Valid()
      modifies repo, repo.orders
      ensures Valid()
      ensures r.Err? <==> LoadError(dto.items).Some?
      ensures r.Err? ==> Some(r.error) == LoadError(dto.items) && unchanged(repo, repo.orders)
      ensures r.Ok? ==> r.value.order.data == OrderFields(dto.customerId, LineSum(dto.items), Pending)
                        && r.value.order.id == old(repo.orders.nextId)
                        && r.value.order.createdAt == old(repo.orders.clock)
                        && Inputs(r.value.items) == dto.items
      ensures r.Ok? ==> repo.orders.rows == old(repo.orders.rows) + [r.value.order]
                        && repo.orders.nextId == old(repo.orders.nextId) + 1
                        && repo.orders.clock == old(repo.orders.clock) + 1
                        && repo.items == old(repo.items) + r.value.items
                        && repo.nextItemId == old(repo.nextItemId) + |dto.items|
      ensures r.Ok? ==> repo.FindByIdWithItems(r.value.order.id) == Some(r.value)
    {
      TotalIsLineSum(dto.items);
      var total := TotalAmount(dto.items);
      r := repo.Create(NewOrder(dto.customerId, total, Some(Pending), Some(dto.items)));
    }

    /** `findMany(status?, options?)`: the repository's listing with the
        status filter when a status is given; its `total` is then the number
        of orders with that status, and otherwise the number of orders. */
    function FindMany(status: Option<Status>, options: Option<PaginationOptions>): (p: Paginated<Row<OrderFields>>)
      reads this, repo, repo.orders
      requires Valid() && NonNegative(options)
      ensures p == FindOrders(repo.orders.rows, StatusFilter(status), options)
      ensures status.Some? ==> p.pagination.total == CountStatus(repo.orders.rows, status.value)
      ensures status.None? ==> p.pagination.total == |repo.orders.rows|
      ensures forall i :: 0 <= i < |p.data| ==>
                (p.data[i] in repo.orders.rows && (status.None? || p.data[i].data.status == status.value))
      ensures options.None? || options.value.orderBy.None? ==>
                forall i, j :: 0 <= i < j < |p.data| ==> p.data[i].createdAt > p.data[j].createdAt
    {
      ListingMatches(repo.orders.rows, status, options);
      ListingNewestFirst(repo.orders.rows, status, options);
      FindOrders(repo.orders.rows, StatusFilter(status), options)
    }

    /** `findById`: the order with its items, or the 404 `AppError`
        carrying the id when there is no such order. */
    function FindById(id: Id): (r: Result<OrderWithItems, AppError>)
      reads this, repo, repo.orders
      requires Valid()
      ensures r.Err? <==> forall i :: 0 <= i < |repo.orders.rows| ==> repo.orders.rows[i].id != id
      ensures r.Err? ==> r.error == OrderNotFound(id)
      ensures r.Ok? ==> r.value.order.id == id && r.value.order in repo.orders.rows
      ensures r.Ok? ==> repo.FindByIdWithItems(id) == Some(r.value)
    {
      match repo.FindByIdWithItems(id)
      case None => Err(OrderNotFound(id))
      case Some(o) => Ok(o)
    }

    /** `updateStatus(id, { status: t })`: the order is read, loaded into an
        entity (whose status setter accepts the stored status, the first
        assignment), and `changeStatus(t)` is called on it. Only when that
        passes is `update(id, { status: t })` called; the result and the new
        table are what `Decide` says, and on any error nothing is written. */
    method UpdateStatus(id: Id, t: Status) returns (r: Result<Row<OrderFields>, Thrown>)
      requires Valid()
      modifies repo.orders`rows
      ensures Valid()
      ensures Decide(old(repo.orders.rows), id, t).Err? ==>
                r == Err(Raised(Decide(old(repo.orders.rows), id, t).error))
                && repo.orders.rows == old(repo.orders.rows)
      ensures Decide(old(repo.orders.rows), id, t).Ok? ==>
                r == Ok(Decide(old(repo.orders.rows), id, t).value)
                && repo.orders.rows == old(repo.orders.rows)[IndexOf(old(repo.orders.rows), id).value := r.value]
    {
      var found := Lookup(repo.orders.rows, repo.orders.scope, id);
      if found.None? {
        return Err(Raised(OrderNotFound(id)));
      }
      var row := found.value;
      var order := new Order(row.id, row.data.customerId, row.data.totalAmount,
                             row.createdAt, row.updatedAt, row.deletedAt);
      var loaded := order.ChangeStatus(row.data.status);
      assert loaded.Pass? && order.status == Some(row.data.status);
      var outcome := order.ChangeStatus(t);
      if outcome.Fail? {
        return Err(Raised(outcome.error));
      }
      var k := IndexOf(repo.orders.rows, id);
      assert repo.orders.rows[k.value] == row;
      r := repo.orders.Update(id, SetStatus(t));
    }

    /** `cancel(id)`: `updateStatus(id, { status: cancelled })`. */
    method Cancel(id: Id) returns (r: Result<Row<OrderFields>, Thrown>)
      requires Valid()
      modifies repo.orders`rows
      ensures Valid()
      ensures Decide(old(repo.orders.rows), id, Cancelled).Err? ==>
                r == Err(Raised(Decide(old(repo.orders.rows), id, Cancelled).error))
                && repo.orders.rows == old(repo.orders.rows)
      ensures Decide(old(repo.orders.rows), id, Cancelled).Ok? ==>
                r == Ok(Decide(old(repo.orders.rows), id, Cancelled).value)
                && repo.orders.rows
                   == old(repo.orders.rows)[IndexOf(old(repo.orders.rows), id).value := r.value]
    {
      r := UpdateStatus(id, Cancelled);
    }
  }
}
