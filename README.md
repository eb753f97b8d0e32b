# Endless Orders — a verified model of the order domain

This project models the order domain of the Endless Orders REST service in
Dafny and proves properties of that model. It covers:

- the order entity and its status state machine: the fixed transition
  table, `canTransitionTo`, and `changeStatus` guarding the private status;
- the order-item entity and its validating `name`, `quantity` and `price`
  setters;
- the error taxonomy (`AppError`, `ValidationError`, `InvalidFieldError`)
  and the error middleware that turns any thrown error into an HTTP reply;
- the generic repository: lookup through the where clause, the paginated
  listing, create, update, soft delete, hard delete and restore;
- the order repository, which empties the where clause, counts with the
  caller's filter, returns an order with its items and creates an order
  together with its items;
- the order service: `create` with the computed total and a forced pending
  status, `findMany`, `findById`, `updateStatus` and `cancel`;
- the request schemas for creating an order, for updating its status and
  for the pagination query.

Files and modules, in dependency order:

| file | module | contents |
|---|---|---|
| `wrappers.dfy` | `Wrappers` | `Option`, `Result` and `Outcome` |
| `errors.dfy` | `Errors` | error classes, constructors and context merge |
| `error_handler.dfy` | `ErrorHandler` | `errorHandler` and `notFoundHandler` |
| `order.dfy` | `Orders` | statuses, transition table, `class Order` |
| `order_item.dfy` | `OrderItems` | JavaScript `trim`, `class OrderItem` |
| `pagination.dfy` | `Pagination` | options, defaults, ceiling division, envelope, page window |
| `base_repository.dfy` | `BaseRepository` | rows, where clause, listing, `class Repository<T>` |
| `order_repository.dfy` | `OrderRepository` | order and item tables, `class OrderRepository` |
| `order_service.dfy` | `OrderService` | total, status update decision, `class OrderService` |
| `schema.dfy` | `Schema` | whole positive numbers |
| `order_validator.dfy` | `OrderValidator` | create body and status-update schemas, flattened issues |
| `pagination_validator.dfy` | `PaginationValidator` | pagination query schema |

How the source is modelled:

- Stateful code becomes classes. The order entity's status, the item
  entity's fields, a repository's table and the order repository's item
  table are fields that methods update. Each method's `modifies` clause
  names only the objects or fields it writes, and its `ensures` gives the
  new value of every one of them.
- A table is a sequence of rows in insertion order. Ids and creation
  times strictly increase along it (`BaseRepository.Ordered`). Ids and
  timestamps are naturals handed out by the store's counter and clock.
- A thrown error is a result value: `Result`, or `Outcome` for a setter.
  A thrown `AppError` is `Raised(…)`; an error of any other class is
  `Other(className, message)`.

Behaviour of the code that the model keeps, although a reader might expect
otherwise:

- Cancelling an order that is already cancelled succeeds. The transition
  check accepts any request equal to the current status
  (`src/entities/Order.ts:55-57`).
- The service's `create` does not check the items itself and does not
  refuse an empty item list; an empty list gives a total of 0. Items are
  checked only when the created rows are mapped back to entities, which
  runs the item setters. A name of spaces passes the schema's `min(1)` but
  not the name setter, so `create` throws that setter's error and the
  transaction rolls back (`OrderValidator.SpacesNamePassesSchemaButNotCreate`).
- The base repository's `total` counts with the where clause alone. It
  ignores the caller's filters (`src/repositories/prisma/PrismaBaseRepository.ts:71`).

## Model

| member | source | states |
|---|---|---|
| Errors.NewAppError | src/errors/AppError.ts:2-9 | The message is kept. An omitted status code is 500 and an omitted context is the empty object. Supplied ones are stored unchanged. |
| Errors.MergeValidationContext | src/errors/ValidationError.ts:14 | The merged context always has exactly the keys `formErrors` and `fieldErrors`. Reading each back gives the supplied value, or `[]` / `{}`. |
| Errors.NewValidationError | src/errors/ValidationError.ts:8-16 | The defaults are 422 and "Invalid data". A supplied status or message replaces them, and each context key is the supplied one or the empty default. |
| Errors.FieldError | src/entities/OrderItem.ts:19-23 | A `ValidationError` raised for one field: 422, "Invalid data", no form errors, and `fieldErrors` exactly `{ field: [message] }`. |
| Errors.NewInvalidFieldError | src/errors/InvalidFieldError.ts:3-7 | `fieldErrors` has the single key `field`, holding `[message]`. `formErrors` is empty and the message is "Invalid data". The status is the supplied one or 422. |
| ErrorHandler.HandleError | src/middlewares/errorHandler.ts:17-38 | For an `AppError`, the body copies its status, message and context. Any other error gets 500 and "Internal Server Error" with no context. `type` is the class name (`ErrorHandler.TypeName`). The context is present exactly for `AppError`s. The HTTP status equals the body's `statusCode`. |
| ErrorHandler.OtherErrorsDoNotLeak | src/middlewares/errorHandler.ts:20-22 | Two non-`AppError` errors of the same class get identical replies, whatever their messages. |
| ErrorHandler.NotFound | src/middlewares/errorHandler.ts:68-76 | 404, type "NotFoundError", and the message "Route METHOD PATH not found" with no context. |
| ErrorHandler.NotFoundMessageNamesPath | src/middlewares/errorHandler.ts:72 | For one method, different paths give different not-found messages. |
| Orders.AllowedTransitions | src/entities/Order.ts:13-18 | The table's successors are exactly pending→{processing, cancelled} and processing→{completed, cancelled}. Nothing leaves completed or cancelled, nothing enters pending, and no status lists itself. |
| Orders.TransitionError | src/entities/Order.ts:44-48 | A 422 "Invalid data" `ValidationError` whose `fieldErrors` is exactly `{ status: ["Cannot transition from s to t"] }`. |
| Orders.Step | src/entities/Order.ts:42-60 | A request passes exactly when `canTransitionTo` (`Orders.CanTransitionTo`) holds, and then the status is the requested one. Otherwise the error is the transition error for the current status. |
| Orders.SameStatusAccepted | src/entities/Order.ts:55-57 | Requesting the current status succeeds and changes nothing, cancelled→cancelled included. |
| Orders.InitialAssignmentAccepted | src/entities/Order.ts:55-57 | With no status set, any status is accepted. |
| Orders.ChangeFollowsTable | src/entities/Order.ts:51-59 | For a set status s and a request t ≠ s, the change succeeds iff the table has the edge s→t. On success the status is t; on failure `fieldErrors.status` is the transition message. |
| Orders.NoStepBackToPending | src/entities/Order.ts:13-18 | A set status other than pending is refused pending. |
| Orders.TerminalIsFinal | src/entities/Order.ts:16-17 | From completed or cancelled, no sequence of requests changes the status. |
| Orders.NeverBackToPending | src/entities/Order.ts:13-18 | Once a status is not pending, no sequence of requests brings it back to pending. |
| Orders.RunMovesForward | src/entities/Order.ts:13-18 | No sequence of requests ends at an earlier lifecycle stage than it started. |
| Orders.CompletionGoesThroughProcessing | src/entities/__tests__/Order.test.ts:56-64 | pending→completed is refused, but pending→processing→completed is accepted. Completed is then refused pending. |
| Orders.Order.constructor | src/entities/Order.ts:20-31 | A loaded entity carries the plain fields, and its status is not yet set. |
| Orders.Order.ChangeStatus | src/entities/Order.ts:38-52 | It passes iff the transition check holds, and then status is the requested one. On failure the status is unchanged and the error is the transition error. Only the status field is written. |
| OrderItems.TrimStartShape | src/entities/OrderItem.ts:18 | `trimStart` gives a suffix without leading whitespace, and everything cut off is ECMAScript whitespace. |
| OrderItems.TrimEndShape | src/entities/OrderItem.ts:18 | `trimEnd` gives a prefix without trailing whitespace, and everything cut off is ECMAScript whitespace. |
| OrderItems.BlankIffAllWhitespace | src/entities/OrderItem.ts:18 | The name guard `OrderItems.IsBlank`, through `OrderItems.Trim`, fires iff the name is empty or every character is whitespace. |
| OrderItems.OrderItem.constructor | src/entities/OrderItem.ts:5-10 | A new item has no order id, name, quantity or price yet. |
| OrderItems.OrderItem.SetName | src/entities/OrderItem.ts:17-26 | It fails iff the name is blank, with `fieldErrors.name = ["Name cannot be empty"]`, and keeps the old name. Otherwise it stores the name verbatim, untrimmed. Only `name` is written. |
| OrderItems.OrderItem.SetQuantity | src/entities/OrderItem.ts:33-42 | It fails iff the value is at most 0, with "Quantity must be greater than 0", and keeps the old value. Otherwise it stores the value. Only `quantity` is written. |
| OrderItems.OrderItem.SetPrice | src/entities/OrderItem.ts:49-58 | It fails iff the value is at most 0, with "Price must be greater than 0", and keeps the old value. Otherwise it stores the value. Only `price` is written. |
| OrderItems.Refusal | src/entities/OrderItem.ts:17-58 | Loading a name, quantity and price throws nothing iff the name is not blank and both numbers are positive. |
| OrderItems.RefusalOrder | src/entities/OrderItem.ts:17-58 | What is thrown is the first refusing setter's field error: the name's, then the quantity's, then the price's. |
| OrderItems.Load | src/entities/OrderItem.ts:5-58 | Running the three setters on a fresh item fails iff the values are refused, with the first refusal. On success the fresh item holds the order id and exactly the given name, quantity and price. |
| OrderItems.ValidNameScenario | src/entities/__tests__/OrderItem.test.ts:19-27 | A valid name is accepted and reads back unchanged, trailing space included. |
| OrderItems.SpacesNameScenario | src/entities/__tests__/OrderItem.test.ts:29-46 | A name of spaces is refused with `fieldErrors.name = ["Name cannot be empty"]` and no name is stored. |
| OrderItems.EmptyNameScenario | src/entities/__tests__/OrderItem.test.ts:29-46 | The empty name is refused with the same error and no name is stored. |
| OrderItems.NumberScenario | src/entities/__tests__/OrderItem.test.ts:49-112 | A positive quantity is stored, 0 is then refused and the stored value kept. A price of -100 is refused with "Price must be greater than 0", and no other field changes. |
| Pagination.PageOf | src/repositories/prisma/PrismaBaseRepository.ts:53 | An absent page and page 0 both give 1. Any other page is used as given. |
| Pagination.LimitOf | src/repositories/prisma/PrismaBaseRepository.ts:54 | An absent limit and limit 0 both give 10. Any other limit is used as given. |
| Pagination.OrderByOf | src/repositories/prisma/PrismaBaseRepository.ts:57-59 | The caller's field and direction when given, otherwise `createdAt desc`. |
| Pagination.CeilDiv | src/repositories/prisma/PrismaBaseRepository.ts:74 | `limit × pages` covers `total`, and one page fewer does not. This is the ceiling of `total / limit`. |
| Pagination.CeilDivUnique | src/repositories/prisma/PrismaBaseRepository.ts:74 | Only one page count has that covering property. |
| Pagination.EnvelopeMeaning | src/repositories/prisma/PrismaBaseRepository.ts:53-85 | In `Pagination.Envelope`, `totalPages` is the ceiling of `total / limit`, `hasNext` holds iff rows remain after this page, and `hasPrev` iff rows were skipped before it, `Pagination.Skip` counting the rows of the earlier pages. |
| Pagination.Window | src/repositories/prisma/PrismaBaseRepository.ts:64-68 | The `take` rows from position `skip`, in order: never more than `take`, exactly `take` when enough remain, the rest at the end, none past the end. |
| Pagination.PageInRange | src/repositories/prisma/PrismaBaseRepository.ts:74-85 | A page holds rows iff its number is at most `totalPages`. |
| Pagination.DefaultsExample | src/repositories/prisma/__tests__/PrismaBaseRepository.test.ts:85-103 | The defaults give skip 0, take 10 and `createdAt desc`; 20 rows give 2 pages, hasNext true and hasPrev false. |
| Pagination.CustomPageExample | src/repositories/prisma/__tests__/PrismaBaseRepository.test.ts:119-139 | Page 2 with limit 3 over 5 rows gives skip 3, 2 pages, hasNext false and hasPrev true. |
| Pagination.TwentyFiveRowsExample | src/repositories/prisma/PrismaBaseRepository.ts:74-85 | Over 25 rows in pages of 10 there are 3 pages, and the last holds 5 rows. |
| BaseRepository.IndexOf | src/repositories/prisma/PrismaBaseRepository.ts:38-43 | It finds the position holding the id, or reports that no row has it. |
| BaseRepository.Lookup | src/repositories/prisma/PrismaBaseRepository.ts:35-50 | `findById` returns a row iff one with that id exists and the where clause admits it; otherwise null. This is where soft-deleted rows are hidden. |
| BaseRepository.Select | src/repositories/prisma/PrismaBaseRepository.ts:65 | Exactly the rows passing the where clause and the filters, in table order. |
| BaseRepository.SelectKeepsOrder | src/repositories/prisma/PrismaBaseRepository.ts:65 | The selected rows keep the table's increasing creation order. |
| BaseRepository.FilterNarrows | src/repositories/prisma/PrismaBaseRepository.ts:65-71 | Adding a filter never selects more rows. |
| BaseRepository.Reverse | src/repositories/prisma/PrismaBaseRepository.ts:59 | The same elements, each occurrence kept, last first. |
| BaseRepository.Arrange | src/repositories/prisma/PrismaBaseRepository.ts:57-59 | Ordering is a permutation of the selected rows. |
| BaseRepository.Paginate | src/repositories/prisma/PrismaBaseRepository.ts:52-87 | The page holds at most `limit` rows: none when `skip` is past the end, otherwise `limit` or what remains. Row i of the page is row `skip + i` of the matching rows in the requested order. The envelope is built from the effective page, limit and the given total. |
| BaseRepository.FindMany | src/repositories/prisma/PrismaBaseRepository.ts:52-87 | The page is the window at `skip` of the selected rows in the requested order, each row passing the where clause and the filters. The envelope is computed from the count under the where clause alone. |
| BaseRepository.DefaultOrderNewestFirst | src/repositories/prisma/PrismaBaseRepository.ts:57-68 | Without `orderBy`, a page is a window on the matching rows newest first, with strictly decreasing creation times. |
| BaseRepository.NewestFirst | src/repositories/prisma/PrismaBaseRepository.ts:59 | Reading an ordered table backwards gives strictly decreasing creation times in any window. |
| BaseRepository.TotalIgnoresFilters | src/repositories/prisma/PrismaBaseRepository.ts:71 | The envelope is the same with and without filters. `total` can exceed the filtered count, and it counts exactly the rows not soft-deleted. |
| BaseRepository.SetDeletedAt | src/repositories/prisma/PrismaBaseRepository.ts:111-114 | Only the target row's `deletedAt` changes. Its id, data, creation time and update time stay, and so do the other rows. |
| BaseRepository.RemoveAt | src/repositories/prisma/PrismaBaseRepository.ts:120-122 | The row is gone and the others keep their order. |
| BaseRepository.SoftDeleteHides | src/repositories/prisma/PrismaBaseRepository.ts:106-117 | After a soft delete the row is still stored but `findById` under `deletedAt: null` returns null. An empty where clause still finds it. |
| BaseRepository.RestoreUndoesDelete | src/repositories/prisma/PrismaBaseRepository.ts:127-134 | After delete then restore, `findById` finds the row with its data. When the row was active before, the table is exactly as it was. |
| BaseRepository.HardDeleteRemoves | src/repositories/prisma/PrismaBaseRepository.ts:119-125 | After a hard delete no where clause finds the id, and every other row remains. |
| BaseRepository.Repository.constructor | src/repositories/prisma/PrismaBaseRepository.ts:31-33 | A new, empty table under the given where clause. |
| BaseRepository.Repository.Create | src/repositories/prisma/PrismaBaseRepository.ts:89-95 | A row with a fresh id and the current time, not deleted, is appended and returned. |
| BaseRepository.Repository.Update | src/repositories/prisma/PrismaBaseRepository.ts:97-104 | The row with that id, deleted or not, gets its data patched and is returned. A missing id is the store's not-found error with no write. |
| BaseRepository.Repository.Delete | src/repositories/prisma/PrismaBaseRepository.ts:106-117 | With the flag, this is the hard delete. Otherwise `deletedAt` is set to the current time, the row is kept and the clock advances. A missing id is the not-found error with no write. |
| BaseRepository.Repository.HardDelete | src/repositories/prisma/PrismaBaseRepository.ts:119-125 | The row is removed and returned. A missing id is the not-found error with no write. |
| BaseRepository.Repository.Restore | src/repositories/prisma/PrismaBaseRepository.ts:127-134 | `deletedAt` is set back to null. A missing id is the not-found error with no write. |
| OrderRepository.Where | src/repositories/prisma/PrismaOrderRepository.ts:48 | `filters \|\| {}`: there is a condition exactly when filters are given. |
| OrderRepository.FindOrders | src/repositories/prisma/PrismaOrderRepository.ts:35-73 | The page is the window at `skip` of the orders matching the filter, soft-deleted ones included, in the requested order. The same `where` gives the count, with the base defaults and formulas. |
| OrderRepository.OrdersNewestFirst | src/repositories/prisma/PrismaOrderRepository.ts:44-56 | Without `orderBy`, a page of orders is a window on the matching orders newest first, with strictly decreasing creation times. |
| OrderRepository.SelectCounts | src/repositories/prisma/PrismaOrderRepository.ts:48-57 | The status filter selects exactly as many rows as have that status, and no filter selects every row. |
| OrderRepository.TotalCountsMatches | src/repositories/prisma/PrismaOrderRepository.ts:57 | With a status filter, `total` is the number of orders with that status; without one, it is the number of orders. |
| OrderRepository.ItemRows | src/repositories/prisma/PrismaOrderRepository.ts:83-89 | One new row per input, each with a fresh id and the new order's id. |
| OrderRepository.ItemRowsKeepInputs | src/repositories/prisma/PrismaOrderRepository.ts:83-89 | Reading name, quantity and price back from the created rows gives exactly the inputs, in order. |
| OrderRepository.Inputs | src/repositories/prisma/PrismaOrderRepository.ts:84-88 | Reading name, quantity and price back from item rows, row by row. |
| OrderRepository.FirstRefused | src/repositories/prisma/PrismaOrderRepository.ts:97 | Mapping the items throws nothing iff every item loads. Otherwise it gives the position of the first item that does not, all earlier items loading. |
| OrderRepository.LoadError | src/repositories/prisma/PrismaOrderRepository.ts:97 | The mapping throws nothing iff every item loads. |
| OrderRepository.FirstRefusedAt | src/repositories/prisma/PrismaOrderRepository.ts:97 | An item that does not load, after items that all do, is the first one refused. |
| OrderRepository.LoadItems | src/repositories/prisma/PrismaOrderRepository.ts:97 | Loading the rows one entity at a time fails iff the mapping throws, with the first refusal. On success there is one fresh entity per row, holding that row's columns. |
| OrderRepository.ItemTableAppend | src/repositories/prisma/PrismaOrderRepository.ts:76-97 | Appending the rows of items that all load keeps the item table's invariant: ids and owners below the counters, every row loadable. |
| OrderRepository.NewItemsAlone | src/repositories/prisma/PrismaOrderRepository.ts:82-91 | After items are appended for a new order, that order's items are exactly the appended ones. |
| OrderRepository.OrderRepository.constructor | src/repositories/prisma/PrismaOrderRepository.ts:16-18 | Empty order and item tables; the order table's where clause is empty. |
| OrderRepository.OrderRepository.FindByIdWithItems | src/repositories/prisma/PrismaOrderRepository.ts:20-33 | It returns the order iff a row with that id exists, soft-deleted included, together with exactly the items whose `orderId` is that id; otherwise null. Mapping those items to entities never throws. |
| OrderRepository.OrderRepository.Create | src/repositories/prisma/PrismaOrderRepository.ts:75-99 | It fails iff some item's setters refuse it, with the first refusal, and then nothing changes. Otherwise the order is written with a fresh id, the current time and the given status or pending, plus one item per input that copies only name, quantity and price; the counters and the clock advance. Looking the order up then returns exactly it and those items. |
| OrderService.TotalIsLineSum | src/services/OrderService.ts:28 | The left fold `OrderService.TotalAmount` equals the sum of price × quantity over the items, and is 0 for no items. |
| OrderService.PositiveLinesPositiveTotal | src/services/OrderService.ts:28 | Items with positive prices and quantities give a positive total. |
| OrderService.TotalExample | src/services/__tests__/OrderService.test.ts:25-31 | 2 × 1000 + 1 × 2000 = 4000. |
| OrderService.StatusFilter | src/services/OrderService.ts:42 | A filter is made exactly when a status is given, and it holds that status. |
| OrderService.OrderNotFound | src/services/OrderService.ts:50 | An `AppError` "Order not found" with status 404 and context `{ id }`. |
| OrderService.Decide | src/services/OrderService.ts:56-66 | An absent id gives the 404. Otherwise the update is accepted iff the transition check passes on the stored status, and then only the status changes; a refusal is the transition error. |
| OrderService.CancelOutcomes | src/services/OrderService.ts:68-70 | Cancel succeeds from pending, processing and cancelled. It is refused from completed with "Cannot transition from completed to cancelled". |
| OrderService.UpdateStatusReplies | src/services/OrderService.ts:59-63 | The handler replies 404 "Order not found" with the id for an absent order, and 422 `ValidationError` "Invalid data" for a refused transition. |
| OrderService.ListingMatches | src/services/OrderService.ts:38-44 | With a status, `total` is the number of orders with it and every listed order has it. Without one, `total` is the number of orders. |
| OrderService.ListingNewestFirst | src/services/OrderService.ts:38-44 | Without `orderBy`, the listed orders have strictly decreasing creation times. |
| OrderService.OrderService.constructor | src/services/OrderService.ts:25 | The service over the given repository. |
| OrderService.OrderService.Create | src/services/OrderService.ts:27-36 | It fails iff some item's setters refuse it, with that refusal, and then nothing changes. Otherwise the created order has a fresh id, the customer, the sum of line totals and status pending, with the items unchanged, and every table, counter and clock it writes is stated. Looking it up returns it with those items. |
| OrderService.OrderService.FindMany | src/services/OrderService.ts:38-44 | The repository's listing, filtered by the status only when one is given. `total` is the number of orders with that status, or of all orders. Without `orderBy` the page is newest first. |
| OrderService.OrderService.FindById | src/services/OrderService.ts:46-54 | It fails iff no order has the id, with the 404 error. Otherwise it returns exactly what the repository's lookup returns: that order with its items. |
| OrderService.OrderService.UpdateStatus | src/services/OrderService.ts:56-66 | It returns what `Decide` says. On any error nothing is written; on success only that row's status is rewritten. |
| OrderService.OrderService.Cancel | src/services/OrderService.ts:68-70 | The same as `UpdateStatus` with cancelled. |
| Schema.PositiveIntegerAsInt | src/validators/OrderValidator.ts:5-6 | A whole positive number read as an integer is at least 1 and equals the number. |
| OrderValidator.Utf16Length | src/validators/OrderValidator.ts:4 | The JavaScript length lies between the character count and twice it, and equals the count when no character lies above U+FFFF. |
| OrderValidator.ShortNamesAccepted | src/validators/OrderValidator.ts:4 | Any name of 1 to 127 characters is accepted, and the empty name is not. |
| OrderValidator.IssuesOfItem | src/validators/OrderValidator.ts:4-6 | One item reports a rule iff that field breaks it, every issue it reports carries its own position, and it reports nothing iff the item is valid. |
| OrderValidator.ItemIssues | src/validators/OrderValidator.ts:3-7 | The item list never reports a customer-id or list-length issue, and it reports nothing iff every item is valid. |
| OrderValidator.ItemIssuesExact | src/validators/OrderValidator.ts:3-7 | A rule is reported for position k iff k is one of the list's positions and the item there breaks that rule. |
| OrderValidator.CreateIssues | src/validators/OrderValidator.ts:11-14 | No issue is reported iff the customer id is a UUID, the list is non-empty and every item is valid. |
| OrderValidator.BodyIssuesExact | src/validators/OrderValidator.ts:11-14 | The customer id is reported iff it is not a UUID, and "at least one item" iff the list is empty. |
| OrderValidator.ItemRuleIssuesExact | src/validators/OrderValidator.ts:12-13 | In the whole body, item k's name, quantity or price rule is reported iff item k exists and breaks it. |
| OrderValidator.FlattenFieldErrors | src/middlewares/validateWith.ts:16 | A key is present iff some issue has it, and its list is exactly the messages of the issues with that key, in issue order. |
| OrderValidator.MessagesForMeaning | src/middlewares/validateWith.ts:16 | A key collects messages iff some issue has that key, and each such issue's message is collected. |
| OrderValidator.FlattenKeys | src/middlewares/validateWith.ts:16 | The flattened keys are exactly the issues' keys, and each issue's message is listed under its key. |
| OrderValidator.ToDto | src/validators/OrderValidator.ts:11-14 | The parsed body keeps the customer, and each item's name, quantity and price. |
| OrderValidator.ValidateCreateOrder | src/validators/OrderValidator.ts:11-14 | Accepted iff the customer id is a UUID, the list is non-empty and every item is valid. A refusal is a 422 "Invalid data" `ValidationError` carrying the flattened issues. |
| OrderValidator.EmptyItemsRefused | src/validators/OrderValidator.ts:13 | An empty list is refused, with "Order must have at least one item" under `items`. |
| OrderValidator.InvalidItemRefused | src/controllers/__tests__/OrderController.integration.test.ts:50-61 | The item `{ name: "", quantity: 0, price: -100 }` breaks all three item rules. |
| OrderValidator.AcceptedOrderHasPositiveTotal | src/validators/OrderValidator.ts:5-6 | An accepted body gets a positive total from the service, equal to the sum of line totals. |
| OrderValidator.AcceptedBodyLoadsUnlessBlank | src/validators/OrderValidator.ts:4-6 | For a body the schema accepts, creating it succeeds iff no item's name is blank. |
| OrderValidator.SpacesNamePassesSchemaButNotCreate | src/validators/OrderValidator.ts:4 | A single item named with three spaces, quantity 1 and price 100 passes the schema, but creating it throws `fieldErrors.name = ["Name cannot be empty"]`. |
| OrderValidator.ParseStatus | src/validators/OrderValidator.ts:16-18 | Accepted iff the text is one of the four status names, and it reads the status back. |
| OrderValidator.StatusRoundTrip | src/validators/OrderValidator.ts:9 | Every status's name parses back to that status. |
| PaginationValidator.ParseDirection | src/validators/PaginationValidator.ts:9 | Exactly "asc" and "desc" are accepted. |
| PaginationValidator.ParsePagination | src/validators/PaginationValidator.ts:3-12 | Options are produced iff every rule holds: page ≥ 1, 1 ≤ limit ≤ 100, and whole numbers. Missing page and limit become 1 and 10, and `orderBy` is carried over. |
| PaginationValidator.ParsedOptionsReachRepositories | src/controllers/OrderController.ts:23 | Parsed options reach the repositories unchanged. A refused query becomes page 1, limit 10 and `createdAt desc`. |
| PaginationValidator.QueryExamples | src/validators/PaginationValidator.ts:4-5 | The empty query gives the defaults. A limit of 101, a page of 0 and a page of 2.5 are refused. |

## Left out

**Runtime and infrastructure**
- HTTP wiring is not modelled: the controllers, routes, the app and server set-up, and dependency injection. The controller's silent fallback on a failed query parse appears only through `PaginationValidator.ParsedOptionsReachRepositories`.
- The database client and its transaction engine are replaced by in-memory tables. `OrderRepository.OrderRepository.Create` decides whether mapping the result would throw before it writes, and then writes both tables in one method; a refusal therefore leaves both tables as they were, as the rollback does. The `$transaction` wrapper and the optional transaction context of each repository call are not modelled.
- Concurrency is not modelled. Everything runs sequentially, so the parallel listing queries and the read-then-write race in `updateStatus` are absent.
- Reflection-based mapping of records to entities (class-transformer) is modelled only where it can throw. Repositories return rows. Item rows are loaded into item entities by `OrderItems.Load`, which runs the setters in the order name, quantity, price; the model assumes the store returns an item's columns in that order, the order of the schema and of the create call. Loading an order entity runs its status setter on the stored status, a first assignment that is always accepted, so it is not modelled as a step of the repositories; `OrderService.OrderService.UpdateStatus` rebuilds that entity explicitly.
- Logging is not modelled: the `finish` hook in the error middleware and the request logger.
- Wall-clock time and random UUIDs are replaced by a store counter and clock.

**Numbers and text**
- Floating-point money is not modelled. Prices, quantities and totals are integers, as the create schema requires. JavaScript number precision above 2^53 is not modelled either.
- Lone UTF-16 surrogates cannot occur in Dafny strings, so `OrderValidator.Utf16Length` counts only well-formed text.
- zod's UUID format check is the parameter `isUuid`, and zod's default messages are the parameter `zodMessage`. Coercion of query strings (`z.coerce`) is not modelled; raw query numbers arrive as numbers. Inputs of the wrong JSON type are not modelled either.
- The store's not-found error is represented by the request error class with its code P2025 as message; the client library's message text is not part of this model.

**Deliberately weaker contracts**
- BaseRepository.Arrange: only `createdAt` ordering is modelled (descending is reverse table order, ascending is table order). Ordering by any other field keeps table order, because the model has no general comparison on an entity's fields.
- BaseRepository.FindMany: requires page and limit to be non-negative. Negative values pass through `||` and the database's answer to them is not modelled. The same holds for `BaseRepository.Paginate`, `OrderRepository.FindOrders` and `OrderService.OrderService.FindMany`. The pagination schema only produces non-negative options (`PaginationValidator.ParsedOptionsReachRepositories`).
- BaseRepository.Repository.Update: `updatedAt` is not refreshed on writes, because the database schema that would do so is not part of this model.
- BaseRepository.FindMany: the caller's filter is a condition on the entity's own fields; filters on `id`, timestamps or `deletedAt` are not modelled.
- OrderValidator.FlattenFieldErrors: only field errors are modelled. The form errors of the flattened issues are always empty here, because every rule of these schemas belongs to a field.

**Other omissions**
- Hard-deleting an order does not cascade to its items, because foreign-key behaviour belongs to the database schema, which is not part of this model.
- Items whose setters would refuse them can only reach the item table by writing to the database directly, which is not modelled; the item table's invariant keeps every stored item loadable, so listing and lookup never throw while mapping items.
- Ties in `createdAt` are not modelled. The clock gives every row a distinct, increasing creation time, so `createdAt desc` is exactly reverse insertion order; the database's order among rows created in the same millisecond is not part of this model.
- The optional `cause` of an `AppError` is not modelled; nothing in the order domain passes one.
- The message schemas in `src/validators/MessageValidator.ts` are unrelated to orders and not modelled.
