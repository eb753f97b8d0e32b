/**
 * The order request schemas: the create body (a customer UUID and a
 * non-empty list of items with a name of 1 to 255 characters and a
 * positive whole quantity and price) and the status-update body. A rejected
 * create body becomes the validation error the request middleware throws.
 */
module OrderValidator {
  import opened Wrappers
  import opened Errors
  import opened Orders
  import opened Schema
  import opened OrderRepository
  import opened OrderService
  import OrderItems

  /** The string's `length`: its count of UTF-16 code units, two for each
      character outside the Basic Multilingual Plane. */
  function Utf16Length(s: string): (n: nat)
    ensures |s| <= n <= 2 * |s|
    ensures (forall i :: 0 <= i < |s| ==> s[i] as int <= 0xFFFF) ==> n == |s|
    decreases |s|
  {
    if s == [] then 0 else (if s[0] as int > 0xFFFF then 2 else 1) + Utf16Length(s[1..])
  }

  /** `z.string().min(1).max(255)`. */
  predicate ValidName(name: string) {
    1 <= Utf16Length(name) <= 255
  }

  /** Every name of 1 to 127 characters is accepted, whatever its
      characters, and the empty name never is. */
  lemma ShortNamesAccepted(name: string)
    ensures 1 <= |name| <= 127 ==> ValidName(name)
    ensures name == "" ==> !ValidName(name)
  {
  }

  /** An item of the create body as parsed from JSON. */
  datatype RawItem = RawItem(name: string, quantity: real, price: real)

  /** The create body as parsed from JSON. */
  datatype RawCreateOrder = RawCreateOrder(customerId: string, items: seq<RawItem>)

  predicate ValidItem(item: RawItem) {
    ValidName(item.name) && IsPositiveInteger(item.quantity) && IsPositiveInteger(item.price)
  }

  /** One rule that a create body breaks, with the index of the item when
      the rule is an item's. */
  datatype Issue =
    | CustomerIdInvalid
    | NameInvalid(index: nat)
    | QuantityInvalid(index: nat)
    | PriceInvalid(index: nat)
    | NoItems

  const NoItemsMessage: string := "Order must have at least one item"

  /** The top-level key of the issue's path, under which `flattenError`
      groups its message. */
  function IssueField(i: Issue): string {
    if i == CustomerIdInvalid then "customerId" else "items"
  }

  /** The three rules an item obeys. */
  datatype Rule = NameRule | QuantityRule | PriceRule

  predicate Breaks(rule: Rule, item: RawItem) {
    match rule
    case NameRule => !ValidName(item.name)
    case QuantityRule => !IsPositiveInteger(item.quantity)
    case PriceRule => !IsPositiveInteger(item.price)
  }

  /** The issue reporting `rule` broken by item `k`. */
  function IssueFor(rule: Rule, k: nat): Issue {
    match rule
    case NameRule => NameInvalid(k)
    case QuantityRule => QuantityInvalid(k)
    case PriceRule => PriceInvalid(k)
  }

  /** The issues of one item, at position `k`: one per broken rule. */
  function IssuesOfItem(item: RawItem, k: nat): (r: seq<Issue>)
    ensures forall rule :: IssueFor(rule, k) in r <==> Breaks(rule, item)
    ensures forall x :: x in r ==> (x.NameInvalid? || x.QuantityInvalid? || x.PriceInvalid?) && x.index == k
    ensures r == [] <==> ValidItem(item)
  {
    (if ValidName(item.name) then [] else [NameInvalid(k)])
    + (if IsPositiveInteger(item.quantity) then [] else [QuantityInvalid(k)])
    + (if IsPositiveInteger(item.price) then [] else [PriceInvalid(k)])
  }

  /** The issues of the items from position `from` on, item by item. */
  function ItemIssues(items: seq<RawItem>, from: nat): (r: seq<Issue>)
    ensures forall x :: x in r ==> x != CustomerIdInvalid && x != NoItems
    ensures r == [] <==> forall i :: 0 <= i < |items| ==> ValidItem(items[i])
    decreases |items|
  {
    if items == [] then [] else IssuesOfItem(items[0], from) + ItemIssues(items[1..], from + 1)
  }

  /** A rule is reported for position `k` exactly when item `k` breaks it. */
  lemma {:induction false} ItemIssuesExact(items: seq<RawItem>, from: nat, k: nat, rule: Rule)
    ensures IssueFor(rule, k) in ItemIssues(items, from)
            <==> from <= k < from + |items| && Breaks(rule, items[k - from])
    decreases |items|
  {
    if items != [] {
      ItemIssuesExact(items[1..], from + 1, k, rule);
      var head := IssuesOfItem(items[0], from);
      assert ItemIssues(items, from) == head + ItemIssues(items[1..], from + 1);
      if k != from {
        assert IssueFor(rule, k) !in head;
        if from < k < from + |items| {
          assert items[1..][k - (from + 1)] == items[k - from];
        }
      }
    }
  }

  /** Every issue of `CreateOrderValidator` on a body: the customer id, each
      item's fields, and the list's minimum length. `isUuid` stands for the
      UUID format check. */
  function CreateIssues(isUuid: string -> bool, raw: RawCreateOrder): (r: seq<Issue>)
    ensures r == [] <==> isUuid(raw.customerId) && raw.items != []
                         && forall i :: 0 <= i < |raw.items| ==> ValidItem(raw.items[i])
  {
    (if isUuid(raw.customerId) then [] else [CustomerIdInvalid])
    + ItemIssues(raw.items, 0)
    + (if raw.items == [] then [NoItems] else [])
  }

  /** The customer id is reported exactly when it is not a UUID, and the
      list's minimum length exactly when the list is empty. */
  lemma BodyIssuesExact(isUuid: string -> bool, raw: RawCreateOrder)
    ensures CustomerIdInvalid in CreateIssues(isUuid, raw) <==> !isUuid(raw.customerId)
    ensures NoItems in CreateIssues(isUuid, raw) <==> raw.items == []
  {
    var b := ItemIssues(raw.items, 0);
    assert CustomerIdInvalid !in b && NoItems !in b;
  }

  /** A rule of item `k` is reported exactly when item `k` exists and
      breaks it. */
  lemma ItemRuleIssuesExact(isUuid: string -> bool, raw: RawCreateOrder, k: nat, rule: Rule)
    ensures IssueFor(rule, k) in CreateIssues(isUuid, raw) <==> k < |raw.items| && Breaks(rule, raw.items[k])
  {
    ItemIssuesExact(raw.items, 0, k, rule);
  }

  /** The messages `flattenError` collects under `key`: those of the issues
      whose top-level key it is, in issue order. */
  function MessagesFor(issues: seq<Issue>, key: string, zodMessage: Issue -> string): seq<string>
    decreases |issues|
  {
    if issues == [] then []
    else (if IssueField(issues[0]) == key then [IssueMessage(issues[0], zodMessage)] else [])
         + MessagesFor(issues[1..], key, zodMessage)
  }

  /** `z.flattenError(issues).fieldErrors`: the messages grouped by the
      issue's top-level key, in issue order. `zodMessage` stands for zod's
      own default messages; the empty list carries the schema's message. */
  function FlattenFieldErrors(issues: seq<Issue>, zodMessage: Issue -> string): (m: map<string, seq<string>>)
    ensures forall k :: k in m <==> MessagesFor(issues, k, zodMessage) != []
    ensures forall k :: k in m ==> m[k] == MessagesFor(issues, k, zodMessage)
    decreases |issues|
  {
    if issues == [] then map[]
    else
      var rest := FlattenFieldErrors(issues[1..], zodMessage);
      var key := IssueField(issues[0]);
      var earlier := if key in rest then rest[key] else [];
      rest[key := [IssueMessage(issues[0], zodMessage)] + earlier]
  }

  /** A key collects messages exactly when some issue has it, and every
      issue's message is among those of its key. */
  lemma {:induction false} MessagesForMeaning(issues: seq<Issue>, key: string, zodMessage: Issue -> string)
    ensures MessagesFor(issues, key, zodMessage) != [] <==> exists j :: 0 <= j < |issues| && IssueField(issues[j]) == key
    ensures forall j :: 0 <= j < |issues| && IssueField(issues[j]) == key ==>
              IssueMessage(issues[j], zodMessage) in MessagesFor(issues, key, zodMessage)
    decreases |issues|
  {
    if issues != [] {
      MessagesForMeaning(issues[1..], key, zodMessage);
      assert forall j :: 1 <= j < |issues| ==> issues[j] == issues[1..][j - 1];
      if IssueField(issues[0]) != key {
        assert forall j :: 0 <= j < |issues| && IssueField(issues[j]) == key ==> j >= 1;
      }
    }
  }

  /** The keys of the flattened errors are exactly those of the issues, and
      each issue's message is listed under its key. */
  lemma FlattenKeys(issues: seq<Issue>, zodMessage: Issue -> string)
    ensures var m := FlattenFieldErrors(issues, zodMessage);
            forall k :: k in m <==> exists j :: 0 <= j < |issues| && IssueField(issues[j]) == k
    ensures var m := FlattenFieldErrors(issues, zodMessage);
            forall j :: 0 <= j < |issues| ==> IssueMessage(issues[j], zodMessage) in m[IssueField(issues[j])]
  {
    forall k {
      MessagesForMeaning(issues, k, zodMessage);
    }
  }

  function IssueMessage(i: Issue, zodMessage: Issue -> string): string {
    if i == NoItems then NoItemsMessage else zodMessage(i)
  }

  /** The body `CreateOrderValidator` passes on: the customer id and the
      items, their numbers as integers. */
  function ToDto(raw: RawCreateOrder): (dto: CreateOrderDto)
    ensures dto.customerId == raw.customerId && |dto.items| == |raw.items|
    ensures forall i :: 0 <= i < |dto.items| ==>
              dto.items[i] == ItemInput(raw.items[i].name, raw.items[i].quantity.Floor, raw.items[i].price.Floor)
  {
    CreateOrderDto(raw.customerId,
                   seq(|raw.items|, i requires 0 <= i < |raw.items| =>
                         ItemInput(raw.items[i].name, raw.items[i].quantity.Floor, raw.items[i].price.Floor)))
  }

  /** `validateWith(CreateOrderValidator)` on a create body: the parsed body
      when no rule is broken, and otherwise the `ValidationError` built from
      the flattened issues, with no form errors. */
  function ValidateCreateOrder(isUuid: string -> bool, zodMessage: Issue -> string,
                               raw: RawCreateOrder): (r: Result<CreateOrderDto, AppError>)
    ensures r.Ok? <==> isUuid(raw.customerId) && raw.items != []
                       && forall i :: 0 <= i < |raw.items| ==> ValidItem(raw.items[i])
    ensures r.Ok? ==> r.value == ToDto(raw)
    ensures r.Err? ==> r.error.cls == ValidationErrorClass && r.error.statusCode == 422
                       && r.error.message == "Invalid data" && FormErrorsOf(r.error.context) == []
                       && FieldErrorsOf(r.error.context) == FlattenFieldErrors(CreateIssues(isUuid, raw), zodMessage)
  {
    var issues := CreateIssues(isUuid, raw);
    if issues == [] then Ok(ToDto(raw))
    else Err(NewValidationError(Some(ValidationContext(Some([]), Some(FlattenFieldErrors(issues, zodMessage)))),
                                None, None))
  }

  /** An empty item list is refused with "Order must have at least one
      item" among the messages under `items`. */
  lemma EmptyItemsRefused(isUuid: string -> bool, zodMessage: Issue -> string, customerId: string)
    ensures var r := ValidateCreateOrder(isUuid, zodMessage, RawCreateOrder(customerId, []));
            r.Err? && "items" in FieldErrorsOf(r.error.context)
            && NoItemsMessage in FieldErrorsOf(r.error.context)["items"]
  {
    var issues := CreateIssues(isUuid, RawCreateOrder(customerId, []));
    assert issues[|issues| - 1] == NoItems;
    FlattenKeys(issues, zodMessage);
  }

  /** The item with an empty name, quantity 0 and price -100 breaks all three
      of its rules. */
  lemma InvalidItemRefused(isUuid: string -> bool, zodMessage: Issue -> string, customerId: string)
    ensures var raw := RawCreateOrder(customerId, [RawItem("", 0.0, -100.0)]);
            ValidateCreateOrder(isUuid, zodMessage, raw).Err?
            && NameInvalid(0) in CreateIssues(isUuid, raw)
            && QuantityInvalid(0) in CreateIssues(isUuid, raw)
            && PriceInvalid(0) in CreateIssues(isUuid, raw)
  {
    var raw := RawCreateOrder(customerId, [RawItem("", 0.0, -100.0)]);
    ItemRuleIssuesExact(isUuid, raw, 0, NameRule);
    ItemRuleIssuesExact(isUuid, raw, 0, QuantityRule);
    ItemRuleIssuesExact(isUuid, raw, 0, PriceRule);
  }

  /** A body that passes yields items the service totals to a positive
      amount, equal to the sum of the items' line totals. */
  lemma AcceptedOrderHasPositiveTotal(isUuid: string -> bool, zodMessage: Issue -> string, raw: RawCreateOrder)
    requires ValidateCreateOrder(isUuid, zodMessage, raw).Ok?
    ensures var dto := ValidateCreateOrder(isUuid, zodMessage, raw).value;
            TotalAmount(dto.items) > 0 && TotalAmount(dto.items) == LineSum(dto.items)
  {
    var dto := ValidateCreateOrder(isUuid, zodMessage, raw).value;
    forall i | 0 <= i < |dto.items| ensures dto.items[i].price > 0 && dto.items[i].quantity > 0 {
      assert ValidItem(raw.items[i]);
      PositiveIntegerAsInt(raw.items[i].price);
      PositiveIntegerAsInt(raw.items[i].quantity);
    }
    PositiveLinesPositiveTotal(dto.items);
    TotalIsLineSum(dto.items);
  }

  /** A body that passes the schema is created exactly when every item's
      name holds a character other than whitespace: quantities and prices
      are already positive, but `min(1)` admits a name of spaces, which the
      item entity's name setter then refuses. */
  lemma AcceptedBodyLoadsUnlessBlank(isUuid: string -> bool, zodMessage: Issue -> string, raw: RawCreateOrder)
    requires ValidateCreateOrder(isUuid, zodMessage, raw).Ok?
    ensures var dto := ValidateCreateOrder(isUuid, zodMessage, raw).value;
            LoadError(dto.items).None? <==> forall i :: 0 <= i < |raw.items| ==> !OrderItems.IsBlank(raw.items[i].name)
  {
    var dto := ValidateCreateOrder(isUuid, zodMessage, raw).value;
    forall i | 0 <= i < |dto.items|
      ensures Loads(dto.items[i]) <==> !OrderItems.IsBlank(raw.items[i].name)
    {
      assert ValidItem(raw.items[i]);
      PositiveIntegerAsInt(raw.items[i].price);
      PositiveIntegerAsInt(raw.items[i].quantity);
    }
  }

  /** A single item named with three spaces, quantity 1 and price 100
      passes the schema, and creating it is refused with the name setter's
      field error. */
  lemma SpacesNamePassesSchemaButNotCreate(isUuid: string -> bool, zodMessage: Issue -> string, customerId: string)
    requires isUuid(customerId)
    ensures var r := ValidateCreateOrder(isUuid, zodMessage, RawCreateOrder(customerId, [RawItem("   ", 1.0, 100.0)]));
            r.Ok? && LoadError(r.value.items) == Some(FieldError("name", OrderItems.NameMessage))
  {
    var raw := RawCreateOrder(customerId, [RawItem("   ", 1.0, 100.0)]);
    assert Utf16Length("   ") == 3;
    assert ValidItem(raw.items[0]);
    var dto := ValidateCreateOrder(isUuid, zodMessage, raw).value;
    OrderItems.BlankIffAllWhitespace("   ");
    assert OrderItems.IsBlank(dto.items[0].name);
    assert FirstRefused(dto.items) == Some(0);
  }

  /** `UpdateOrderStatusValidator`: the status must be one of the four
      enum values. */
  function ParseStatus(s: string): (r: Option<Status>)
    ensures r.Some? ==> StatusName(r.value) == s
    ensures r.None? <==> forall t: Status :: StatusName(t) != s
  {
    if s == "pending" then Some(Pending)
    else if s == "processing" then Some(Processing)
    else if s == "completed" then Some(Completed)
    else if s == "cancelled" then Some(Cancelled)
    else None
  }

  /** Every status's name parses back to it. */
  lemma {:induction false} StatusRoundTrip(t: Status)
    ensures ParseStatus(StatusName(t)) == Some(t)
  {
    match t
    case Pending =>
    case Processing =>
    case Completed =>
    case Cancelled =>
  }
}
