/**
 * The order-item entity: validating setters over the private name, quantity
 * and price fields.
 */
module OrderItems {
  import opened Wrappers
  import opened Errors

  /** The code points `String.prototype.trim` removes: ECMAScript's
      WhiteSpace (tab, vertical tab, form feed, the byte-order mark and every
      space separator) and LineTerminator characters. */
  predicate IsJsWhitespace(c: char) {
    c == '\t' || c == '\n' || c == '\U{000B}' || c == '\U{000C}' || c == '\r' || c == ' '
    || c == '\U{00A0}' || c == '\U{1680}' || ('\U{2000}' <= c <= '\U{200A}')
    || c == '\U{2028}' || c == '\U{2029}' || c == '\U{202F}' || c == '\U{205F}'
    || c == '\U{3000}' || c == '\U{FEFF}'
  }

  /** `s` without its leading whitespace. */
  function TrimStart(s: string): string
    decreases |s|
  {
    if s != [] && IsJsWhitespace(s[0]) then TrimStart(s[1..]) else s
  }

  /** `s` without its trailing whitespace. */
  function TrimEnd(s: string): string
    decreases |s|
  {
    if s != [] && IsJsWhitespace(s[|s| - 1]) then TrimEnd(s[..|s| - 1]) else s
  }

  /** Trimming the start leaves a suffix of `s` that does not start with
      whitespace, and everything cut off is whitespace. */
  lemma {:induction false} TrimStartShape(s: string)
    ensures |TrimStart(s)| <= |s| && TrimStart(s) == s[|s| - |TrimStart(s)|..]
    ensures TrimStart(s) != [] ==> !IsJsWhitespace(TrimStart(s)[0])
    ensures forall i :: 0 <= i < |s| - |TrimStart(s)| ==> IsJsWhitespace(s[i])
    decreases |s|
  {
    if s != [] && IsJsWhitespace(s[0]) {
      TrimStartShape(s[1..]);
      assert forall i :: 1 <= i < |s| ==> s[i] == s[1..][i - 1];
    }
  }

  /** Trimming the end leaves a prefix of `s` that does not end with
      whitespace, and everything cut off is whitespace. */
  lemma {:induction false} TrimEndShape(s: string)
    ensures |TrimEnd(s)| <= |s| && TrimEnd(s) == s[..|TrimEnd(s)|]
    ensures TrimEnd(s) != [] ==> !IsJsWhitespace(TrimEnd(s)[|TrimEnd(s)| - 1])
    ensures forall i :: |TrimEnd(s)| <= i < |s| ==> IsJsWhitespace(s[i])
    decreases |s|
  {
    if s != [] && IsJsWhitespace(s[|s| - 1]) {
      TrimEndShape(s[..|s| - 1]);
      assert forall i :: 0 <= i < |s| - 1 ==> s[i] == s[..|s| - 1][i];
    }
  }

  /** `s.trim()`. */
  function Trim(s: string): string {
    TrimEnd(TrimStart(s))
  }

  /** The name setter's guard, `!value || value.trim().length === 0`. */
  predicate IsBlank(value: string) {
    value == "" || |Trim(value)| == 0
  }

  /** A name is refused exactly when it is empty or consists of whitespace
      alone. */
  lemma BlankIffAllWhitespace(value: string)
    ensures IsBlank(value) <==> forall i :: 0 <= i < |value| ==> IsJsWhitespace(value[i])
  {
    var t := TrimStart(value);
    TrimStartShape(value);
    TrimEndShape(t);
    var off := |value| - |t|;
    if forall i :: 0 <= i < |value| ==> IsJsWhitespace(value[i]) {
      assert t == [];
    } else {
      var k :| 0 <= k < |value| && !IsJsWhitespace(value[k]);
      assert off <= k;
      assert t[k - off] == value[k];
      assert |TrimEnd(t)| != 0;
    }
  }

  const NameMessage: string := "Name cannot be empty"
  const QuantityMessage: string := "Quantity must be greater than 0"
  const PriceMessage: string := "Price must be greater than 0"

  /** An order line. Each field is unset until its setter first accepts a
      value; `orderId` is assigned on persistence. */
  class OrderItem {
    var orderId: Option<nat>
    var name: Option<string>
    var quantity: Option<int>
    var price: Option<int>

    constructor ()
      ensures orderId == None && name == None && quantity == None && price == None
    {
      orderId, name, quantity, price := None, None, None, None;
    }

    /** The `name` setter: a blank name throws, with
        `fieldErrors.name = ["Name cannot be empty"]`, and keeps the old
        name; any other name is stored as given, untrimmed. */
    method SetName(value: string) returns (outcome: Outcome<AppError>)
      modifies this`name
      ensures outcome.Fail? <==> IsBlank(value)
      ensures outcome.Fail? ==> outcome.error == FieldError("name", NameMessage) && name == old(name)
      ensures outcome.Pass? ==> name == Some(value)
    {
      if value == "" || |Trim(value)| == 0 {
        return Fail(FieldError("name", NameMessage));
      }
      name := Some(value);
      outcome := Pass;
    }

    /** The `quantity` setter: a value of 0 or less throws and keeps the old
        quantity; any positive value is stored. */
    method SetQuantity(value: int) returns (outcome: Outcome<AppError>)
      modifies this`quantity
      ensures outcome.Fail? <==> value <= 0
      ensures outcome.Fail? ==> outcome.error == FieldError("quantity", QuantityMessage) && quantity == old(quantity)
      ensures outcome.Pass? ==> quantity == Some(value)
    {
      if value <= 0 {
        return Fail(FieldError("quantity", QuantityMessage));
      }
      quantity := Some(value);
      outcome := Pass;
    }

    /** The `price` setter: a value of 0 or less throws and keeps the old
        price; any positive value is stored. */
    method SetPrice(value: int) returns (outcome: Outcome<AppError>)
      modifies this`price
      ensures outcome.Fail? <==> value <= 0
      ensures outcome.Fail? ==> outcome.error == FieldError("price", PriceMessage) && price == old(price)
      ensures outcome.Pass? ==> price == Some(value)
    {
      if value <= 0 {
        return Fail(FieldError("price", PriceMessage));
      }
      price := Some(value);
      outcome := Pass;
    }
  }

  /** The stored columns of an item that its three setters all accept. */
  predicate Accepted(name: string, quantity: int, price: int) {
    !IsBlank(name) && quantity > 0 && price > 0
  }

  /** The error loading a row into an item throws, if any. The setters run
      in the order name, quantity, price, and the first one that refuses
      throws its own field error. */
  function Refusal(name: string, quantity: int, price: int): (e: Option<AppError>)
    ensures e.None? <==> Accepted(name, quantity, price)
  {
    if IsBlank(name) then Some(FieldError("name", NameMessage))
    else if quantity <= 0 then Some(FieldError("quantity", QuantityMessage))
    else if price <= 0 then Some(FieldError("price", PriceMessage))
    else None
  }

  /** The refusal thrown is the first refusing setter's field error: the
      name's, then the quantity's, then the price's. */
  lemma RefusalOrder(name: string, quantity: int, price: int)
    ensures IsBlank(name) ==> Refusal(name, quantity, price) == Some(FieldError("name", NameMessage))
    ensures !IsBlank(name) && quantity <= 0 ==>
              Refusal(name, quantity, price) == Some(FieldError("quantity", QuantityMessage))
    ensures !IsBlank(name) && quantity > 0 && price <= 0 ==>
              Refusal(name, quantity, price) == Some(FieldError("price", PriceMessage))
  {
  }

  /** `plainToInstance(OrderItem, row)`: a fresh item whose `orderId` is
      assigned directly and whose name, quantity and price go through their
      setters, in that order. The first refusal is thrown; otherwise the item
      holds the row's values. */
  method Load(orderId: nat, name: string, quantity: int, price: int) returns (r: Result<OrderItem, AppError>)
    ensures r.Err? <==> Refusal(name, quantity, price).Some?
    ensures r.Err? ==> Refusal(name, quantity, price) == Some(r.error)
    ensures r.Ok? ==> fresh(r.value)
    ensures r.Ok? ==> r.value.orderId == Some(orderId) && r.value.name == Some(name)
                      && r.value.quantity == Some(quantity) && r.value.price == Some(price)
  {
    var refusal := Refusal(name, quantity, price);
    var item := new OrderItem();
    item.orderId := Some(orderId);
    var o := item.SetName(name);
    if o.Fail? {
      assert IsBlank(name);
      return Err(o.error);
    }
    o := item.SetQuantity(quantity);
    if o.Fail? {
      assert !IsBlank(name) && quantity <= 0;
      return Err(o.error);
    }
    o := item.SetPrice(price);
    if o.Fail? {
      assert !IsBlank(name) && quantity > 0 && price <= 0;
      return Err(o.error);
    }
    assert refusal.None?;
    r := Ok(item);
  }

  /** A valid name on a fresh item reads back as written, untrimmed. */
  method ValidNameScenario() returns (item: OrderItem, o: Outcome<AppError>)
    ensures o.Pass? && item.name == Some("W ")
  {
    item := new OrderItem();
    var valid := "W ";
    BlankIffAllWhitespace(valid);
    assert !IsJsWhitespace(valid[0]);
    o := item.SetName(valid);
  }

  /** An all-space name is refused with `fieldErrors.name = ["Name cannot
      be empty"]`, and the item keeps no name. */
  method SpacesNameScenario(spaces: string) returns (item: OrderItem, o: Outcome<AppError>)
    requires spaces != []
    requires forall i :: 0 <= i < |spaces| ==> spaces[i] == ' '
    ensures o == Fail(FieldError("name", NameMessage)) && item.name == None
  {
    item := new OrderItem();
    BlankIffAllWhitespace(spaces);
    o := item.SetName(spaces);
  }

  /** The empty name throws with `fieldErrors.name = ["Name cannot be empty"]`. */
  method EmptyNameScenario() returns (item: OrderItem, o: Outcome<AppError>)
    ensures o == Fail(FieldError("name", NameMessage)) && item.name == None
  {
    item := new OrderItem();
    o := item.SetName("");
  }

  /** The quantity and price tests: a positive quantity is stored, 0 and
      -100 are refused, and a refused write leaves that field, and every
      other field, as it was. */
  method NumberScenario() returns (item: OrderItem, refused: Outcome<AppError>)
    ensures refused == Fail(FieldError("price", PriceMessage))
    ensures item.quantity == Some(3) && item.price == None && item.orderId == None && item.name == None
  {
    item := new OrderItem();
    var o := item.SetQuantity(3);
    o := item.SetQuantity(0);
    assert o.Fail? && item.quantity == Some(3);
    refused := item.SetPrice(-100);
  }
}
