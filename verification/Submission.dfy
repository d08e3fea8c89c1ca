/**
 Accepting an order and fanning it out: beginRequest of ProcessOrderSource, ProcessOrderItems and
 the deadline arithmetic of SoftDeadline. Parsed JSON is a value; header look-ups, new ids and
 clock readings are parameters.
 */
module Submission {
  import opened Types
  import A = Aggregation

  datatype JsonValue =
    | JNull
    | JBool(flag: bool)
    | JNumber(value: real)
    | JString(text: string)
    | JArray(elements: seq<JsonValue>)
    | JObject(fields: map<string, JsonValue>)

  type Fields = map<string, JsonValue>

  /** Why a request is answered with 400. Malformed stands for every exception of the JSON library. */
  datatype Rejection = Malformed | NoItems | QuantityNotPositive | MissingField(name: string)

  datatype Result<+T> = Ok(value: T) | Rejected(reason: Rejection) {
    predicate IsFailure() { Rejected? }
    function PropagateFailure<U>(): Result<U> requires Rejected? { Rejected(reason) }
    function Extract(): T requires Ok? { value }
  }

  // ---------- Field access ----------

  function AsString(json: JsonValue): Result<string> {
    if json.JString? then Ok(json.text) else Rejected(Malformed)
  }

  function AsReal(json: JsonValue): Result<real> {
    if json.JNumber? then Ok(json.value) else Rejected(Malformed)
  }

  predicate IsInt32(json: JsonValue) {
    json.JNumber? && json.value == json.value.Floor as real && -0x8000_0000 <= json.value.Floor <= INT32_MAX
  }

  /** Of the whole numbers exactly those of 32 bits qualify, and no fraction does. */
  lemma Int32Range(n: int, fraction: real)
    requires 0.0 < fraction < 1.0
    ensures IsInt32(JNumber(n as real)) <==> -0x8000_0000 <= n <= 0x7fff_ffff
    ensures !IsInt32(JNumber(n as real + fraction))
  {
    var value := n as real + fraction;
    assert value.Floor == n;
  }

  function AsInt32(json: JsonValue): Result<int32> {
    if IsInt32(json) then Ok(json.value.Floor) else Rejected(Malformed)
  }

  function StringField(fields: Fields, primary: string, alternative: string): Result<string> {
    if primary in fields then AsString(fields[primary])
    else if alternative in fields then AsString(fields[alternative])
    else if primary == "customer_id" then Ok("")
    else Rejected(MissingField(primary))
  }

  function IntField(fields: Fields, name: string): Result<int32> {
    if name in fields then AsInt32(fields[name]) else Rejected(MissingField(name))
  }

  function DoubleField(fields: Fields, primary: string, alternative: string, default: real): Result<real> {
    if primary in fields then AsReal(fields[primary])
    else if alternative in fields then AsReal(fields[alternative])
    else Ok(default)
  }

  /** One pass of the validation loop. */
  function ParseItem(orderId: string, json: JsonValue): Result<OrderItem> {
    if !json.JObject? then Rejected(Malformed)
    else
      var quantity :- IntField(json.fields, "quantity");
      if quantity <= 0 then Rejected(QuantityNotPositive)
      else
        var unitPrice :- DoubleField(json.fields, "unit_price", "unitPrice", 0.0);
        var itemId :- StringField(json.fields, "item_id", "itemId");
        var sku :- StringField(json.fields, "sku", "sku");
        Ok(OrderItem(orderId, itemId, sku, quantity, unitPrice))
  }

  // ---------- Which requests are accepted ----------

  /** Field `primary`, or `alternative` in its absence, is present with a value that `good` accepts. */
  predicate Present(fields: Fields, primary: string, alternative: string, good: JsonValue -> bool) {
    if primary in fields then good(fields[primary]) else alternative in fields && good(fields[alternative])
  }

  predicate PresentOrAbsent(fields: Fields, primary: string, alternative: string, good: JsonValue -> bool) {
    (primary !in fields && alternative !in fields) || Present(fields, primary, alternative, good)
  }

  predicate WellFormedItem(json: JsonValue) {
    && json.JObject?
    && "quantity" in json.fields && IsInt32(json.fields["quantity"]) && json.fields["quantity"].value > 0.0
    && PresentOrAbsent(json.fields, "unit_price", "unitPrice", (v: JsonValue) => v.JNumber?)
    && Present(json.fields, "item_id", "itemId", (v: JsonValue) => v.JString?)
    && Present(json.fields, "sku", "sku", (v: JsonValue) => v.JString?)
  }

  predicate HasItems(json: JsonValue) {
    json.JObject? && "items" in json.fields && json.fields["items"].JArray? && json.fields["items"].elements != []
  }

  predicate WellFormedRequest(body: Option<JsonValue>) {
    && body.Some? && HasItems(body.value)
    && PresentOrAbsent(body.value.fields, "customer_id", "customerId", (v: JsonValue) => v.JString?)
    && var elements := body.value.fields["items"].elements;
    && forall k | 0 <= k < |elements| :: WellFormedItem(elements[k])
  }

  /** Field `primary`, or `alternative` in its absence, is a text. */
  predicate HasText(fields: Fields, primary: string, alternative: string) {
    if primary in fields then fields[primary].JString? else alternative in fields && fields[alternative].JString?
  }

  /** The quantity is positive, and the price, if there is one, a number. */
  predicate HasQuantityAndPrice(json: JsonValue) {
    && json.JObject? && "quantity" in json.fields
    && IsInt32(json.fields["quantity"]) && json.fields["quantity"].value > 0.0
    && ("unit_price" in json.fields ==> json.fields["unit_price"].JNumber?)
    && ("unit_price" !in json.fields && "unitPrice" in json.fields ==> json.fields["unitPrice"].JNumber?)
  }

  /** `item` says what the fields of `json` say; without a price field its price is zero. */
  predicate Describes(json: JsonValue, item: OrderItem)
    requires WellFormedItem(json)
  {
    var fields := json.fields;
    && fields["quantity"] == JNumber(item.quantity as real)
    && fields["sku"] == JString(item.sku)
    && fields[if "item_id" in fields then "item_id" else "itemId"] == JString(item.itemId)
    && (if "unit_price" in fields then fields["unit_price"] == JNumber(item.unitPrice)
        else if "unitPrice" in fields then fields["unitPrice"] == JNumber(item.unitPrice)
        else item.unitPrice == 0.0)
  }

  lemma ItemParsesIffWellFormed(orderId: string, json: JsonValue)
    ensures ParseItem(orderId, json).Ok? <==> WellFormedItem(json)
    ensures ParseItem(orderId, json).Ok? <==>
              && HasQuantityAndPrice(json)
              && HasText(json.fields, "item_id", "itemId") && HasText(json.fields, "sku", "sku")
    ensures ParseItem(orderId, json).Ok? ==>
              var item := ParseItem(orderId, json).value;
              item.orderId == orderId && item.quantity > 0 && Describes(json, item)
    ensures ParseItem(orderId, json) == Rejected(QuantityNotPositive) <==>
              json.JObject? && "quantity" in json.fields && IsInt32(json.fields["quantity"])
              && json.fields["quantity"].value <= 0.0
    ensures ParseItem(orderId, json) == Rejected(MissingField("quantity")) <==>
              json.JObject? && "quantity" !in json.fields
    ensures ParseItem(orderId, json) == Rejected(MissingField("item_id")) <==>
              HasQuantityAndPrice(json) && "item_id" !in json.fields && "itemId" !in json.fields
    ensures ParseItem(orderId, json) == Rejected(MissingField("sku")) <==>
              HasQuantityAndPrice(json) && HasText(json.fields, "item_id", "itemId") && "sku" !in json.fields
    ensures ParseItem(orderId, json) != Rejected(NoItems)
    ensures forall name | ParseItem(orderId, json) == Rejected(MissingField(name)) ::
              name in {"quantity", "item_id", "sku"}
  {
    assert "item_id"[0] != "customer_id"[0] && "sku"[0] != "customer_id"[0];
  }

  /** `customerId` is what the fields of the request say; without such a field it is empty. */
  predicate IsCustomer(fields: Fields, customerId: string) {
    if "customer_id" in fields then fields["customer_id"] == JString(customerId)
    else if "customerId" in fields then fields["customerId"] == JString(customerId)
    else customerId == ""
  }

  lemma CustomerReadsIffWellFormed(fields: Fields)
    ensures var customerId := StringField(fields, "customer_id", "customerId");
            && (customerId.Ok? <==> PresentOrAbsent(fields, "customer_id", "customerId", (v: JsonValue) => v.JString?))
            && (customerId.Rejected? ==> customerId.reason == Malformed)
            && (customerId.Ok? ==> IsCustomer(fields, customerId.value))
  {
  }

  // ---------- beginRequest ----------

  function SubmittedTotal(items: seq<OrderItem>): real {
    if items == [] then 0.0
    else SubmittedTotal(items[..|items| - 1]) + (items[|items| - 1].quantity as real) * items[|items| - 1].unitPrice
  }

  /** What every accepted order satisfies. */
  predicate AcceptedOrder(order: Order) {
    && order.items != []
    && (forall k | 0 <= k < |order.items| :: order.items[k].quantity > 0 && order.items[k].orderId == order.id)
    && order.totalAmount == SubmittedTotal(order.items)
  }

  /** The text of the exception; `library` is that of the JSON library's own. */
  function What(reason: Rejection, library: string): string {
    match reason
    case Malformed => library
    case NoItems => "items must not be empty"
    case QuantityNotPositive => "all quantities must be positive"
    case MissingField(name) => "missing field: " + name
  }

  /** `reason` is why the first faulty part of the request is refused. */
  predicate FirstFault(body: Option<JsonValue>, orderId: string, reason: Rejection) {
    if body.None? || !body.value.JObject? then reason == Malformed
    else if !HasItems(body.value) then reason == NoItems
    else if StringField(body.value.fields, "customer_id", "customerId").Rejected? then reason == Malformed
    else
      var elements := body.value.fields["items"].elements;
      exists k | 0 <= k < |elements| ::
        && ParseItem(orderId, elements[k]) == Rejected(reason)
        && forall j | 0 <= j < k :: WellFormedItem(elements[j])
  }

  /** `order` says what the request says, item by item. */
  predicate ReadsAs(
    body: Option<JsonValue>, requestId: string, newId: string, traceId: string, now: string, order: Order)
    requires WellFormedRequest(body)
  {
    var elements := body.value.fields["items"].elements;
    && order.id == (if requestId == "" then newId else requestId)
    && order.traceId == traceId && order.createdAt == now
    && IsCustomer(body.value.fields, order.customerId)
    && |order.items| == |elements|
    && forall k | 0 <= k < |elements| :: Describes(elements[k], order.items[k])
  }

  lemma NoOrderInside(body: Option<JsonValue>, orderId: string)
    requires body.None? || !HasItems(body.value)
    ensures !WellFormedRequest(body)
    ensures FirstFault(body, orderId, if body.None? || !body.value.JObject? then Malformed else NoItems)
  {
  }

  lemma CustomerRefused(body: Option<JsonValue>, orderId: string)
    requires body.Some? && HasItems(body.value)
    requires StringField(body.value.fields, "customer_id", "customerId").Rejected?
    ensures !WellFormedRequest(body)
    ensures FirstFault(body, orderId, StringField(body.value.fields, "customer_id", "customerId").reason)
  {
    CustomerReadsIffWellFormed(body.value.fields);
  }

  lemma ItemRefused(body: Option<JsonValue>, orderId: string, k: nat, reason: Rejection)
    requires body.Some? && HasItems(body.value) && k < |body.value.fields["items"].elements|
    requires StringField(body.value.fields, "customer_id", "customerId").Ok?
    requires var elements := body.value.fields["items"].elements;
             && ParseItem(orderId, elements[k]) == Rejected(reason)
             && forall j | 0 <= j < k :: WellFormedItem(elements[j])
    ensures !WellFormedRequest(body) && FirstFault(body, orderId, reason)
  {
    ItemParsesIffWellFormed(orderId, body.value.fields["items"].elements[k]);
  }

  lemma AllRead(
    body: Option<JsonValue>, requestId: string, newId: string, traceId: string, now: string, order: Order)
    requires body.Some? && HasItems(body.value)
    requires StringField(body.value.fields, "customer_id", "customerId") == Ok(order.customerId)
    requires order.id == (if requestId == "" then newId else requestId)
    requires order.traceId == traceId && order.createdAt == now
    requires var elements := body.value.fields["items"].elements;
             && |order.items| == |elements|
             && forall k | 0 <= k < |elements| :: WellFormedItem(elements[k]) && Describes(elements[k], order.items[k])
    ensures WellFormedRequest(body) && ReadsAs(body, requestId, newId, traceId, now, order)
  {
    hide WellFormedItem, Describes, IsCustomer, StringField;
    CustomerReadsIffWellFormed(body.value.fields);
  }

  /** The body of beginRequest up to the order. */
  method ReadOrder(body: Option<JsonValue>, requestId: string, newId: string, traceId: string, now: string)
    returns (r: Result<Order>)
    ensures r.Ok? <==> WellFormedRequest(body)
    ensures r.Ok? ==> AcceptedOrder(r.value) && ReadsAs(body, requestId, newId, traceId, now, r.value)
    ensures r.Rejected? ==> FirstFault(body, if requestId == "" then newId else requestId, r.reason)
    ensures r == Rejected(NoItems) <==> body.Some? && body.value.JObject? && !HasItems(body.value)
  {
    hide ParseItem, WellFormedItem, Describes, StringField, FirstFault, WellFormedRequest, ReadsAs;
    var orderId := if requestId == "" then newId else requestId;
    if body.None? || !body.value.JObject? {
      NoOrderInside(body, orderId);
      return Rejected(Malformed);
    }
    var fields := body.value.fields;
    if "items" !in fields || !fields["items"].JArray? || fields["items"].elements == [] {
      NoOrderInside(body, orderId);
      return Rejected(NoItems);
    }
    var customerId := StringField(fields, "customer_id", "customerId");
    if customerId.Rejected? {
      CustomerRefused(body, orderId);
      return Rejected(customerId.reason);
    }
    var elements := fields["items"].elements;
    var items: seq<OrderItem> := [];
    var totalAmount := 0.0;
    for k := 0 to |elements|
      invariant |items| == k
      invariant forall j | 0 <= j < k :: WellFormedItem(elements[j]) && Describes(elements[j], items[j])
      invariant forall j | 0 <= j < k :: items[j].quantity > 0 && items[j].orderId == orderId
      invariant totalAmount == SubmittedTotal(items)
    {
      ItemParsesIffWellFormed(orderId, elements[k]);
      var item := ParseItem(orderId, elements[k]);
      if item.Rejected? {
        assert item.reason != NoItems;
        ItemRefused(body, orderId, k, item.reason);
        return Rejected(item.reason);
      }
      assert (items + [item.value])[..k] == items;
      items := items + [item.value];
      totalAmount := totalAmount + (item.value.quantity as real) * item.value.unitPrice;
    }
    var order := Order(orderId, customerId.value, items, totalAmount, now, traceId);
    AllRead(body, requestId, newId, traceId, now, order);
    r := Ok(order);
  }

  /** beginRequest: an order and the deadline of its context, or a 400. */
  method BeginRequest(body: Option<JsonValue>, requestId: string, newId: string, traceId: string, now: string,
                      library: string, caller: Option<int>, start: int, timeout: int)
    returns (r: Result<(Order, int)>, http: A.Http)
    ensures r.Ok? <==> WellFormedRequest(body)
    ensures r.Ok? ==> AcceptedOrder(r.value.0) && ReadsAs(body, requestId, newId, traceId, now, r.value.0)
    ensures r.Ok? ==> http.status.None? && http.body.Empty?
    ensures r.Ok? ==> r.value.1 == (if caller.None? then start + timeout else Min(caller.value, start + timeout))
    ensures r.Rejected? ==>
              && FirstFault(body, if requestId == "" then newId else requestId, r.reason)
              && http.status == Some(400) && http.body.Text?
    ensures r == Rejected(NoItems) <==>
              && body.Some? && body.value.JObject?
              && ("items" in body.value.fields && body.value.fields["items"].JArray? ==>
                    body.value.fields["items"].elements == [])
    ensures r == Rejected(Malformed) ==> http.body.text == library + "\n"
    ensures r == Rejected(NoItems) ==> http.body.text == "items must not be empty\n"
    ensures r == Rejected(QuantityNotPositive) ==> http.body.text == "all quantities must be positive\n"
    ensures forall name | r == Rejected(MissingField(name)) :: http.body.text == "missing field: " + name + "\n"
  {
    var order := ReadOrder(body, requestId, newId, traceId, now);
    match order {
      case Rejected(reason) =>
        r, http := Rejected(reason), A.Http(Some(400), A.Text(What(reason, library) + "\n"));
      case Ok(value) =>
        var deadline := start + timeout;
        var effective := if caller.None? || deadline < caller.value then deadline else caller.value;
        r, http := Ok((value, effective)), A.FRESH.http;
    }
  }

  /** The fan-out loop. */
  method ProcessOrderItems(value: Order) returns (out: seq<OrderItem>)
    ensures |out| == |value.items|
    ensures forall k | 0 <= k < |out| :: out[k] == value.items[k].(orderId := value.id)
    ensures AcceptedOrder(value) ==> out == value.items
  {
    out := [];
    for k := 0 to |value.items|
      invariant |out| == k
      invariant forall j | 0 <= j < k :: out[j] == value.items[j].(orderId := value.id)
    {
      var item := value.items[k];
      item := item.(orderId := value.id);
      out := out + [item];
    }
  }

  // ---------- Deadlines ----------

  /** The deadline of the request's context after beginRequest. */
  function EffectiveDeadline(caller: Option<int>, start: int, timeout: int): int {
    var deadline := start + timeout;
    if caller.None? || deadline < caller.value then deadline else caller.value
  }

  /** SoftDeadline: how long the timeout branch waits. */
  function SoftDelay(deadline: Option<int>, now: int, margin: int): int {
    if deadline.None? then margin else Max(deadline.value - now - margin, 0)
  }

  /** The timeout branch fires by the deadline exactly when the margin is not negative and the deadline
      has not passed already; it leaves exactly the margin whenever that much time remains, and fires at once
      when less is left. Without any deadline the margin itself is the wait. */
  lemma SoftDeadlineFiresInTimeIff(caller: Option<int>, start: int, timeout: int, now: int, margin: int)
    ensures var deadline := EffectiveDeadline(caller, start, timeout);
            var fireAt := now + SoftDelay(Some(deadline), now, margin);
            && (if caller.Some? then deadline == Min(caller.value, start + timeout) else deadline == start + timeout)
            && SoftDelay(None, now, margin) == margin
            && (fireAt <= deadline <==> margin >= 0 && now <= deadline)
            && (fireAt == deadline - margin <==> margin <= deadline - now)
            && (deadline - now < margin ==> fireAt == now)
            && now <= fireAt
  {
  }
}
