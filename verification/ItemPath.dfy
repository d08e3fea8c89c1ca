/**
 One order item on its way through the inventory call and back
 (process_order_item_sink.hpp, process_order_item_source.hpp, get_inventory_item_error.hpp):
 the request does not carry the price and the response does not carry the identity, so the
 result is put together from the state that the calling side kept.
 */
module ItemPath {
  import opened Types
  import opened Reservation
  import opened StockCell

  datatype InventoryRequest = InventoryRequest(orderId: string, itemId: string, sku: string, quantity: int32)

  datatype InventoryResponse = InventoryResponse(availableQty: int, reserved: bool, status: Status)

  /** How an item call failed: a std::exception with its text, or anything else. */
  datatype CallError = Exception(what: string) | Unknown

  // ---------- The calling side ----------

  function RequestFor(item: OrderItem): InventoryRequest {
    InventoryRequest(item.orderId, item.itemId, item.sku, item.quantity)
  }

  /** What the caller collects for a response. */
  function Answered(item: OrderItem, response: InventoryResponse): OrderItemResult {
    OrderItemResult(item.orderId, item.itemId, item.sku, item.quantity, response.availableQty,
                    response.reserved, response.status, item.unitPrice, "")
  }

  /** What the caller collects for a failed call. */
  function Failed(item: OrderItem, error: CallError): OrderItemResult {
    OrderItemResult(item.orderId, item.itemId, item.sku, item.quantity, 0, false, ProcessingError, item.unitPrice,
                    match error case Exception(what) => what case Unknown => "unknown processing error")
  }

  /** `result` is about `item`. */
  predicate CarriesIdentity(item: OrderItem, result: OrderItemResult) {
    && result.orderId == item.orderId && result.itemId == item.itemId && result.sku == item.sku
    && result.requestedQty == item.quantity && result.unitPrice == item.unitPrice
  }

  /** The sink's per-call State and the handlers that fill and use it. */
  class ItemCall {
    var orderId: string
    var itemId: string
    var sku: string
    var requestedQty: int32
    var unitPrice: real

    constructor ()
      ensures orderId == "" && itemId == "" && sku == "" && requestedQty == 0 && unitPrice == 0.0
    {
      orderId, itemId, sku, requestedQty, unitPrice := "", "", "", 0, 0.0;
    }

    /** The state holds everything a result needs about `item`. */
    predicate Holds(item: OrderItem)
      reads this
    {
      && orderId == item.orderId && itemId == item.itemId && sku == item.sku
      && requestedQty == item.quantity && unitPrice == item.unitPrice
    }

    method ConsumeMessage(value: OrderItem) returns (request: InventoryRequest)
      modifies this
      ensures Holds(value) && request == RequestFor(value)
      ensures request.orderId == value.orderId && request.itemId == value.itemId
      ensures request.sku == value.sku && request.quantity == value.quantity
    {
      orderId := value.orderId;
      itemId := value.itemId;
      sku := value.sku;
      requestedQty := value.quantity;
      unitPrice := value.unitPrice;
      request := InventoryRequest(value.orderId, value.itemId, value.sku, value.quantity);
    }

    method HandleResponse(response: InventoryResponse) returns (result: OrderItemResult)
      ensures forall item | Holds(item) :: result == Answered(item, response) && CarriesIdentity(item, result)
      ensures result.availableQty == response.availableQty && result.reserved == response.reserved
      ensures result.status == response.status && result.error == ""
    {
      result := OrderItemResult(orderId, itemId, sku, requestedQty, response.availableQty,
                                response.reserved, response.status, unitPrice, "");
    }

    method EndRequest(error: Option<CallError>) returns (result: Option<OrderItemResult>)
      ensures error.None? ==> result.None?
      ensures error.Some? ==> result.Some? && forall item | Holds(item) ::
                result == Some(Failed(item, error.value)) && CarriesIdentity(item, result.value)
      ensures error.Some? ==> !result.value.reserved && result.value.availableQty == 0
      ensures error.Some? ==> result.value.status == ProcessingError
      ensures error.Some? && error.value.Exception? ==> result.value.error == error.value.what
      ensures error == Some(Unknown) ==> result.value.error == "unknown processing error"
    {
      if error.None? {
        return None;
      }
      var message := "unknown processing error";
      if error.value.Exception? {
        message := error.value.what;
      }
      result := Some(
        OrderItemResult(orderId, itemId, sku, requestedQty, 0, false, ProcessingError, unitPrice, message));
    }
  }

  // ---------- The inventory side ----------

  function ReceivedItem(request: InventoryRequest): OrderItem {
    OrderItem(request.orderId, request.itemId, request.sku, request.quantity, 0.0)
  }

  /** The error branch turns a failure back into a result. */
  function FailureResult(failure: InventoryFailure): OrderItemResult {
    OrderItemResult(failure.item.orderId, failure.item.itemId, failure.item.sku, failure.item.quantity,
                    failure.availableQty, false, OutOfStock, failure.item.unitPrice, "inventory is out of stock")
  }

  /** What a completed reservation sends to its result output or its error output. */
  function ReplyOf(call: Call): Reply {
    var item := call.item;
    if call.phase.Reserved? then
      Success(OrderItemResult(item.orderId, item.itemId, item.sku, item.quantity, item.quantity,
                              true, Confirmed, item.unitPrice, ""))
    else
      Failure(InventoryFailure(item, call.available))
  }

  /** Both branches are merged back to the caller. */
  function Merged(reply: Reply): OrderItemResult {
    match reply
    case Success(result) => result
    case Failure(failure) => FailureResult(failure)
  }

  function ResponseFor(result: OrderItemResult): InventoryResponse {
    InventoryResponse(result.availableQty, result.reserved, result.status)
  }

  // ---------- The whole path ----------

  /** The item as the inventory service sees it. */
  function Remote(item: OrderItem): OrderItem { ReceivedItem(RequestFor(item)) }

  /** What the order service collects for `item` once the inventory service has completed `call`. */
  function Collected(item: OrderItem, call: Call): OrderItemResult {
    Answered(item, ResponseFor(Merged(ReplyOf(call))))
  }

  /** Inside the inventory service both branches keep the item, whatever its price, and the error branch turns any
      failure into an OUT_OF_STOCK result with the quantity of the failure. */
  lemma BothBranchesKeepItem(call: Call, failure: InventoryFailure)
    ensures CarriesIdentity(call.item, Merged(ReplyOf(call)))
    ensures CarriesIdentity(failure.item, FailureResult(failure))
    ensures var result := FailureResult(failure);
            && result.availableQty == failure.availableQty && !result.reserved && result.status == OutOfStock
            && result.error == "inventory is out of stock"
  {
  }

  /** Reserved, refused or failed: the result carries what was submitted, although the price never
      left the order service, and it says reserved exactly when stock was taken. */
  lemma EveryPathKeepsIdentity(item: OrderItem, call: Call, error: CallError)
    requires call.Done() && call.item == Remote(item)
    ensures CarriesIdentity(item, Collected(item, call)) && CarriesIdentity(item, Failed(item, error))
    ensures Collected(item, call).reserved <==> call.phase.Reserved?
    ensures !Failed(item, error).reserved
    ensures Failed(item, error).availableQty == 0 && Failed(item, error).status == ProcessingError
    ensures Collected(item, call).reserved ==>
              Collected(item, call).availableQty == item.quantity && Collected(item, call).status == Confirmed
    ensures !Collected(item, call).reserved ==>
              Collected(item, call).availableQty == call.available && Collected(item, call).status == OutOfStock
    ensures call.phase.Rejected? ==> (Merged(ReplyOf(call)).availableQty == 0 <==> call.available == 0)
    ensures Remote(item) == item.(unitPrice := 0.0) && CarriesIdentity(call.item, Merged(ReplyOf(call)))
  {
  }

  /** The design text wants item failures reported with their message. The inventory service's own
      message never crosses the call: a refused item is collected without a text, and only a call that
      failed keeps the text it failed with. */
  lemma OnlyCallFailuresKeepTheirText(item: OrderItem, call: Call, error: CallError)
    requires call.phase.Rejected?
    ensures Merged(ReplyOf(call)).error == "inventory is out of stock" && Collected(item, call).error == ""
    ensures error.Exception? ==> Failed(item, error).error == error.what
    ensures error.Unknown? ==> Failed(item, error).error == "unknown processing error"
  {
  }
}
