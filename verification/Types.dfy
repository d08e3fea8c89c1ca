/**
 The message types that the services exchange
 (model_cpp/include/example/model/types and the two internal/types directories).
 Machine integers are subset types of int, so that every value stored in one has
 been proved to fit; an available quantity is a plain int, and StockSafety proves when it fits.
 Prices and totals are exact reals.
 */
module Types {
  const INT32_MAX: int := 0x7fff_ffff
  const INT64_MAX: int := 0x7fff_ffff_ffff_ffff

  type int32 = n: int | -0x8000_0000 <= n <= 0x7fff_ffff
  type int64 = n: int | -0x8000_0000_0000_0000 <= n <= 0x7fff_ffff_ffff_ffff

  datatype Option<+T> = None | Some(value: T)

  /** The status strings of the services; any other text a peer might send is Other. */
  datatype Status = Confirmed | PartiallyConfirmed | TimedOut | OutOfStock | ProcessingError | Other(text: string)

  datatype OrderItem = OrderItem(orderId: string, itemId: string, sku: string, quantity: int32, unitPrice: real)

  datatype OrderItemResult = OrderItemResult(
    orderId: string, itemId: string, sku: string, requestedQty: int32, availableQty: int,
    reserved: bool, status: Status, unitPrice: real, error: string)

  datatype InventoryFailure = InventoryFailure(item: OrderItem, availableQty: int)

  datatype Order = Order(
    id: string, customerId: string, items: seq<OrderItem>, totalAmount: real, createdAt: string, traceId: string)

  datatype OrderState = OrderState(
    orderId: string, status: Status, confirmedItems: seq<OrderItemResult>, totalAmount: real, processedAt: string)

  datatype OrderProcessed = OrderProcessed(
    orderId: string, status: Status, processedAt: string, totalItems: nat, confirmedItems: nat,
    failureReason: Option<Status>)

  function Max(a: int, b: int): int { if a < b then b else a }

  function Min(a: int, b: int): int { if a < b then a else b }

  function Without<T>(s: seq<T>, j: nat): seq<T>
    requires j < |s|
  {
    s[..j] + s[j + 1..]
  }

  lemma MultisetWithout<T>(s: seq<T>, j: nat)
    requires j < |s|
    ensures s[j] in multiset(s) && multiset(Without(s, j)) == multiset(s) - multiset{s[j]}
  {
    assert s == s[..j] + [s[j]] + s[j + 1..];
  }
}
