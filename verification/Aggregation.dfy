/**
 The result callback and endRequest of ProcessOrderSource
 (orderservice/internal/functions/endpoint/process_order_source.hpp), with the mappings that feed
 them. Callbacks run under the order's mutex, so one order sees a sequence of states. The library
 serialises them with endRequest.
 */
module Aggregation {
  import opened Types

  // ---------- What feeds the callback ----------

  /** MapOrderItemResultToOrderState */
  function ItemState(result: OrderItemResult, now: string): OrderState {
    OrderState(result.orderId, if result.reserved then Confirmed else PartiallyConfirmed, [result], 0.0, now)
  }

  /** MapToOrderState */
  function TimeoutState(order: Order): OrderState {
    OrderState(order.id, TimedOut, [], order.totalAmount, "")
  }

  // ---------- The HTTP answer ----------

  datatype ReportedItem = ReportedItem(
    itemId: string, sku: string, availableQty: int, reserved: bool, status: Status, error: Option<string>)

  datatype Response = Response(orderId: string, status: Status, totalAmount: real, items: seq<ReportedItem>)

  datatype Body = Empty | Text(text: string) | Json(response: Response)

  datatype Http = Http(status: Option<int>, body: Body)

  function Report(result: OrderItemResult): ReportedItem {
    ReportedItem(result.itemId, result.sku, result.availableQty, result.reserved, result.status,
                 if result.error == "" then None else Some(result.error))
  }

  function Reports(results: seq<OrderItemResult>): (items: seq<ReportedItem>)
    ensures |items| == |results|
    ensures forall k | 0 <= k < |results| :: items[k] == Report(results[k])
  {
    seq(|results|, k requires 0 <= k < |results| => Report(results[k]))
  }

  /** `item` shows of `result` what a customer may see; an empty error text is left out. */
  predicate Shows(item: ReportedItem, result: OrderItemResult) {
    && item.itemId == result.itemId && item.sku == result.sku && item.availableQty == result.availableQty
    && item.reserved == result.reserved && item.status == result.status
    && (item.error.None? <==> result.error == "") && (item.error.Some? ==> item.error.value == result.error)
  }

  function Price(result: OrderItemResult): real { result.unitPrice * (result.requestedQty as real) }

  function Total(results: seq<OrderItemResult>): real {
    if results == [] then 0.0 else Total(results[..|results| - 1]) + Price(results[|results| - 1])
  }

  predicate AllReserved(results: seq<OrderItemResult>) {
    forall k | 0 <= k < |results| :: results[k].reserved
  }

  /** The response to `order` that `results` give, once the deciding state has status `arrived`. */
  function Answer(order: Order, arrived: Status, results: seq<OrderItemResult>): Response {
    Response(order.id,
             if arrived.TimedOut? then TimedOut else if AllReserved(results) then Confirmed else PartiallyConfirmed,
             if results == [] then order.totalAmount else Total(results),
             Reports(results))
  }

  // ---------- The callback as a function on values ----------

  datatype Aggregate = Aggregate(results: seq<OrderItemResult>, responseSent: bool, http: Http, doneCalls: nat)

  const FRESH := Aggregate([], false, Http(None, Empty), 0)

  function Deliver(order: Order, agg: Aggregate, value: OrderState): Aggregate {
    if agg.responseSent then agg
    else
      var results := if value.status.TimedOut? then agg.results else agg.results + value.confirmedItems;
      if !value.status.TimedOut? && |results| < |order.items| then agg.(results := results)
      else Aggregate(results, true, Http(Some(200), Json(Answer(order, value.status, results))), agg.doneCalls + 1)
  }

  function DeliverAll(order: Order, agg: Aggregate, states: seq<OrderState>): Aggregate {
    if states == [] then agg
    else Deliver(order, DeliverAll(order, agg, states[..|states| - 1]), states[|states| - 1])
  }

  function EndRequest(agg: Aggregate, failed: bool): Aggregate {
    if !failed || agg.http.body != Empty then agg
    else agg.(http := Http(Some(500), Text("internal server error\n")))
  }

  method ResponseStatus(arrived: Status, results: seq<OrderItemResult>) returns (status: Status)
    ensures arrived.TimedOut? ==> status == TimedOut
    ensures !arrived.TimedOut? && AllReserved(results) ==> status == Confirmed
    ensures !arrived.TimedOut? && !AllReserved(results) ==> status == PartiallyConfirmed
  {
    status := arrived;
    if !status.TimedOut? {
      var allReserved := true;
      for i := 0 to |results|
        invariant allReserved <==> AllReserved(results[..i])
      {
        allReserved := allReserved && results[i].reserved;
      }
      assert results[..|results|] == results;
      status := if allReserved then Confirmed else PartiallyConfirmed;
    }
  }

  method ResponseTotal(order: Order, results: seq<OrderItemResult>) returns (totalAmount: real)
    ensures totalAmount == if results == [] then order.totalAmount else Total(results)
  {
    totalAmount := 0.0;
    for i := 0 to |results|
      invariant totalAmount == Total(results[..i])
    {
      assert results[..i + 1][..i] == results[..i];
      totalAmount := totalAmount + results[i].unitPrice * (results[i].requestedQty as real);
    }
    assert results[..|results|] == results;
    if results == [] {
      totalAmount := order.totalAmount;
    }
  }

  method MakeResponse(orderId: string, status: Status, results: seq<OrderItemResult>, totalAmount: real)
    returns (response: Response)
    ensures response.orderId == orderId && response.status == status && response.totalAmount == totalAmount
    ensures |response.items| == |results|
    ensures forall k | 0 <= k < |results| :: Shows(response.items[k], results[k])
    ensures response.items == Reports(results)
  {
    var items: seq<ReportedItem> := [];
    for k := 0 to |results|
      invariant |items| == k
      invariant forall j | 0 <= j < k :: items[j] == Report(results[j])
    {
      var result := results[k];
      var item := ReportedItem(result.itemId, result.sku, result.availableQty, result.reserved, result.status, None);
      if result.error != "" {
        item := item.(error := Some(result.error));
      }
      items := items + [item];
    }
    response := Response(orderId, status, totalAmount, items);
  }

  /** What one call of the callback does, in its own terms. */
  lemma DeliverOutcome(order: Order, agg: Aggregate, value: OrderState)
    ensures agg.responseSent ==> Deliver(order, agg, value) == agg
    ensures !agg.responseSent ==>
              var agg' := Deliver(order, agg, value);
              && agg'.results == agg.results + (if value.status.TimedOut? then [] else value.confirmedItems)
              && (agg'.responseSent <==> value.status.TimedOut? || |agg'.results| >= |order.items|)
              && (!agg'.responseSent ==> agg'.http == agg.http && agg'.doneCalls == agg.doneCalls)
              && (agg'.responseSent ==>
                    && agg'.doneCalls == agg.doneCalls + 1 && agg'.http.status == Some(200) && agg'.http.body.Json?
                    && Responds(order, value.status, agg'.results, agg'.http.body.response))
  {
  }

  /** `response` is what `order` is answered with `results` when the deciding state has status `arrived`. */
  predicate Responds(order: Order, arrived: Status, results: seq<OrderItemResult>, response: Response) {
    && response.orderId == order.id
    && (arrived.TimedOut? ==> response.status == TimedOut)
    && (!arrived.TimedOut? && AllReserved(results) ==> response.status == Confirmed)
    && (!arrived.TimedOut? && !AllReserved(results) ==> response.status == PartiallyConfirmed)
    && response.totalAmount == (if results == [] then order.totalAmount else Total(results))
    && |response.items| == |results|
    && forall k | 0 <= k < |results| :: Shows(response.items[k], results[k])
  }

  // ---------- The shared state as the code keeps it ----------

  class OrderRequest {
    const order: Order
    var results: seq<OrderItemResult>
    var responseSent: bool
    var http: Http
    var doneCalls: nat

    function Value(): Aggregate
      reads this
    {
      Aggregate(results, responseSent, http, doneCalls)
    }

    constructor (order: Order)
      ensures this.order == order && Value() == FRESH
    {
      this.order := order;
      results, responseSent, http, doneCalls := [], false, Http(None, Empty), 0;
    }

    /** The callback; its result tells the library whether the request needs more states. */
    method OnState(value: OrderState) returns (finished: bool)
      modifies this
      ensures Value() == Deliver(order, old(Value()), value)
      ensures finished == responseSent
      ensures old(responseSent) ==> Value() == old(Value())
      ensures !old(responseSent) ==>
                && results == old(results) + (if value.status.TimedOut? then [] else value.confirmedItems)
                && (responseSent <==> value.status.TimedOut? || |results| >= |order.items|)
      ensures !responseSent ==> http == old(http) && doneCalls == old(doneCalls)
      ensures !old(responseSent) && responseSent ==>
                && doneCalls == old(doneCalls) + 1 && http.status == Some(200) && http.body.Json?
                && Responds(order, value.status, results, http.body.response)
    {
      DeliverOutcome(order, Value(), value);
      hide Responds, Shows;
      if responseSent {
        return true;
      }
      if !value.status.TimedOut? {
        results := results + value.confirmedItems;
        if |results| < |order.items| {
          return false;
        }
      }
      var status := ResponseStatus(value.status, results);
      var totalAmount := ResponseTotal(order, results);
      var response := MakeResponse(order.id, status, results, totalAmount);
      http := Http(Some(200), Json(response));
      responseSent := true;
      doneCalls := doneCalls + 1;
      finished := true;
    }

    method OnEnd(failed: bool)
      modifies this
      ensures Value() == EndRequest(old(Value()), failed)
      ensures results == old(results) && responseSent == old(responseSent) && doneCalls == old(doneCalls)
      ensures failed && old(http.body) == Empty ==> http == Http(Some(500), Text("internal server error\n"))
      ensures !failed || old(http.body) != Empty ==> http == old(http)
    {
      if !failed || http.body != Empty {
        return;
      }
      http := Http(Some(500), Text("internal server error\n"));
    }
  }

  // ---------- What any sequence of states does ----------

  /** The item results in `states`, in order of arrival. */
  function ItemsIn(states: seq<OrderState>): seq<OrderItemResult> {
    if states == [] then []
    else
      var last := states[|states| - 1];
      ItemsIn(states[..|states| - 1]) + if last.status.TimedOut? then [] else last.confirmedItems
  }

  /** State number i is a timeout or completes the order. */
  predicate Decides(order: Order, states: seq<OrderState>, i: nat) {
    i < |states| && (states[i].status.TimedOut? || |ItemsIn(states[..i + 1])| >= |order.items|)
  }

  predicate Decided(order: Order, states: seq<OrderState>) {
    exists i :: 0 <= i < |states| && Decides(order, states, i)
  }

  /** No state before number i decides. */
  predicate UndecidedBefore(order: Order, states: seq<OrderState>, i: nat) {
    forall j | 0 <= j < i && j < |states| :: !Decides(order, states, j)
  }

  lemma DecidesPrefix(order: Order, states: seq<OrderState>, n: nat)
    requires n <= |states|
    ensures forall j | 0 <= j < n :: Decides(order, states, j) <==> Decides(order, states[..n], j)
  {
    forall j | 0 <= j < n
      ensures Decides(order, states, j) <==> Decides(order, states[..n], j)
    {
      assert states[..n][..j + 1] == states[..j + 1];
    }
  }

  /** Until a state decides, results are collected and nothing is answered. */
  lemma {:induction false} NoAnswerWhileUndecided(order: Order, states: seq<OrderState>)
    requires UndecidedBefore(order, states, |states|)
    ensures DeliverAll(order, FRESH, states) == FRESH.(results := ItemsIn(states))
  {
    if states != [] {
      var n := |states| - 1;
      DecidesPrefix(order, states, n);
      NoAnswerWhileUndecided(order, states[..n]);
      assert states[..n + 1] == states;
      assert !Decides(order, states, n);
    }
  }

  /** The first deciding state answers once, from the results that arrived up to it, and every later
      state - late results, further timeouts, duplicates - changes nothing. */
  lemma {:induction false} FirstDecisionAnswersOnce(order: Order, states: seq<OrderState>, i: nat)
    requires Decides(order, states, i) && UndecidedBefore(order, states, i)
    ensures DeliverAll(order, FRESH, states)
            == (var results := ItemsIn(states[..i + 1]);
                Aggregate(results, true, Http(Some(200), Json(Answer(order, states[i].status, results))), 1))
    decreases |states|
  {
    var n := |states| - 1;
    DecidesPrefix(order, states, n);
    if i < n {
      FirstDecisionAnswersOnce(order, states[..n], i);
      assert states[..n][..i + 1] == states[..i + 1];
    } else {
      NoAnswerWhileUndecided(order, states[..n]);
      assert states[..i + 1] == states;
      assert states[n].status.TimedOut? ==> ItemsIn(states) == ItemsIn(states[..n]);
    }
  }

  lemma {:induction false} FirstDecision(order: Order, states: seq<OrderState>, n: nat) returns (i: nat)
    requires n <= |states| && exists j :: 0 <= j < n && Decides(order, states, j)
    ensures i < n && Decides(order, states, i) && UndecidedBefore(order, states, i)
  {
    i := 0;
    while !Decides(order, states, i)
      invariant i < n && UndecidedBefore(order, states, i)
      invariant exists j :: i <= j < n && Decides(order, states, j)
      decreases n - i
    {
      i := i + 1;
    }
  }

  /** Exactly one answer, and it is there exactly when some state has decided. */
  lemma AnsweredIffDecided(order: Order, states: seq<OrderState>)
    ensures var agg := DeliverAll(order, FRESH, states);
            && (agg.responseSent <==> Decided(order, states))
            && agg.doneCalls == (if Decided(order, states) then 1 else 0)
            && agg.http.status == (if Decided(order, states) then Some(200) else None)
            && (agg.http.body.Empty? <==> !Decided(order, states))
  {
    if Decided(order, states) {
      var i := FirstDecision(order, states, |states|);
      FirstDecisionAnswersOnce(order, states, i);
    } else {
      NoAnswerWhileUndecided(order, states);
    }
  }

  // ---------- Item results and the timeout race ----------

  function ItemStates(results: seq<OrderItemResult>, now: string): (states: seq<OrderState>)
    ensures |states| == |results|
    ensures forall k | 0 <= k < |results| :: states[k] == ItemState(results[k], now)
  {
    seq(|results|, k requires 0 <= k < |results| => ItemState(results[k], now))
  }

  lemma {:induction false} ItemsOfItemStates(
    results: seq<OrderItemResult>, states: seq<OrderState>, now: string, k: nat)
    requires k <= |results| && k <= |states|
    requires states[..k] == ItemStates(results, now)[..k]
    ensures ItemsIn(states[..k]) == results[..k]
  {
    if k > 0 {
      assert states[..k][..k - 1] == states[..k - 1] == ItemStates(results, now)[..k][..k - 1];
      ItemsOfItemStates(results, states, now, k - 1);
      assert states[..k][k - 1] == ItemState(results[k - 1], now);
    }
  }

  /** The states of an order whose timer fires after `p` of its item results. */
  function Race(order: Order, results: seq<OrderItemResult>, p: nat, now: string): seq<OrderState>
    requires p <= |results|
  {
    ItemStates(results[..p], now) + [TimeoutState(order)] + ItemStates(results[p..], now)
  }

  lemma RacePrefix(order: Order, results: seq<OrderItemResult>, p: nat, now: string, k: nat)
    requires k <= p <= |results|
    ensures Race(order, results, p, now)[..k] == ItemStates(results, now)[..k]
    ensures ItemsIn(Race(order, results, p, now)[..k]) == results[..k]
  {
    var states := Race(order, results, p, now);
    assert states[..k] == ItemStates(results, now)[..k];
    ItemsOfItemStates(results, states, now, k);
  }

  lemma RaceUndecided(order: Order, results: seq<OrderItemResult>, p: nat, now: string, i: nat)
    requires p <= |results| == |order.items| && i <= p && i < |results|
    ensures UndecidedBefore(order, Race(order, results, p, now), i)
  {
    var states := Race(order, results, p, now);
    forall j | 0 <= j < i
      ensures !Decides(order, states, j)
    {
      RacePrefix(order, results, p, now, j + 1);
      assert states[..j + 1][j] == ItemStates(results, now)[..j + 1][j];
    }
  }

  lemma TimerWins(order: Order, results: seq<OrderItemResult>, p: nat, now: string)
    requires p < |results| && |results| == |order.items|
    ensures DeliverAll(order, FRESH, Race(order, results, p, now))
            == Aggregate(results[..p], true, Http(Some(200), Json(Answer(order, TimedOut, results[..p]))), 1)
  {
    var states := Race(order, results, p, now);
    RaceUndecided(order, results, p, now, p);
    RacePrefix(order, results, p, now, p);
    assert states[p] == TimeoutState(order);
    assert states[..p + 1][..p] == states[..p];
    assert ItemsIn(states[..p + 1]) == results[..p];
    FirstDecisionAnswersOnce(order, states, p);
  }

  /** If the timer comes after all item results, the last of these decides. */
  lemma LastItemDecides(order: Order, results: seq<OrderItemResult>, now: string)
    requires |results| == |order.items| && order.items != []
    ensures var n, states := |results|, Race(order, results, |results|, now);
            && |states| == n + 1 && !states[n - 1].status.TimedOut?
            && ItemsIn(states[..n]) == results && Decides(order, states, n - 1)
  {
    var n := |results|;
    RacePrefix(order, results, n, now, n);
    var states := Race(order, results, n, now);
    assert results[..n] == results;
    assert states[n - 1] == ItemState(results[n - 1], now);
    hide Race, ItemsIn;
    assert states[..(n - 1) + 1] == states[..n];
  }

  lemma AnswerIgnoresItemStatus(order: Order, status: Status, results: seq<OrderItemResult>)
    requires !status.TimedOut?
    ensures Answer(order, status, results) == Answer(order, Confirmed, results)
  {
  }

  lemma TimerIsTooLate(order: Order, results: seq<OrderItemResult>, now: string)
    requires |results| == |order.items| && order.items != []
    ensures DeliverAll(order, FRESH, Race(order, results, |results|, now))
            == Aggregate(results, true, Http(Some(200), Json(Answer(order, Confirmed, results))), 1)
  {
    hide Answer, Deliver, DeliverAll, UndecidedBefore, Decides, Race, ItemsIn;
    var n := |results|;
    var states := Race(order, results, n, now);
    RaceUndecided(order, results, n, now, n - 1);
    LastItemDecides(order, results, now);
    assert states[..(n - 1) + 1] == states[..n];
    FirstDecisionAnswersOnce(order, states, n - 1);
    AnswerIgnoresItemStatus(order, states[n - 1].status, results);
  }

  /** The timer wins exactly when it arrives before the last item result. It then reports exactly the
      results that arrived before it, in order; otherwise it changes nothing. */
  lemma DeadlineRace(order: Order, results: seq<OrderItemResult>, p: nat, now: string)
    requires p <= |results| && |results| == |order.items| && order.items != []
    ensures var agg := DeliverAll(order, FRESH, Race(order, results, p, now));
            && agg.responseSent && agg.doneCalls == 1 && agg.http.status == Some(200) && agg.http.body.Json?
            && agg.http.body.response.orderId == order.id
            && (agg.http.body.response.status == TimedOut <==> p < |results|)
            && agg.http.body.response.items == Reports(results[..p]) && |agg.http.body.response.items| == p
            && (forall k | 0 <= k < p :: Shows(agg.http.body.response.items[k], results[k]))
            && agg.http.body.response.totalAmount == (if p == 0 then order.totalAmount else Total(results[..p]))
            && (p == |results| ==>
                  agg.http.body.response.status == if AllReserved(results) then Confirmed else PartiallyConfirmed)
  {
    if p < |results| {
      TimerWins(order, results, p, now);
    } else {
      TimerIsTooLate(order, results, now);
      assert results[..p] == results;
    }
  }

  lemma {:induction false} TotalWithout(results: seq<OrderItemResult>, j: nat)
    requires j < |results|
    ensures Total(results) == Total(Without(results, j)) + Price(results[j])
  {
    var n := |results| - 1;
    if j < n {
      TotalWithout(results[..n], j);
      assert Without(results, j)[..n - 1] == Without(results[..n], j);
    } else {
      assert Without(results, j) == results[..n];
    }
  }

  lemma ReportsWithout(results: seq<OrderItemResult>, j: nat)
    requires j < |results|
    ensures multiset(Reports(results)) == multiset(Reports(Without(results, j))) + multiset{Report(results[j])}
  {
    MultisetWithout(Reports(results), j);
    assert Without(Reports(results), j) == Reports(Without(results, j));
  }

  /** The total and the multiset of reports depend only on which results there are. */
  lemma {:induction false} TotalOfPermutation(a: seq<OrderItemResult>, b: seq<OrderItemResult>)
    requires multiset(a) == multiset(b)
    ensures Total(a) == Total(b) && multiset(Reports(a)) == multiset(Reports(b))
    decreases |a|
  {
    if a == [] {
      assert |multiset(b)| == 0;
    } else {
      hide Without, Total, Reports;
      assert a[0] in multiset(b);
      var j :| 0 <= j < |b| && b[j] == a[0];
      MultisetWithout(a, 0);
      MultisetWithout(b, j);
      assert |multiset(Without(a, 0))| < |multiset(a)|;
      TotalOfPermutation(Without(a, 0), Without(b, j));
      TotalWithout(a, 0);
      TotalWithout(b, j);
      ReportsWithout(a, 0);
      ReportsWithout(b, j);
    }
  }

  lemma PermutationIsAllReserved(a: seq<OrderItemResult>, b: seq<OrderItemResult>)
    requires multiset(a) == multiset(b)
    ensures |a| == |b| && (AllReserved(a) <==> AllReserved(b))
  {
    assert |multiset(a)| == |multiset(b)|;
    assert forall k | 0 <= k < |b| :: b[k] in multiset(a);
    assert forall k | 0 <= k < |a| :: a[k] in multiset(b);
  }

  /** Without a timeout the order in which item results arrive does not matter. */
  lemma ArrivalOrderIsIrrelevant(order: Order, a: seq<OrderItemResult>, b: seq<OrderItemResult>, now: string)
    requires multiset(a) == multiset(b) && |a| == |order.items| && order.items != []
    ensures var answerA := DeliverAll(order, FRESH, Race(order, a, |a|, now)).http;
            var answerB := DeliverAll(order, FRESH, Race(order, b, |b|, now)).http;
            && answerA.body.Json? && answerB.body.Json?
            && answerA.body.response.status == answerB.body.response.status
            && answerA.body.response.totalAmount == answerB.body.response.totalAmount
            && multiset(answerA.body.response.items) == multiset(answerB.body.response.items)
            && (answerA.body.response.status == Confirmed <==> AllReserved(a))
  {
    TotalOfPermutation(a, b);
    PermutationIsAllReserved(a, b);
    DeadlineRace(order, a, |a|, now);
    DeadlineRace(order, b, |b|, now);
    assert a[..|a|] == a && b[..|b|] == b;
  }

  // ---------- The HTTP outcome over a whole request ----------

  datatype Event = Arrives(state: OrderState) | Ends(failed: bool)

  function After(order: Order, events: seq<Event>): Aggregate {
    if events == [] then FRESH
    else
      var before := After(order, events[..|events| - 1]);
      match events[|events| - 1]
      case Arrives(state) => Deliver(order, before, state)
      case Ends(failed) => EndRequest(before, failed)
  }

  function Arrivals(events: seq<Event>): seq<OrderState> {
    if events == [] then []
    else
      Arrivals(events[..|events| - 1])
      + match events[|events| - 1] case Arrives(state) => [state] case Ends(_) => []
  }

  predicate FailedEnd(events: seq<Event>) {
    exists e :: 0 <= e < |events| && events[e] == Ends(true)
  }

  /** The callback does not look at what is in the HTTP answer. */
  lemma DeliverIgnoresHttp(order: Order, plain: Aggregate, http: Http, state: OrderState)
    ensures var agg, plain' := Deliver(order, plain.(http := http), state), Deliver(order, plain, state);
            && agg == plain'.(http := agg.http)
            && (if plain.responseSent then agg.http == http && plain' == plain
                else if plain'.responseSent then agg.http == plain'.http
                else agg.http == http && plain'.http == plain.http)
  {
  }

  /** endRequest touches the HTTP answer only, and only an unanswered one. */
  lemma {:induction false} EndKeepsAggregate(order: Order, events: seq<Event>)
    ensures var agg, plain := After(order, events), DeliverAll(order, FRESH, Arrivals(events));
            && agg == plain.(http := agg.http)
            && (plain.responseSent ==> agg.http == plain.http)
            && (!plain.responseSent ==>
                  agg.http
                  == if FailedEnd(events) then Http(Some(500), Text("internal server error\n")) else FRESH.http)
  {
    hide Deliver, Decided;
    if events != [] {
      var n := |events| - 1;
      EndKeepsAggregate(order, events[..n]);
      AnsweredIffDecided(order, Arrivals(events[..n]));
      assert FailedEnd(events) <==> FailedEnd(events[..n]) || events[n] == Ends(true);
      match events[n] {
        case Arrives(state) =>
          assert Arrivals(events)[..|Arrivals(events)| - 1] == Arrivals(events[..n]);
          var plain := DeliverAll(order, FRESH, Arrivals(events[..n]));
          DeliverIgnoresHttp(order, plain, After(order, events[..n]).http, state);
        case Ends(failed) =>
          assert Arrivals(events) == Arrivals(events[..n]);
      }
    }
  }

  /** The status of a request in which the states and ends `events` have happened: 200 once a state has
      decided, else 500 once the request has ended with an error. */
  function Outcome(order: Order, events: seq<Event>): Option<int> {
    if Decided(order, Arrivals(events)) then Some(200) else if FailedEnd(events) then Some(500) else None
  }

  lemma StatusIsOutcome(order: Order, events: seq<Event>)
    ensures After(order, events).http.status == Outcome(order, events)
  {
    EndKeepsAggregate(order, events);
    AnsweredIffDecided(order, Arrivals(events));
  }

  /** A status that was already written changes between two moments of the run. */
  predicate StatusIsOverwritten(order: Order, events: seq<Event>) {
    exists k, m | 0 <= k < m <= |events| ::
      && After(order, events[..k]).http.status.Some?
      && After(order, events[..m]).http.status != After(order, events[..k]).http.status
  }

  /** The request ends with an error while unanswered, and an order state decides after that. */
  predicate DecidedAfterFailedEnd(order: Order, events: seq<Event>) {
    exists e | 0 <= e < |events| ::
      events[e] == Ends(true) && !Decided(order, Arrivals(events[..e])) && Decided(order, Arrivals(events))
  }

  lemma {:induction false} DecisionsLast(order: Order, events: seq<Event>, k: nat, m: nat)
    requires k <= m <= |events|
    ensures Decided(order, Arrivals(events[..k])) ==> Decided(order, Arrivals(events[..m]))
    ensures FailedEnd(events[..k]) ==> FailedEnd(events[..m])
    decreases m
  {
    if k < m {
      DecisionsLast(order, events, k, m - 1);
      assert events[..m][..m - 1] == events[..m - 1];
      var before, after := Arrivals(events[..m - 1]), Arrivals(events[..m]);
      assert after[..|before|] == before;
      DecidesPrefix(order, after, |before|);
      if Decided(order, before) {
        var i :| 0 <= i < |before| && Decides(order, before, i);
        assert Decides(order, after, i);
      }
      if FailedEnd(events[..m - 1]) {
        var e :| 0 <= e < m - 1 && events[..m - 1][e] == Ends(true);
        assert events[..m][e] == Ends(true);
      }
    }
  }

  lemma OverwritingNeedsLateDecision(order: Order, events: seq<Event>, k: nat, m: nat)
    requires k < m <= |events|
    requires Outcome(order, events[..k]).Some? && Outcome(order, events[..m]) != Outcome(order, events[..k])
    ensures DecidedAfterFailedEnd(order, events)
  {
    DecisionsLast(order, events, k, m);
    DecisionsLast(order, events, m, |events|);
    assert events[..|events|] == events;
    var e :| 0 <= e < k && events[..k][e] == Ends(true);
    DecisionsLast(order, events, e, k);
    assert events[e] == Ends(true);
  }

  lemma LateDecisionOverwrites(order: Order, events: seq<Event>, e: nat)
    requires e < |events| && events[e] == Ends(true)
    requires !Decided(order, Arrivals(events[..e])) && Decided(order, Arrivals(events))
    ensures e + 1 < |events| && Outcome(order, events[..e + 1]) == Some(500) && Outcome(order, events) == Some(200)
  {
    var cut := events[..e + 1];
    assert cut[e] == Ends(true) && cut[..e] == events[..e];
    assert Arrivals(cut) == Arrivals(events[..e]);
    assert e + 1 == |events| ==> cut == events;
  }

  /** The status is written at most once, unless the library still delivers a deciding state after it
      has ended the request with an error: then, and only then, a 500 is overwritten by a 200. */
  lemma StatusIsWrittenOnceIff(order: Order, events: seq<Event>)
    ensures StatusIsOverwritten(order, events) <==> DecidedAfterFailedEnd(order, events)
  {
    hide Outcome, Decided, FailedEnd, Arrivals, After;
    if StatusIsOverwritten(order, events) {
      var k, m :| 0 <= k < m <= |events| && After(order, events[..k]).http.status.Some?
                  && After(order, events[..m]).http.status != After(order, events[..k]).http.status;
      StatusIsOutcome(order, events[..k]);
      StatusIsOutcome(order, events[..m]);
      OverwritingNeedsLateDecision(order, events, k, m);
    }
    if DecidedAfterFailedEnd(order, events) {
      var e :| 0 <= e < |events| && events[e] == Ends(true)
               && !Decided(order, Arrivals(events[..e])) && Decided(order, Arrivals(events));
      LateDecisionOverwrites(order, events, e);
      StatusIsOutcome(order, events[..e + 1]);
      StatusIsOutcome(order, events[..|events|]);
      assert events[..|events|] == events;
    }
  }

  /** For every order: a timeout that is delivered after the request has ended with an error. */
  lemma LateTimeoutOverwrites(order: Order)
    ensures var events := [Ends(true), Arrives(TimeoutState(order))];
            StatusIsOverwritten(order, events) && After(order, events).http.status == Some(200)
  {
    var events := [Ends(true), Arrives(TimeoutState(order))];
    assert events[..1] == [Ends(true)] && events[..0] == [];
    assert Arrivals([Ends(true)]) == [];
    assert Arrivals(events) == [TimeoutState(order)];
    assert Decides(order, [TimeoutState(order)], 0);
    assert DecidedAfterFailedEnd(order, events) by { assert events[0] == Ends(true); }
    StatusIsWrittenOnceIff(order, events);
    StatusIsOutcome(order, events);
  }

  lemma FinalEndDecidesNothing(order: Order, events: seq<Event>, e: nat)
    requires e < |events| && e == |events| - 1 && events[e].Ends?
    ensures Arrivals(events) == Arrivals(events[..e])
  {
  }

  /** With endRequest as the last event of the request, which is what the library is assumed to do. */
  lemma StatusIsWrittenOnce(order: Order, events: seq<Event>)
    requires forall e | 0 <= e < |events| && events[e].Ends? :: e == |events| - 1
    ensures !StatusIsOverwritten(order, events)
  {
    StatusIsWrittenOnceIff(order, events);
    forall e | 0 <= e < |events| && events[e].Ends?
      ensures Arrivals(events) == Arrivals(events[..e])
    {
      FinalEndDecidesNothing(order, events, e);
    }
  }

  function EndAll(agg: Aggregate, ends: seq<bool>): Aggregate
    decreases |ends|
  {
    if ends == [] then agg else EndAll(EndRequest(agg, ends[0]), ends[1..])
  }

  /** A refused request keeps its 400, however often and with whatever error it is ended. */
  lemma {:induction false} RefusalIsFinal(text: string, ends: seq<bool>)
    ensures EndAll(FRESH.(http := Http(Some(400), Text(text))), ends).http == Http(Some(400), Text(text))
  {
    if ends != [] {
      RefusalIsFinal(text, ends[1..]);
    }
  }
}
