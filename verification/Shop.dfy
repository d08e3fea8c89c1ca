/**
 The two services together: any number of orders, their item calls, their timers and any number of
 other clients of the inventory service share one stock, under every interleaving.

 Assumed of the library: an item call ends in exactly one collect, by response or by error;
 split delivers to every branch and merge forwards every input; a state reaches the callback of
 the order it belongs to. An item call may fail at any moment, also before or after the inventory
 service has reserved stock for it, and its request may still reach the inventory service later.
 */
module Shop {
  import opened Types
  import opened ItemPath
  import opened Aggregation
  import opened Submission
  import opened OrderRun
  import opened Counting
  import opened Linearisation
  import opened StockSafety
  import R = Reservation

  datatype Config = Config(timeout: int, margin: int)

  /** An order and, per item, the reservation that its request has started. */
  datatype Placed = Placed(run: Run, calls: seq<Option<nat>>)

  /** `owner` and `reported` are history variables: whose item a reservation was started for, and
      which accepted reservations have been reported back as item results. */
  datatype State = State(
    inventory: R.Service, orders: seq<Placed>, owner: map<nat, (nat, nat)>, reported: set<nat>,
    events: seq<OrderProcessed>, now: int)

  datatype Step =
    | Submit(order: Order, caller: Option<int>)
    | Send(o: nat, i: nat, thread: nat)
    | StockStep(step: R.Step)
    | OtherClient(thread: nat, item: OrderItem)
    | Reply(o: nat, i: nat, stamp: string)
    | Fail(o: nat, i: nat, error: CallError, stamp: string)
    | ArmTimer(o: nat)
    | Timer(o: nat)
    | EndInError(o: nat)
    | Tick(duration: nat)

  function Open(stock: map<string, int32>): State {
    State(R.Start(stock), [], map[], {}, [], 0)
  }

  predicate AwaitsResult(s: State, o: nat, i: nat) {
    o < |s.orders| && Waiting(s.orders[o].run, i)
  }

  predicate IsItem(s: State, o: nat, i: nat) {
    o < |s.orders| && i < |s.orders[o].calls| && i < |s.orders[o].run.order.items|
  }

  predicate Enabled(s: State, step: Step) {
    match step
    case Submit(order, _) => AcceptedOrder(order)
    case Send(o, i, t) =>
      && IsItem(s, o, i) && s.orders[o].calls[i].None?
      && R.Enabled(s.inventory, R.Invoke(t, Remote(s.orders[o].run.order.items[i])))
    case StockStep(step) => !step.Invoke? && R.Enabled(s.inventory, step)
    case OtherClient(t, item) => R.Enabled(s.inventory, R.Invoke(t, item))
    case Reply(o, i, _) =>
      && AwaitsResult(s, o, i) && IsItem(s, o, i)
      && s.orders[o].calls[i].Some? && s.orders[o].calls[i].value < |s.inventory.calls|
      && s.inventory.calls[s.orders[o].calls[i].value].Done()
    case Fail(o, i, _, _) => AwaitsResult(s, o, i) && IsItem(s, o, i)
    case ArmTimer(o) => o < |s.orders| && s.orders[o].run.fireAt.None?
    case Timer(o) =>
      && o < |s.orders| && !s.orders[o].run.timerFired
      && s.orders[o].run.fireAt.Some? && s.orders[o].run.fireAt.value <= s.now
    case EndInError(o) => o < |s.orders|
    case Tick(duration) => duration > 0
  }

  /** The result of one item reaches the merge: it is published and delivered to its order. */
  function Collect(s: State, o: nat, i: nat, result: OrderItemResult, stamp: string): State
    requires AwaitsResult(s, o, i)
  {
    s.(orders := s.orders[o := s.orders[o].(run := ItemDone(s.orders[o].run, i, result, stamp))],
       events := s.events + [ToOrderProcessed(ItemState(result, stamp))])
  }

  function Next(config: Config, s: State, step: Step): State
    requires Enabled(s, step)
  {
    match step
    case Submit(order, caller) =>
      s.(orders := s.orders + [Placed(Begin(order, caller, s.now, config.timeout), seq(|order.items|, _ => None))])
    case Send(o, i, t) =>
      var c := |s.inventory.calls|;
      s.(inventory := R.Next(s.inventory, R.Invoke(t, Remote(s.orders[o].run.order.items[i]))),
         orders := s.orders[o := s.orders[o].(calls := s.orders[o].calls[i := Some(c)])],
         owner := s.owner[c := (o, i)])
    case StockStep(step) => s.(inventory := R.Next(s.inventory, step))
    case OtherClient(t, item) => s.(inventory := R.Next(s.inventory, R.Invoke(t, item)))
    case Reply(o, i, stamp) =>
      var c := s.orders[o].calls[i].value;
      var call := s.inventory.calls[c];
      Collect(s, o, i, Collected(s.orders[o].run.order.items[i], call), stamp).(
        reported := if call.phase.Reserved? then s.reported + {c} else s.reported)
    case Fail(o, i, error, stamp) =>
      Collect(s, o, i, Failed(s.orders[o].run.order.items[i], error), stamp)
    case ArmTimer(o) =>
      s.(orders := s.orders[o := s.orders[o].(run := Arm(s.orders[o].run, s.now, config.margin))])
    case Timer(o) =>
      s.(orders := s.orders[o := s.orders[o].(run := TimerFires(s.orders[o].run))],
         events := s.events + [ToOrderProcessed(TimeoutState(s.orders[o].run.order))])
    case EndInError(o) => s.(orders := s.orders[o := s.orders[o].(run := EndsInError(s.orders[o].run))])
    case Tick(duration) => s.(now := s.now + duration)
  }

  predicate ValidRun(config: Config, s: State, steps: seq<Step>)
    decreases |steps|
  {
    steps == [] || (Enabled(s, steps[0]) && ValidRun(config, Next(config, s, steps[0]), steps[1..]))
  }

  function Exec(config: Config, s: State, steps: seq<Step>): State
    requires ValidRun(config, s, steps)
    decreases |steps|
  {
    if steps == [] then s else Exec(config, Next(config, s, steps[0]), steps[1..])
  }

  // ---------- What orders hold and what reservations were reported ----------

  /** The units of `sku` that `results` say are reserved. */
  function ReservedQty(results: seq<OrderItemResult>, sku: string): int {
    if results == [] then 0
    else
      var last := results[|results| - 1];
      ReservedQty(results[..|results| - 1], sku) + if last.reserved && last.sku == sku then last.requestedQty else 0
  }

  /** The units of `sku` that all orders hold or have reported to their customers as reserved. */
  function Held(orders: seq<Placed>, sku: string): int {
    if orders == [] then 0
    else Held(orders[..|orders| - 1], sku) + ReservedQty(orders[|orders| - 1].run.agg.results, sku)
  }

  /** The units of `sku` that a response lists as reserved. */
  function ListedQty(items: seq<ReportedItem>, sku: string): int {
    if items == [] then 0
    else
      var last := items[|items| - 1];
      ListedQty(items[..|items| - 1], sku) + if last.reserved && last.sku == sku then last.availableQty else 0
  }

  /** The units of `sku` that customers have been told are reserved for them. */
  function Told(orders: seq<Placed>, sku: string): int {
    if orders == [] then 0
    else
      var body := orders[|orders| - 1].run.agg.http.body;
      Told(orders[..|orders| - 1], sku) + if body.Json? then ListedQty(body.response.items, sku) else 0
  }

  /** The units of `sku` taken by the reported ones among `calls`. */
  function ReportedQty(calls: seq<R.Call>, reported: set<nat>, sku: string): int {
    if calls == [] then 0
    else
      var n := |calls| - 1;
      ReportedQty(calls[..n], reported, sku)
      + if n in reported && calls[n].item.sku == sku then calls[n].item.quantity else 0
  }

  // ---------- The invariant ----------

  ghost predicate OrdersPart(s: State) {
    forall o | 0 <= o < |s.orders| :: RunInv(s.orders[o].run) && |s.orders[o].calls| == |s.orders[o].run.order.items|
  }

  /** `result` is what item `item` collected: from its completed reservation, or from a failed call. */
  predicate Genuine(s: State, item: OrderItem, call: Option<nat>, result: OrderItemResult) {
    || result == Failed(item, Exception(result.error))
    || (call.Some? && call.value < |s.inventory.calls| && s.inventory.calls[call.value].Done()
        && result == Collected(item, s.inventory.calls[call.value]))
  }

  /** Item i of order o belongs together with its reservation, and has a genuine result if any. */
  predicate LinkOk(s: State, o: nat, i: nat)
    requires o < |s.orders|
  {
    var placed := s.orders[o];
    IsItem(s, o, i) ==>
      var item, call := placed.run.order.items[i], placed.calls[i];
      && (call.Some? ==>
            && call.value < |s.inventory.calls| && s.inventory.calls[call.value].item == Remote(item)
            && call.value in s.owner && s.owner[call.value] == (o, i))
      && (i < |placed.run.outcomes| && placed.run.outcomes[i].Some? ==>
            Genuine(s, item, call, placed.run.outcomes[i].value))
  }

  ghost predicate LinksPart(s: State) {
    && (forall o: nat, i: nat | o < |s.orders| :: LinkOk(s, o, i))
    && (forall c | c in s.owner :: c < |s.inventory.calls|)
  }

  /** A reported reservation was accepted, for no negative quantity, and its item has its one result. */
  ghost predicate ReportedPart(s: State) {
    forall c | c in s.reported ::
      && c < |s.inventory.calls| && s.inventory.calls[c].phase.Reserved? && s.inventory.calls[c].item.quantity >= 0
      && c in s.owner && s.owner[c].0 < |s.orders|
      && !Waiting(s.orders[s.owner[c].0].run, s.owner[c].1)
  }

  ghost predicate SumsPart(s: State) {
    && (forall sku: string :: Held(s.orders, sku) <= ReportedQty(s.inventory.calls, s.reported, sku))
    && Successes(s.events) == |s.reported|
  }

  ghost predicate Inv(s: State) {
    R.Inv(s.inventory) && OrdersPart(s) && LinksPart(s) && ReportedPart(s) && SumsPart(s)
  }

  // ---------- Sums ----------

  lemma {:induction false} HeldUpdate(orders: seq<Placed>, o: nat, placed: Placed, sku: string)
    requires o < |orders|
    ensures Held(orders[o := placed], sku)
            == Held(orders, sku)
               - ReservedQty(orders[o].run.agg.results, sku) + ReservedQty(placed.run.agg.results, sku)
  {
    var n := |orders| - 1;
    if o < n {
      HeldUpdate(orders[..n], o, placed, sku);
      assert orders[o := placed][..n] == orders[..n][o := placed];
    } else {
      assert orders[o := placed][..n] == orders[..n];
    }
  }

  lemma {:induction false} ReportedQtyFrame(calls: seq<R.Call>, calls': seq<R.Call>, reported: set<nat>, sku: string)
    requires |calls| <= |calls'|
    requires forall c | c in reported :: c < |calls| && calls'[c] == calls[c]
    ensures ReportedQty(calls', reported, sku) == ReportedQty(calls, reported, sku)
    decreases |calls'|
  {
    var n := |calls'| - 1;
    if |calls| < |calls'| {
      ReportedQtyFrame(calls, calls'[..n], reported, sku);
    } else if calls != [] {
      ReportedQtyBelow(calls, reported, sku, n);
      ReportedQtyBelow(calls', reported, sku, n);
      ReportedQtyFrame(calls[..n], calls'[..n], reported - {n}, sku);
    }
  }

  lemma {:induction false} ReportedQtyBelow(calls: seq<R.Call>, reported: set<nat>, sku: string, n: nat)
    requires n < |calls|
    ensures ReportedQty(calls[..n], reported, sku) == ReportedQty(calls[..n], reported - {n}, sku)
  {
    ReportedQtyIgnores(calls[..n], reported, sku, n);
  }

  lemma {:induction false} ReportedQtyIgnores(calls: seq<R.Call>, reported: set<nat>, sku: string, c: nat)
    requires |calls| <= c
    ensures ReportedQty(calls, reported, sku) == ReportedQty(calls, reported - {c}, sku)
    ensures ReportedQty(calls, reported, sku) == ReportedQty(calls, reported + {c}, sku)
  {
    if calls != [] {
      ReportedQtyIgnores(calls[..|calls| - 1], reported, sku, c);
    }
  }

  lemma {:induction false} ReportedQtyAdds(calls: seq<R.Call>, reported: set<nat>, sku: string, c: nat)
    requires c < |calls| && c !in reported
    ensures ReportedQty(calls, reported + {c}, sku)
            == ReportedQty(calls, reported, sku) + if calls[c].item.sku == sku then calls[c].item.quantity else 0
  {
    var n := |calls| - 1;
    if c < n {
      ReportedQtyAdds(calls[..n], reported, sku, c);
    } else {
      ReportedQtyIgnores(calls[..n], reported, sku, n);
    }
  }

  lemma {:induction false} ReportedIsAccepted(calls: seq<R.Call>, reported: set<nat>, sku: string)
    requires forall c | 0 <= c < |calls| && c in reported :: calls[c].phase.Reserved? && calls[c].item.quantity >= 0
    ensures 0 <= ReportedQty(calls, reported, sku) <= R.Accepted(calls, sku) + GivenBack(calls, sku)
  {
    if calls != [] {
      ReportedIsAccepted(calls[..|calls| - 1], reported, sku);
    }
  }
}
