/**
 What can become of an order: the composed system, with its reservations, item calls and callback, takes an
 order all the way to CONFIRMED exactly when the stock suffices for it, can time every order out, and can
 answer every order even if the inventory service never does.
 */
module Confirmable {
  import opened Types
  import opened ItemPath
  import opened Aggregation
  import opened Submission
  import opened OrderRun
  import opened Counting
  import opened Linearisation
  import opened Shop
  import opened ShopSafety
  import opened ShopTime
  import StockSafety
  import R = Reservation

  /** What `items` ask of `sku` in all. */
  function Demand(items: seq<OrderItem>, sku: string): int {
    if items == [] then 0
    else Demand(items[..|items| - 1], sku) + DemandOf(items[|items| - 1], sku)
  }

  function DemandOf(item: OrderItem, sku: string): int { if item.sku == sku then item.quantity else 0 }

  /** The stock covers what `items` ask for, SKU by SKU. */
  predicate Suffices(stock: map<string, int32>, items: seq<OrderItem>) {
    forall k | 0 <= k < |items| ::
      items[k].sku in stock && Demand(items, items[k].sku) <= stock[items[k].sku]
  }

  /** Only orders take from the stock. */
  predicate OrdersOnly(steps: seq<Step>) {
    forall k | 0 <= k < |steps| :: !steps[k].OtherClient?
  }

  predicate IsConfirmed(s: State, o: nat, order: Order) {
    && o < |s.orders| && s.orders[o].run.order == order
    && s.orders[o].run.agg.http.body.Json? && s.orders[o].run.agg.http.body.response.status == Confirmed
  }

  /** `steps` submits `order`, serves no other clients, and has `order` confirmed. */
  predicate Confirms(config: Config, stock: map<string, int32>, order: Order, steps: seq<Step>) {
    && ValidRun(config, Open(stock), steps) && OrdersOnly(steps)
    && exists o :: 0 <= o < |Exec(config, Open(stock), steps).orders|
                   && IsConfirmed(Exec(config, Open(stock), steps), o, order)
  }

  // ---------- If it suffices ----------

  lemma {:induction false} DemandGrows(items: seq<OrderItem>, sku: string, i: nat)
    requires i <= |items| && forall k | 0 <= k < |items| :: items[k].quantity > 0
    ensures 0 <= Demand(items[..i], sku) <= Demand(items, sku)
    ensures i < |items| ==> Demand(items[..i + 1], sku) == Demand(items[..i], sku) + DemandOf(items[i], sku)
    decreases |items| - i
  {
    if i == |items| {
      assert items[..i] == items;
      DemandIsNonNegative(items, sku);
    } else {
      assert items[..i + 1][..i] == items[..i];
      DemandGrows(items, sku, i + 1);
      DemandIsNonNegative(items[..i], sku);
    }
  }

  lemma {:induction false} DemandIsNonNegative(items: seq<OrderItem>, sku: string)
    requires forall k | 0 <= k < |items| :: items[k].quantity > 0
    ensures 0 <= Demand(items, sku)
  {
    if items != [] {
      DemandIsNonNegative(items[..|items| - 1], sku);
    }
  }

  /** The inventory service is idle. */
  predicate Idle(inventory: R.Service) {
    forall c | 0 <= c < |inventory.calls| :: inventory.calls[c].Done()
  }

  /** `inventory'` has one entry more than `inventory`, where `item` has been taken from the stock. */
  predicate Takes(inventory: R.Service, inventory': R.Service, item: OrderItem) {
    && item.sku in inventory.cells && inventory.cells[item.sku] != []
    && var h := inventory.cells[item.sku];
    inventory'.cells == inventory.cells[item.sku := h + [R.Stock(h) - item.quantity]]
  }

  /** An idle inventory service grants `item` in three steps. */
  lemma GrantedOnItsOwn(inventory: R.Service, item: OrderItem)
    returns (load: R.Step, cas: R.Step, s1: R.Service, s2: R.Service, s3: R.Service)
    requires R.Inv(inventory) && Idle(inventory)
    requires item.sku in inventory.cells && inventory.cells[item.sku] != []
    requires item.quantity <= R.Stock(inventory.cells[item.sku])
    ensures R.Enabled(inventory, R.Invoke(0, item)) && s1 == R.Next(inventory, R.Invoke(0, item))
    ensures !load.Invoke? && R.Enabled(s1, load) && s2 == R.Next(s1, load)
    ensures !cas.Invoke? && R.Enabled(s2, cas) && s3 == R.Next(s2, cas)
    ensures Idle(s3) && |s3.calls| == |inventory.calls| + 1
    ensures s3.calls[|inventory.calls|].phase.Reserved? && s3.calls[|inventory.calls|].item == item
    ensures Takes(inventory, s3, item)
  {
    hide R.Inv, R.MayRead;
    var c, last := |inventory.calls|, |inventory.cells[item.sku]| - 1;
    assert R.Enabled(inventory, R.Invoke(0, item));
    s1 := R.Next(inventory, R.Invoke(0, item));
    R.StepKeepsInv(inventory, R.Invoke(0, item));
    StockSafety.NewestIsReadable(s1, c);
    load, cas := R.Load(c, last), R.CasSucceeds(c);
    s2 := R.Next(s1, load);
    s3 := R.Next(s2, cas);
  }

  /** The first `i` items of the only order have been reserved, and nothing else has happened. */
  ghost predicate ServedUpTo(s: State, order: Order, stock: map<string, int32>, i: nat) {
    && Inv(s) && Idle(s.inventory) && |s.orders| == 1 && s.orders[0].run.order == order && !s.orders[0].run.timerFired
    && i <= |order.items| && |s.orders[0].run.outcomes| == |s.orders[0].calls| == |order.items|
    && (forall j | 0 <= j < i :: s.orders[0].run.outcomes[j].Some? && s.orders[0].run.outcomes[j].value.reserved)
    && (forall j | i <= j < |order.items| :: s.orders[0].run.outcomes[j].None? && s.orders[0].calls[j].None?)
    && StockAfter(s.inventory, stock, order.items[..i])
  }

  predicate StockAfter(inventory: R.Service, stock: map<string, int32>, items: seq<OrderItem>) {
    && inventory.cells.Keys == stock.Keys
    && forall sku | sku in stock ::
         inventory.cells[sku] != [] && R.Stock(inventory.cells[sku]) == stock[sku] - Demand(items, sku)
  }

  lemma StockAfterGrant(
    inventory: R.Service, inventory': R.Service, stock: map<string, int32>, items: seq<OrderItem>, i: nat,
    item: OrderItem)
    requires i < |items| && (forall k | 0 <= k < |items| :: items[k].quantity > 0)
    requires StockAfter(inventory, stock, items[..i])
    requires item.sku == items[i].sku && item.quantity == items[i].quantity
    requires Takes(inventory, inventory', item)
    ensures StockAfter(inventory', stock, items[..i + 1])
  {
    forall sku | sku in stock
      ensures R.Stock(inventory'.cells[sku]) == stock[sku] - Demand(items[..i + 1], sku)
    {
      DemandGrows(items, sku, i);
    }
  }

  lemma StockCoversNext(inventory: R.Service, stock: map<string, int32>, items: seq<OrderItem>, i: nat)
    requires i < |items| && (forall k | 0 <= k < |items| :: items[k].quantity > 0) && Suffices(stock, items)
    requires StockAfter(inventory, stock, items[..i])
    ensures items[i].sku in inventory.cells && inventory.cells[items[i].sku] != []
    ensures items[i].quantity <= R.Stock(inventory.cells[items[i].sku])
  {
    DemandGrows(items, items[i].sku, i);
    DemandGrows(items, items[i].sku, i + 1);
  }

  /** The order and the reservation, once item `i` has been sent and granted. */
  predicate Granted(s: State, s': State, inventory: R.Service, i: nat)
    requires |s.orders| == 1 && i < |s.orders[0].calls|
  {
    && s'.inventory == inventory && |s'.orders| == 1
    && s'.orders[0] == s.orders[0].(calls := s.orders[0].calls[i := Some(|s.inventory.calls|)])
  }

  lemma SendStep(config: Config, s: State, order: Order, stock: map<string, int32>, i: nat)
    requires ServedUpTo(s, order, stock, i) && i < |order.items|
    requires R.Enabled(s.inventory, R.Invoke(0, Remote(order.items[i])))
    ensures Enabled(s, Send(0, i, 0)) && Inv(Next(config, s, Send(0, i, 0)))
    ensures Granted(s, Next(config, s, Send(0, i, 0)), R.Next(s.inventory, R.Invoke(0, Remote(order.items[i]))), i)
  {
    hide R.Enabled, R.Next, StockAfter, Idle;
    StepKeepsInv(config, s, Send(0, i, 0));
    hide Inv;
  }

  lemma StockMove(config: Config, s: State, step: R.Step)
    requires Inv(s) && R.Enabled(s.inventory, step) && !step.Invoke?
    ensures Enabled(s, StockStep(step)) && Inv(Next(config, s, StockStep(step)))
    ensures Next(config, s, StockStep(step)) == s.(inventory := R.Next(s.inventory, step))
  {
    hide R.Enabled, R.Next, Inv;
    StepKeepsInv(config, s, StockStep(step));
  }

  lemma ServedIsIdle(s: State, order: Order, stock: map<string, int32>, i: nat)
    requires ServedUpTo(s, order, stock, i)
    ensures R.Inv(s.inventory) && Idle(s.inventory) && StockAfter(s.inventory, stock, order.items[..i])
  {
    hide R.Inv, Idle, StockAfter;
  }

  /** The inventory service can grant item `i`. */
  lemma NextIsGranted(s: State, order: Order, stock: map<string, int32>, i: nat)
    returns (load: R.Step, cas: R.Step, s1: R.Service, s2: R.Service, s3: R.Service)
    requires AcceptedOrder(order) && Suffices(stock, order.items)
    requires ServedUpTo(s, order, stock, i) && i < |order.items|
    ensures var invoke := R.Invoke(0, Remote(order.items[i]));
            R.Enabled(s.inventory, invoke) && s1 == R.Next(s.inventory, invoke)
    ensures !load.Invoke? && R.Enabled(s1, load) && s2 == R.Next(s1, load)
    ensures !cas.Invoke? && R.Enabled(s2, cas) && s3 == R.Next(s2, cas)
    ensures HoldsGrant(s.inventory, s3, order, stock, i)
  {
    ServedIsIdle(s, order, stock, i);
    hide ServedUpTo, R.Inv, R.Enabled, R.Next, Idle, StockAfter, Suffices, Demand, SubmittedTotal, Takes;
    StockCoversNext(s.inventory, stock, order.items, i);
    var item := Remote(order.items[i]);
    assert item.sku == order.items[i].sku && item.quantity == order.items[i].quantity;
    hide Remote;
    load, cas, s1, s2, s3 := GrantedOnItsOwn(s.inventory, item);
    StockAfterGrant(s.inventory, s3, stock, order.items, i, item);
  }

  /** `inventory'` is `inventory` with a new, accepted reservation for item `i`, and the stock that leaves. */
  predicate HoldsGrant(inventory: R.Service, inventory': R.Service, order: Order, stock: map<string, int32>, i: nat)
    requires i < |order.items|
  {
    && Idle(inventory') && |inventory'.calls| == |inventory.calls| + 1
    && inventory'.calls[|inventory.calls|].phase.Reserved?
    && inventory'.calls[|inventory.calls|].item == Remote(order.items[i])
    && StockAfter(inventory', stock, order.items[..i + 1])
  }

  /** Item `i` is sent, and its reservation runs to its end. */
  lemma SendAndGrant(config: Config, s: State, order: Order, stock: map<string, int32>, i: nat)
    returns (steps: seq<Step>, s': State)
    requires AcceptedOrder(order) && Suffices(stock, order.items)
    requires ServedUpTo(s, order, stock, i) && i < |order.items|
    requires |s.orders| == 1 && i < |s.orders[0].calls|
    ensures ValidRun(config, s, steps) && OrdersOnly(steps) && Exec(config, s, steps) == s'
    ensures Granted(s, s', s'.inventory, i) && Inv(s') && HoldsGrant(s.inventory, s'.inventory, order, stock, i)
  {
    hide AcceptedOrder, Suffices, ServedUpTo, Inv, OrdersOnly, HoldsGrant, R.Enabled, R.Next, Remote;
    var load, cas, s1, s2, s3 := NextIsGranted(s, order, stock, i);
    SendStep(config, s, order, stock, i);
    hide Next, Enabled, Exec, ValidRun;
    var u := Next(config, s, Send(0, i, 0));
    var rest := TwoStockSteps(config, u, load, cas);
    s' := u.(inventory := s3);
    steps := Prepend(config, s, Send(0, i, 0), rest, s');
  }

  lemma TwoStockSteps(config: Config, s: State, first: R.Step, second: R.Step) returns (steps: seq<Step>)
    requires Inv(s) && R.Enabled(s.inventory, first) && R.Enabled(R.Next(s.inventory, first), second)
    requires !first.Invoke? && !second.Invoke?
    ensures ValidRun(config, s, steps) && OrdersOnly(steps)
    ensures var s' := s.(inventory := R.Next(R.Next(s.inventory, first), second));
            Exec(config, s, steps) == s' && Inv(s')
  {
    hide R.Enabled, R.Next, Inv;
    StockMove(config, s, first);
    var s1 := Next(config, s, StockStep(first));
    StockMove(config, s1, second);
    hide Next, Enabled;
    var s2 := Next(config, s1, StockStep(second));
    RunsNowhere(config, s2);
    hide Exec, ValidRun;
    var last := Prepend(config, s1, StockStep(second), [], s2);
    steps := Prepend(config, s, StockStep(first), last, s2);
  }

  lemma RunsNowhere(config: Config, s: State)
    ensures ValidRun(config, s, []) && Exec(config, s, []) == s && OrdersOnly([])
  {
  }

  lemma Prepend(config: Config, s: State, step: Step, rest: seq<Step>, end: State) returns (steps: seq<Step>)
    requires Enabled(s, step) && ValidRun(config, Next(config, s, step), rest)
    requires Exec(config, Next(config, s, step), rest) == end
    ensures ValidRun(config, s, steps) && Exec(config, s, steps) == end
    ensures !step.OtherClient? && OrdersOnly(rest) ==> OrdersOnly(steps)
  {
    steps := [step] + rest;
    assert steps[1..] == rest;
  }

  lemma {:induction false} RunsCompose(config: Config, s: State, steps: seq<Step>, more: seq<Step>)
    requires ValidRun(config, s, steps) && ValidRun(config, Exec(config, s, steps), more)
    ensures ValidRun(config, s, steps + more)
    ensures Exec(config, s, steps + more) == Exec(config, Exec(config, s, steps), more)
    ensures OrdersOnly(steps) && OrdersOnly(more) ==> OrdersOnly(steps + more)
    decreases |steps|
  {
    if steps == [] {
      assert steps + more == more;
    } else {
      hide Next, Enabled;
      assert (steps + more)[1..] == steps[1..] + more;
      RunsCompose(config, Next(config, s, steps[0]), steps[1..], more);
    }
  }

  /** The reply of the granted item is collected. */
  lemma ReplyServes(config: Config, s: State, s': State, order: Order, stock: map<string, int32>, i: nat)
    requires ServedUpTo(s, order, stock, i) && i < |order.items|
    requires Granted(s, s', s'.inventory, i) && Inv(s') && HoldsGrant(s.inventory, s'.inventory, order, stock, i)
    ensures Enabled(s', Reply(0, i, ""))
    ensures ServedUpTo(Next(config, s', Reply(0, i, "")), order, stock, i + 1)
  {
    hide RunInv, LinksPart, ReportedPart, SumsPart, R.Inv, StockAfter, Deliver, ToOrderProcessed;
    assert Enabled(s', Reply(0, i, ""));
    StepKeepsInv(config, s', Reply(0, i, ""));
    hide Inv;
    EveryPathKeepsIdentity(order.items[i], s'.inventory.calls[|s.inventory.calls|], Unknown);
  }

  lemma ServeOne(config: Config, s: State, order: Order, stock: map<string, int32>, i: nat)
    returns (steps: seq<Step>)
    requires AcceptedOrder(order) && Suffices(stock, order.items)
    requires ServedUpTo(s, order, stock, i) && i < |order.items|
    ensures ValidRun(config, s, steps) && OrdersOnly(steps)
    ensures ServedUpTo(Exec(config, s, steps), order, stock, i + 1)
  {
    assert |s.orders| == 1 && i < |s.orders[0].calls|;
    hide Inv, Next, Enabled, AcceptedOrder, Suffices, ServedUpTo, Granted, HoldsGrant, OrdersOnly;
    var first, s' := SendAndGrant(config, s, order, stock, i);
    ReplyServes(config, s, s', order, stock, i);
    RunsNowhere(config, Next(config, s', Reply(0, i, "")));
    hide Exec, ValidRun;
    var last := Prepend(config, s', Reply(0, i, ""), [], Next(config, s', Reply(0, i, "")));
    RunsCompose(config, s, first, last);
    steps := first + last;
  }

  lemma {:induction false} ServeAll(config: Config, s: State, order: Order, stock: map<string, int32>, i: nat)
    returns (steps: seq<Step>)
    requires AcceptedOrder(order) && Suffices(stock, order.items)
    requires ServedUpTo(s, order, stock, i) && i <= |order.items|
    ensures ValidRun(config, s, steps) && OrdersOnly(steps)
    ensures ServedUpTo(Exec(config, s, steps), order, stock, |order.items|)
    decreases |order.items| - i
  {
    hide AcceptedOrder, Suffices, ServedUpTo, OrdersOnly;
    if i == |order.items| {
      steps := [];
      RunsNowhere(config, s);
    } else {
      var first := ServeOne(config, s, order, stock, i);
      hide Exec, ValidRun;
      var rest := ServeAll(config, Exec(config, s, first), order, stock, i + 1);
      RunsCompose(config, s, first, rest);
      steps := first + rest;
    }
  }

  lemma ServedIsConfirmed(s: State, order: Order, stock: map<string, int32>)
    requires ServedUpTo(s, order, stock, |order.items|)
    ensures IsConfirmed(s, 0, order)
  {
    hide R.Inv, LinksPart, ReportedPart, SumsPart, StockAfter;
    var run := s.orders[0].run;
    assert RunInv(run);
    AnsweredWhenOver(run);
    CompletedResponse(run);
  }

  lemma SubmitServes(config: Config, stock: map<string, int32>, order: Order)
    requires AcceptedOrder(order)
    ensures Enabled(Open(stock), Submit(order, None))
    ensures ServedUpTo(Next(config, Open(stock), Submit(order, None)), order, stock, 0)
  {
    hide Inv;
    SubmittedOrder(config, Open(stock), order, None);
    ReachableStateIsSound(config, stock, []);
    StepKeepsInv(config, Open(stock), Submit(order, None));
    assert order.items[..0] == [];
    hide Next;
  }

  lemma ConfirmingRun(config: Config, stock: map<string, int32>, order: Order) returns (steps: seq<Step>)
    requires AcceptedOrder(order) && Suffices(stock, order.items)
    ensures Confirms(config, stock, order, steps)
  {
    SubmitServes(config, stock, order);
    hide ServedUpTo, Next, Enabled, AcceptedOrder, Suffices, IsConfirmed, OrdersOnly;
    var s := Next(config, Open(stock), Submit(order, None));
    var rest := ServeAll(config, s, order, stock, 0);
    hide Exec, ValidRun;
    var end := Exec(config, s, rest);
    ServedIsConfirmed(end, order, stock);
    steps := Prepend(config, Open(stock), Submit(order, None), rest, end);
    ConfirmedIsThere(end, order);
  }

  lemma ConfirmedIsThere(s: State, order: Order)
    requires IsConfirmed(s, 0, order)
    ensures |s.orders| > 0
  {
  }

  // ---------- Only if it suffices ----------

  lemma {:induction false} ReservedQtyWithout(results: seq<OrderItemResult>, j: nat, sku: string)
    requires j < |results|
    ensures ReservedQty(results, sku) == ReservedQty(Without(results, j), sku) + Gain(results[j], sku)
  {
    var n := |results| - 1;
    if j < n {
      ReservedQtyWithout(results[..n], j, sku);
      assert Without(results, j)[..n - 1] == Without(results[..n], j);
    } else {
      assert Without(results, j) == results[..n];
    }
  }

  lemma {:induction false} ReservedQtyOfPermutation(a: seq<OrderItemResult>, b: seq<OrderItemResult>, sku: string)
    requires multiset(a) == multiset(b)
    ensures ReservedQty(a, sku) == ReservedQty(b, sku)
    decreases |a|
  {
    if a == [] {
      assert |multiset(b)| == 0;
    } else {
      hide ReservedQty, Without, Gain;
      assert a[0] in multiset(b);
      var j :| 0 <= j < |b| && b[j] == a[0];
      MultisetWithout(a, 0);
      MultisetWithout(b, j);
      assert |multiset(Without(a, 0))| < |multiset(a)|;
      ReservedQtyOfPermutation(Without(a, 0), Without(b, j), sku);
      ReservedQtyWithout(a, 0, sku);
      ReservedQtyWithout(b, j, sku);
    }
  }

  /** If every item has been reserved, what is reserved is what was asked for. */
  lemma {:induction false} ReservedQtyIsDemand(
    items: seq<OrderItem>, outcomes: seq<Option<OrderItemResult>>, sku: string)
    requires |items| == |outcomes|
    requires forall i | 0 <= i < |outcomes| ::
               && outcomes[i].Some? && outcomes[i].value.reserved && CarriesIdentity(items[i], outcomes[i].value)
    ensures ReservedQty(Arrived(outcomes), sku) == Demand(items, sku)
  {
    if items != [] {
      var n := |items| - 1;
      ReservedQtyIsDemand(items[..n], outcomes[..n], sku);
      assert Arrived(outcomes)[..|Arrived(outcomes)| - 1] == Arrived(outcomes[..n]);
    }
  }

  lemma {:induction false} HeldAtLeast(s: State, n: nat, o: nat, sku: string)
    requires Inv(s) && n <= |s.orders|
    ensures 0 <= Held(s.orders[..n], sku)
    ensures o < n ==> ReservedQty(s.orders[o].run.agg.results, sku) <= Held(s.orders[..n], sku)
  {
    hide Inv, ReservedQty;
    if n > 0 {
      HeldAtLeast(s, n - 1, o, sku);
      KeptResultsAreHonest(s, n - 1);
      ListedIsReserved(s.orders[n - 1].run.agg.results, sku);
      assert s.orders[..n][..n - 1] == s.orders[..n - 1];
    }
  }

  predicate NoneNegative(inventory: R.Service) {
    forall c | 0 <= c < |inventory.calls| :: inventory.calls[c].item.quantity >= 0
  }

  lemma StepKeepsNoneNegative(config: Config, s: State, step: Step)
    requires Inv(s) && Enabled(s, step) && !step.OtherClient? && NoneNegative(s.inventory)
    ensures NoneNegative(Next(config, s, step).inventory)
  {
    hide R.Inv, LinksPart, ReportedPart, SumsPart, R.MayRead;
    if step.Send? {
      assert RunInv(s.orders[step.o].run) && AcceptedOrder(s.orders[step.o].run.order);
      assert s.orders[step.o].run.order.items[step.i].quantity > 0;
    }
    hide Inv;
  }

  lemma {:induction false} RunKeepsNoneNegative(config: Config, s: State, steps: seq<Step>)
    requires Inv(s) && ValidRun(config, s, steps) && OrdersOnly(steps) && NoneNegative(s.inventory)
    ensures NoneNegative(Exec(config, s, steps).inventory)
    decreases |steps|
  {
    if steps != [] {
      assert !steps[0].OtherClient?;
      assert forall k | 0 <= k < |steps| - 1 :: steps[1..][k] == steps[k + 1];
      hide Inv, Next, Enabled, NoneNegative;
      StepKeepsInv(config, s, steps[0]);
      StepKeepsNoneNegative(config, s, steps[0]);
      RunKeepsNoneNegative(config, Next(config, s, steps[0]), steps[1..]);
    }
  }

  /** What a confirmed order asks for is among what is held. */
  lemma ConfirmedIsHeld(s: State, o: nat, order: Order, sku: string)
    requires Inv(s) && IsConfirmed(s, o, order)
    ensures Demand(order.items, sku) <= Held(s.orders, sku)
  {
    var run := s.orders[o].run;
    assert RunInv(run) && run.agg.responseSent;
    HeldAtLeast(s, |s.orders|, o, sku);
    assert s.orders[..|s.orders|] == s.orders;
    hide Inv;
    CompletedResponse(run);
    hide IsConfirmed, Held;
    assert multiset(run.agg.results) == multiset(Arrived(run.outcomes));
    ReservedQtyOfPermutation(run.agg.results, Arrived(run.outcomes), sku);
    ReservedQtyIsDemand(order.items, run.outcomes, sku);
  }

  lemma ConfirmedIsStocked(config: Config, stock: map<string, int32>, steps: seq<Step>, o: nat, order: Order, k: nat)
    requires ValidRun(config, Open(stock), steps) && IsConfirmed(Exec(config, Open(stock), steps), o, order)
    requires k < |order.items|
    ensures order.items[k].sku in stock
  {
    ConfirmedMeansReserved(config, stock, steps, o);
    ReachableStateIsSound(config, stock, steps);
    var s := Exec(config, Open(stock), steps);
    hide Exec, R.CellInv, R.InProgramOrder;
    var c := s.orders[o].calls[k].value;
    assert s.inventory.calls[c].phase.Reserved? && s.inventory.calls[c].item.sku == order.items[k].sku;
    assert s.inventory.cells.Keys == stock.Keys;
  }

  lemma ConfirmedSuffices(config: Config, stock: map<string, int32>, order: Order, steps: seq<Step>)
    requires (forall sku | sku in stock :: stock[sku] >= 0) && Confirms(config, stock, order, steps)
    ensures Suffices(stock, order.items)
  {
    hide Inv, R.Inv, IsConfirmed;
    ReachableStateIsSound(config, stock, steps);
    ReachableStateIsSound(config, stock, []);
    RunKeepsNoneNegative(config, Open(stock), steps);
    var s := Exec(config, Open(stock), steps);
    var o :| 0 <= o < |s.orders| && IsConfirmed(s, o, order);
    forall k | 0 <= k < |order.items|
      ensures order.items[k].sku in stock && Demand(order.items, order.items[k].sku) <= stock[order.items[k].sku]
    {
      var sku := order.items[k].sku;
      ConfirmedIsStocked(config, stock, steps, o, order, k);
      ConfirmedIsHeld(s, o, order, sku);
      NoOverselling(config, stock, steps, sku);
    }
  }

  /** Without other clients, and with any number of other orders: some run confirms `order` exactly when the
      stock covers what it asks for, SKU by SKU. */
  lemma OrderIsConfirmableIff(config: Config, stock: map<string, int32>, order: Order)
    requires AcceptedOrder(order) && forall sku | sku in stock :: stock[sku] >= 0
    ensures (exists steps :: Confirms(config, stock, order, steps)) <==> Suffices(stock, order.items)
  {
    hide Confirms, Suffices, AcceptedOrder;
    if exists steps :: Confirms(config, stock, order, steps) {
      var steps :| Confirms(config, stock, order, steps);
      ConfirmedSuffices(config, stock, order, steps);
    }
    if Suffices(stock, order.items) {
      var steps := ConfirmingRun(config, stock, order);
    }
  }

  // ---------- What else can become of an order ----------

  predicate IsTimedOut(s: State, o: nat, order: Order) {
    && o < |s.orders| && s.orders[o].run.order == order
    && s.orders[o].run.agg.http.body.Json? && s.orders[o].run.agg.http.body.response.status == TimedOut
    && s.orders[o].run.agg.http.body.response.items == []
    && s.orders[o].run.agg.http.body.response.totalAmount == order.totalAmount
  }

  /** Any order may time out before anything is known of its items. */
  lemma OrderMayTimeOut(config: Config, stock: map<string, int32>, order: Order) returns (steps: seq<Step>)
    requires AcceptedOrder(order)
    ensures ValidRun(config, Open(stock), steps) && IsTimedOut(Exec(config, Open(stock), steps), 0, order)
  {
    hide AcceptedOrder, R.Enabled, R.Next;
    SubmittedOrder(config, Open(stock), order, None);
    var s1 := Next(config, Open(stock), Submit(order, None));
    ArmedTimer(config, s1, 0);
    var s2 := Next(config, s1, ArmTimer(0));
    var fireAt := s2.orders[0].run.fireAt.value;
    var s3 := Next(config, s2, Tick(fireAt - s2.now + 1));
    var end := Next(config, s3, Timer(0));
    assert IsTimedOut(end, 0, order);
    hide Next, Enabled, IsTimedOut;
    RunsNowhere(config, end);
    hide Exec, ValidRun;
    var r3 := Prepend(config, s3, Timer(0), [], end);
    var r2 := Prepend(config, s2, Tick(fireAt - s2.now + 1), r3, end);
    var r1 := Prepend(config, s1, ArmTimer(0), r2, end);
    steps := Prepend(config, Open(stock), Submit(order, None), r1, end);
  }

  lemma FailingKeepsRest(config: Config, s: State, o: nat, i: nat)
    requires Inv(s) && o < |s.orders| && Waiting(s.orders[o].run, i)
    ensures Enabled(s, Fail(o, i, Unknown, ""))
    ensures var s' := Next(config, s, Fail(o, i, Unknown, ""));
            && Inv(s') && |s'.orders| == |s.orders|
            && Missing(s'.orders[o].run.outcomes) == Missing(s.orders[o].run.outcomes) - 1
  {
    hide R.Inv, LinksPart, ReportedPart, SumsPart;
    var run := s.orders[o].run;
    assert RunInv(run) && |s.orders[o].calls| == |run.order.items|;
    hide RunInv;
    StepKeepsInv(config, s, Fail(o, i, Unknown, ""));
    hide Inv;
    MissingUpdate(run.outcomes, i, Failed(run.order.items[i], Unknown));
  }

  lemma AnsweredWhenComplete(s: State, o: nat)
    requires Inv(s) && o < |s.orders| && Missing(s.orders[o].run.outcomes) == 0
    ensures s.orders[o].run.agg.responseSent
  {
    hide R.Inv, LinksPart, ReportedPart, SumsPart;
    assert RunInv(s.orders[o].run);
  }

  lemma SomeItemWaits(s: State, o: nat) returns (i: nat)
    requires Inv(s) && o < |s.orders| && Missing(s.orders[o].run.outcomes) != 0
    ensures Waiting(s.orders[o].run, i)
  {
    hide R.Inv, LinksPart, ReportedPart, SumsPart;
    var run := s.orders[o].run;
    assert RunInv(run);
    NothingMissing(run.order.items, run.outcomes);
    i :| 0 <= i < |run.outcomes| && run.outcomes[i].None?;
  }

  /** From every reachable state, every order can still be answered, even if no reservation makes progress and no
      time passes: its remaining calls fail. */
  lemma {:induction false} OrderCanBeAnswered(config: Config, s: State, o: nat) returns (steps: seq<Step>)
    requires Inv(s) && o < |s.orders|
    ensures ValidRun(config, s, steps) && o < |Exec(config, s, steps).orders|
    ensures Exec(config, s, steps).orders[o].run.agg.responseSent
    ensures forall k | 0 <= k < |steps| :: steps[k].Fail?
    decreases Missing(s.orders[o].run.outcomes)
  {
    hide Inv, Next, Enabled, Missing;
    if Missing(s.orders[o].run.outcomes) == 0 {
      AnsweredWhenComplete(s, o);
      steps := [];
    } else {
      var i := SomeItemWaits(s, o);
      FailingKeepsRest(config, s, o, i);
      var step := Fail(o, i, Unknown, "");
      var rest := OrderCanBeAnswered(config, Next(config, s, step), o);
      steps := [step] + rest;
      assert steps[1..] == rest;
    }
  }
}
