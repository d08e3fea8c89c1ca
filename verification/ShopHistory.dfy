/**
 What a run of the composed system leaves behind: one event for every state that passed the merge
 (streams.generated.cpp).
 */
module ShopHistory {
  import opened Types
  import opened ItemPath
  import opened Aggregation
  import opened Submission
  import opened OrderRun
  import opened Counting
  import opened Shop
  import opened ShopSafety
  import R = Reservation

  // ---------- What one step collects and publishes ----------

  /** The results of order o after it got `result`: nothing is collected any more once it is answered. */
  predicate Collects(run: Run, run': Run, i: nat, result: OrderItemResult) {
    && i < |run.outcomes| && run'.outcomes == run.outcomes[i := Some(result)]
    && run'.agg.results == if run.agg.responseSent then run.agg.results else run.agg.results + [result]
  }

  /** What the order service gets to know about `item` from the reservation `call`. */
  function ReplyResult(item: OrderItem, call: R.Call): OrderItemResult {
    OrderItemResult(
      item.orderId, item.itemId, item.sku, item.quantity,
      if call.phase.Reserved? then item.quantity else call.available, call.phase.Reserved?,
      if call.phase.Reserved? then Confirmed else OutOfStock, item.unitPrice, "")
  }

  /** What is published about a result of the order with id `orderId`. */
  function ResultEvent(orderId: string, reserved: bool, stamp: string): OrderProcessed {
    if reserved then OrderProcessed(orderId, Confirmed, stamp, 1, 1, None)
    else OrderProcessed(orderId, PartiallyConfirmed, stamp, 1, 0, Some(PartiallyConfirmed))
  }

  /** A reply becomes the item's result, with what the reservation ended with, and is published. */
  lemma ReplyIsCollectedAndPublished(config: Config, s: State, o: nat, i: nat, stamp: string)
    requires Inv(s) && Enabled(s, Reply(o, i, stamp))
    ensures var s' := Next(config, s, Reply(o, i, stamp));
            var item, call := s.orders[o].run.order.items[i], s.inventory.calls[s.orders[o].calls[i].value];
            && Collects(s.orders[o].run, s'.orders[o].run, i, ReplyResult(item, call))
            && s'.events == s.events + [ResultEvent(s.orders[o].run.order.id, call.phase.Reserved?, stamp)]
  {
    hide R.Inv, ReportedPart, SumsPart;
    var item, call := s.orders[o].run.order.items[i], s.inventory.calls[s.orders[o].calls[i].value];
    assert RunInv(s.orders[o].run) && AcceptedOrder(s.orders[o].run.order);
    assert LinkOk(s, o, i);
    hide RunInv, AcceptedOrder, ItemState, TimeoutState, ToOrderProcessed, Inv;
    EveryPathKeepsIdentity(item, call, Unknown);
    ResultIsCollected(s.orders[o].run, i, Collected(item, call), stamp);
    EventsOfMappedStates(s.orders[o].run.order, Collected(item, call), stamp);
  }

  /** A failed call becomes a result with its error's text, and is published. */
  lemma FailureIsCollectedAndPublished(config: Config, s: State, o: nat, i: nat, error: CallError, stamp: string)
    requires Inv(s) && Enabled(s, Fail(o, i, error, stamp))
    ensures var s' := Next(config, s, Fail(o, i, error, stamp));
            var item := s.orders[o].run.order.items[i];
            var text := if error.Exception? then error.what else "unknown processing error";
            var result := OrderItemResult(item.orderId, item.itemId, item.sku, item.quantity, 0, false, ProcessingError,
                                          item.unitPrice, text);
            && Collects(s.orders[o].run, s'.orders[o].run, i, result)
            && s'.reported == s.reported
            && s'.events == s.events + [ResultEvent(s.orders[o].run.order.id, false, stamp)]
  {
    hide R.Inv, LinksPart, ReportedPart, SumsPart;
    var item := s.orders[o].run.order.items[i];
    assert RunInv(s.orders[o].run) && AcceptedOrder(s.orders[o].run.order);
    hide RunInv, AcceptedOrder, ItemState, TimeoutState, ToOrderProcessed, Inv;
    ResultIsCollected(s.orders[o].run, i, Failed(item, error), stamp);
    EventsOfMappedStates(s.orders[o].run.order, Failed(item, error), stamp);
  }

  lemma ResultIsCollected(run: Run, i: nat, result: OrderItemResult, stamp: string)
    requires Waiting(run, i)
    ensures Collects(run, ItemDone(run, i, result, stamp), i, result)
  {
    hide Answer;
  }

  /** A timeout is published under the order's id, and no other step publishes anything. */
  lemma OtherStepsPublish(config: Config, s: State, step: Step)
    requires Enabled(s, step) && !step.Reply? && !step.Fail?
    ensures Next(config, s, step).events
            == s.events
               + if step.Timer? then [OrderProcessed(s.orders[step.o].run.order.id, TimedOut, "", 0, 0, Some(TimedOut))]
                 else []
    ensures step.Timer? ==> Next(config, s, step).orders[step.o].run.timerFired
    ensures forall o | 0 <= o < |s.orders| ::
              Next(config, s, step).orders[o].run.outcomes == s.orders[o].run.outcomes
  {
    hide Deliver, EndRequest, Begin, SoftDelay;
    if step.Timer? {
      EventOfPipelineState(TimeoutState(s.orders[step.o].run.order));
    }
  }

  // ---------- Events ----------

  /** The states that an order has sent through the merge: its item results so far, and its timeout. */
  function StatesOf(run: Run): int {
    |run.outcomes| - Missing(run.outcomes) + if run.timerFired then 1 else 0
  }

  function StatesThroughMerge(orders: seq<Placed>): int {
    if orders == [] then 0
    else StatesThroughMerge(orders[..|orders| - 1]) + StatesOf(orders[|orders| - 1].run)
  }

  lemma {:induction false} OneOrderChanges(orders: seq<Placed>, o: nat, placed: Placed)
    requires o < |orders|
    ensures StatesThroughMerge(orders[o := placed])
            == StatesThroughMerge(orders) - StatesOf(orders[o].run) + StatesOf(placed.run)
  {
    var n := |orders| - 1;
    if o < n {
      OneOrderChanges(orders[..n], o, placed);
      assert orders[o := placed][..n] == orders[..n][o := placed];
    } else {
      assert orders[o := placed][..n] == orders[..n];
    }
  }

  lemma NewOrderHasNoStates(order: Order, caller: Option<int>, start: int, timeout: int)
    ensures StatesOf(Begin(order, caller, start, timeout)) == 0
  {
    EverythingMissing(order.items);
  }

  lemma ResultIsOneState(run: Run, i: nat, result: OrderItemResult, stamp: string)
    requires Waiting(run, i)
    ensures StatesOf(ItemDone(run, i, result, stamp)) == StatesOf(run) + 1
  {
    hide Deliver;
    MissingUpdate(run.outcomes, i, result);
  }

  lemma StepPublishesItsStates(config: Config, s: State, step: Step)
    requires Enabled(s, step)
    ensures |Next(config, s, step).events| - |s.events|
            == StatesThroughMerge(Next(config, s, step).orders) - StatesThroughMerge(s.orders)
  {
    hide Deliver, ItemDone, Begin, StatesOf;
    var s' := Next(config, s, step);
    match step {
      case Submit(order, caller) =>
        NewOrderHasNoStates(order, caller, s.now, config.timeout);
        assert s'.orders[..|s.orders|] == s.orders;
      case ArmTimer(o) =>
        OneOrderChanges(s.orders, o, s'.orders[o]);
        ArmingIsNoState(s.orders[o].run, s.now, config.margin);
      case Send(o, _, _) =>
        OneOrderChanges(s.orders, o, s'.orders[o]);
        assert StatesOf(s'.orders[o].run) == StatesOf(s.orders[o].run);
      case Reply(o, i, stamp) =>
        OneOrderChanges(s.orders, o, s'.orders[o]);
        var call := s.inventory.calls[s.orders[o].calls[i].value];
        ResultIsOneState(s.orders[o].run, i, Collected(s.orders[o].run.order.items[i], call), stamp);
      case Fail(o, i, error, stamp) =>
        OneOrderChanges(s.orders, o, s'.orders[o]);
        ResultIsOneState(s.orders[o].run, i, Failed(s.orders[o].run.order.items[i], error), stamp);
      case Timer(o) =>
        OneOrderChanges(s.orders, o, s'.orders[o]);
        TimerIsOneState(s.orders[o].run);
      case EndInError(o) =>
        OneOrderChanges(s.orders, o, s'.orders[o]);
        EndingIsNoState(s.orders[o].run);
      case _ =>
    }
  }

  lemma ArmingIsNoState(run: Run, now: int, margin: int)
    ensures StatesOf(Arm(run, now, margin)) == StatesOf(run)
  {
  }

  lemma EndingIsNoState(run: Run)
    ensures StatesOf(EndsInError(run)) == StatesOf(run)
  {
  }

  lemma TimerIsOneState(run: Run)
    requires !run.timerFired
    ensures StatesOf(TimerFires(run)) == StatesOf(run) + 1
  {
    hide Deliver;
  }

  lemma {:induction false} RunPublishesItsStates(config: Config, s: State, steps: seq<Step>)
    requires ValidRun(config, s, steps)
    ensures |Exec(config, s, steps).events| - |s.events|
            == StatesThroughMerge(Exec(config, s, steps).orders) - StatesThroughMerge(s.orders)
    decreases |steps|
  {
    hide StatesThroughMerge, Enabled, Next;
    if steps != [] {
      StepPublishesItsStates(config, s, steps[0]);
      RunPublishesItsStates(config, Next(config, s, steps[0]), steps[1..]);
    }
  }

  lemma {:induction false} CountersAddUp(events: seq<OrderProcessed>)
    ensures Successes(events) + Failures(events) == |events|
  {
    if events != [] {
      CountersAddUp(events[..|events| - 1]);
    }
  }

  /** However many orders share the services: every state of every order is counted once, and as a success
      exactly if it reported an accepted reservation that had not been reported before. */
  lemma EveryStateIsCountedOnce(config: Config, stock: map<string, int32>, steps: seq<Step>)
    requires ValidRun(config, Open(stock), steps)
    ensures var s := Exec(config, Open(stock), steps);
            && Successes(s.events) + Failures(s.events) == StatesThroughMerge(s.orders)
            && Successes(s.events) == |s.reported|
            && (forall c | c in s.reported :: c < |s.inventory.calls| && s.inventory.calls[c].phase.Reserved?)
  {
    RunPublishesItsStates(config, Open(stock), steps);
    hide R.Inv, StatesThroughMerge;
    ReachableStateIsSound(config, stock, steps);
    CountersAddUp(Exec(config, Open(stock), steps).events);
  }
}
