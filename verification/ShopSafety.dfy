/** Every step of the composed system keeps its invariant, and what that means for customers. */
module ShopSafety {
  import opened Types
  import opened ItemPath
  import opened Aggregation
  import opened Submission
  import opened OrderRun
  import opened Counting
  import opened Linearisation
  import opened Shop
  import StockSafety
  import R = Reservation

  // ---------- Steps of the inventory service ----------

  /** Completed reservations never change, so whatever the inventory service does keeps the rest. */
  lemma InventoryMoveKeepsInv(s: State, inventory: R.Service)
    requires Inv(s) && Extends(s.inventory, inventory) && R.Inv(inventory)
    ensures Inv(s.(inventory := inventory))
  {
    hide R.Inv, RunInv;
    var s' := s.(inventory := inventory);
    forall o: nat, i: nat | o < |s'.orders|
      ensures LinkOk(s', o, i)
    {
      assert LinkOk(s, o, i);
    }
    forall sku: string
      ensures Held(s'.orders, sku) <= ReportedQty(s'.inventory.calls, s'.reported, sku)
    {
      ReportedQtyFrame(s.inventory.calls, inventory.calls, s.reported, sku);
    }
  }

  lemma StockStepKeepsStock(s: State, step: R.Step)
    requires R.Inv(s.inventory) && R.Enabled(s.inventory, step)
    ensures Extends(s.inventory, R.Next(s.inventory, step)) && R.Inv(R.Next(s.inventory, step))
  {
    hide R.Inv;
    R.StepKeepsInv(s.inventory, step);
    StepExtends(s.inventory, step);
  }

  /** Item i of order o gets the newest reservation. */
  lemma LinkKeepsInv(s: State, o: nat, i: nat, c: nat)
    requires Inv(s) && IsItem(s, o, i) && s.orders[o].calls[i].None?
    requires c < |s.inventory.calls| && c !in s.owner
    requires s.inventory.calls[c].item == Remote(s.orders[o].run.order.items[i])
    ensures Inv(s.(orders := s.orders[o := s.orders[o].(calls := s.orders[o].calls[i := Some(c)])],
                   owner := s.owner[c := (o, i)]))
  {
    hide R.Inv, RunInv;
    var s' := s.(orders := s.orders[o := s.orders[o].(calls := s.orders[o].calls[i := Some(c)])],
                 owner := s.owner[c := (o, i)]);
    forall p: nat, j: nat | p < |s'.orders|
      ensures LinkOk(s', p, j)
    {
      assert LinkOk(s, p, j);
    }
    forall sku: string
      ensures Held(s'.orders, sku) <= ReportedQty(s'.inventory.calls, s'.reported, sku)
    {
      HeldUpdate(s.orders, o, s'.orders[o], sku);
    }
  }

  // ---------- Steps of an order ----------

  lemma SubmitKeepsInv(config: Config, s: State, order: Order, caller: Option<int>)
    requires Inv(s) && AcceptedOrder(order)
    ensures Inv(Next(config, s, Submit(order, caller)))
  {
    hide R.Inv, RunInv;
    var s' := Next(config, s, Submit(order, caller));
    BeginEstablishesInv(order, caller, s.now, config.timeout);
    forall o: nat, i: nat | o < |s'.orders|
      ensures LinkOk(s', o, i)
    {
      if o < |s.orders| { assert LinkOk(s, o, i); }
    }
    forall sku: string
      ensures Held(s'.orders, sku) <= ReportedQty(s'.inventory.calls, s'.reported, sku)
    {
      assert s'.orders[..|s.orders|] == s.orders;
    }
  }

  /** Order o now holds `run`, which has at most `gain` more of each SKU. */
  lemma HeldGrows(orders: seq<Placed>, o: nat, run: Run, sku: string, gain: int)
    requires o < |orders|
    requires ReservedQty(run.agg.results, sku) <= ReservedQty(orders[o].run.agg.results, sku) + gain
    ensures Held(orders[o := orders[o].(run := run)], sku) <= Held(orders, sku) + gain
  {
    HeldUpdate(orders, o, orders[o].(run := run), sku);
  }

  function Gain(result: OrderItemResult, sku: string): int {
    if result.reserved && result.sku == sku then result.requestedQty else 0
  }

  lemma ItemDoneGain(run: Run, i: nat, result: OrderItemResult, now: string, sku: string)
    requires Waiting(run, i) && result.requestedQty >= 0
    ensures ReservedQty(ItemDone(run, i, result, now).agg.results, sku)
            <= ReservedQty(run.agg.results, sku) + Gain(result, sku)
  {
    assert (run.agg.results + [result])[..|run.agg.results|] == run.agg.results;
  }

  /** `reported` is what Reply or Fail makes of the reported set when item i of order o gets `result`. */
  ghost predicate Reporting(s: State, o: nat, i: nat, result: OrderItemResult, reported: set<nat>)
    requires IsItem(s, o, i)
  {
    && CarriesIdentity(s.orders[o].run.order.items[i], result)
    && Genuine(s, s.orders[o].run.order.items[i], s.orders[o].calls[i], result)
    && (if result.reserved then
          && s.orders[o].calls[i].Some?
          && var c := s.orders[o].calls[i].value;
          && c < |s.inventory.calls| && s.inventory.calls[c].phase.Reserved?
          && c !in s.reported && reported == s.reported + {c}
        else reported == s.reported)
  }

  lemma CollectKeepsLinks(s: State, o: nat, i: nat, result: OrderItemResult, stamp: string, reported: set<nat>)
    requires LinksPart(s) && ReportedPart(s) && AwaitsResult(s, o, i) && IsItem(s, o, i)
    requires Reporting(s, o, i, result, reported) && result.requestedQty >= 0
    ensures LinksPart(Collect(s, o, i, result, stamp).(reported := reported))
    ensures ReportedPart(Collect(s, o, i, result, stamp).(reported := reported))
  {
    hide Deliver;
    var s' := Collect(s, o, i, result, stamp).(reported := reported);
    forall p: nat, j: nat | p < |s'.orders|
      ensures LinkOk(s', p, j)
    {
      assert LinkOk(s, p, j);
    }
    assert LinkOk(s, o, i);
    forall c | c in s'.reported
      ensures c in s'.owner && s'.owner[c].0 < |s'.orders| && !Waiting(s'.orders[s'.owner[c].0].run, s'.owner[c].1)
    {
      if c in s.reported {
        assert !Waiting(s.orders[s.owner[c].0].run, s.owner[c].1);
      }
    }
  }

  lemma CollectKeepsSums(s: State, o: nat, i: nat, result: OrderItemResult, stamp: string, reported: set<nat>)
    requires SumsPart(s) && LinksPart(s) && AwaitsResult(s, o, i) && IsItem(s, o, i)
    requires Reporting(s, o, i, result, reported) && result.requestedQty >= 0
    ensures SumsPart(Collect(s, o, i, result, stamp).(reported := reported))
  {
    hide Deliver;
    var s' := Collect(s, o, i, result, stamp).(reported := reported);
    assert LinkOk(s, o, i);
    forall sku: string
      ensures Held(s'.orders, sku) <= ReportedQty(s'.inventory.calls, s'.reported, sku)
    {
      ItemDoneGain(s.orders[o].run, i, result, stamp, sku);
      HeldGrows(s.orders, o, s'.orders[o].run, sku, Gain(result, sku));
      if result.reserved {
        ReportedQtyAdds(s.inventory.calls, s.reported, sku, s.orders[o].calls[i].value);
      }
    }
    assert s'.events[..|s.events|] == s.events;
  }

  lemma CollectKeepsInv(s: State, o: nat, i: nat, result: OrderItemResult, stamp: string, reported: set<nat>)
    requires Inv(s) && AwaitsResult(s, o, i) && IsItem(s, o, i)
    requires Reporting(s, o, i, result, reported)
    ensures Inv(Collect(s, o, i, result, stamp).(reported := reported))
  {
    hide R.Inv, LinksPart, ReportedPart, SumsPart;
    var run := s.orders[o].run;
    assert RunInv(run);
    assert AcceptedOrder(run.order);
    assert result.requestedQty >= 0;
    hide RunInv;
    CollectKeepsLinks(s, o, i, result, stamp, reported);
    CollectKeepsSums(s, o, i, result, stamp, reported);
    ItemDoneKeepsInv(run, i, result, stamp);
  }

  lemma TimerKeepsRest(config: Config, s: State, o: nat)
    requires LinksPart(s) && ReportedPart(s) && SumsPart(s) && Enabled(s, Timer(o))
    ensures LinksPart(Next(config, s, Timer(o))) && ReportedPart(Next(config, s, Timer(o)))
    ensures SumsPart(Next(config, s, Timer(o)))
  {
    var s' := Next(config, s, Timer(o));
    assert s'.orders[o].run.agg.results == s.orders[o].run.agg.results;
    hide Deliver;
    forall p: nat, j: nat | p < |s'.orders|
      ensures LinkOk(s', p, j)
    {
      assert LinkOk(s, p, j);
    }
    forall c | c in s'.reported
      ensures !Waiting(s'.orders[s'.owner[c].0].run, s'.owner[c].1)
    {
      assert !Waiting(s.orders[s.owner[c].0].run, s.owner[c].1);
    }
    forall sku: string
      ensures Held(s'.orders, sku) <= ReportedQty(s'.inventory.calls, s'.reported, sku)
    {
      HeldGrows(s.orders, o, s'.orders[o].run, sku, 0);
    }
    assert s'.events[..|s.events|] == s.events;
  }

  lemma TimerStepKeepsInv(config: Config, s: State, o: nat)
    requires Inv(s) && Enabled(s, Timer(o))
    ensures Inv(Next(config, s, Timer(o)))
  {
    hide R.Inv, RunInv, LinksPart, ReportedPart, SumsPart, Deliver;
    TimerKeepsInv(s.orders[o].run);
    TimerKeepsRest(config, s, o);
  }

  /** Order o now stands at `run`, which has the same results and outcomes as before. */
  lemma QuietMoveKeepsRest(s: State, o: nat, run: Run)
    requires LinksPart(s) && ReportedPart(s) && SumsPart(s) && o < |s.orders|
    requires run.order == s.orders[o].run.order && run.outcomes == s.orders[o].run.outcomes
    requires run.agg.results == s.orders[o].run.agg.results
    ensures var s' := s.(orders := s.orders[o := s.orders[o].(run := run)]);
            LinksPart(s') && ReportedPart(s') && SumsPart(s')
  {
    var s' := s.(orders := s.orders[o := s.orders[o].(run := run)]);
    forall p: nat, j: nat | p < |s'.orders|
      ensures LinkOk(s', p, j)
    {
      assert LinkOk(s, p, j);
    }
    forall sku: string
      ensures Held(s'.orders, sku) <= ReportedQty(s'.inventory.calls, s'.reported, sku)
    {
      HeldGrows(s.orders, o, run, sku, 0);
    }
  }

  lemma ArmKeepsInv(config: Config, s: State, o: nat)
    requires Inv(s) && Enabled(s, ArmTimer(o))
    ensures Inv(Next(config, s, ArmTimer(o)))
  {
    hide R.Inv, RunInv, LinksPart, ReportedPart, SumsPart, SoftDelay;
    ArmKeepsRunInv(s.orders[o].run, s.now, config.margin);
    QuietMoveKeepsRest(s, o, Arm(s.orders[o].run, s.now, config.margin));
  }

  lemma EndKeepsInv(config: Config, s: State, o: nat)
    requires Inv(s) && Enabled(s, EndInError(o))
    ensures Inv(Next(config, s, EndInError(o)))
  {
    hide R.Inv, RunInv, LinksPart, ReportedPart, SumsPart;
    EndKeepsRunInv(s.orders[o].run);
    QuietMoveKeepsRest(s, o, EndsInError(s.orders[o].run));
  }

  // ---------- All steps, all runs ----------

  lemma UnreportedWhileWaiting(s: State, o: nat, i: nat)
    requires LinksPart(s) && ReportedPart(s) && AwaitsResult(s, o, i) && IsItem(s, o, i) && s.orders[o].calls[i].Some?
    ensures s.orders[o].calls[i].value !in s.reported
  {
    assert LinkOk(s, o, i);
  }

  lemma ReplyReports(config: Config, s: State, o: nat, i: nat, stamp: string)
    requires LinksPart(s) && ReportedPart(s) && Enabled(s, Reply(o, i, stamp))
    ensures var result := Collected(s.orders[o].run.order.items[i], s.inventory.calls[s.orders[o].calls[i].value]);
            var s' := Next(config, s, Reply(o, i, stamp));
            && Reporting(s, o, i, result, s'.reported)
            && s' == Collect(s, o, i, result, stamp).(reported := s'.reported)
  {
    UnreportedWhileWaiting(s, o, i);
    var c := s.orders[o].calls[i].value;
    assert LinkOk(s, o, i);
    EveryPathKeepsIdentity(s.orders[o].run.order.items[i], s.inventory.calls[c], Unknown);
  }

  lemma SendKeepsInv(config: Config, s: State, o: nat, i: nat, t: nat)
    requires Inv(s) && Enabled(s, Send(o, i, t))
    ensures Inv(Next(config, s, Send(o, i, t)))
  {
    var item := Remote(s.orders[o].run.order.items[i]);
    assert RunInv(s.orders[o].run) && AcceptedOrder(s.orders[o].run.order);
    hide R.Inv, RunInv;
    assert item.quantity > 0;
    var inventory := R.Next(s.inventory, R.Invoke(t, item));
    assert R.Inv(s.inventory) && LinksPart(s);
    StockStepKeepsStock(s, R.Invoke(t, item));
    InventoryMoveKeepsInv(s, inventory);
    hide Inv;
    LinkKeepsInv(s.(inventory := inventory), o, i, |s.inventory.calls|);
  }

  lemma StepKeepsInv(config: Config, s: State, step: Step)
    requires Inv(s) && Enabled(s, step)
    ensures Inv(Next(config, s, step))
  {
    hide R.Inv, RunInv, LinksPart, ReportedPart, SumsPart;
    match step {
      case Submit(order, caller) =>
        SubmitKeepsInv(config, s, order, caller);
      case Send(o, i, t) =>
        SendKeepsInv(config, s, o, i, t);
      case StockStep(inner) =>
        StockStepKeepsStock(s, inner);
        InventoryMoveKeepsInv(s, R.Next(s.inventory, inner));
      case OtherClient(t, item) =>
        StockStepKeepsStock(s, R.Invoke(t, item));
        InventoryMoveKeepsInv(s, R.Next(s.inventory, R.Invoke(t, item)));
      case Reply(o, i, stamp) =>
        ReplyReports(config, s, o, i, stamp);
        var call := s.inventory.calls[s.orders[o].calls[i].value];
        CollectKeepsInv(s, o, i, Collected(s.orders[o].run.order.items[i], call), stamp,
                        Next(config, s, step).reported);
      case Fail(o, i, error, stamp) =>
        CollectKeepsInv(s, o, i, Failed(s.orders[o].run.order.items[i], error), stamp, s.reported);
      case ArmTimer(o) =>
        ArmKeepsInv(config, s, o);
      case Timer(o) =>
        TimerStepKeepsInv(config, s, o);
      case EndInError(o) =>
        EndKeepsInv(config, s, o);
      case Tick(_) =>
        TickKeepsInv(config, s, step);
    }
  }

  lemma TickKeepsInv(config: Config, s: State, step: Step)
    requires Inv(s) && Enabled(s, step) && step.Tick?
    ensures Inv(Next(config, s, step))
  {
    hide R.Inv, RunInv;
    var s' := Next(config, s, step);
    forall o: nat, i: nat | o < |s'.orders|
      ensures LinkOk(s', o, i)
    {
      assert LinkOk(s, o, i);
    }
  }

  lemma {:induction false} RunKeepsInv(config: Config, s: State, steps: seq<Step>)
    requires Inv(s) && ValidRun(config, s, steps)
    ensures Inv(Exec(config, s, steps))
    decreases |steps|
  {
    hide Inv;
    if steps != [] {
      StepKeepsInv(config, s, steps[0]);
      RunKeepsInv(config, Next(config, s, steps[0]), steps[1..]);
    }
  }

  /** Seen from the inventory service, every run of the composed system is one of its own runs, so
      everything proved about those holds here too. */
  lemma {:induction false} InventoryFollowsReservation(config: Config, s: State, steps: seq<Step>)
    returns (inner: seq<R.Step>)
    requires ValidRun(config, s, steps)
    ensures R.ValidRun(s.inventory, inner) && R.Exec(s.inventory, inner) == Exec(config, s, steps).inventory
    decreases |steps|
  {
    if steps == [] {
      inner := [];
    } else {
      inner := InventoryFollowsReservation(config, Next(config, s, steps[0]), steps[1..]);
      var first :=
        match steps[0] {
          case Send(o, i, t) => [R.Invoke(t, Remote(s.orders[o].run.order.items[i]))]
          case StockStep(step) => [step]
          case OtherClient(t, item) => [R.Invoke(t, item)]
          case _ => []
        };
      assert first != [] ==> (first + inner)[1..] == inner;
      assert first == [] ==> first + inner == inner;
      inner := first + inner;
    }
  }

  /** And every run of the inventory service is part of a composed run, with the orders standing still: other
      clients may send whatever they like, negative quantities included. */
  lemma {:induction false} ReservationIsComposed(config: Config, s: State, inner: seq<R.Step>)
    returns (steps: seq<Step>)
    requires R.ValidRun(s.inventory, inner)
    ensures ValidRun(config, s, steps)
    ensures Exec(config, s, steps) == s.(inventory := R.Exec(s.inventory, inner))
    decreases |inner|
  {
    if inner == [] {
      steps := [];
    } else {
      var step := if inner[0].Invoke? then OtherClient(inner[0].thread, inner[0].item) else StockStep(inner[0]);
      var s' := Next(config, s, step);
      assert s' == s.(inventory := R.Next(s.inventory, inner[0]));
      hide Next, Enabled, R.Next, R.Enabled;
      var rest := ReservationIsComposed(config, s', inner[1..]);
      steps := [step] + rest;
      assert steps[1..] == rest;
    }
  }

  /** A request may end with an error at any moment, and is answered 500 if it has no response yet. */
  lemma RequestMayEndInError(config: Config, s: State, o: nat)
    requires o < |s.orders| && RunInv(s.orders[o].run)
    ensures Enabled(s, EndInError(o))
    ensures var agg, agg' := s.orders[o].run.agg, Next(config, s, EndInError(o)).orders[o].run.agg;
            && agg'.results == agg.results && agg'.responseSent == agg.responseSent && agg'.doneCalls == agg.doneCalls
            && agg'.http == if agg.responseSent then agg.http else Http(Some(500), Text("internal server error\n"))
  {
    EndKeepsRunInv(s.orders[o].run);
  }

  lemma ReachableStateIsSound(config: Config, stock: map<string, int32>, steps: seq<Step>)
    requires ValidRun(config, Open(stock), steps)
    ensures Inv(Exec(config, Open(stock), steps))
    ensures Extends(R.Start(stock), Exec(config, Open(stock), steps).inventory)
  {
    R.StartInv(stock);
    hide R.Inv;
    RunKeepsInv(config, Open(stock), steps);
    var inner := InventoryFollowsReservation(config, Open(stock), steps);
    RunExtends(R.Start(stock), inner);
  }

  // ---------- Main results ----------

  lemma CellBounds(inventory: R.Service, stock: map<string, int32>, sku: string)
    requires R.Inv(inventory) && Extends(R.Start(stock), inventory) && sku in stock && stock[sku] >= 0
    ensures sku in inventory.cells && inventory.cells[sku] != []
    ensures stock[sku] == R.Stock(inventory.cells[sku]) + R.Accepted(inventory.calls, sku)
    ensures 0 <= R.Stock(inventory.cells[sku])
  {
    hide R.InProgramOrder;
    assert R.Start(stock).cells[sku] <= inventory.cells[sku];
    StockSafety.EntriesAreNonNegative(inventory.cells[sku], inventory.calls, sku);
  }

  lemma {:induction false} ListedIsReserved(results: seq<OrderItemResult>, sku: string)
    requires forall k | 0 <= k < |results| ::
               && results[k].requestedQty >= 0
               && (results[k].reserved ==> results[k].availableQty == results[k].requestedQty)
    ensures ListedQty(Reports(results), sku) == ReservedQty(results, sku) >= 0
  {
    if results != [] {
      var n := |results| - 1;
      ListedIsReserved(results[..n], sku);
      assert Reports(results)[..n] == Reports(results[..n]);
    }
  }

  /** The results an order has kept are genuine, so a reserved one lists the quantity it was asked for. */
  lemma KeptResultsAreHonest(s: State, o: nat)
    requires Inv(s) && o < |s.orders|
    ensures forall k | 0 <= k < |s.orders[o].run.agg.results| ::
              var result := s.orders[o].run.agg.results[k];
              result.requestedQty >= 0 && (result.reserved ==> result.availableQty == result.requestedQty)
  {
    hide R.Inv, Balanced, SumsPart, ReportedPart, AnsweredFrom;
    var run := s.orders[o].run;
    assert RunInv(run);
    assert FromOutcomes(run.agg.results, run.outcomes) by { KeptAreOutcomes(run); }
    forall k | 0 <= k < |run.agg.results|
      ensures run.agg.results[k].requestedQty >= 0
      ensures run.agg.results[k].reserved ==> run.agg.results[k].availableQty == run.agg.results[k].requestedQty
    {
      KeptIsOutcome(run.agg.results, run.outcomes, k);
      var i :| 0 <= i < |run.outcomes| && run.outcomes[i] == Some(run.agg.results[k]);
      assert LinkOk(s, o, i) && IsItem(s, o, i);
    }
  }

  lemma KeptAreOutcomes(run: Run)
    requires RunInv(run)
    ensures FromOutcomes(run.agg.results, run.outcomes)
  {
    hide Arrived;
  }

  lemma {:induction false} ToldIsHeld(s: State, n: nat, sku: string)
    requires Inv(s) && n <= |s.orders|
    ensures 0 <= Told(s.orders[..n], sku) <= Held(s.orders[..n], sku)
  {
    hide Inv, AcceptedOrder;
    if n > 0 {
      ToldIsHeld(s, n - 1, sku);
      KeptResultsAreHonest(s, n - 1);
      ListedIsReserved(s.orders[n - 1].run.agg.results, sku);
      assert s.orders[..n][..n - 1] == s.orders[..n - 1];
      ResponsesListResults(s, n - 1);
    }
  }

  lemma ResponsesListResults(s: State, o: nat)
    requires Inv(s) && o < |s.orders|
    ensures var agg := s.orders[o].run.agg;
            agg.http.body.Json? ==> agg.http.body.response.items == Reports(agg.results)
  {
    hide R.Inv, LinksPart, ReportedPart, SumsPart;
    assert RunInv(s.orders[o].run);
  }

  /** In every reachable state, for every SKU, what customers have been told is reserved for them is at most
      what all orders hold, which is at most what has left the stock - also when orders time out or calls fail
      after reserving. Other clients may give units back with negative quantities, which the inventory service
      accepts; they count as having been in stock. Without them the bound is the initial stock. */
  lemma NoOverselling(config: Config, stock: map<string, int32>, steps: seq<Step>, sku: string)
    requires ValidRun(config, Open(stock), steps) && sku in stock && stock[sku] >= 0
    ensures var s := Exec(config, Open(stock), steps);
            && sku in s.inventory.cells && s.inventory.cells[sku] != []
            && 0 <= Told(s.orders, sku) <= Held(s.orders, sku)
            && var back := StockSafety.GivenBack(s.inventory.calls, sku);
            && Held(s.orders, sku) <= stock[sku] + back - R.Stock(s.inventory.cells[sku]) <= stock[sku] + back
            && (back == 0 <==> StockSafety.AcceptedAreNonNegative(s.inventory.calls, sku))
  {
    hide R.Inv, RunInv;
    ReachableStateIsSound(config, stock, steps);
    var s := Exec(config, Open(stock), steps);
    ReportedIsAccepted(s.inventory.calls, s.reported, sku);
    StockSafety.NothingGivenBackIff(s.inventory.calls, sku);
    CellBounds(s.inventory, stock, sku);
    ToldIsHeld(s, |s.orders|, sku);
    assert s.orders[..|s.orders|] == s.orders;
  }

  /** Whatever item result an order has: it carries what was submitted; it says reserved exactly when the
      item's own reservation was accepted; and if it says OUT_OF_STOCK, the stock is still too small. */
  lemma ItemResultsAreTrue(config: Config, stock: map<string, int32>, steps: seq<Step>, o: nat, i: nat)
    requires ValidRun(config, Open(stock), steps) && o < |Exec(config, Open(stock), steps).orders|
    requires var run := Exec(config, Open(stock), steps).orders[o].run;
             i < |run.outcomes| == |run.order.items| && run.outcomes[i].Some?
    ensures var s := Exec(config, Open(stock), steps);
            var item, result := s.orders[o].run.order.items[i], s.orders[o].run.outcomes[i].value;
            && CarriesIdentity(item, result)
            && (result.reserved <==> result.status == Confirmed)
            && (result.status == Confirmed || result.status == OutOfStock || result.status == ProcessingError)
            && (result.error != "" ==> result.status == ProcessingError)
            && (result.reserved ==>
                  && result.availableQty == item.quantity
                  && i < |s.orders[o].calls| && s.orders[o].calls[i].Some?
                  && s.orders[o].calls[i].value < |s.inventory.calls|
                  && var call := s.inventory.calls[s.orders[o].calls[i].value];
                  && call.phase.Reserved? && call.item.sku == item.sku && call.item.quantity == item.quantity)
            && (result.status == OutOfStock ==> result.availableQty < item.quantity)
            && (result.status == OutOfStock && item.sku in stock ==>
                  && item.sku in s.inventory.cells && s.inventory.cells[item.sku] != []
                  && (StockSafety.AcceptedAreNonNegative(s.inventory.calls, item.sku) ==>
                        R.Stock(s.inventory.cells[item.sku]) <= result.availableQty))
            && (item.sku !in stock ==> !result.reserved && result.availableQty == 0)
  {
    ReachableStateIsSound(config, stock, steps);
    var s := Exec(config, Open(stock), steps);
    hide R.CellInv, R.InProgramOrder, SumsPart, ReportedPart, Balanced, AnsweredFrom;
    var placed := s.orders[o];
    assert RunInv(placed.run);
    assert LinkOk(s, o, i) && IsItem(s, o, i);
    var item, result := placed.run.order.items[i], placed.run.outcomes[i].value;
    if result != Failed(item, Exception(result.error)) {
      var c := placed.calls[i].value;
      if s.inventory.calls[c].phase.Rejected? && item.sku in stock {
        StockSafety.CallIsOk(s.inventory.cells[item.sku], s.inventory.calls, item.sku, c);
        if StockSafety.AcceptedAreNonNegative(s.inventory.calls, item.sku) {
          StockSafety.RejectionStands(s.inventory.cells[item.sku], s.inventory.calls, item.sku, c);
        }
      }
    }
  }

  /** Whatever item a customer's response lists, even after a timeout: it shows, field by field, the result of an
      item of the order; it says
      reserved exactly with CONFIRMED and then gives the ordered quantity; OUT_OF_STOCK comes with a number
      below that quantity which the stock does not exceed; and a text stands only with a failed call. */
  lemma ListedItemsAreTrue(config: Config, stock: map<string, int32>, steps: seq<Step>, o: nat, k: nat) returns (i: nat)
    requires ValidRun(config, Open(stock), steps) && o < |Exec(config, Open(stock), steps).orders|
    requires var agg := Exec(config, Open(stock), steps).orders[o].run.agg;
             agg.http.body.Json? && k < |agg.http.body.response.items|
    ensures var s := Exec(config, Open(stock), steps);
            var run, listed := s.orders[o].run, s.orders[o].run.agg.http.body.response.items[k];
            && i < |run.order.items| == |run.outcomes| && run.outcomes[i].Some?
            && var item := run.order.items[i];
            && Shows(listed, run.outcomes[i].value)
            && listed.itemId == item.itemId && listed.sku == item.sku
            && (listed.reserved <==> listed.status == Confirmed)
            && (listed.reserved ==> listed.availableQty == item.quantity && listed.error == None)
            && (listed.status == OutOfStock ==> listed.availableQty < item.quantity)
            && (listed.status == OutOfStock && item.sku in stock ==>
                  && item.sku in s.inventory.cells && s.inventory.cells[item.sku] != []
                  && (StockSafety.AcceptedAreNonNegative(s.inventory.calls, item.sku) ==>
                        R.Stock(s.inventory.cells[item.sku]) <= listed.availableQty))
            && (listed.error.Some? ==> listed.status == ProcessingError)
  {
    hide R.Inv, LinksPart, SumsPart, ReportedPart;
    ReachableStateIsSound(config, stock, steps);
    var s := Exec(config, Open(stock), steps);
    var run := s.orders[o].run;
    ResponsesListResults(s, o);
    KeptAreOutcomes(run);
    KeptIsOutcome(run.agg.results, run.outcomes, k);
    hide Exec, RunInv;
    i :| 0 <= i < |run.outcomes| && run.outcomes[i] == Some(run.agg.results[k]);
    ItemResultsAreTrue(config, stock, steps, o, i);
  }

  /** No two items, of one order or of different ones, ever stand on the same reservation. */
  lemma ReservationsAreNotShared(s: State, o: nat, i: nat, p: nat, j: nat)
    requires Inv(s) && IsItem(s, o, i) && IsItem(s, p, j) && (o, i) != (p, j)
    requires s.orders[o].calls[i].Some?
    ensures s.orders[o].calls[i] != s.orders[p].calls[j]
  {
    hide R.Inv, OrdersPart, SumsPart, ReportedPart;
    assert LinkOk(s, o, i) && LinkOk(s, p, j);
  }

  lemma ReservedItemIsAccepted(s: State, o: nat, i: nat)
    requires Inv(s) && IsItem(s, o, i) && i < |s.orders[o].run.outcomes|
    requires s.orders[o].run.outcomes[i].Some? && s.orders[o].run.outcomes[i].value.reserved
    ensures var placed := s.orders[o];
            && placed.calls[i].Some? && placed.calls[i].value < |s.inventory.calls|
            && var item, call := placed.run.order.items[i], s.inventory.calls[placed.calls[i].value];
            && call.phase.Reserved? && call.item.sku == item.sku && call.item.quantity == item.quantity
  {
    hide R.Inv, OrdersPart, SumsPart, ReportedPart;
    assert LinkOk(s, o, i);
  }

  /** A customer who is told CONFIRMED has, for every item of the order, a reservation for exactly that SKU and
      quantity that stands behind no other item of any order, and pays exactly the submitted total. */
  lemma ConfirmedMeansReserved(config: Config, stock: map<string, int32>, steps: seq<Step>, o: nat)
    requires ValidRun(config, Open(stock), steps) && o < |Exec(config, Open(stock), steps).orders|
    requires var agg := Exec(config, Open(stock), steps).orders[o].run.agg;
             agg.http.body.Json? && agg.http.body.response.status == Confirmed
    ensures var s := Exec(config, Open(stock), steps);
            var placed, items := s.orders[o], s.orders[o].run.order.items;
            && placed.run.agg.http.body.response.totalAmount == SubmittedTotal(items)
            && |placed.run.agg.http.body.response.items| == |items| == |placed.calls|
            && (forall i | 0 <= i < |items| ::
                  && placed.calls[i].Some? && placed.calls[i].value < |s.inventory.calls|
                  && var call := s.inventory.calls[placed.calls[i].value];
                  && call.phase.Reserved? && call.item.sku == items[i].sku && call.item.quantity == items[i].quantity)
            && (forall p: nat, j: nat, i: nat | p < |s.orders| && j < |s.orders[p].calls| && i < |items| ::
                  (p, j) != (o, i) ==> s.orders[p].calls[j] != placed.calls[i])
  {
    hide R.Inv, SumsPart, ReportedPart;
    ReachableStateIsSound(config, stock, steps);
    var s := Exec(config, Open(stock), steps);
    var placed := s.orders[o];
    assert RunInv(placed.run) && AcceptedOrder(placed.run.order);
    assert placed.run.agg.responseSent;
    CompletedResponse(placed.run);
    hide RunInv, Inv, Exec, ValidRun, Report;
    var items := placed.run.order.items;
    forall i: nat | i < |items|
      ensures placed.calls[i].Some? && placed.calls[i].value < |s.inventory.calls|
      ensures var call := s.inventory.calls[placed.calls[i].value];
              call.phase.Reserved? && call.item.sku == items[i].sku && call.item.quantity == items[i].quantity
    {
      ReservedItemIsAccepted(s, o, i);
    }
    forall p: nat, j: nat, i: nat | p < |s.orders| && j < |s.orders[p].calls| && i < |items| && (p, j) != (o, i)
      ensures s.orders[p].calls[j] != placed.calls[i]
    {
      ReservationsAreNotShared(s, o, i, p, j);
    }
  }

  /** What an answered order was told. Without a timeout it carries the submitted total - although no price
      crossed the inventory call - and the outcome of every item once, and it is CONFIRMED exactly when every
      item was reserved. A timeout lists fewer items than were ordered, each with an outcome of its own, and
      carries the total of those, or the submitted total if it lists none. */
  lemma AnswerIsRight(config: Config, stock: map<string, int32>, steps: seq<Step>, o: nat)
    requires ValidRun(config, Open(stock), steps) && o < |Exec(config, Open(stock), steps).orders|
    requires Exec(config, Open(stock), steps).orders[o].run.agg.responseSent
    ensures var run := Exec(config, Open(stock), steps).orders[o].run;
            && run.agg.http.body.Json?
            && var response := run.agg.http.body.response;
            && response.orderId == run.order.id
            && (if response.status == TimedOut then
                  && run.timerFired && |response.items| < |run.order.items|
                  && response.items == Reports(run.agg.results) && FromOutcomes(run.agg.results, run.outcomes)
                  && response.totalAmount
                     == if response.items == [] then SubmittedTotal(run.order.items) else Total(run.agg.results)
                else
                  && response.totalAmount == SubmittedTotal(run.order.items)
                  && |response.items| == |run.order.items|
                  && (forall i | 0 <= i < |run.outcomes| :: run.outcomes[i].Some?)
                  && multiset(response.items) == multiset(Reports(Arrived(run.outcomes)))
                  && (response.status == Confirmed || response.status == PartiallyConfirmed)
                  && (response.status == Confirmed <==>
                        forall i | 0 <= i < |run.outcomes| :: run.outcomes[i].value.reserved))
  {
    hide R.Inv, LinksPart, ReportedPart, SumsPart;
    ReachableStateIsSound(config, stock, steps);
    var run := Exec(config, Open(stock), steps).orders[o].run;
    assert RunInv(run) && AcceptedOrder(run.order) && AnsweredFrom(run);
    hide Exec, Inv;
    if run.agg.http.body.response.status == TimedOut {
      TimedOutResponse(run);
    } else {
      CompletedResponse(run);
    }
  }

  /** The event counter for successes never exceeds the number of accepted reservations. */
  lemma SuccessesAreReservations(config: Config, stock: map<string, int32>, steps: seq<Step>)
    requires ValidRun(config, Open(stock), steps)
    ensures var s := Exec(config, Open(stock), steps);
            Successes(s.events) <= |set c | 0 <= c < |s.inventory.calls| && s.inventory.calls[c].phase.Reserved?|
  {
    hide R.Inv, RunInv;
    ReachableStateIsSound(config, stock, steps);
    var s := Exec(config, Open(stock), steps);
    var reserved := set c | 0 <= c < |s.inventory.calls| && s.inventory.calls[c].phase.Reserved?;
    SubsetIsSmaller(set c: nat | c in s.reported :: c as int, reserved);
    SameSize(s.reported);
  }

  lemma SubsetIsSmaller(a: set<int>, b: set<int>)
    requires a <= b
    ensures |a| <= |b|
  {
    assert b == a + (b - a);
  }

  lemma {:induction false} SameSize(a: set<nat>)
    ensures |set c: nat | c in a :: c as int| == |a|
  {
    var b: set<int> := a;
    assert b == set c: nat | c in a :: c as int;
  }

  /** However item calls and timers interleave, an order whose timer has fired or whose items all have
      their result has been answered exactly once, and no order is answered twice. */
  lemma ExactlyOneResponse(config: Config, stock: map<string, int32>, steps: seq<Step>, o: nat)
    requires ValidRun(config, Open(stock), steps) && o < |Exec(config, Open(stock), steps).orders|
    ensures var run := Exec(config, Open(stock), steps).orders[o].run;
            && run.agg.doneCalls == (if run.agg.responseSent then 1 else 0)
            && (!run.agg.responseSent ==> |run.agg.results| < |run.order.items|)
            && (run.agg.responseSent <==> run.timerFired || forall i | 0 <= i < |run.outcomes| :: run.outcomes[i].Some?)
  {
    hide R.Inv;
    ReachableStateIsSound(config, stock, steps);
    var run := Exec(config, Open(stock), steps).orders[o].run;
    assert RunInv(run);
    NothingMissing(run.order.items, run.outcomes);
  }
}
