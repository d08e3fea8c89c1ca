/**
 One accepted order from submission to response: its items complete in any order, each once, and
 its timer fires at any moment relative to them.
 */
module OrderRun {
  import opened Types
  import opened Aggregation
  import opened Submission
  import opened ItemPath

  /** `fireAt` is when the timer will fire, once it is armed; `outcomes[i]` is what item i's call collected,
      once it has. */
  datatype Run = Run(
    order: Order, start: int, deadline: int, fireAt: Option<int>, timerFired: bool,
    outcomes: seq<Option<OrderItemResult>>, agg: Aggregate)

  function Begin(order: Order, caller: Option<int>, start: int, timeout: int): Run {
    Run(order, start, EffectiveDeadline(caller, start, timeout), None, false, seq(|order.items|, _ => None), FRESH)
  }

  /** The order reaches the delay, which reads the clock for itself. */
  function Arm(run: Run, now: int, margin: int): Run {
    run.(fireAt := Some(now + SoftDelay(Some(run.deadline), now, margin)))
  }

  predicate Waiting(run: Run, i: nat) {
    i < |run.outcomes| && run.outcomes[i].None?
  }

  function ItemDone(run: Run, i: nat, result: OrderItemResult, now: string): Run
    requires Waiting(run, i)
  {
    run.(outcomes := run.outcomes[i := Some(result)], agg := Deliver(run.order, run.agg, ItemState(result, now)))
  }

  function TimerFires(run: Run): Run {
    run.(timerFired := true, agg := Deliver(run.order, run.agg, TimeoutState(run.order)))
  }

  /** The request ends with an error, at any moment; states may still reach its callback afterwards. */
  function EndsInError(run: Run): Run {
    run.(agg := EndRequest(run.agg, true))
  }

  // ---------- The invariant ----------

  function Missing(outcomes: seq<Option<OrderItemResult>>): nat {
    if outcomes == [] then 0
    else Missing(outcomes[..|outcomes| - 1]) + if outcomes[|outcomes| - 1].None? then 1 else 0
  }

  /** The part of the submitted total that belongs to items without a result. */
  function MissingTotal(items: seq<OrderItem>, outcomes: seq<Option<OrderItemResult>>): real
    requires |items| == |outcomes|
  {
    if items == [] then 0.0
    else
      var n := |items| - 1;
      MissingTotal(items[..n], outcomes[..n])
      + if outcomes[n].None? then (items[n].quantity as real) * items[n].unitPrice else 0.0
  }

  /** The results that items have. */
  function Arrived(outcomes: seq<Option<OrderItemResult>>): seq<OrderItemResult> {
    if outcomes == [] then []
    else
      var last := outcomes[|outcomes| - 1];
      Arrived(outcomes[..|outcomes| - 1]) + if last.Some? then [last.value] else []
  }

  /** Every result that was kept is the outcome of an item of its own. */
  ghost predicate FromOutcomes(results: seq<OrderItemResult>, outcomes: seq<Option<OrderItemResult>>) {
    multiset(results) <= multiset(Arrived(outcomes))
  }

  /** `results` and `outcomes` hold the same results, each as often. */
  ghost predicate SameResults(results: seq<OrderItemResult>, outcomes: seq<Option<OrderItemResult>>) {
    multiset(results) == multiset(Arrived(outcomes))
  }

  /** Every result that arrived has been kept, and what is missing makes up the rest of the total. */
  ghost predicate Balanced(run: Run)
    requires |run.outcomes| == |run.order.items|
  {
    && |run.agg.results| + Missing(run.outcomes) == |run.order.items|
    && Total(run.agg.results) + MissingTotal(run.order.items, run.outcomes) == run.order.totalAmount
    && SameResults(run.agg.results, run.outcomes)
  }

  ghost predicate AnsweredFrom(run: Run) {
    && run.agg.doneCalls == 1 && run.agg.http.status == Some(200) && run.agg.http.body.Json?
    && run.agg.http.body.response == Answer(run.order, run.agg.http.body.response.status, run.agg.results)
  }

  /** No response has been written, but an error end of the request may have been. */
  predicate Unanswered(agg: Aggregate) {
    && !agg.responseSent && agg.doneCalls == 0
    && (agg.http == FRESH.http || agg.http == EndRequest(FRESH, true).http)
  }

  ghost predicate RunInv(run: Run) {
    && AcceptedOrder(run.order)
    && |run.outcomes| == |run.order.items|
    && (forall i | 0 <= i < |run.outcomes| && run.outcomes[i].Some? ::
          CarriesIdentity(run.order.items[i], run.outcomes[i].value))
    && (if !run.agg.responseSent then
          && !run.timerFired && Unanswered(run.agg)
          && Balanced(run) && Missing(run.outcomes) > 0
        else
          && AnsweredFrom(run)
          && (if run.agg.http.body.response.status.TimedOut? then
                run.timerFired && |run.agg.results| < |run.order.items| && FromOutcomes(run.agg.results, run.outcomes)
              else
                Balanced(run) && Missing(run.outcomes) == 0))
  }

  lemma {:induction false} MissingUpdate(outcomes: seq<Option<OrderItemResult>>, i: nat, result: OrderItemResult)
    requires i < |outcomes| && outcomes[i].None?
    ensures Missing(outcomes[i := Some(result)]) == Missing(outcomes) - 1
  {
    var n := |outcomes| - 1;
    if i < n {
      MissingUpdate(outcomes[..n], i, result);
      assert outcomes[i := Some(result)][..n] == outcomes[..n][i := Some(result)];
    } else {
      assert outcomes[i := Some(result)][..n] == outcomes[..n];
    }
  }

  lemma {:induction false} MissingTotalUpdate(
    items: seq<OrderItem>, outcomes: seq<Option<OrderItemResult>>, i: nat, result: OrderItemResult)
    requires |items| == |outcomes| && i < |outcomes| && outcomes[i].None? && CarriesIdentity(items[i], result)
    ensures MissingTotal(items, outcomes[i := Some(result)]) == MissingTotal(items, outcomes) - Price(result)
  {
    var n := |outcomes| - 1;
    if i < n {
      MissingTotalUpdate(items[..n], outcomes[..n], i, result);
      assert outcomes[i := Some(result)][..n] == outcomes[..n][i := Some(result)];
    } else {
      assert outcomes[i := Some(result)][..n] == outcomes[..n];
    }
  }

  lemma {:induction false} NothingMissing(items: seq<OrderItem>, outcomes: seq<Option<OrderItemResult>>)
    requires |items| == |outcomes|
    ensures Missing(outcomes) == 0 ==> MissingTotal(items, outcomes) == 0.0
    ensures Missing(outcomes) == 0 <==> forall i | 0 <= i < |outcomes| :: outcomes[i].Some?
    ensures Missing(outcomes) <= |outcomes|
  {
    if items != [] {
      var n := |items| - 1;
      NothingMissing(items[..n], outcomes[..n]);
      assert forall i | 0 <= i < n :: outcomes[..n][i] == outcomes[i];
    }
  }

  lemma {:induction false} EverythingMissing(items: seq<OrderItem>)
    ensures Missing(seq(|items|, _ => None)) == |items|
    ensures MissingTotal(items, seq(|items|, _ => None)) == SubmittedTotal(items)
  {
    if items != [] {
      var n := |items| - 1;
      EverythingMissing(items[..n]);
      var none: seq<Option<OrderItemResult>> := seq(|items|, _ => None);
      assert none[..n] == seq(n, _ => None);
    }
  }

  lemma BeginEstablishesInv(order: Order, caller: Option<int>, start: int, timeout: int)
    requires AcceptedOrder(order)
    ensures RunInv(Begin(order, caller, start, timeout))
  {
    EverythingMissing(order.items);
    ArrivedIff(Begin(order, caller, start, timeout).outcomes);
  }

  lemma ArmKeepsRunInv(run: Run, now: int, margin: int)
    requires RunInv(run)
    ensures RunInv(Arm(run, now, margin))
  {
    hide AcceptedOrder, FromOutcomes;
  }

  lemma EndKeepsRunInv(run: Run)
    requires RunInv(run)
    ensures RunInv(EndsInError(run))
    ensures EndsInError(run).agg == run.agg.(http := EndsInError(run).agg.http)
    ensures EndsInError(run).agg.http
            == if run.agg.responseSent then run.agg.http else Http(Some(500), Text("internal server error\n"))
  {
    hide AcceptedOrder, FromOutcomes, SameResults, Missing, MissingTotal, Total;
  }

  lemma OneMoreArrived(outcomes: seq<Option<OrderItemResult>>)
    requires outcomes != []
    ensures var n := |outcomes| - 1;
            multiset(Arrived(outcomes))
            == multiset(Arrived(outcomes[..n]))
               + if outcomes[n].Some? then multiset{outcomes[n].value} else multiset{}
  {
  }

  lemma {:induction false} ArrivedUpdate(outcomes: seq<Option<OrderItemResult>>, i: nat, result: OrderItemResult)
    requires i < |outcomes| && outcomes[i].None?
    ensures multiset(Arrived(outcomes[i := Some(result)])) == multiset(Arrived(outcomes)) + multiset{result}
  {
    hide Arrived;
    var n := |outcomes| - 1;
    OneMoreArrived(outcomes);
    OneMoreArrived(outcomes[i := Some(result)]);
    if i < n {
      ArrivedUpdate(outcomes[..n], i, result);
      assert outcomes[i := Some(result)][..n] == outcomes[..n][i := Some(result)];
    } else {
      assert outcomes[i := Some(result)][..n] == outcomes[..n];
    }
  }

  lemma {:induction false} ArrivedIff(outcomes: seq<Option<OrderItemResult>>)
    ensures forall result :: result in Arrived(outcomes) <==> Some(result) in outcomes
    ensures |Arrived(outcomes)| + Missing(outcomes) == |outcomes|
  {
    if outcomes != [] {
      var n := |outcomes| - 1;
      ArrivedIff(outcomes[..n]);
      assert outcomes == outcomes[..n] + [outcomes[n]];
    }
  }

  /** A kept result is the outcome of some item. */
  lemma KeptIsOutcome(results: seq<OrderItemResult>, outcomes: seq<Option<OrderItemResult>>, k: nat)
    requires FromOutcomes(results, outcomes) && k < |results|
    ensures Some(results[k]) in outcomes
  {
    ArrivedIff(outcomes);
    hide Arrived;
    assert results[k] in multiset(results);
    assert results[k] in multiset(Arrived(outcomes));
  }

  lemma ResultKeepsBalance(run: Run, i: nat, result: OrderItemResult)
    requires |run.outcomes| == |run.order.items| && Balanced(run)
    requires Waiting(run, i) && CarriesIdentity(run.order.items[i], result)
    ensures Balanced(run.(outcomes := run.outcomes[i := Some(result)],
                          agg := run.agg.(results := run.agg.results + [result])))
  {
    hide Arrived;
    MissingUpdate(run.outcomes, i, result);
    MissingTotalUpdate(run.order.items, run.outcomes, i, result);
    ArrivedUpdate(run.outcomes, i, result);
    assert (run.agg.results + [result])[..|run.agg.results|] == run.agg.results;
  }

  /** What the callback does with one more item result while nothing has been answered. */
  lemma ResultIsKept(run: Run, i: nat, result: OrderItemResult, now: string)
    requires RunInv(run) && Waiting(run, i) && !run.agg.responseSent
    ensures var run' := ItemDone(run, i, result, now);
            && run'.agg.results == run.agg.results + [result]
            && run'.outcomes == run.outcomes[i := Some(result)]
            && (if |run'.agg.results| < |run.order.items| then run'.agg == run.agg.(results := run'.agg.results)
                else run'.agg.responseSent && AnsweredFrom(run') && !run'.agg.http.body.response.status.TimedOut?)
  {
    hide Balanced, AcceptedOrder;
  }

  lemma LateItemKeepsInv(run: Run, i: nat, result: OrderItemResult, now: string)
    requires RunInv(run) && Waiting(run, i) && CarriesIdentity(run.order.items[i], result) && run.agg.responseSent
    ensures RunInv(ItemDone(run, i, result, now))
  {
    hide AcceptedOrder, Arrived;
    NothingMissing(run.order.items, run.outcomes);
    ArrivedUpdate(run.outcomes, i, result);
  }

  lemma ItemDoneKeepsInv(run: Run, i: nat, result: OrderItemResult, now: string)
    requires RunInv(run) && Waiting(run, i) && CarriesIdentity(run.order.items[i], result)
    ensures RunInv(ItemDone(run, i, result, now))
  {
    hide SameResults, AcceptedOrder, AnsweredFrom, Missing, MissingTotal, Total;
    if run.agg.responseSent {
      LateItemKeepsInv(run, i, result, now);
    } else {
      ResultIsKept(run, i, result, now);
      ResultKeepsBalance(run, i, result);
      hide ItemDone;
      NothingMissing(run.order.items, run.outcomes[i := Some(result)]);
    }
  }

  lemma TimerKeepsInv(run: Run)
    requires RunInv(run)
    ensures RunInv(TimerFires(run))
  {
    hide Arrived, AcceptedOrder;
  }

  // ---------- What an answered order was told ----------

  /** Once the timer has fired or every item has a result, the response has been sent. */
  lemma AnsweredWhenOver(run: Run)
    requires RunInv(run)
    requires run.timerFired || forall i | 0 <= i < |run.outcomes| :: run.outcomes[i].Some?
    ensures run.agg.responseSent && run.agg.doneCalls == 1
  {
    NothingMissing(run.order.items, run.outcomes);
  }

  lemma {:induction false} ArrivedAllReserved(outcomes: seq<Option<OrderItemResult>>)
    requires forall i | 0 <= i < |outcomes| :: outcomes[i].Some?
    ensures |Arrived(outcomes)| == |outcomes|
    ensures AllReserved(Arrived(outcomes)) <==> forall i | 0 <= i < |outcomes| :: outcomes[i].value.reserved
  {
    if outcomes != [] {
      var n := |outcomes| - 1;
      ArrivedAllReserved(outcomes[..n]);
      assert Arrived(outcomes) == Arrived(outcomes[..n]) + [outcomes[n].value];
      assert AllReserved(Arrived(outcomes)) <==> AllReserved(Arrived(outcomes[..n])) && outcomes[n].value.reserved by {
        var arrived := Arrived(outcomes);
        assert forall k | 0 <= k < n :: arrived[k] == Arrived(outcomes[..n])[k];
        assert arrived[n] == outcomes[n].value;
      }
    }
  }

  /** With nothing missing, the collected results are exactly the items' outcomes. */
  lemma ResultsAreOutcomes(run: Run)
    requires |run.outcomes| == |run.order.items| && Balanced(run) && Missing(run.outcomes) == 0
    ensures forall i | 0 <= i < |run.outcomes| :: run.outcomes[i].Some?
    ensures AllReserved(Arrived(run.outcomes)) <==> forall i | 0 <= i < |run.outcomes| :: run.outcomes[i].value.reserved
    ensures AllReserved(run.agg.results) <==> AllReserved(Arrived(run.outcomes))
    ensures multiset(Reports(run.agg.results)) == multiset(Reports(Arrived(run.outcomes)))
  {
    NothingMissing(run.order.items, run.outcomes);
    TotalOfPermutation(run.agg.results, Arrived(run.outcomes));
    PermutationIsAllReserved(run.agg.results, Arrived(run.outcomes));
    hide AllReserved, Arrived, Reports, Missing;
    ArrivedAllReserved(run.outcomes);
  }

  /** A response that the timer did not force carries the submitted total, although no price crossed the
      inventory call, reports every item's outcome once, and says CONFIRMED exactly when every item was
      reserved. */
  lemma CompletedResponse(run: Run)
    requires RunInv(run) && run.agg.responseSent && !run.agg.http.body.response.status.TimedOut?
    ensures var response := run.agg.http.body.response;
            && response.totalAmount == run.order.totalAmount
            && |response.items| == |run.order.items|
            && (forall i | 0 <= i < |run.outcomes| :: run.outcomes[i].Some?)
            && multiset(response.items) == multiset(Reports(Arrived(run.outcomes)))
            && (response.status == Confirmed || response.status == PartiallyConfirmed)
            && (response.status == Confirmed <==> forall i | 0 <= i < |run.outcomes| :: run.outcomes[i].value.reserved)
  {
    ResultsAreOutcomes(run);
    NothingMissing(run.order.items, run.outcomes);
    hide AcceptedOrder, Missing, MissingTotal, AllReserved, Report, Arrived;
  }

  /** A timed-out response reports fewer results than the order has items, each of them an outcome of its own. */
  lemma TimedOutResponse(run: Run)
    requires RunInv(run) && run.agg.responseSent && run.agg.http.body.response.status.TimedOut?
    ensures var response := run.agg.http.body.response;
            && run.timerFired
            && |response.items| < |run.order.items|
            && response.items == Reports(run.agg.results) && FromOutcomes(run.agg.results, run.outcomes)
            && response.totalAmount == if run.agg.results == [] then run.order.totalAmount else Total(run.agg.results)
  {
  }
}
