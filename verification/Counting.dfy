/**
 Publishing and counting order states (map_to_order_processed.hpp, count_order_processed.hpp).
 The result split feeds the publisher and the response alike, so every state that passes the merge
 is published once, not only the final one.
 */
module Counting {
  import opened Types
  import opened Aggregation

  const UINT64_SIZE: int := 0x1_0000_0000_0000_0000

  function ReservedCount(results: seq<OrderItemResult>): nat {
    if results == [] then 0
    else ReservedCount(results[..|results| - 1]) + if results[|results| - 1].reserved then 1 else 0
  }

  /** MapToOrderProcessed */
  function ToOrderProcessed(state: OrderState): OrderProcessed {
    OrderProcessed(state.orderId, state.status, state.processedAt, |state.confirmedItems|,
                   ReservedCount(state.confirmedItems),
                   if state.status == Confirmed then None else Some(state.status))
  }

  function Published(states: seq<OrderState>): (events: seq<OrderProcessed>)
    ensures |events| == |states|
  {
    seq(|states|, k requires 0 <= k < |states| => ToOrderProcessed(states[k]))
  }

  function Successes(events: seq<OrderProcessed>): nat {
    if events == [] then 0
    else Successes(events[..|events| - 1]) + if events[|events| - 1].status == Confirmed then 1 else 0
  }

  function Failures(events: seq<OrderProcessed>): nat {
    if events == [] then 0
    else Failures(events[..|events| - 1]) + if events[|events| - 1].status == Confirmed then 0 else 1
  }

  /** The value of a 64-bit counter after `n` increments. */
  function Wrapped(n: nat): nat { n % UINT64_SIZE }

  lemma OneMoreWraps(n: nat, counter: nat)
    requires counter == Wrapped(n)
    ensures Wrapped(counter + 1) == Wrapped(n + 1)
    ensures Wrapped(counter + 1) == if counter == 0xffff_ffff_ffff_ffff then 0 else counter + 1
  {
  }

  lemma FitsUnwrapped(n: nat)
    ensures n <= 0xffff_ffff_ffff_ffff ==> Wrapped(n) == n
  {
  }

  lemma OneMoreCounts(events: seq<OrderProcessed>, event: OrderProcessed)
    ensures Successes(events + [event]) == Successes(events) + if event.status == Confirmed then 1 else 0
    ensures Failures(events + [event]) == Failures(events) + if event.status == Confirmed then 0 else 1
  {
    assert (events + [event])[..|events|] == events;
  }

  /** CountOrderProcessed: two relaxed 64-bit counters, each wrapping around. */
  class Counters {
    var successful: nat
    var unsuccessful: nat
    ghost var counted: seq<OrderProcessed>

    ghost predicate Valid()
      reads this
    {
      successful == Wrapped(Successes(counted)) && unsuccessful == Wrapped(Failures(counted))
    }

    constructor ()
      ensures Valid() && counted == [] && successful == 0 && unsuccessful == 0
    {
      successful, unsuccessful, counted := 0, 0, [];
    }

    method Count(event: OrderProcessed) returns (out: OrderProcessed)
      requires Valid()
      modifies this
      ensures Valid() && counted == old(counted) + [event] && out == event
      ensures event.status == Confirmed ==>
                && successful == (if old(successful) == 0xffff_ffff_ffff_ffff then 0 else old(successful) + 1)
                && unsuccessful == old(unsuccessful)
      ensures event.status != Confirmed ==>
                && successful == old(successful)
                && unsuccessful == (if old(unsuccessful) == 0xffff_ffff_ffff_ffff then 0 else old(unsuccessful) + 1)
      ensures Successes(counted) <= 0xffff_ffff_ffff_ffff ==> successful == Successes(counted)
      ensures Failures(counted) <= 0xffff_ffff_ffff_ffff ==> unsuccessful == Failures(counted)
    {
      OneMoreWraps(Successes(counted), successful);
      OneMoreWraps(Failures(counted), unsuccessful);
      OneMoreCounts(counted, event);
      FitsUnwrapped(Successes(counted + [event]));
      FitsUnwrapped(Failures(counted + [event]));
      hide Wrapped, Successes, Failures;
      if event.status == Confirmed {
        successful := Wrapped(successful + 1);
      } else {
        unsuccessful := Wrapped(unsuccessful + 1);
      }
      counted := counted + [event];
      out := event;
    }
  }

  /** A state as the two feeding mappings make it: one item result, or a timeout. */
  predicate PipelineState(state: OrderState) {
    if state.status.TimedOut? then state.confirmedItems == []
    else |state.confirmedItems| == 1 && (state.status == Confirmed <==> state.confirmedItems[0].reserved)
  }

  /** The positions of the reserved ones among `results`. */
  function ReservedAt(results: seq<OrderItemResult>): set<nat> {
    set k: nat | k < |results| && results[k].reserved
  }

  lemma {:induction false} ReservedCountIsSize(results: seq<OrderItemResult>)
    ensures ReservedCount(results) == |ReservedAt(results)|
  {
    if results != [] {
      var n := |results| - 1;
      ReservedCountIsSize(results[..n]);
      assert ReservedAt(results) == ReservedAt(results[..n]) + if results[n].reserved then {n} else {};
    }
  }

  /** What the event of a state says, however many items the state has. */
  lemma EventOfState(state: OrderState)
    ensures var event := ToOrderProcessed(state);
            && event.orderId == state.orderId && event.status == state.status && event.processedAt == state.processedAt
            && event.totalItems == |state.confirmedItems| && event.confirmedItems == |ReservedAt(state.confirmedItems)|
            && (event.failureReason.None? <==> state.status == Confirmed)
            && (event.failureReason.Some? ==> event.failureReason.value == state.status)
  {
    ReservedCountIsSize(state.confirmedItems);
  }

  /** What becomes of one item result, and of a timeout, on the way through the mapping and the publisher. */
  lemma EventsOfMappedStates(order: Order, result: OrderItemResult, now: string)
    ensures ItemState(result, now).confirmedItems == [result] && ItemState(result, now).totalAmount == 0.0
    ensures ToOrderProcessed(ItemState(result, now))
            == if result.reserved then OrderProcessed(result.orderId, Confirmed, now, 1, 1, None)
               else OrderProcessed(result.orderId, PartiallyConfirmed, now, 1, 0, Some(PartiallyConfirmed))
    ensures TimeoutState(order).confirmedItems == [] && TimeoutState(order).totalAmount == order.totalAmount
    ensures ToOrderProcessed(TimeoutState(order)) == OrderProcessed(order.id, TimedOut, "", 0, 0, Some(TimedOut))
  {
    EventOfPipelineState(ItemState(result, now));
  }

  /** What the event of one state says. */
  lemma EventOfPipelineState(state: OrderState)
    requires PipelineState(state)
    ensures var event := ToOrderProcessed(state);
            && event.orderId == state.orderId && event.status == state.status && event.processedAt == state.processedAt
            && event.totalItems == (if state.status.TimedOut? then 0 else 1)
            && event.confirmedItems == (if state.status == Confirmed then 1 else 0)
            && event.failureReason == (if state.status == Confirmed then None else Some(state.status))
  {
    var items := state.confirmedItems;
    if items != [] {
      assert items == [items[0]] && [items[0]][..0] == [];
      assert ReservedCount([items[0]]) == if items[0].reserved then 1 else 0;
    }
  }

  lemma ReservedCountOfSum(a: seq<OrderItemResult>, b: seq<OrderItemResult>)
    ensures ReservedCount(a + b) == ReservedCount(a) + ReservedCount(b)
  {
    if b == [] {
      assert a + b == a;
    } else {
      assert (a + b)[..|a + b| - 1] == a + b[..|b| - 1];
      ReservedCountOfSum(a, b[..|b| - 1]);
    }
  }

  /** Each state is counted once, and the successful ones are the reserved item results. */
  lemma {:induction false} CountsRefineStates(states: seq<OrderState>)
    requires forall k | 0 <= k < |states| :: PipelineState(states[k])
    ensures Successes(Published(states)) + Failures(Published(states)) == |states|
    ensures Successes(Published(states)) == ReservedCount(ItemsIn(states))
  {
    if states != [] {
      var n := |states| - 1;
      CountsRefineStates(states[..n]);
      EventOfPipelineState(states[n]);
      hide ToOrderProcessed;
      assert Published(states)[..n] == Published(states[..n]);
      ReservedCountOfSum(ItemsIn(states[..n]), if states[n].status.TimedOut? then [] else states[n].confirmedItems);
      assert states[n].confirmedItems != [] ==> states[n].confirmedItems[..0] == [];
    }
  }

  lemma RaceAt(order: Order, results: seq<OrderItemResult>, p: nat, now: string, k: nat)
    requires p <= |results| && k <= |results|
    ensures |Race(order, results, p, now)| == |results| + 1
    ensures Race(order, results, p, now)[k] ==
            if k == p then TimeoutState(order) else ItemState(results[if k < p then k else k - 1], now)
  {
    hide ItemState, TimeoutState;
  }

  lemma OneMoreState(states: seq<OrderState>, k: nat)
    requires 1 <= k <= |states|
    ensures ItemsIn(states[..k])
            == ItemsIn(states[..k - 1]) + if states[k - 1].status.TimedOut? then [] else states[k - 1].confirmedItems
  {
    assert states[..k][..k - 1] == states[..k - 1];
  }

  /** Among `states` number p is a timeout, and the others hold one of `results` each, in order. */
  predicate OneTimeout(states: seq<OrderState>, results: seq<OrderItemResult>, p: nat) {
    && |states| == |results| + 1
    && (forall k | 0 <= k < |states| :: states[k].status.TimedOut? <==> k == p)
    && (forall k | 0 <= k < p && k < |results| :: states[k].confirmedItems == [results[k]])
    && (forall k | p <= k < |results| :: states[k + 1].confirmedItems == [results[k]])
  }

  lemma {:induction false} ItemsAroundTimeout(states: seq<OrderState>, results: seq<OrderItemResult>, p: nat, k: nat)
    requires p <= |results| && OneTimeout(states, results, p) && k <= |states|
    ensures ItemsIn(states[..k]) == if k <= p then results[..k] else results[..k - 1]
  {
    if k > 0 {
      hide ItemsIn;
      ItemsAroundTimeout(states, results, p, k - 1);
      OneMoreState(states, k);
      if k - 1 != p {
        var n := if k - 1 < p then k - 1 else k - 2;
        assert results[..n] + [results[n]] == results[..n + 1];
      }
    }
  }

  lemma RaceHasOneTimeout(order: Order, results: seq<OrderItemResult>, p: nat, now: string)
    requires p <= |results|
    ensures OneTimeout(Race(order, results, p, now), results, p)
  {
    RaceAt(order, results, p, now, p);
    forall k | 0 <= k <= |results|
      ensures var state := Race(order, results, p, now)[k];
              if k == p then state.status.TimedOut?
              else !state.status.TimedOut? && state.confirmedItems == [results[if k < p then k else k - 1]]
    {
      RaceAt(order, results, p, now, k);
    }
  }

  lemma RaceIsPipeline(order: Order, results: seq<OrderItemResult>, p: nat, now: string)
    requires p <= |results|
    ensures |Race(order, results, p, now)| == |results| + 1
    ensures forall k | 0 <= k <= |results| :: PipelineState(Race(order, results, p, now)[k])
  {
  }

  /** Every event names the order, and the one of the timer counts no items. */
  lemma RaceEvents(order: Order, results: seq<OrderItemResult>, p: nat, now: string)
    requires p <= |results| && forall k | 0 <= k < |results| :: results[k].orderId == order.id
    ensures var events := Published(Race(order, results, p, now));
            && |events| == |results| + 1
            && (forall k | 0 <= k < |events| :: events[k].orderId == order.id)
            && events[p] == OrderProcessed(order.id, TimedOut, "", 0, 0, Some(TimedOut))
  {
    forall k | 0 <= k <= |results|
      ensures Race(order, results, p, now)[k].orderId == order.id
    {
      RaceAt(order, results, p, now, k);
    }
    RaceAt(order, results, p, now, p);
    hide Race;
    EventOfPipelineState(TimeoutState(order));
  }

  /** An order of n items whose timer fires, early or late, is published n + 1 times and counted as many
      times successful as it has reserved items - not once, as the event's description suggests. */
  lemma AnOrderIsPublishedPerState(order: Order, results: seq<OrderItemResult>, p: nat, now: string)
    requires p <= |results| && |results| == |order.items|
    requires forall k | 0 <= k < |results| :: results[k].orderId == order.id
    ensures var events := Published(Race(order, results, p, now));
            && |events| == |order.items| + 1
            && (forall k | 0 <= k < |events| :: events[k].orderId == order.id)
            && events[p] == OrderProcessed(order.id, TimedOut, "", 0, 0, Some(TimedOut))
            && Successes(events) == ReservedCount(results)
            && Failures(events) == |order.items| + 1 - ReservedCount(results)
  {
    hide Successes, Failures, Published, ReservedCount, ItemsIn, Race, PipelineState;
    var states := Race(order, results, p, now);
    RaceIsPipeline(order, results, p, now);
    RaceEvents(order, results, p, now);
    CountsRefineStates(states);
    RaceHasOneTimeout(order, results, p, now);
    ItemsAroundTimeout(states, results, p, |results| + 1);
    assert states[..|results| + 1] == states && results[..|results|] == results;
  }
}
