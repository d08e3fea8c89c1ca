/**
 Every run of the relaxed, lock-free reservation is explained by a run in which the same calls
 reserve one at a time: per SKU, in modification order, each rejection right after the entry it
 read. The order is a plain function of the final state.
 */
module Linearisation {
  import opened Types
  import opened Reservation

  // ---------- The one-at-a-time specification ----------

  datatype Outcome = Granted | Denied(available: int)

  datatype Sequential = Sequential(stock: int, outcomes: seq<Outcome>)

  function ReserveAtomically(stock: int, quantity: int): Sequential {
    if quantity <= stock then Sequential(stock - quantity, [Granted]) else Sequential(stock, [Denied(stock)])
  }

  function RunAtomically(stock: int, quantities: seq<int>): Sequential {
    if quantities == [] then Sequential(stock, [])
    else
      var n := |quantities| - 1;
      var before := RunAtomically(stock, quantities[..n]);
      var last := ReserveAtomically(before.stock, quantities[n]);
      Sequential(last.stock, before.outcomes + last.outcomes)
  }

  // ---------- The order ----------

  /** Entry k of the modification order owns place 2k; the call that wrote it stands just before, at 2k - 1. */
  function Place(call: Call): int {
    if call.phase.Reserved? then 2 * call.seen - 1 else 2 * call.seen
  }

  predicate Completed(calls: seq<Call>, sku: string, c: nat) {
    c < |calls| && calls[c].Done() && calls[c].item.sku == sku
  }

  /** The completed calls below `n` that stand at place `p`, oldest first. */
  function Bucket(calls: seq<Call>, sku: string, p: nat, n: nat): (ids: seq<nat>)
    requires n <= |calls|
    ensures forall k | 0 <= k < |ids| :: ids[k] < |calls|
  {
    if n == 0 then []
    else
      Bucket(calls, sku, p, n - 1)
      + if Completed(calls, sku, n - 1) && Place(calls[n - 1]) == p then [n - 1] else []
  }

  function OrderUpTo(calls: seq<Call>, sku: string, places: nat): (ids: seq<nat>)
    ensures forall k | 0 <= k < |ids| :: ids[k] < |calls|
  {
    if places == 0 then []
    else OrderUpTo(calls, sku, places - 1) + Bucket(calls, sku, places - 1, |calls|)
  }

  function Linearise(s: Service, sku: string): (ids: seq<nat>)
    requires sku in s.cells && s.cells[sku] != []
    ensures forall k | 0 <= k < |ids| :: ids[k] < |s.calls|
  {
    OrderUpTo(s.calls, sku, 2 * |s.cells[sku]| - 1)
  }

  function Quantities(calls: seq<Call>, ids: seq<nat>): seq<int>
    requires forall k | 0 <= k < |ids| :: ids[k] < |calls|
  {
    seq(|ids|, k requires 0 <= k < |ids| => calls[ids[k]].item.quantity)
  }

  /** What a completed call told its caller. */
  function OutcomeOf(call: Call): Outcome {
    if call.phase.Reserved? then Granted else Denied(call.available)
  }

  function Outcomes(calls: seq<Call>, ids: seq<nat>): seq<Outcome>
    requires forall k | 0 <= k < |ids| :: ids[k] < |calls|
  {
    seq(|ids|, k requires 0 <= k < |ids| => OutcomeOf(calls[ids[k]]))
  }

  /** Running the calls `ids` one at a time from `start` gives each its actual outcome and leaves `stock`. */
  predicate Explains(calls: seq<Call>, ids: seq<nat>, start: int, stock: int) {
    && (forall k | 0 <= k < |ids| :: ids[k] < |calls|)
    && RunAtomically(start, Quantities(calls, ids)) == Sequential(stock, Outcomes(calls, ids))
  }

  lemma ExplainsOneMore(calls: seq<Call>, ids: seq<nat>, c: nat, start: int, stock: int)
    requires Explains(calls, ids, start, stock) && c < |calls|
    requires ReserveAtomically(stock, calls[c].item.quantity).outcomes == [OutcomeOf(calls[c])]
    ensures Explains(calls, ids + [c], start, ReserveAtomically(stock, calls[c].item.quantity).stock)
  {
    var qs := Quantities(calls, ids + [c]);
    assert qs[..|ids|] == Quantities(calls, ids);
    assert Outcomes(calls, ids + [c]) == Outcomes(calls, ids) + [OutcomeOf(calls[c])];
  }

  /** Every rejected call was told an entry that is too small for it. */
  ghost predicate RejectionsHonest(h: seq<int>, calls: seq<Call>, sku: string) {
    forall c | 0 <= c < |calls| && calls[c].phase.Rejected? && calls[c].item.sku == sku ::
      RefusedAt(h, calls[c].seen, calls[c].item.quantity) && calls[c].available == h[calls[c].seen]
  }

  /** At an even place stand only calls that the entry refuses. */
  lemma {:induction false} RejectionsExplained(
    h: seq<int>, calls: seq<Call>, sku: string, k: nat, n: nat, ids: seq<nat>)
    requires RejectionsHonest(h, calls, sku) && k < |h| && n <= |calls|
    requires Explains(calls, ids, h[0], h[k])
    ensures Explains(calls, ids + Bucket(calls, sku, 2 * k, n), h[0], h[k])
  {
    if n == 0 {
      assert ids + Bucket(calls, sku, 2 * k, n) == ids;
    } else {
      RejectionsExplained(h, calls, sku, k, n - 1, ids);
      var c := n - 1;
      var before := ids + Bucket(calls, sku, 2 * k, c);
      if Completed(calls, sku, c) && Place(calls[c]) == 2 * k {
        assert calls[c].phase.Rejected?;
        ExplainsOneMore(calls, before, c, h[0], h[k]);
        assert ids + Bucket(calls, sku, 2 * k, n) == before + [c];
      } else {
        assert ids + Bucket(calls, sku, 2 * k, n) == before;
      }
    }
  }

  /** Call `w` is the one writer of entry k. */
  ghost predicate OnlyWriter(calls: seq<Call>, sku: string, k: nat, w: nat) {
    && w < |calls| && Wrote(calls[w], sku, k)
    && forall c | 0 <= c < |calls| && Wrote(calls[c], sku, k) :: c == w
  }

  /** The entries of a cell have exactly one writer each. */
  lemma OneWriter(h: seq<int>, calls: seq<Call>, sku: string, k: nat) returns (w: nat)
    requires CellInv(h, calls, sku) && 1 <= k < |h|
    ensures OnlyWriter(calls, sku, k, w)
    ensures h[k - 1] >= calls[w].item.quantity && h[k] == h[k - 1] - calls[w].item.quantity
  {
    assert HasWriter(calls, sku, k);
    w :| 0 <= w < |calls| && Wrote(calls[w], sku, k);
    assert CallOk(h, calls[w]);
    forall c | 0 <= c < |calls| && Wrote(calls[c], sku, k)
      ensures c == w
    {
      assert Wrote(calls[c], sku, calls[w].seen) && Wrote(calls[w], sku, calls[c].seen);
    }
  }

  lemma StandsAtOddPlaceIff(calls: seq<Call>, sku: string, k: nat, w: nat, c: nat)
    requires k >= 1 && OnlyWriter(calls, sku, k, w) && c < |calls|
    ensures Completed(calls, sku, c) && Place(calls[c]) == 2 * k - 1 <==> c == w
  {
    assert Completed(calls, sku, c) && Place(calls[c]) == 2 * k - 1 <==> Wrote(calls[c], sku, k);
  }

  /** At an odd place stands exactly the call that wrote the next entry. */
  lemma {:induction false} WriterStandsAlone(calls: seq<Call>, sku: string, k: nat, w: nat, n: nat)
    requires k >= 1 && n <= |calls| && OnlyWriter(calls, sku, k, w)
    ensures Bucket(calls, sku, 2 * k - 1, n) == if w < n then [w] else []
  {
    hide OnlyWriter, Completed, Place;
    if n > 0 {
      WriterStandsAlone(calls, sku, k, w, n - 1);
      StandsAtOddPlaceIff(calls, sku, k, w, n - 1);
    }
  }

  lemma NothingExplained(calls: seq<Call>, stock: int)
    ensures Explains(calls, [], stock, stock)
  {
  }

  /** The calls that stand before the rejections of entry k explain that entry. */
  lemma {:induction false} AcceptedExplained(h: seq<int>, calls: seq<Call>, sku: string, k: nat)
    requires CellInv(h, calls, sku) && RejectionsHonest(h, calls, sku) && k < |h|
    ensures Explains(calls, OrderUpTo(calls, sku, 2 * k), h[0], h[k])
    decreases k, 0
  {
    hide CellInv, RejectionsHonest, Explains, Bucket;
    if k == 0 {
      NothingExplained(calls, h[0]);
    } else {
      PrefixExplained(h, calls, sku, k - 1);
      var w := OneWriter(h, calls, sku, k);
      WriterStandsAlone(calls, sku, k, w, |calls|);
      ExplainsOneMore(calls, OrderUpTo(calls, sku, 2 * k - 1), w, h[0], h[k - 1]);
    }
  }

  lemma {:induction false} PrefixExplained(h: seq<int>, calls: seq<Call>, sku: string, k: nat)
    requires CellInv(h, calls, sku) && RejectionsHonest(h, calls, sku) && k < |h|
    ensures Explains(calls, OrderUpTo(calls, sku, 2 * k + 1), h[0], h[k])
    decreases k, 1
  {
    hide CellInv, RejectionsHonest, Explains, Bucket;
    AcceptedExplained(h, calls, sku, k);
    RejectionsExplained(h, calls, sku, k, |calls|, OrderUpTo(calls, sku, 2 * k));
  }

  lemma InvMakesRejectionsHonest(h: seq<int>, calls: seq<Call>, sku: string)
    requires CellInv(h, calls, sku)
    ensures RejectionsHonest(h, calls, sku)
  {
    forall c | 0 <= c < |calls| && calls[c].phase.Rejected? && calls[c].item.sku == sku
      ensures RefusedAt(h, calls[c].seen, calls[c].item.quantity) && calls[c].available == h[calls[c].seen]
    {
      assert CallOk(h, calls[c]);
    }
  }

  // ---------- Every completed call stands in the order exactly once ----------

  predicate Before(calls: seq<Call>, c: nat, d: nat) {
    && c < |calls| && d < |calls|
    && (Place(calls[c]) < Place(calls[d]) || (Place(calls[c]) == Place(calls[d]) && c < d))
  }

  /** `ids` lists the completed calls for `sku` that stand below `places`, each once, sorted. */
  ghost predicate Lists(calls: seq<Call>, sku: string, ids: seq<nat>, places: int) {
    && (forall c: nat :: c in ids <==> Completed(calls, sku, c) && Place(calls[c]) < places)
    && (forall i, j | 0 <= i < j < |ids| :: Before(calls, ids[i], ids[j]))
  }

  lemma {:induction false} BucketLists(calls: seq<Call>, sku: string, p: nat, n: nat)
    requires n <= |calls|
    ensures forall c: nat ::
              c in Bucket(calls, sku, p, n) <==> c < n && Completed(calls, sku, c) && Place(calls[c]) == p
    ensures forall i, j | 0 <= i < j < |Bucket(calls, sku, p, n)| ::
              Bucket(calls, sku, p, n)[i] < Bucket(calls, sku, p, n)[j]
  {
    if n > 0 {
      BucketLists(calls, sku, p, n - 1);
      var ids := Bucket(calls, sku, p, n - 1);
      forall i | 0 <= i < |ids|
        ensures ids[i] < n - 1
      {
        assert ids[i] in ids;
      }
    }
  }

  lemma SortedConcat(calls: seq<Call>, ids: seq<nat>, more: seq<nat>)
    requires forall i, j | 0 <= i < j < |ids| :: Before(calls, ids[i], ids[j])
    requires forall i, j | 0 <= i < j < |more| :: Before(calls, more[i], more[j])
    requires forall i, j | 0 <= i < |ids| && 0 <= j < |more| :: Before(calls, ids[i], more[j])
    ensures forall i, j | 0 <= i < j < |ids + more| :: Before(calls, (ids + more)[i], (ids + more)[j])
  {
    hide Before;
  }

  lemma {:induction false} OrderLists(calls: seq<Call>, sku: string, places: nat)
    requires forall c | 0 <= c < |calls| && Completed(calls, sku, c) :: Place(calls[c]) >= 0
    ensures Lists(calls, sku, OrderUpTo(calls, sku, places), places)
  {
    hide Place, Bucket;
    if places > 0 {
      OrderLists(calls, sku, places - 1);
      BucketLists(calls, sku, places - 1, |calls|);
      var ids, last := OrderUpTo(calls, sku, places - 1), Bucket(calls, sku, places - 1, |calls|);
      forall i, j | 0 <= i < |ids| && 0 <= j < |last|
        ensures Before(calls, ids[i], last[j])
      {
        assert ids[i] in ids && last[j] in last;
      }
      forall i, j | 0 <= i < j < |last|
        ensures Before(calls, last[i], last[j])
      {
        assert last[i] in last && last[j] in last;
      }
      SortedConcat(calls, ids, last);
    }
  }

  /** Call `c` returned before its thread started call `d`. */
  predicate ThreadPrecedes(calls: seq<Call>, c: nat, d: nat) {
    c < d < |calls| && calls[c].thread == calls[d].thread
  }

  /** `ids` is a possible one-at-a-time order of the completed calls for `sku`. */
  ghost predicate SequentialOrder(calls: seq<Call>, sku: string, ids: seq<nat>) {
    && (forall c: nat :: c in ids <==> Completed(calls, sku, c))
    && (forall i, j | 0 <= i < j < |ids| :: ids[i] != ids[j] && !ThreadPrecedes(calls, ids[j], ids[i]))
  }

  /** Acceptances follow the modification order; a rejection follows exactly the writers of what it had read. */
  ghost predicate FollowsModificationOrder(calls: seq<Call>, ids: seq<nat>)
    requires forall k | 0 <= k < |ids| :: ids[k] < |calls|
  {
    && (forall i, j | 0 <= i < |ids| && 0 <= j < |ids|
                      && calls[ids[i]].phase.Reserved? && calls[ids[j]].phase.Reserved? ::
          i < j <==> calls[ids[i]].seen < calls[ids[j]].seen)
    && (forall i, j | 0 <= i < |ids| && 0 <= j < |ids|
                      && calls[ids[i]].phase.Reserved? && calls[ids[j]].phase.Rejected? ::
          i < j <==> calls[ids[i]].seen <= calls[ids[j]].seen)
  }

  lemma PlacesAreInRange(h: seq<int>, calls: seq<Call>, sku: string)
    requires CellInv(h, calls, sku)
    ensures h != []
    ensures forall c | 0 <= c < |calls| && Completed(calls, sku, c) :: 0 <= Place(calls[c]) < 2 * |h| - 1
  {
    forall c | 0 <= c < |calls| && Completed(calls, sku, c)
      ensures 0 <= Place(calls[c]) < 2 * |h| - 1
    {
      assert CallOk(h, calls[c]);
    }
  }

  lemma ListsInSequentialOrder(calls: seq<Call>, sku: string, ids: seq<nat>, places: int)
    requires Lists(calls, sku, ids, places) && InProgramOrder(calls)
    requires forall c | 0 <= c < |calls| && Completed(calls, sku, c) :: Place(calls[c]) < places
    ensures SequentialOrder(calls, sku, ids)
  {
    forall i, j | 0 <= i < j < |ids|
      ensures ids[i] != ids[j] && !ThreadPrecedes(calls, ids[j], ids[i])
    {
      assert ids[i] in ids && ids[j] in ids;
      assert Before(calls, ids[i], ids[j]);
    }
  }

  /** No two accepted calls wrote the same entry. */
  ghost predicate OneEntryEach(calls: seq<Call>, sku: string) {
    forall c, d | 0 <= c < |calls| && 0 <= d < |calls| && calls[c].phase.Reserved? && calls[c].item.sku == sku
                  && Wrote(calls[d], sku, calls[c].seen) :: c == d
  }

  lemma InvGivesOneEntryEach(h: seq<int>, calls: seq<Call>, sku: string)
    requires CellInv(h, calls, sku)
    ensures OneEntryEach(calls, sku)
  {
    forall c, d | 0 <= c < |calls| && 0 <= d < |calls| && calls[c].phase.Reserved? && calls[c].item.sku == sku
                  && Wrote(calls[d], sku, calls[c].seen)
      ensures c == d
    {
      assert Wrote(calls[c], sku, calls[d].seen);
    }
  }

  lemma ListsFollowModificationOrder(calls: seq<Call>, sku: string, ids: seq<nat>, places: int)
    requires Lists(calls, sku, ids, places) && OneEntryEach(calls, sku)
    requires forall k | 0 <= k < |ids| :: ids[k] < |calls|
    ensures FollowsModificationOrder(calls, ids)
  {
    forall i, j | 0 <= i < |ids| && 0 <= j < |ids| && i != j
      ensures i < j <==> Before(calls, ids[i], ids[j])
      ensures calls[ids[i]].Done() && calls[ids[i]].item.sku == sku && ids[i] != ids[j]
    {
      assert ids[i] in ids;
      if i < j {
        assert Before(calls, ids[i], ids[j]);
      } else {
        assert Before(calls, ids[j], ids[i]);
      }
    }
    forall i, j | 0 <= i < |ids| && 0 <= j < |ids| && calls[ids[i]].phase.Reserved? && calls[ids[j]].phase.Reserved?
      ensures i < j <==> calls[ids[i]].seen < calls[ids[j]].seen
    {
      assert Wrote(calls[ids[j]], sku, calls[ids[j]].seen);
    }
  }

  lemma OrderIsSequential(h: seq<int>, calls: seq<Call>, sku: string)
    requires CellInv(h, calls, sku) && InProgramOrder(calls)
    ensures h != [] && SequentialOrder(calls, sku, OrderUpTo(calls, sku, 2 * |h| - 1))
    ensures FollowsModificationOrder(calls, OrderUpTo(calls, sku, 2 * |h| - 1))
  {
    hide CellInv, InProgramOrder, Lists, SequentialOrder, FollowsModificationOrder, OrderUpTo, OneEntryEach;
    PlacesAreInRange(h, calls, sku);
    InvGivesOneEntryEach(h, calls, sku);
    var places := 2 * |h| - 1;
    OrderLists(calls, sku, places);
    ListsInSequentialOrder(calls, sku, OrderUpTo(calls, sku, places), places);
    ListsFollowModificationOrder(calls, sku, OrderUpTo(calls, sku, places), places);
  }

  // ---------- What a run keeps ----------

  /** `s'` may follow `s`: cells only grow, and a completed call never changes. */
  predicate Extends(s: Service, s': Service) {
    && s'.cells.Keys == s.cells.Keys
    && (forall sku | sku in s.cells :: s.cells[sku] <= s'.cells[sku])
    && |s.calls| <= |s'.calls|
    && (forall c | 0 <= c < |s.calls| :: s'.calls[c].item == s.calls[c].item && s'.calls[c].thread == s.calls[c].thread)
    && (forall c | 0 <= c < |s.calls| && s.calls[c].Done() :: s'.calls[c] == s.calls[c])
  }

  lemma StepExtends(s: Service, step: Step)
    requires Enabled(s, step)
    ensures Extends(s, Next(s, step))
  {
  }

  lemma {:induction false} RunExtends(s: Service, steps: seq<Step>)
    requires ValidRun(s, steps)
    ensures Extends(s, Exec(s, steps))
    decreases |steps|
  {
    if steps != [] {
      StepExtends(s, steps[0]);
      RunExtends(Next(s, steps[0]), steps[1..]);
    }
  }

  // ---------- Main results ----------

  lemma ReachableState(stock: map<string, int32>, steps: seq<Step>)
    requires ValidRun(Start(stock), steps)
    ensures Inv(Exec(Start(stock), steps))
    ensures Exec(Start(stock), steps).cells.Keys == stock.Keys
    ensures forall sku | sku in stock ::
              Exec(Start(stock), steps).cells[sku] != [] && Exec(Start(stock), steps).cells[sku][0] == stock[sku]
  {
    hide CellInv, InProgramOrder;
    StartInv(stock);
    RunKeepsInv(Start(stock), steps);
    RunExtends(Start(stock), steps);
    forall sku | sku in stock
      ensures Exec(Start(stock), steps).cells[sku] != [] && Exec(Start(stock), steps).cells[sku][0] == stock[sku]
    {
      assert Start(stock).cells[sku] <= Exec(Start(stock), steps).cells[sku];
    }
  }

  /** For every interleaving of any number of calls with any quantities, stale reads and spurious failures.
      The order respects every thread's own order. It need not respect the order in time of calls of different
      threads, since a call may be rejected on a value that was replaced before it began. */
  lemma EveryRunHasSequentialOrder(stock: map<string, int32>, steps: seq<Step>, sku: string)
    requires ValidRun(Start(stock), steps) && sku in stock
    ensures var s := Exec(Start(stock), steps);
            && sku in s.cells && s.cells[sku] != []
            && SequentialOrder(s.calls, sku, Linearise(s, sku))
            && FollowsModificationOrder(s.calls, Linearise(s, sku))
            && Explains(s.calls, Linearise(s, sku), stock[sku], Stock(s.cells[sku]))
  {
    hide CellInv, InProgramOrder, SequentialOrder, FollowsModificationOrder, Explains, RejectionsHonest;
    hide ValidRun, Exec, OrderUpTo;
    ReachableState(stock, steps);
    var s := Exec(Start(stock), steps);
    OrderIsSequential(s.cells[sku], s.calls, sku);
    InvMakesRejectionsHonest(s.cells[sku], s.calls, sku);
    PrefixExplained(s.cells[sku], s.calls, sku, |s.cells[sku]| - 1);
  }

  /** The entries that a cell had earlier were written by calls of that time. */
  lemma EarlyEntryHasEarlyWriter(h: seq<int>, calls: seq<Call>, calls': seq<Call>, sku: string, d: nat)
    requires CellInv(h, calls, sku) && OneEntryEach(calls', sku)
    requires |calls| <= |calls'| && forall c | 0 <= c < |calls| && calls[c].Done() :: calls'[c] == calls[c]
    requires d < |calls'| && Wrote(calls'[d], sku, calls'[d].seen) && calls'[d].seen >= 1
    ensures calls'[d].seen < |h| ==> d < |calls|
  {
    var k := calls'[d].seen;
    hide CellInv;
    if k < |h| {
      var w := OneWriter(h, calls, sku, k);
      assert Wrote(calls'[w], sku, k);
    }
  }

  lemma EntryExists(s: Service, c: nat)
    requires Inv(s) && c < |s.calls| && s.calls[c].Done() && s.calls[c].item.sku in s.cells
    ensures s.calls[c].seen < |s.cells[s.calls[c].item.sku]|
    ensures s.calls[c].phase.Reserved? ==> 1 <= s.calls[c].seen
    ensures CellInv(s.cells[s.calls[c].item.sku], s.calls, s.calls[c].item.sku)
  {
    var sku := s.calls[c].item.sku;
    assert CellInv(s.cells[sku], s.calls, sku);
    assert CallOk(s.cells[sku], s.calls[c]);
  }

  /** Acceptances do respect the order in time: the entry that an accepted call writes is newer than all that
      any call for the SKU, accepted or rejected, had read or written when it completed before that call was
      even invoked. */
  lemma AcceptancesFollowRealTime(stock: map<string, int32>, steps: seq<Step>, more: seq<Step>, c: nat, d: nat)
    requires ValidRun(Start(stock), steps) && ValidRun(Exec(Start(stock), steps), more)
    requires c < |Exec(Start(stock), steps).calls| <= d < |Exec(Exec(Start(stock), steps), more).calls|
    requires var earlier, later := Exec(Start(stock), steps).calls[c], Exec(Exec(Start(stock), steps), more).calls[d];
             earlier.Done() && later.phase.Reserved? && earlier.item.sku == later.item.sku
    ensures var calls := Exec(Exec(Start(stock), steps), more).calls;
            calls[c].Done() && calls[c].seen < calls[d].seen
  {
    hide CellInv, InProgramOrder;
    var s := Exec(Start(stock), steps);
    ReachableState(stock, steps);
    RunKeepsInv(s, more);
    RunExtends(s, more);
    var s', sku := Exec(s, more), s.calls[c].item.sku;
    hide Exec, ValidRun;
    EntryExists(s, c);
    EntryExists(s', d);
    InvGivesOneEntryEach(s'.cells[sku], s'.calls, sku);
    hide Inv, OneEntryEach;
    EarlyEntryHasEarlyWriter(s.cells[sku], s.calls, s'.calls, sku, d);
  }

  /** A SKU that is not stocked is always refused, with nothing available. */
  lemma UnknownSkuIsRefused(stock: map<string, int32>, steps: seq<Step>, c: nat)
    requires ValidRun(Start(stock), steps) && c < |Exec(Start(stock), steps).calls|
    requires Exec(Start(stock), steps).calls[c].item.sku !in stock
    ensures Exec(Start(stock), steps).calls[c].Done()
    ensures OutcomeOf(Exec(Start(stock), steps).calls[c]) == Denied(0)
  {
    ReachableState(stock, steps);
  }
}
