/** What the reservation invariant means for stock: conservation, bounds, finality, progress. */
module StockSafety {
  import opened Types
  import opened Reservation
  import opened Linearisation

  /** Every call for `sku` asks for at least `least`. */
  predicate AllAskAtLeast(calls: seq<Call>, sku: string, least: int) {
    forall c | 0 <= c < |calls| && calls[c].item.sku == sku :: least <= calls[c].item.quantity
  }

  predicate NonIncreasing(h: seq<int>) {
    forall i, j | 0 <= i <= j < |h| :: h[j] <= h[i]
  }

  /** Positive quantities take at least one each, non-negative ones never add. */
  lemma {:induction false} EntriesFall(h: seq<int>, calls: seq<Call>, sku: string, least: int, i: nat, j: nat)
    requires CellInv(h, calls, sku) && AllAskAtLeast(calls, sku, least) && i <= j < |h|
    ensures 0 <= least ==> h[j] <= h[i]
    ensures 1 <= least ==> h[j] <= h[i] - (j - i)
    decreases j
  {
    hide CellInv;
    if i < j {
      EntriesFall(h, calls, sku, least, i, j - 1);
      var w := OneWriter(h, calls, sku, j);
    }
  }

  lemma EntriesAreNonNegative(h: seq<int>, calls: seq<Call>, sku: string)
    requires CellInv(h, calls, sku) && h[0] >= 0
    ensures forall k | 0 <= k < |h| :: 0 <= h[k]
  {
    forall k: nat | k < |h|
      ensures 0 <= h[k]
    {
      if k > 0 {
        var w := OneWriter(h, calls, sku, k);
      }
    }
  }

  /** Nothing is lost or invented, whatever quantities are asked for, and stock never goes below zero. */
  lemma StockIsConserved(stock: map<string, int32>, steps: seq<Step>, sku: string)
    requires ValidRun(Start(stock), steps) && sku in stock && stock[sku] >= 0
    ensures var s := Exec(Start(stock), steps);
            && sku in s.cells && s.cells[sku] != []
            && stock[sku] == Stock(s.cells[sku]) + Accepted(s.calls, sku)
            && 0 <= Stock(s.cells[sku])
  {
    ReachableState(stock, steps);
    var s := Exec(Start(stock), steps);
    EntriesAreNonNegative(s.cells[sku], s.calls, sku);
  }

  lemma CallIsOk(h: seq<int>, calls: seq<Call>, sku: string, c: nat)
    requires c < |calls| && calls[c].item.sku == sku
    ensures CellInv(h, calls, sku) ==> CallOk(h, calls[c])
  {
  }

  /** With non-negative quantities nothing is oversold, and no subtraction overflows, not even in an attempt
      that is about to fail on a stale value. */
  lemma NothingIsOversold(stock: map<string, int32>, steps: seq<Step>, sku: string)
    requires ValidRun(Start(stock), steps) && sku in stock && stock[sku] >= 0
    requires AllAskAtLeast(Exec(Start(stock), steps).calls, sku, 0)
    ensures var s := Exec(Start(stock), steps);
            && sku in s.cells && s.cells[sku] != [] && NonIncreasing(s.cells[sku])
            && 0 <= Accepted(s.calls, sku) <= stock[sku]
            && (forall k | 0 <= k < |s.cells[sku]| :: 0 <= s.cells[sku][k] <= stock[sku])
            && (forall c | 0 <= c < |s.calls| && s.calls[c].item.sku == sku && InLoop(s, c) ::
                  0 <= s.calls[c].available - s.calls[c].item.quantity <= INT32_MAX)
  {
    hide CellInv, InProgramOrder;
    ReachableState(stock, steps);
    StockIsConserved(stock, steps, sku);
    var s := Exec(Start(stock), steps);
    var h := s.cells[sku];
    EntriesAreNonNegative(h, s.calls, sku);
    forall i: nat, j: nat | i <= j < |h|
      ensures h[j] <= h[i]
    {
      EntriesFall(h, s.calls, sku, 0, i, j);
    }
    forall c | 0 <= c < |s.calls| && s.calls[c].item.sku == sku && InLoop(s, c)
      ensures 0 <= s.calls[c].available - s.calls[c].item.quantity <= stock[sku]
    {
      CallIsOk(h, s.calls, sku, c);
    }
  }

  predicate AcceptedAreNonNegative(calls: seq<Call>, sku: string) {
    forall c | 0 <= c < |calls| && calls[c].phase.Reserved? && calls[c].item.sku == sku :: 0 <= calls[c].item.quantity
  }

  /** What the accepted negative quantities have given back to `sku`. */
  function GivenBack(calls: seq<Call>, sku: string): nat {
    if calls == [] then 0
    else
      var n := |calls| - 1;
      GivenBack(calls[..n], sku) + if calls[n].phase.Reserved? then GivesBack(calls[n].item, sku) else 0
  }

  /** What `item` gives back to `sku` if it is accepted. */
  function GivesBack(item: OrderItem, sku: string): nat {
    if item.sku == sku && item.quantity < 0 then -(item.quantity as int) else 0
  }

  lemma {:induction false} NothingGivenBackIff(calls: seq<Call>, sku: string)
    ensures GivenBack(calls, sku) == 0 <==> AcceptedAreNonNegative(calls, sku)
  {
    if calls != [] {
      var n := |calls| - 1;
      NothingGivenBackIff(calls[..n], sku);
      assert AcceptedAreNonNegative(calls[..n], sku) && GivesBack(calls[n].item, sku) == 0
             ==> AcceptedAreNonNegative(calls, sku);
      assert AcceptedAreNonNegative(calls, sku) ==> AcceptedAreNonNegative(calls[..n], sku);
    }
  }

  lemma {:induction false} AcceptedEntriesFall(h: seq<int>, calls: seq<Call>, sku: string, i: nat, j: nat)
    requires CellInv(h, calls, sku) && i <= j < |h|
    requires AcceptedAreNonNegative(calls, sku)
    ensures h[j] <= h[i]
    decreases j
  {
    hide CellInv;
    if i < j {
      AcceptedEntriesFall(h, calls, sku, i, j - 1);
      var w := OneWriter(h, calls, sku, j);
    }
  }

  lemma CellFallsIffAcceptedAreNonNegative(h: seq<int>, calls: seq<Call>, sku: string)
    requires CellInv(h, calls, sku)
    ensures NonIncreasing(h) <==> AcceptedAreNonNegative(calls, sku)
  {
    forall c | 0 <= c < |calls| && calls[c].phase.Reserved? && calls[c].item.sku == sku
      ensures TakenAt(h, calls[c].seen, calls[c].item.quantity)
    {
      assert CallOk(h, calls[c]);
    }
    hide CellInv;
    if AcceptedAreNonNegative(calls, sku) {
      forall i: nat, j: nat | i <= j < |h|
        ensures h[j] <= h[i]
      {
        AcceptedEntriesFall(h, calls, sku, i, j);
      }
    }
  }

  /** Stock never rises exactly when no accepted call asked for a negative quantity. */
  lemma StockFallsIffAcceptedAreNonNegative(stock: map<string, int32>, steps: seq<Step>, sku: string)
    requires ValidRun(Start(stock), steps) && sku in stock
    ensures var s := Exec(Start(stock), steps);
            sku in s.cells && (NonIncreasing(s.cells[sku]) <==> AcceptedAreNonNegative(s.calls, sku))
  {
    hide CellInv, InProgramOrder, NonIncreasing, AcceptedAreNonNegative;
    ReachableState(stock, steps);
    var s := Exec(Start(stock), steps);
    CellFallsIffAcceptedAreNonNegative(s.cells[sku], s.calls, sku);
  }

  lemma {:induction false} RunsCompose(s: Service, steps: seq<Step>, more: seq<Step>)
    requires ValidRun(s, steps) && ValidRun(Exec(s, steps), more)
    ensures ValidRun(s, steps + more) && Exec(s, steps + more) == Exec(Exec(s, steps), more)
    decreases |steps|
  {
    if steps == [] {
      assert steps + more == more;
    } else {
      assert (steps + more)[1..] == steps[1..] + more;
      RunsCompose(Next(s, steps[0]), steps[1..], more);
    }
  }

  lemma RejectionStands(h: seq<int>, calls: seq<Call>, sku: string, c: nat)
    requires CellInv(h, calls, sku) && AcceptedAreNonNegative(calls, sku)
    requires c < |calls| && calls[c].phase.Rejected? && calls[c].item.sku == sku
    ensures h != [] && Stock(h) <= calls[c].available < calls[c].item.quantity
  {
    assert CallOk(h, calls[c]);
    AcceptedEntriesFall(h, calls, sku, calls[c].seen, |h| - 1);
  }

  /** A rejection, even one made on a stale read, still holds in every later state in which no negative
      quantity has been accepted, and what it reported stays an upper bound on the stock. */
  lemma RejectionIsFinal(stock: map<string, int32>, steps: seq<Step>, more: seq<Step>, c: nat)
    requires ValidRun(Start(stock), steps) && ValidRun(Exec(Start(stock), steps), more)
    requires c < |Exec(Start(stock), steps).calls| && Exec(Start(stock), steps).calls[c].phase.Rejected?
    requires var sku := Exec(Start(stock), steps).calls[c].item.sku;
             sku in stock && AcceptedAreNonNegative(Exec(Exec(Start(stock), steps), more).calls, sku)
    ensures var call := Exec(Start(stock), steps).calls[c];
            var later := Exec(Exec(Start(stock), steps), more);
            && call.item.sku in later.cells && later.cells[call.item.sku] != []
            && Stock(later.cells[call.item.sku]) <= call.available < call.item.quantity
  {
    hide CellInv, InProgramOrder;
    RunsCompose(Start(stock), steps, more);
    ReachableState(stock, steps + more);
    RunExtends(Exec(Start(stock), steps), more);
    var call, later := Exec(Start(stock), steps).calls[c], Exec(Exec(Start(stock), steps), more);
    RejectionStands(later.cells[call.item.sku], later.calls, call.item.sku, c);
  }

  // ---------- Progress ----------

  /** Each genuine compare-exchange failure of call `c` is charged to another call's success:
      `rivals[k]` wrote entry first + 1 + k. */
  lemma FailuresAreChargedToRivals(s: Service, c: nat) returns (rivals: seq<nat>)
    requires Inv(s) && c < |s.calls| && s.calls[c].HasRead() && s.calls[c].item.sku in s.cells
    ensures s.calls[c].failures <= |rivals|
    ensures forall k | 0 <= k < |rivals| ::
              && rivals[k] < |s.calls| && rivals[k] != c
              && Wrote(s.calls[rivals[k]], s.calls[c].item.sku, s.calls[c].first + 1 + k)
    ensures forall j, k | 0 <= j < k < |rivals| :: rivals[j] != rivals[k]
  {
    hide InProgramOrder;
    var call, h := s.calls[c], s.cells[s.calls[c].item.sku];
    assert CellInv(h, s.calls, call.item.sku);
    assert CallOk(h, call);
    hide CellInv;
    rivals := [];
    while |rivals| < call.ReadIndex() - call.first
      invariant |rivals| <= call.ReadIndex() - call.first
      invariant forall k | 0 <= k < |rivals| ::
                  && rivals[k] < |s.calls| && rivals[k] != c
                  && Wrote(s.calls[rivals[k]], call.item.sku, call.first + 1 + k)
    {
      var w := OneWriter(h, s.calls, call.item.sku, call.first + 1 + |rivals|);
      rivals := rivals + [w];
    }
  }

  lemma ObservedValueFalls(h: seq<int>, calls: seq<Call>, sku: string, c: nat)
    requires CellInv(h, calls, sku) && AllAskAtLeast(calls, sku, 1)
    requires c < |calls| && calls[c].item.sku == sku && calls[c].HasRead()
    ensures calls[c].first < |h| && calls[c].available <= h[calls[c].first] - calls[c].failures
    ensures calls[c].phase.Reserved? ==> calls[c].item.quantity <= calls[c].available
    ensures calls[c].failures > 0 ==> calls[c].failures <= h[calls[c].first] - calls[c].item.quantity + 1
  {
    var call := calls[c];
    assert CallOk(h, call);
    hide CellInv, AllAskAtLeast;
    EntriesFall(h, calls, sku, 1, call.first, call.ReadIndex());
    if call.failures > 0 {
      var k: nat :| call.first + call.failures - 1 <= k && SufficesAt(h, k, call.item.quantity);
      EntriesFall(h, calls, sku, 1, call.first, k);
    }
  }

  /** The compare-exchanges that call `call` has made, without the spurious failures. */
  function Attempts(call: Call): nat { call.failures + if call.phase.Reserved? then 1 else 0 }

  /** With positive quantities a call - accepted, rejected after lost races, or still running - makes at most
      (first value read - quantity + 1) attempts, spurious failures apart, and none if that is negative. */
  lemma AttemptsAreBounded(s: Service, c: nat)
    requires Inv(s) && c < |s.calls| && s.calls[c].item.sku in s.cells && s.calls[c].HasRead()
    requires AllAskAtLeast(s.calls, s.calls[c].item.sku, 1)
    ensures var call, h := s.calls[c], s.cells[s.calls[c].item.sku];
            && call.first < |h|
            && Attempts(call) <= Max(0, h[call.first] - call.item.quantity + 1)
            && (InLoop(s, c) ==> Attempts(call) + 1 <= h[call.first] - call.item.quantity + 1)
            && call.available <= h[call.first] - call.failures
  {
    hide CellInv, InProgramOrder, AllAskAtLeast;
    ObservedValueFalls(s.cells[s.calls[c].item.sku], s.calls, s.calls[c].item.sku, c);
  }

  /** The genuine compare-exchange failures of call `c` among `steps`. */
  function GenuineFailures(steps: seq<Step>, c: nat): nat {
    if steps == [] then 0
    else (if steps[0].CasFails? && steps[0].c == c then 1 else 0) + GenuineFailures(steps[1..], c)
  }

  function FailuresOf(s: Service, c: nat): nat { if c < |s.calls| then s.calls[c].failures else 0 }

  lemma {:induction false} FailuresAreCounted(s: Service, steps: seq<Step>, c: nat)
    requires ValidRun(s, steps)
    ensures FailuresOf(Exec(s, steps), c) == FailuresOf(s, c) + GenuineFailures(steps, c)
    decreases |steps|
  {
    if steps != [] {
      hide MayRead;
      var s' := Next(s, steps[0]);
      assert FailuresOf(s', c) == FailuresOf(s, c) + if steps[0].CasFails? && steps[0].c == c then 1 else 0;
      FailuresAreCounted(s', steps[1..], c);
    }
  }

  /** The entry that the first load of call `c` among `steps` returned. */
  function FirstLoad(steps: seq<Step>, c: nat): Option<nat> {
    if steps == [] then None
    else if steps[0].Load? && steps[0].c == c then Some(steps[0].at)
    else FirstLoad(steps[1..], c)
  }

  /** A call loads once, and keeps what it loaded first as `first`. */
  lemma {:induction false} FirstIsFirstLoad(s: Service, steps: seq<Step>, c: nat)
    requires ValidRun(s, steps) && c < |Exec(s, steps).calls|
    ensures c < |s.calls| && !s.calls[c].phase.Started? ==>
              FirstLoad(steps, c).None? && Exec(s, steps).calls[c].first == s.calls[c].first
    ensures (c < |s.calls| ==> s.calls[c].phase.Started?) && FirstLoad(steps, c).Some? ==>
              Exec(s, steps).calls[c].first == FirstLoad(steps, c).value
    ensures (c < |s.calls| ==> s.calls[c].phase.Started?) && FirstLoad(steps, c).None? ==>
              Exec(s, steps).calls[c].phase.Started? || Exec(s, steps).calls[c].item.sku !in s.cells
    decreases |steps|
  {
    if steps != [] {
      hide MayRead;
      var s' := Next(s, steps[0]);
      StepExtends(s, steps[0]);
      FirstIsFirstLoad(s', steps[1..], c);
      RunExtends(s', steps[1..]);
    }
  }

  /** The same bound for whole runs, on the steps that were taken. */
  lemma AttemptsOfRunAreBounded(stock: map<string, int32>, steps: seq<Step>, c: nat)
    requires ValidRun(Start(stock), steps) && c < |Exec(Start(stock), steps).calls|
    requires var s := Exec(Start(stock), steps);
             && s.calls[c].item.sku in s.cells && s.calls[c].HasRead()
             && AllAskAtLeast(s.calls, s.calls[c].item.sku, 1)
    ensures var s := Exec(Start(stock), steps);
            var call, h := s.calls[c], s.cells[s.calls[c].item.sku];
            && call.first < |h| && FirstLoad(steps, c) == Some(call.first)
            && GenuineFailures(steps, c) + (if call.phase.Reserved? then 1 else 0)
               <= Max(0, h[call.first] - call.item.quantity + 1)
  {
    hide CellInv, InProgramOrder, AllAskAtLeast;
    StartInv(stock);
    RunKeepsInv(Start(stock), steps);
    FailuresAreCounted(Start(stock), steps, c);
    FirstIsFirstLoad(Start(stock), steps, c);
    RunExtends(Start(stock), steps);
    hide Inv;
    AttemptsAreBounded(Exec(Start(stock), steps), c);
  }

  lemma NewestIsReadable(s: Service, c: nat)
    requires Inv(s) && c < |s.calls| && s.calls[c].item.sku in s.cells
    ensures s.cells[s.calls[c].item.sku] != [] && MayRead(s, c, |s.cells[s.calls[c].item.sku]| - 1)
  {
    var sku := s.calls[c].item.sku;
    assert CellInv(s.cells[sku], s.calls, sku);
    forall d | 0 <= d < |s.calls| && s.calls[d].HasRead() && s.calls[d].item.sku == sku
      ensures s.calls[d].seen < |s.cells[sku]|
    {
      assert CallOk(s.cells[sku], s.calls[d]);
    }
  }

  lemma OwnReadIsReadable(s: Service, c: nat)
    requires Inv(s) && c < |s.calls| && s.calls[c].phase.Looping?
    ensures s.calls[c].item.sku in s.cells && MayRead(s, c, s.calls[c].seen)
    ensures s.cells[s.calls[c].item.sku][s.calls[c].seen] == s.calls[c].available
  {
    var sku := s.calls[c].item.sku;
    CallIsOk(s.cells[sku], s.calls, sku, c);
    hide CellInv;
    assert CellInv(s.cells[sku], s.calls, sku);
    hide LastAttemptSufficed;
    NewestSoFar(s.calls, c);
  }

  lemma NewestSoFar(calls: seq<Call>, c: nat)
    requires InProgramOrder(calls) && c < |calls| && calls[c].phase.Looping?
    ensures forall d | 0 <= d < |calls| && calls[d].HasRead() && calls[d].thread == calls[c].thread
                       && calls[d].item.sku == calls[c].item.sku ::
              calls[d].seen <= calls[c].seen
  {
  }

  /** No call ever waits for another one: it can load, it is rejected once what it read is too small, and in its
      loop it succeeds while it holds the current value, fails on a newer one, and may always fail spuriously. */
  lemma NoCallIsStuck(s: Service, c: nat)
    requires Inv(s) && c < |s.calls| && !s.calls[c].Done()
    ensures s.calls[c].item.sku in s.cells && s.cells[s.calls[c].item.sku] != []
    ensures var call, h := s.calls[c], s.cells[s.calls[c].item.sku];
            && (call.phase.Started? ==> Enabled(s, Load(c, |h| - 1)))
            && (call.phase.Looping? && call.available < call.item.quantity ==> Enabled(s, Reject(c)))
            && (call.phase.Looping? && call.available >= call.item.quantity ==>
                  && Enabled(s, CasFailsSpuriously(c, call.seen))
                  && Enabled(s, if Stock(h) == call.available then CasSucceeds(c) else CasFails(c, |h| - 1)))
  {
    hide CellInv, InProgramOrder, MayRead;
    NewestIsReadable(s, c);
    if s.calls[c].phase.Looping? {
      OwnReadIsReadable(s, c);
    }
  }

  // ---------- What the code does not promise ----------

  function Item(sku: string, quantity: int32): OrderItem { OrderItem("order", "item", sku, quantity, 1.0) }

  lemma Prepend(s: Service, step: Step, rest: seq<Step>, end: Service) returns (steps: seq<Step>)
    requires Enabled(s, step) && ValidRun(Next(s, step), rest) && Exec(Next(s, step), rest) == end
    ensures steps == [step] + rest && ValidRun(s, steps) && Exec(s, steps) == end
  {
    steps := [step] + rest;
    assert steps[1..] == rest;
  }

  /** A rejection need not report the current quantity: a stale relaxed load reports 25 units when 5 are left. */
  lemma StaleReadOverstatesStock()
    ensures exists steps ::
              && ValidRun(Start(INITIAL_STOCK), steps)
              && var s := Exec(Start(INITIAL_STOCK), steps);
              && "SKU-003" in s.cells && s.cells["SKU-003"] == [25, 5]
              && |s.calls| == 2 && s.calls[1].phase.Rejected? && s.calls[1].available == 25
  {
    var s0 := Start(INITIAL_STOCK);
    var s1 := Next(s0, Invoke(0, Item("SKU-003", 20)));
    var s2 := Next(s1, Load(0, 0));
    var s3 := Next(s2, CasSucceeds(0));
    var s4 := Next(s3, Invoke(1, Item("SKU-003", 26)));
    var s5 := Next(s4, Load(1, 0));
    var end := Next(s5, Reject(1));
    hide Next, Enabled, Start;
    var r5 := Prepend(s5, Reject(1), [], end);
    var r4 := Prepend(s4, Load(1, 0), r5, end);
    var r3 := Prepend(s3, Invoke(1, Item("SKU-003", 26)), r4, end);
    var r2 := Prepend(s2, CasSucceeds(0), r3, end);
    var r1 := Prepend(s1, Load(0, 0), r2, end);
    var r0 := Prepend(s0, Invoke(0, Item("SKU-003", 20)), r1, end);
  }

  /** The inventory service accepts a negative quantity: stock rises above its initial level, and
      one such call later the subtraction no longer fits in 32 bits. */
  lemma NegativeQuantityRaisesStock()
    ensures exists steps ::
              && ValidRun(Start(INITIAL_STOCK), steps)
              && var s := Exec(Start(INITIAL_STOCK), steps);
              && "SKU-001" in s.cells && s.cells["SKU-001"] == [100, 101]
              && Enabled(s, CasSucceeds(1))
              && s.calls[1].available - s.calls[1].item.quantity > INT32_MAX
  {
    var s0 := Start(INITIAL_STOCK);
    var s1 := Next(s0, Invoke(0, Item("SKU-001", -1)));
    var s2 := Next(s1, Load(0, 0));
    var s3 := Next(s2, CasSucceeds(0));
    var s4 := Next(s3, Invoke(0, Item("SKU-001", -0x8000_0000)));
    var end := Next(s4, Load(1, 1));
    assert Enabled(end, CasSucceeds(1));
    hide Next, Start;
    var r4 := Prepend(s4, Load(1, 1), [], end);
    var r3 := Prepend(s3, Invoke(0, Item("SKU-001", -0x8000_0000)), r4, end);
    var r2 := Prepend(s2, CasSucceeds(0), r3, end);
    var r1 := Prepend(s1, Load(0, 0), r2, end);
    var r0 := Prepend(s0, Invoke(0, Item("SKU-001", -1)), r1, end);
  }
}
