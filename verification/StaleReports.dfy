/**
 When a rejection reports a quantity that is not the current one. The design text promises the current
 available quantity with a rejection; relaxed loads and the time between the last read and the rejection
 can both make it out of date.
 */
module StaleReports {
  import opened Types
  import opened Reservation
  import opened Linearisation
  import opened StockSafety

  /** Call `c` has been rejected with a quantity that is not the current one. */
  predicate ReportsStale(s: Service, c: nat) {
    && c < |s.calls| && s.calls[c].phase.Rejected? && s.calls[c].item.sku in s.cells
    && s.cells[s.calls[c].item.sku] != []
    && s.calls[c].available != Stock(s.cells[s.calls[c].item.sku])
  }

  /** The thread of call `c` has not seen the newest entry, and the one before it is too small for the call. */
  predicate MayMissNewest(s: Service, c: nat)
    requires c < |s.calls| && s.calls[c].item.sku in s.cells
  {
    var h := s.cells[s.calls[c].item.sku];
    |h| >= 2 && h[|h| - 2] < s.calls[c].item.quantity && MayRead(s, c, |h| - 2)
  }

  /** Another call may still take something between the last read of call `c` and its rejection. */
  predicate MayBeOvertaken(s: Service, c: nat)
    requires c < |s.calls| && s.calls[c].item.sku in s.cells
  {
    var h := s.cells[s.calls[c].item.sku];
    h != [] && Stock(h) >= 1 && s.calls[c].item.quantity >= 2
  }

  /** A run from `s`, with positive quantities, whose last step rejects call `c` with a stale report. */
  predicate StaleRejection(s: Service, c: nat, steps: seq<Step>)
    requires c < |s.calls|
  {
    && ValidRun(s, steps) && steps != [] && steps[|steps| - 1] == Reject(c)
    && ReportsStale(Exec(s, steps), c) && AllAskAtLeast(Exec(s, steps).calls, s.calls[c].item.sku, 1)
  }

  lemma RejectionIsCurrentIff(h: seq<int>, calls: seq<Call>, sku: string, c: nat)
    requires CellInv(h, calls, sku) && AllAskAtLeast(calls, sku, 1)
    requires c < |calls| && calls[c].item.sku == sku && calls[c].phase.Rejected?
    ensures h != [] && (calls[c].available == Stock(h) <==> calls[c].seen == |h| - 1)
  {
    assert CallOk(h, calls[c]);
    hide CellInv, AllAskAtLeast;
    EntriesFall(h, calls, sku, 1, calls[c].seen, |h| - 1);
  }

  // ---------- What a stale report needs ----------

  /** The thread of a starting call `c` has read nothing newer than `c` has in the end. */
  lemma MightHaveRead(s: Service, s': Service, c: nat, at: nat)
    requires Inv(s) && Inv(s') && Extends(s, s')
    requires c < |s.calls| && s.calls[c].phase.Started? && s'.calls[c].phase.Rejected?
    requires s.calls[c].item.sku in s.cells && s'.calls[c].seen <= at < |s.cells[s.calls[c].item.sku]|
    ensures MayRead(s, c, at)
  {
    hide CellInv;
  }

  lemma CellIsNotEmpty(s: Service, sku: string)
    requires Inv(s) && sku in s.cells
    ensures s.cells[sku] != []
  {
    assert CellInv(s.cells[sku], s.calls, sku);
  }

  lemma StaleReportNeeds(s: Service, s': Service, c: nat)
    requires Inv(s) && Inv(s') && Extends(s, s')
    requires c < |s.calls| && s.calls[c].phase.Started? && s.calls[c].item.sku in s.cells
    requires AllAskAtLeast(s.calls, s.calls[c].item.sku, 1) && AllAskAtLeast(s'.calls, s.calls[c].item.sku, 1)
    requires ReportsStale(s', c)
    ensures MayBeOvertaken(s, c) || MayMissNewest(s, c)
  {
    hide CellInv, InProgramOrder, AllAskAtLeast, MayRead;
    var sku := s.calls[c].item.sku;
    var h, h', k := s.cells[sku], s'.cells[sku], s'.calls[c].seen;
    CellIsNotEmpty(s, sku);
    RejectionIsCurrentIff(h', s'.calls, sku, c);
    CallIsOk(h', s'.calls, sku, c);
    if k < |h| - 1 {
      EntriesFall(h, s.calls, sku, 1, k, |h| - 2);
      MightHaveRead(s, s', c, |h| - 2);
    } else {
      var w := OneWriter(h', s'.calls, sku, k + 1);
      EntriesFall(h', s'.calls, sku, 1, |h| - 1, k);
      AsksAtLeast(s'.calls, sku, 1, w);
    }
  }

  lemma StaleRejectionNeeds(s: Service, c: nat, steps: seq<Step>)
    requires Inv(s) && c < |s.calls| && s.calls[c].phase.Started? && s.calls[c].item.sku in s.cells
    requires AllAskAtLeast(s.calls, s.calls[c].item.sku, 1) && StaleRejection(s, c, steps)
    ensures MayBeOvertaken(s, c) || MayMissNewest(s, c)
  {
    hide Inv, AllAskAtLeast, ReportsStale, MayBeOvertaken, MayMissNewest;
    RunKeepsInv(s, steps);
    RunExtends(s, steps);
    StaleReportNeeds(s, Exec(s, steps), c);
  }

  lemma AsksAtLeast(calls: seq<Call>, sku: string, least: int, c: nat)
    requires AllAskAtLeast(calls, sku, least) && c < |calls| && calls[c].item.sku == sku
    ensures least <= calls[c].item.quantity
  {
  }

  // ---------- What suffices for one ----------

  lemma FreshThread(calls: seq<Call>) returns (t: nat)
    ensures forall d | 0 <= d < |calls| :: calls[d].thread < t
  {
    t := 0;
    for n := 0 to |calls|
      invariant forall d | 0 <= d < n :: calls[d].thread < t
    {
      t := Max(t, calls[n].thread + 1);
    }
  }

  /** A call on a thread of its own reads the newest entry and takes `quantity` from it. */
  lemma RivalTakes(s: Service, sku: string, quantity: int32) returns (steps: seq<Step>)
    requires sku in s.cells && s.cells[sku] != [] && quantity <= Stock(s.cells[sku])
    ensures ValidRun(s, steps)
    ensures var s', h := Exec(s, steps), s.cells[sku];
            && s'.cells == s.cells[sku := h + [Stock(h) - quantity]]
            && |s'.calls| == |s.calls| + 1 && (forall c | 0 <= c < |s.calls| :: s'.calls[c] == s.calls[c])
            && s'.calls[|s.calls|].item == Item(sku, quantity)
  {
    var t := FreshThread(s.calls);
    var c, last := |s.calls|, |s.cells[sku]| - 1;
    var s1 := Next(s, Invoke(t, Item(sku, quantity)));
    var s2 := Next(s1, Load(c, last));
    var end := Next(s2, CasSucceeds(c));
    hide Next, Enabled;
    var r2 := Prepend(s2, CasSucceeds(c), [], end);
    var r1 := Prepend(s1, Load(c, last), r2, end);
    steps := Prepend(s, Invoke(t, Item(sku, quantity)), r1, end);
  }

  lemma LoadsNewest(s: Service, c: nat)
    requires Inv(s) && c < |s.calls| && s.calls[c].phase.Started? && s.calls[c].item.sku in s.cells
    requires AllAskAtLeast(s.calls, s.calls[c].item.sku, 1)
    ensures var h, sku := s.cells[s.calls[c].item.sku], s.calls[c].item.sku;
            && h != [] && Enabled(s, Load(c, |h| - 1))
            && var s' := Next(s, Load(c, |h| - 1));
            && s'.cells == s.cells && |s'.calls| == |s.calls|
            && s'.calls[c].phase.Looping? && s'.calls[c].item == s.calls[c].item && s'.calls[c].available == Stock(h)
            && AllAskAtLeast(s'.calls, sku, 1)
  {
    NewestIsReadable(s, c);
    hide Inv, MayRead;
  }

  /** Between a read of the newest entry that is too small for call `c` and its rejection, another call has
      taken one unit. */
  lemma OvertakenReportsStale(s: Service, s': Service, c: nat, sku: string)
    requires c < |s.calls| && s.calls[c].phase.Looping? && s.calls[c].item.sku == sku && sku in s.cells
    requires var h := s.cells[sku];
             && h != [] && s.calls[c].available == Stock(h) < s.calls[c].item.quantity
             && s'.cells == s.cells[sku := h + [Stock(h) - 1]]
    requires AllAskAtLeast(s.calls, sku, 1) && |s'.calls| == |s.calls| + 1
    requires forall d | 0 <= d < |s.calls| :: s'.calls[d] == s.calls[d]
    requires s'.calls[|s.calls|].item == Item(sku, 1)
    ensures Enabled(s', Reject(c)) && ReportsStale(Next(s', Reject(c)), c)
    ensures AllAskAtLeast(Next(s', Reject(c)).calls, sku, 1)
  {
  }

  lemma OvertakenAfterRead(s: Service, c: nat) returns (steps: seq<Step>)
    requires c < |s.calls| && s.calls[c].phase.Looping? && s.calls[c].item.sku in s.cells
    requires AllAskAtLeast(s.calls, s.calls[c].item.sku, 1)
    requires var h := s.cells[s.calls[c].item.sku];
             h != [] && 1 <= Stock(h) == s.calls[c].available < s.calls[c].item.quantity
    ensures StaleRejection(s, c, steps)
  {
    hide AllAskAtLeast, Next, Enabled, ReportsStale, Exec, ValidRun;
    var sku := s.calls[c].item.sku;
    var rival := RivalTakes(s, sku, 1);
    var s' := Exec(s, rival);
    OvertakenReportsStale(s, s', c, sku);
    var end := Next(s', Reject(c));
    RunsNowhere(end);
    var last := Prepend(s', Reject(c), [], end);
    RunsCompose(s, rival, last);
    steps := rival + last;
  }

  lemma RunsNowhere(s: Service)
    ensures ValidRun(s, []) && Exec(s, []) == s
  {
  }

  lemma StaleRejectionAfter(s: Service, c: nat, first: seq<Step>, rest: seq<Step>)
    requires c < |s.calls| && ValidRun(s, first) && c < |Exec(s, first).calls|
    requires Exec(s, first).calls[c].item == s.calls[c].item && StaleRejection(Exec(s, first), c, rest)
    ensures StaleRejection(s, c, first + rest)
  {
    hide ReportsStale, AllAskAtLeast;
    RunsCompose(s, first, rest);
  }

  lemma OvertakenRun(s: Service, c: nat) returns (steps: seq<Step>)
    requires Inv(s) && c < |s.calls| && s.calls[c].phase.Started? && s.calls[c].item.sku in s.cells
    requires AllAskAtLeast(s.calls, s.calls[c].item.sku, 1)
    requires var h := s.cells[s.calls[c].item.sku]; h != [] && 1 <= Stock(h) < s.calls[c].item.quantity
    ensures StaleRejection(s, c, steps)
  {
    LoadsNewest(s, c);
    hide Inv, AllAskAtLeast, Next, Enabled, StaleRejection;
    var load := Load(c, |s.cells[s.calls[c].item.sku]| - 1);
    var s' := Next(s, load);
    RunsNowhere(s');
    var first := Prepend(s, load, [], s');
    hide Exec, ValidRun;
    var rest := OvertakenAfterRead(s', c);
    StaleRejectionAfter(s, c, first, rest);
    steps := first + rest;
  }

  /** If the stock is large enough for call `c`, another call first takes all of it but one unit. */
  lemma DrainedRun(s: Service, c: nat) returns (steps: seq<Step>)
    requires Inv(s) && c < |s.calls| && s.calls[c].phase.Started? && s.calls[c].item.sku in s.cells
    requires AllAskAtLeast(s.calls, s.calls[c].item.sku, 1)
    requires var h := s.cells[s.calls[c].item.sku];
             h != [] && 2 <= s.calls[c].item.quantity <= Stock(h) <= INT32_MAX
    ensures StaleRejection(s, c, steps)
  {
    hide Inv;
    var sku := s.calls[c].item.sku;
    var draining := RivalTakes(s, sku, Stock(s.cells[sku]) - 1);
    var s1 := Exec(s, draining);
    RunKeepsInv(s, draining);
    assert Stock(s1.cells[sku]) == 1;
    assert AllAskAtLeast(s1.calls, sku, 1);
    var rest := OvertakenRun(s1, c);
    StaleRejectionAfter(s, c, draining, rest);
    steps := draining + rest;
  }

  // ---------- The condition ----------

  lemma PossibleStaleRejection(s: Service, c: nat) returns (steps: seq<Step>)
    requires Inv(s) && c < |s.calls| && s.calls[c].phase.Started? && s.calls[c].item.sku in s.cells
    requires AllAskAtLeast(s.calls, s.calls[c].item.sku, 1)
    requires var h := s.cells[s.calls[c].item.sku]; h != [] && Stock(h) <= INT32_MAX
    requires MayBeOvertaken(s, c) || MayMissNewest(s, c)
    ensures StaleRejection(s, c, steps)
  {
    hide Inv, AllAskAtLeast, MayMissNewest, StaleRejection;
    if MayMissNewest(s, c) {
      steps := MissedNewestReportsStale(s, c);
    } else if Stock(s.cells[s.calls[c].item.sku]) < s.calls[c].item.quantity {
      steps := OvertakenRun(s, c);
    } else {
      steps := DrainedRun(s, c);
    }
  }

  /** With positive quantities, and whatever other calls do, a call that starts now can be rejected with a stale
      report exactly when it asks for at least two units while at least one is left, or when its thread may
      miss the newest entry and the one before it is already too small. */
  lemma StaleReportPossibleIff(stock: map<string, int32>, before: seq<Step>, c: nat)
    requires ValidRun(Start(stock), before) && c < |Exec(Start(stock), before).calls|
    requires var s := Exec(Start(stock), before);
             && s.calls[c].phase.Started? && s.calls[c].item.sku in s.cells
             && AllAskAtLeast(s.calls, s.calls[c].item.sku, 1)
    ensures var s := Exec(Start(stock), before);
            (exists steps :: StaleRejection(s, c, steps)) <==> MayBeOvertaken(s, c) || MayMissNewest(s, c)
  {
    hide CellInv, InProgramOrder;
    ReachableState(stock, before);
    var s := Exec(Start(stock), before);
    var sku := s.calls[c].item.sku;
    EntriesFall(s.cells[sku], s.calls, sku, 1, 0, |s.cells[sku]| - 1);
    hide Inv, AllAskAtLeast, MayBeOvertaken, MayMissNewest, StaleRejection;
    if exists steps :: StaleRejection(s, c, steps) {
      var steps :| StaleRejection(s, c, steps);
      StaleRejectionNeeds(s, c, steps);
    }
    if MayBeOvertaken(s, c) || MayMissNewest(s, c) {
      var steps := PossibleStaleRejection(s, c);
    }
  }

  // ---------- While no other call takes a step ----------

  /** Only call `c` takes steps. */
  predicate RunsAlone(steps: seq<Step>, c: nat) {
    forall k | 0 <= k < |steps| :: !steps[k].Invoke? && steps[k].c == c
  }

  /** What `s`, in which call `c` is about to start, has become when only `c` has taken steps. */
  predicate AloneFrom(s: Service, s': Service, c: nat)
    requires c < |s.calls|
  {
    && |s'.calls| == |s.calls|
    && s'.calls[c].item == s.calls[c].item && s'.calls[c].thread == s.calls[c].thread
    && (forall d | 0 <= d < |s.calls| && d != c :: s'.calls[d] == s.calls[d])
    && (!s'.calls[c].phase.Reserved? ==> s'.cells == s.cells)
    && (s'.calls[c].phase.Looping? || s'.calls[c].phase.Rejected? ==>
          MayRead(s, c, s'.calls[c].seen) && s'.calls[c].available == s.cells[s.calls[c].item.sku][s'.calls[c].seen])
    && (s'.calls[c].phase.Rejected? ==> s'.calls[c].available < s'.calls[c].item.quantity)
  }

  lemma {:induction false} AloneRun(s: Service, s': Service, c: nat, steps: seq<Step>)
    requires c < |s.calls| && s.calls[c].phase.Started? && AloneFrom(s, s', c)
    requires RunsAlone(steps, c) && ValidRun(s', steps)
    ensures AloneFrom(s, Exec(s', steps), c)
    decreases |steps|
  {
    if steps != [] {
      assert steps[0].c == c;
      assert AloneFrom(s, Next(s', steps[0]), c);
      hide AloneFrom, Next, Enabled;
      assert forall k | 0 <= k < |steps| - 1 :: steps[1..][k] == steps[k + 1];
      AloneRun(s, Next(s', steps[0]), c, steps[1..]);
    }
  }

  lemma StaleReportMissedNewest(s: Service, c: nat, steps: seq<Step>)
    requires Inv(s) && c < |s.calls| && s.calls[c].phase.Started? && s.calls[c].item.sku in s.cells
    requires AllAskAtLeast(s.calls, s.calls[c].item.sku, 1)
    requires RunsAlone(steps, c) && ValidRun(s, steps) && ReportsStale(Exec(s, steps), c)
    ensures MayMissNewest(s, c)
  {
    hide CellInv, InProgramOrder, AllAskAtLeast, RunsAlone;
    AloneRun(s, s, c, steps);
    var s', sku := Exec(s, steps), s.calls[c].item.sku;
    hide Exec, ValidRun;
    var h := s.cells[sku];
    EntriesFall(h, s.calls, sku, 1, s'.calls[c].seen, |h| - 2);
  }

  lemma AllStillAsk(calls: seq<Call>, calls': seq<Call>, sku: string, least: int)
    requires AllAskAtLeast(calls, sku, least) && |calls'| == |calls|
    requires forall d | 0 <= d < |calls| :: calls'[d].item == calls[d].item
    ensures AllAskAtLeast(calls', sku, least)
  {
  }

  lemma MissedNewestReportsStale(s: Service, c: nat) returns (steps: seq<Step>)
    requires Inv(s) && c < |s.calls| && s.calls[c].phase.Started? && s.calls[c].item.sku in s.cells
    requires AllAskAtLeast(s.calls, s.calls[c].item.sku, 1) && MayMissNewest(s, c)
    ensures RunsAlone(steps, c) && StaleRejection(s, c, steps)
  {
    hide CellInv, InProgramOrder, AllAskAtLeast;
    var h := s.cells[s.calls[c].item.sku];
    EntriesFall(h, s.calls, s.calls[c].item.sku, 1, |h| - 2, |h| - 1);
    var s1 := Next(s, Load(c, |h| - 2));
    var end := Next(s1, Reject(c));
    assert ReportsStale(end, c) && AllAskAtLeast(end.calls, s.calls[c].item.sku, 1) by {
      AllStillAsk(s.calls, end.calls, s.calls[c].item.sku, 1);
    }
    hide Next, Enabled, MayRead, ReportsStale;
    var last := Prepend(s1, Reject(c), [], end);
    steps := Prepend(s, Load(c, |h| - 2), last, end);
  }

  /** With positive quantities a call that starts now can, while no other call takes a step, be rejected with a
      stale report exactly when its thread may miss the newest entry and the one before it is already too small. */
  lemma UndisturbedStaleReportIff(s: Service, c: nat)
    requires Inv(s) && c < |s.calls| && s.calls[c].phase.Started? && s.calls[c].item.sku in s.cells
    requires AllAskAtLeast(s.calls, s.calls[c].item.sku, 1)
    ensures (exists steps :: RunsAlone(steps, c) && StaleRejection(s, c, steps)) <==> MayMissNewest(s, c)
  {
    hide Inv, AllAskAtLeast, MayMissNewest, ReportsStale, RunsAlone;
    if exists steps :: RunsAlone(steps, c) && StaleRejection(s, c, steps) {
      var steps :| RunsAlone(steps, c) && StaleRejection(s, c, steps);
      StaleReportMissedNewest(s, c, steps);
    }
    if MayMissNewest(s, c) {
      var steps := MissedNewestReportsStale(s, c);
    }
  }

  /** So while no other call takes a step, a thread that has read or written the newest entry is told the current
      quantity. */
  lemma InformedThreadReportsCurrent(s: Service, c: nat, d: nat, steps: seq<Step>)
    requires Inv(s) && c < |s.calls| && s.calls[c].phase.Started? && s.calls[c].item.sku in s.cells
    requires AllAskAtLeast(s.calls, s.calls[c].item.sku, 1)
    requires d < |s.calls| && s.calls[d].HasRead() && s.calls[d].thread == s.calls[c].thread
    requires s.calls[d].item.sku == s.calls[c].item.sku && s.calls[d].seen == |s.cells[s.calls[c].item.sku]| - 1
    requires RunsAlone(steps, c) && ValidRun(s, steps)
    ensures !ReportsStale(Exec(s, steps), c)
  {
    if ReportsStale(Exec(s, steps), c) {
      StaleReportMissedNewest(s, c, steps);
    }
  }
}
