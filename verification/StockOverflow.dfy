/**
 When stock can rise, and when the 32-bit subtraction in the reservation loop can overflow. The inventory
 service accepts negative quantities, and each of them gives units back to the stock that later subtractions
 start from.
 */
module StockOverflow {
  import opened Types
  import opened Reservation
  import opened Linearisation
  import opened StockSafety

  /** What the negative quantities among `items` would give back to `sku`. */
  function Returned(items: seq<OrderItem>, sku: string): nat {
    if items == [] then 0
    else Returned(items[..|items| - 1], sku) + GivesBack(items[|items| - 1], sku)
  }

  /** The items that a run invokes the operator with. */
  function Requests(steps: seq<Step>): seq<OrderItem> {
    if steps == [] then []
    else (if steps[0].Invoke? then [steps[0].item] else []) + Requests(steps[1..])
  }

  function Items(calls: seq<Call>): (items: seq<OrderItem>)
    ensures |items| == |calls|
    ensures forall k | 0 <= k < |calls| :: items[k] == calls[k].item
  {
    seq(|calls|, k requires 0 <= k < |calls| => calls[k].item)
  }

  /** Some call for `sku` is about to compute a difference that does not fit in 32 bits. */
  predicate Overflows(s: Service, sku: string) {
    exists c :: 0 <= c < |s.calls| && OverflowsAt(s, sku, c)
  }

  predicate OverflowsAt(s: Service, sku: string, c: nat) {
    InLoop(s, c) && s.calls[c].item.sku == sku && s.calls[c].available - s.calls[c].item.quantity > INT32_MAX
  }

  // ---------- When it cannot ----------

  lemma StepInvokesItem(s: Service, step: Step)
    requires Enabled(s, step)
    ensures Items(Next(s, step).calls) == Items(s.calls) + (if step.Invoke? then [step.item] else [])
  {
    hide MayRead;
  }

  lemma {:induction false} RunInvokesItems(s: Service, steps: seq<Step>)
    requires ValidRun(s, steps)
    ensures Items(Exec(s, steps).calls) == Items(s.calls) + Requests(steps)
    decreases |steps|
  {
    if steps == [] {
      assert Items(s.calls) + [] == Items(s.calls);
    } else {
      hide Next, Enabled, Items;
      var s' := Next(s, steps[0]);
      var one: seq<OrderItem> := if steps[0].Invoke? then [steps[0].item] else [];
      StepInvokesItem(s, steps[0]);
      RunInvokesItems(s', steps[1..]);
      assert Exec(s, steps) == Exec(s', steps[1..]) && Requests(steps) == one + Requests(steps[1..]);
      hide Exec, Requests;
      assert (Items(s.calls) + one) + Requests(steps[1..]) == Items(s.calls) + (one + Requests(steps[1..]));
    }
  }

  lemma {:induction false} GivenBackUpdate(calls: seq<Call>, c: nat, call: Call, sku: string)
    requires c < |calls| && call.item == calls[c].item && !calls[c].phase.Reserved?
    ensures GivenBack(calls[c := call], sku)
            == GivenBack(calls, sku) + if call.phase.Reserved? then GivesBack(call.item, sku) else 0
  {
    var n := |calls| - 1;
    if c == n {
      assert calls[c := call][..n] == calls[..n];
    } else {
      assert calls[c := call][..n] == calls[..n][c := call];
      GivenBackUpdate(calls[..n], c, call, sku);
    }
  }

  /** What has been given back, and what call `c` could still give back, was asked for. */
  lemma {:induction false} GivenBackWasRequested(calls: seq<Call>, c: nat, sku: string)
    requires c < |calls| ==> !calls[c].phase.Reserved?
    ensures GivenBack(calls, sku) + (if c < |calls| then GivesBack(calls[c].item, sku) else 0)
            <= Returned(Items(calls), sku)
  {
    if calls != [] {
      var n := |calls| - 1;
      assert Items(calls)[..n] == Items(calls[..n]);
      hide Items;
      GivenBackWasRequested(calls[..n], c, sku);
    }
  }

  /** No entry exceeds the first one by more than what has been given back. */
  predicate EntriesWithin(s: Service, sku: string) {
    && sku in s.cells && s.cells[sku] != []
    && forall k | 0 <= k < |s.cells[sku]| :: s.cells[sku][k] <= s.cells[sku][0] + GivenBack(s.calls, sku)
  }

  /** A step gives back what it accepts, and an entry it appends is larger by no more than that. */
  lemma StepGivesBack(s: Service, sku: string, step: Step)
    requires Enabled(s, step)
    ensures GivenBack(Next(s, step).calls, sku)
            == GivenBack(s.calls, sku) + if step.CasSucceeds? then GivesBack(s.calls[step.c].item, sku) else 0
  {
    hide MayRead, GivesBack;
    var s' := Next(s, step);
    match step {
      case Invoke(_, _) =>
        assert s'.calls[..|s.calls|] == s.calls;
      case _ =>
        GivenBackUpdate(s.calls, step.c, s'.calls[step.c], sku);
    }
  }

  lemma StepKeepsEntriesWithin(s: Service, sku: string, step: Step)
    requires EntriesWithin(s, sku) && Enabled(s, step)
    ensures EntriesWithin(Next(s, step), sku) && Next(s, step).cells[sku][0] == s.cells[sku][0]
  {
    StepGivesBack(s, sku, step);
    hide MayRead, GivenBack;
    if step.CasSucceeds? {
      assert Stock(s.cells[sku]) <= s.cells[sku][0] + GivenBack(s.calls, sku);
    } else {
      assert Next(s, step).cells == s.cells;
    }
  }

  lemma {:induction false} RunKeepsEntriesWithin(s: Service, sku: string, steps: seq<Step>)
    requires EntriesWithin(s, sku) && ValidRun(s, steps)
    ensures EntriesWithin(Exec(s, steps), sku) && Exec(s, steps).cells[sku][0] == s.cells[sku][0]
    decreases |steps|
  {
    if steps != [] {
      StepKeepsEntriesWithin(s, sku, steps[0]);
      hide Next, Enabled;
      RunKeepsEntriesWithin(Next(s, steps[0]), sku, steps[1..]);
    }
  }

  lemma WithinMeansFits(s: Service, sku: string)
    requires Inv(s) && EntriesWithin(s, sku) && s.cells[sku][0] >= 0
    requires s.cells[sku][0] + Returned(Items(s.calls), sku) <= INT32_MAX
    ensures forall k | 0 <= k < |s.cells[sku]| :: 0 <= s.cells[sku][k] <= INT32_MAX
    ensures forall c | 0 <= c < |s.calls| && InLoop(s, c) && s.calls[c].item.sku == sku ::
              0 <= s.calls[c].available - s.calls[c].item.quantity <= INT32_MAX
  {
    assert CellInv(s.cells[sku], s.calls, sku);
    hide CellInv, InProgramOrder, Items, GivenBack, Returned;
    EntriesAreNonNegative(s.cells[sku], s.calls, sku);
    GivenBackWasRequested(s.calls, |s.calls|, sku);
    forall c | 0 <= c < |s.calls| && InLoop(s, c) && s.calls[c].item.sku == sku
      ensures s.calls[c].available - s.calls[c].item.quantity <= INT32_MAX
    {
      CallIsOk(s.cells[sku], s.calls, sku, c);
      GivenBackWasRequested(s.calls, c, sku);
    }
  }

  /** While the initial stock and all that may be given back fit in 32 bits, so does every entry and the
      difference of every attempt. */
  lemma SubtractionsFit(stock: map<string, int32>, steps: seq<Step>, sku: string)
    requires ValidRun(Start(stock), steps) && sku in stock && stock[sku] >= 0
    requires stock[sku] + Returned(Requests(steps), sku) <= INT32_MAX
    ensures var s := Exec(Start(stock), steps);
            && sku in s.cells
            && (forall k | 0 <= k < |s.cells[sku]| :: 0 <= s.cells[sku][k] <= INT32_MAX)
            && (forall c | 0 <= c < |s.calls| && InLoop(s, c) && s.calls[c].item.sku == sku ::
                  0 <= s.calls[c].available - s.calls[c].item.quantity <= INT32_MAX)
  {
    hide Inv, Returned, InLoop;
    ReachableState(stock, steps);
    RunKeepsEntriesWithin(Start(stock), sku, steps);
    RunInvokesItems(Start(stock), steps);
    assert Items(Start(stock).calls) + Requests(steps) == Requests(steps);
    hide Exec, ValidRun, Items, Requests;
    WithinMeansFits(Exec(Start(stock), steps), sku);
  }

  // ---------- When it can ----------

  /** Every call of `s` runs on a thread of its own. */
  predicate OwnThreads(s: Service) {
    forall c | 0 <= c < |s.calls| :: s.calls[c].thread == c
  }

  lemma {:induction false} InvokeAll(s: Service, items: seq<OrderItem>) returns (steps: seq<Step>)
    requires OwnThreads(s)
    ensures ValidRun(s, steps) && Requests(steps) == items
    ensures var s' := Exec(s, steps);
            && s'.cells == s.cells && OwnThreads(s') && |s'.calls| == |s.calls| + |items|
            && (forall c | 0 <= c < |s.calls| :: s'.calls[c] == s.calls[c])
            && (forall k | 0 <= k < |items| :: s'.calls[|s.calls| + k] == NewCall(s, |s.calls| + k, items[k]))
    decreases |items|
  {
    if items == [] {
      steps := [];
    } else {
      var first := Invoke(|s.calls|, items[0]);
      var rest := InvokeAll(Next(s, first), items[1..]);
      steps := Prepend(s, first, rest, Exec(Next(s, first), rest));
      assert steps[0] == first && steps[1..] == rest;
      forall k | 0 <= k < |items|
        ensures Exec(s, steps).calls[|s.calls| + k] == NewCall(s, |s.calls| + k, items[k])
      {
        if k > 0 { assert items[1..][k - 1] == items[k]; }
      }
    }
  }

  /** Of the calls with `items`, those below `i` that give something back to `sku` have been served, and
      nothing has been taken from it. */
  predicate ServedBelow(s: Service, items: seq<OrderItem>, sku: string, start: int, i: nat) {
    && OwnThreads(s) && |s.calls| == |items| && i <= |items|
    && (forall c | 0 <= c < |s.calls| :: s.calls[c].item == items[c])
    && (forall c | i <= c < |s.calls| && items[c].sku == sku :: s.calls[c].phase.Started?)
    && sku in s.cells && s.cells[sku] != []
    && Stock(s.cells[sku]) == start + Returned(items[..i], sku)
  }

  /** Serving the negative requests one at a time ends in an overflow. */
  lemma {:induction false} ServeUntilOverflow(s: Service, items: seq<OrderItem>, sku: string, start: int, i: nat)
    returns (steps: seq<Step>)
    requires ServedBelow(s, items, sku, start, i)
    requires 0 <= start && Stock(s.cells[sku]) <= INT32_MAX && start + Returned(items, sku) > INT32_MAX
    ensures ValidRun(s, steps) && Requests(steps) == [] && Overflows(Exec(s, steps), sku)
    decreases |items| - i
  {
    assert items[..|items|] == items;
    if i < |items| {
      assert items[..i + 1][..i] == items[..i];
      if GivesBack(items[i], sku) == 0 {
        steps := ServeUntilOverflow(s, items, sku, start, i + 1);
      } else {
        var h := s.cells[sku];
        var load := Load(i, |h| - 1);
        var s1 := Next(s, load);
        if OverflowsAt(s1, sku, i) {
          steps := Prepend(s, load, [], s1);
        } else {
          var s2 := Next(s1, CasSucceeds(i));
          hide Overflows, Returned;
          var rest := ServeUntilOverflow(s2, items, sku, start, i + 1);
          var end := Exec(s2, rest);
          hide Next, Enabled, ServedBelow;
          var last := Prepend(s1, CasSucceeds(i), rest, end);
          steps := Prepend(s, load, last, end);
        }
      }
    }
  }

  lemma NothingServedYet(stock: map<string, int32>, sku: string, items: seq<OrderItem>, s: Service)
    requires sku in stock && s.cells == Start(stock).cells && OwnThreads(s) && |s.calls| == |items|
    requires forall c | 0 <= c < |items| :: s.calls[c] == NewCall(Start(stock), c, items[c])
    ensures ServedBelow(s, items, sku, stock[sku], 0)
  {
    assert items[..0] == [];
  }

  lemma OverflowingRun(stock: map<string, int32>, sku: string, items: seq<OrderItem>) returns (steps: seq<Step>)
    requires sku in stock && stock[sku] >= 0 && stock[sku] + Returned(items, sku) > INT32_MAX
    ensures ValidRun(Start(stock), steps) && Requests(steps) == items && Overflows(Exec(Start(stock), steps), sku)
  {
    var first := Start(stock);
    hide ServedBelow, Overflows, Returned, Requests, NewCall, Exec, ValidRun;
    var invoking := InvokeAll(first, items);
    var s := Exec(first, invoking);
    forall c: nat | c < |items|
      ensures s.calls[c] == NewCall(first, c, items[c])
    {
      assert s.calls[|first.calls| + c] == NewCall(first, |first.calls| + c, items[c]);
    }
    NothingServedYet(stock, sku, items, s);
    assert Stock(s.cells[sku]) == stock[sku];
    hide Start, OwnThreads;
    var serving := ServeUntilOverflow(s, items, sku, stock[sku], 0);
    RunsCompose(first, invoking, serving);
    RequestsCompose(invoking, serving);
    assert items + [] == items;
    steps := invoking + serving;
  }

  /** Some accepted call has raised the cell. */
  predicate Rises(s: Service, sku: string) {
    sku in s.cells && !NonIncreasing(s.cells[sku])
  }

  lemma RiseWasRequested(stock: map<string, int32>, steps: seq<Step>, sku: string)
    requires ValidRun(Start(stock), steps) && sku in stock && Rises(Exec(Start(stock), steps), sku)
    ensures Returned(Requests(steps), sku) > 0
  {
    hide CellInv, InProgramOrder, NonIncreasing, AcceptedAreNonNegative;
    StockFallsIffAcceptedAreNonNegative(stock, steps, sku);
    RunInvokesItems(Start(stock), steps);
    assert Items(Start(stock).calls) + Requests(steps) == Requests(steps);
    var s := Exec(Start(stock), steps);
    hide Exec, ValidRun, Items, Requests;
    NothingGivenBackIff(s.calls, sku);
    GivenBackWasRequested(s.calls, |s.calls|, sku);
  }

  lemma {:induction false} SomethingReturned(items: seq<OrderItem>, sku: string) returns (i: nat)
    requires Returned(items, sku) > 0
    ensures i < |items| && GivesBack(items[i], sku) > 0
  {
    i := |items| - 1;
    if GivesBack(items[i], sku) == 0 {
      i := SomethingReturned(items[..i], sku);
    }
  }

  /** Let all requests arrive, then serve one that gives something back. */
  lemma RisingRun(stock: map<string, int32>, sku: string, items: seq<OrderItem>) returns (steps: seq<Step>)
    requires sku in stock && stock[sku] >= 0 && Returned(items, sku) > 0
    ensures ValidRun(Start(stock), steps) && Requests(steps) == items && Rises(Exec(Start(stock), steps), sku)
  {
    var first := Start(stock);
    var i := SomethingReturned(items, sku);
    hide Returned, Requests, Exec, ValidRun;
    var invoking := InvokeAll(first, items);
    var s := Exec(first, invoking);
    assert s.calls[|first.calls| + i] == NewCall(first, |first.calls| + i, items[i]);
    var serving := ServeOne(s, sku, i);
    RunsCompose(first, invoking, serving);
    RequestsCompose(invoking, serving);
    assert items + [] == items;
    steps := invoking + serving;
  }

  lemma ServeOne(s: Service, sku: string, i: nat) returns (steps: seq<Step>)
    requires OwnThreads(s) && i < |s.calls| && s.calls[i].phase.Started? && GivesBack(s.calls[i].item, sku) > 0
    requires sku in s.cells && |s.cells[sku]| == 1 && s.cells[sku][0] >= 0
    ensures ValidRun(s, steps) && Requests(steps) == [] && Rises(Exec(s, steps), sku)
  {
    var s1 := Next(s, Load(i, 0));
    var end := Next(s1, CasSucceeds(i));
    assert end.cells[sku][0] < end.cells[sku][1];
    hide Next, Enabled, Rises;
    var last := Prepend(s1, CasSucceeds(i), [], end);
    steps := Prepend(s, Load(i, 0), last, end);
    assert last[1..] == [] && Requests(last) == [] && steps[1..] == last;
  }

  /** For any requests, some schedule of them raises the stock exactly when one of them gives something back. */
  lemma StockRisesIff(stock: map<string, int32>, sku: string, items: seq<OrderItem>)
    requires sku in stock && stock[sku] >= 0
    ensures (exists steps ::
               ValidRun(Start(stock), steps) && Requests(steps) == items && Rises(Exec(Start(stock), steps), sku))
            <==> Returned(items, sku) > 0
  {
    hide Rises, Returned;
    if exists steps ::
         ValidRun(Start(stock), steps) && Requests(steps) == items && Rises(Exec(Start(stock), steps), sku)
    {
      var steps :| ValidRun(Start(stock), steps) && Requests(steps) == items && Rises(Exec(Start(stock), steps), sku);
      RiseWasRequested(stock, steps, sku);
    }
    if Returned(items, sku) > 0 {
      var steps := RisingRun(stock, sku, items);
    }
  }

  lemma {:induction false} RequestsCompose(steps: seq<Step>, more: seq<Step>)
    ensures Requests(steps + more) == Requests(steps) + Requests(more)
  {
    if steps == [] {
      assert steps + more == more;
    } else {
      assert (steps + more)[0] == steps[0] && (steps + more)[1..] == steps[1..] + more;
      RequestsCompose(steps[1..], more);
    }
  }

  /** For any requests, some schedule of them lets the subtraction overflow exactly when the initial stock of
      the SKU and what the negative quantities give back to it do not fit in 32 bits together. */
  lemma SubtractionOverflowsIff(stock: map<string, int32>, sku: string, items: seq<OrderItem>)
    requires sku in stock && stock[sku] >= 0
    ensures (exists steps ::
               ValidRun(Start(stock), steps) && Requests(steps) == items && Overflows(Exec(Start(stock), steps), sku))
            <==> stock[sku] + Returned(items, sku) > 0x7fff_ffff
  {
    if exists steps ::
         ValidRun(Start(stock), steps) && Requests(steps) == items && Overflows(Exec(Start(stock), steps), sku)
    {
      var steps :|
        ValidRun(Start(stock), steps) && Requests(steps) == items && Overflows(Exec(Start(stock), steps), sku);
      if stock[sku] + Returned(items, sku) <= INT32_MAX {
        SubtractionsFit(stock, steps, sku);
        assert false;
      }
    }
    if stock[sku] + Returned(items, sku) > INT32_MAX {
      var steps := OverflowingRun(stock, sku, items);
    }
  }
}
