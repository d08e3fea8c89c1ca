/**
 Any number of concurrent executions of GetInventoryItemData::operator()
 (inventoryservice/internal/functions/inventory_item/get_inventory_item_data.hpp).

 Every atomic operation there is relaxed, so a stock cell is kept as its modification order:
 the sequence of all values it has held. A load or a failed compare-exchange may return any
 entry that is not older than one its thread has already seen (coherence, section 6.9.2.1
 [intro.races] of C++20). A successful compare-exchange reads the last entry (section 31.4
 [atomics.order] of C++20) and appends the next one.

 Quantities are arbitrary 32-bit integers here, as the inventory service does not validate
 them. Only lemmas that need it ask for non-negative quantities.
 */
module Reservation {
  import opened Types

  datatype Phase = Started | Looping | Reserved | Rejected

  /** One execution of the operator.
      `available` is its local variable, `seen` the newest entry it has read or written,
      `first` the entry its first load returned, and `failures` counts the
      compare-exchanges that failed because the cell held another value. */
  datatype Call = Call(
    thread: nat, item: OrderItem, phase: Phase, available: int, seen: nat, first: nat, failures: nat)
  {
    predicate Done() { phase.Reserved? || phase.Rejected? }

    predicate HasRead() { !phase.Started? }

    /** The last entry this call read from the cell. */
    function ReadIndex(): int { if phase.Reserved? then seen - 1 else seen }
  }

  datatype Service = Service(cells: map<string, seq<int>>, calls: seq<Call>)

  datatype Step =
    | Invoke(thread: nat, item: OrderItem)
    | Load(c: nat, at: nat)
    | CasSucceeds(c: nat)
    | CasFails(c: nat, at: nat)
    | CasFailsSpuriously(c: nat, at: nat)
    | Reject(c: nat)

  function Start(stock: map<string, int32>): Service {
    Service(map sku | sku in stock :: [stock[sku]], [])
  }

  /** The stock that the service's constructor sets up. */
  const INITIAL_STOCK: map<string, int32> := map["SKU-001" := 100, "SKU-002" := 50, "SKU-003" := 25]

  function Stock(h: seq<int>): int
    requires h != []
  {
    h[|h| - 1]
  }

  /** Coherence: the thread of call `c` may read entry `at` of its cell. */
  predicate MayRead(s: Service, c: nat, at: nat)
    requires c < |s.calls|
  {
    && s.calls[c].item.sku in s.cells
    && at < |s.cells[s.calls[c].item.sku]|
    && forall d | 0 <= d < |s.calls| && s.calls[d].HasRead()
                  && s.calls[d].thread == s.calls[c].thread && s.calls[d].item.sku == s.calls[c].item.sku ::
         s.calls[d].seen <= at
  }

  /** Call `c` is at the head of its loop and enters the body. */
  predicate InLoop(s: Service, c: nat) {
    && c < |s.calls|
    && s.calls[c].phase.Looping?
    && s.calls[c].available >= s.calls[c].item.quantity
  }

  predicate Enabled(s: Service, step: Step) {
    match step
    case Invoke(t, _) =>
      forall d | 0 <= d < |s.calls| && s.calls[d].thread == t :: s.calls[d].Done()
    case Load(c, at) =>
      c < |s.calls| && s.calls[c].phase.Started? && MayRead(s, c, at)
    case CasSucceeds(c) =>
      && InLoop(s, c)
      && s.calls[c].item.sku in s.cells
      && var h := s.cells[s.calls[c].item.sku];
      && h != [] && Stock(h) == s.calls[c].available
    case CasFails(c, at) =>
      InLoop(s, c) && MayRead(s, c, at) && s.cells[s.calls[c].item.sku][at] != s.calls[c].available
    case CasFailsSpuriously(c, at) =>
      InLoop(s, c) && MayRead(s, c, at) && s.cells[s.calls[c].item.sku][at] == s.calls[c].available
    case Reject(c) =>
      c < |s.calls| && s.calls[c].phase.Looping? && s.calls[c].available < s.calls[c].item.quantity
  }

  /** A new execution; for a SKU that is not stocked the operator never touches a cell. */
  function NewCall(s: Service, thread: nat, item: OrderItem): Call {
    Call(thread, item, if item.sku in s.cells then Started else Rejected, 0, 0, 0, 0)
  }

  function Next(s: Service, step: Step): Service
    requires Enabled(s, step)
  {
    match step
    case Invoke(t, item) => s.(calls := s.calls + [NewCall(s, t, item)])
    case Load(c, at) =>
      var call := s.calls[c];
      var value := s.cells[call.item.sku][at];
      s.(calls := s.calls[c := call.(phase := Looping, available := value, seen := at, first := at)])
    case CasSucceeds(c) =>
      var call := s.calls[c];
      var h := s.cells[call.item.sku];
      Service(s.cells[call.item.sku := h + [call.available - call.item.quantity]],
              s.calls[c := call.(phase := Reserved, seen := |h|)])
    case CasFails(c, at) =>
      var call := s.calls[c];
      var value := s.cells[call.item.sku][at];
      s.(calls := s.calls[c := call.(available := value, seen := at, failures := call.failures + 1)])
    case CasFailsSpuriously(c, at) =>
      s.(calls := s.calls[c := s.calls[c].(seen := at)])
    case Reject(c) =>
      s.(calls := s.calls[c := s.calls[c].(phase := Rejected)])
  }

  predicate ValidRun(s: Service, steps: seq<Step>)
    decreases |steps|
  {
    steps == [] || (Enabled(s, steps[0]) && ValidRun(Next(s, steps[0]), steps[1..]))
  }

  function Exec(s: Service, steps: seq<Step>): Service
    requires ValidRun(s, steps)
    decreases |steps|
  {
    if steps == [] then s else Exec(Next(s, steps[0]), steps[1..])
  }

  // ---------- The invariant ----------

  /** Entry `at` was written by taking `quantity` from the entry before it. */
  predicate TakenAt(h: seq<int>, at: nat, quantity: int) {
    1 <= at < |h| && h[at - 1] >= quantity && h[at] == h[at - 1] - quantity
  }

  /** Entry `at` is too small for `quantity`. */
  predicate RefusedAt(h: seq<int>, at: nat, quantity: int) {
    at < |h| && h[at] < quantity
  }

  /** Entry `at` is large enough for `quantity`. */
  predicate SufficesAt(h: seq<int>, at: nat, quantity: int) {
    at < |h| && h[at] >= quantity
  }

  /** After `failures` genuine failures the call has tried, in the last of them, to replace an entry that
      was large enough, and each of them has led it to a newer entry. */
  ghost predicate LastAttemptSufficed(h: seq<int>, call: Call) {
    call.failures > 0 ==>
      exists k: nat :: call.first + call.failures - 1 <= k && SufficesAt(h, k, call.item.quantity)
  }

  ghost predicate CallOk(h: seq<int>, call: Call) {
    && (!call.HasRead() ==> call.failures == 0)
    && (call.HasRead() ==>
          && 0 <= call.ReadIndex() < |h|
          && call.available == h[call.ReadIndex()]
          && call.first + call.failures <= call.ReadIndex())
    && LastAttemptSufficed(h, call)
    && (call.phase.Rejected? ==> RefusedAt(h, call.seen, call.item.quantity))
    && (call.phase.Reserved? ==> TakenAt(h, call.seen, call.item.quantity))
  }

  predicate Wrote(call: Call, sku: string, at: int) {
    call.phase.Reserved? && call.item.sku == sku && call.seen == at
  }

  predicate HasWriter(calls: seq<Call>, sku: string, at: int) {
    exists c :: 0 <= c < |calls| && Wrote(calls[c], sku, at)
  }

  /** Sum of the quantities of all accepted calls for `sku`. */
  function Accepted(calls: seq<Call>, sku: string): int {
    if calls == [] then 0
    else
      var n := |calls| - 1;
      Accepted(calls[..n], sku)
      + if calls[n].phase.Reserved? && calls[n].item.sku == sku then calls[n].item.quantity else 0
  }

  ghost predicate CellInv(h: seq<int>, calls: seq<Call>, sku: string) {
    && h != []
    && (forall c | 0 <= c < |calls| && calls[c].item.sku == sku :: CallOk(h, calls[c]))
    && (forall k | 1 <= k < |h| :: HasWriter(calls, sku, k))
    && (forall c, d | 0 <= c < d < |calls| && calls[c].phase.Reserved? && Wrote(calls[d], sku, calls[c].seen) ::
          calls[c].item.sku != sku)
    && h[0] == Stock(h) + Accepted(calls, sku)
  }

  /** A thread runs one call after the other, and what it reads of a cell never gets older. */
  ghost predicate InProgramOrder(calls: seq<Call>) {
    && (forall c, d | 0 <= c < d < |calls| && calls[c].thread == calls[d].thread :: calls[c].Done())
    && (forall c, d | 0 <= c < d < |calls| && calls[c].thread == calls[d].thread
                      && calls[c].item.sku == calls[d].item.sku && calls[c].HasRead() && calls[d].HasRead() ::
          if calls[d].phase.Reserved? then calls[c].seen < calls[d].seen else calls[c].seen <= calls[d].seen)
  }

  ghost predicate Inv(s: Service) {
    && (forall sku | sku in s.cells :: CellInv(s.cells[sku], s.calls, sku))
    && (forall c | 0 <= c < |s.calls| && s.calls[c].item.sku !in s.cells ::
          s.calls[c].phase.Rejected? && s.calls[c].available == 0 && s.calls[c].seen == 0 && s.calls[c].failures == 0)
    && InProgramOrder(s.calls)
  }

  lemma {:induction false} AcceptedUpdate(calls: seq<Call>, c: nat, call: Call, sku: string)
    requires c < |calls|
    requires call.item == calls[c].item && !calls[c].phase.Reserved?
    ensures Accepted(calls[c := call], sku)
            == Accepted(calls, sku) + if call.phase.Reserved? && call.item.sku == sku then call.item.quantity else 0
  {
    var n := |calls| - 1;
    if c == n {
      assert calls[c := call][..n] == calls[..n];
    } else {
      assert calls[c := call][..n] == calls[..n][c := call];
      AcceptedUpdate(calls[..n], c, call, sku);
    }
  }

  /** Completed reservations stay as they are, so every entry keeps its writer. */
  lemma WriterStays(calls: seq<Call>, calls': seq<Call>, sku: string, k: int)
    requires HasWriter(calls, sku, k)
    requires |calls| <= |calls'|
    requires forall c | 0 <= c < |calls| && calls[c].phase.Reserved? :: calls'[c] == calls[c]
    ensures HasWriter(calls', sku, k)
  {
    var c :| 0 <= c < |calls| && Wrote(calls[c], sku, k);
    assert Wrote(calls'[c], sku, k);
  }

  /** A step of call `c` that writes nothing to this cell keeps its invariant. */
  lemma QuietStepKeepsCell(h: seq<int>, calls: seq<Call>, sku: string, c: nat, call: Call)
    requires CellInv(h, calls, sku)
    requires c < |calls| && call.item == calls[c].item && !calls[c].phase.Reserved?
    requires call.item.sku == sku ==> CallOk(h, call) && !call.phase.Reserved?
    ensures CellInv(h, calls[c := call], sku)
  {
    AcceptedUpdate(calls, c, call, sku);
    var calls' := calls[c := call];
    forall k: int | 1 <= k < |h|
      ensures HasWriter(calls', sku, k)
    {
      assert HasWriter(calls, sku, k);
      WriterStays(calls, calls', sku, k);
    }
  }

  lemma AttemptStaysSufficient(h: seq<int>, h': seq<int>, call: Call)
    requires LastAttemptSufficed(h, call) && h <= h'
    ensures LastAttemptSufficed(h', call)
  {
    if call.failures > 0 {
      var k: nat :| call.first + call.failures - 1 <= k && SufficesAt(h, k, call.item.quantity);
      assert SufficesAt(h', k, call.item.quantity);
    }
  }

  lemma SuccessKeepsCell(h: seq<int>, calls: seq<Call>, sku: string, c: nat, call: Call)
    requires CellInv(h, calls, sku)
    requires c < |calls| && calls[c].phase.Looping? && calls[c].item.sku == sku
    requires calls[c].available == Stock(h) && calls[c].available >= calls[c].item.quantity
    requires call == calls[c].(phase := Reserved, seen := |h|)
    ensures CellInv(h + [call.available - call.item.quantity], calls[c := call], sku)
  {
    var h', calls' := h + [call.available - call.item.quantity], calls[c := call];
    AcceptedUpdate(calls, c, call, sku);
    forall d | 0 <= d < |calls'| && calls'[d].item.sku == sku
      ensures CallOk(h', calls'[d])
    {
      assert CallOk(h, calls[d]);
      AttemptStaysSufficient(h, h', calls[d]);
    }
    forall k: int | 1 <= k < |h'|
      ensures HasWriter(calls', sku, k)
    {
      if k == |h| {
        assert Wrote(calls'[c], sku, k);
      } else {
        assert HasWriter(calls, sku, k);
        WriterStays(calls, calls', sku, k);
      }
    }
  }

  lemma InvokeKeepsCell(h: seq<int>, calls: seq<Call>, sku: string, call: Call)
    requires CellInv(h, calls, sku)
    requires !call.phase.Reserved? && (call.item.sku == sku ==> CallOk(h, call))
    ensures CellInv(h, calls + [call], sku)
  {
    var calls' := calls + [call];
    assert calls'[..|calls|] == calls;
    forall k: int | 1 <= k < |h|
      ensures HasWriter(calls', sku, k)
    {
      assert HasWriter(calls, sku, k);
      WriterStays(calls, calls', sku, k);
    }
  }

  /** Call `c`, once it is `call`, has seen at least what the other calls of its thread have seen. */
  ghost predicate SeesNewest(calls: seq<Call>, c: nat, call: Call) {
    forall d | 0 <= d < |calls| && d != c && calls[d].thread == call.thread
               && calls[d].item.sku == call.item.sku && calls[d].HasRead() ::
      if call.phase.Reserved? then calls[d].seen < call.seen else calls[d].seen <= call.seen
  }

  lemma UpdateKeepsProgramOrder(calls: seq<Call>, c: nat, call: Call)
    requires InProgramOrder(calls)
    requires c < |calls| && !calls[c].Done() && call.item == calls[c].item && call.thread == calls[c].thread
    requires SeesNewest(calls, c, call)
    ensures InProgramOrder(calls[c := call])
  {
  }

  lemma InvokeKeepsProgramOrder(s: Service, step: Step)
    requires Inv(s) && Enabled(s, step) && step.Invoke?
    ensures InProgramOrder(Next(s, step).calls)
  {
    hide CellInv;
  }

  lemma WriterSeesNewest(s: Service, c: nat)
    requires Inv(s) && Enabled(s, CasSucceeds(c))
    ensures SeesNewest(s.calls, c, Next(s, CasSucceeds(c)).calls[c])
  {
    hide InProgramOrder;
    var sku := s.calls[c].item.sku;
    assert CellInv(s.cells[sku], s.calls, sku);
    forall d | 0 <= d < |s.calls| && s.calls[d].item.sku == sku && s.calls[d].HasRead()
      ensures s.calls[d].seen < |s.cells[sku]|
    {
      assert CallOk(s.cells[sku], s.calls[d]);
    }
  }

  lemma RejectedSeesNewest(calls: seq<Call>, c: nat)
    requires InProgramOrder(calls) && c < |calls| && calls[c].phase.Looping?
    ensures SeesNewest(calls, c, calls[c].(phase := Rejected))
  {
  }

  lemma StepKeepsProgramOrder(s: Service, step: Step)
    requires Inv(s) && Enabled(s, step)
    ensures InProgramOrder(Next(s, step).calls)
  {
    hide CellInv, InProgramOrder;
    match step {
      case Invoke(t, item) =>
        InvokeKeepsProgramOrder(s, step);
      case CasSucceeds(c) =>
        WriterSeesNewest(s, c);
        UpdateKeepsProgramOrder(s.calls, c, Next(s, step).calls[c]);
      case Reject(c) =>
        RejectedSeesNewest(s.calls, c);
        UpdateKeepsProgramOrder(s.calls, c, Next(s, step).calls[c]);
      case _ =>
        UpdateKeepsProgramOrder(s.calls, step.c, Next(s, step).calls[step.c]);
    }
  }

  /** What a step that changes no cell does to the calling execution is sound for its cell. */
  lemma QuietStepIsSound(s: Service, step: Step, c: nat, sku: string)
    requires Inv(s) && Enabled(s, step) && sku in s.cells
    requires !step.Invoke? && !step.CasSucceeds? && step.c == c
    requires s.calls[c].item.sku == sku
    ensures CallOk(s.cells[sku], Next(s, step).calls[c])
  {
    hide InProgramOrder;
    assert CellInv(s.cells[sku], s.calls, sku);
    var h, call := s.cells[sku], s.calls[c];
    assert CallOk(h, call);
    assert step.CasFails? ==> SufficesAt(h, call.seen, call.item.quantity);
  }

  lemma StepKeepsCell(s: Service, step: Step, sku: string)
    requires Inv(s) && Enabled(s, step) && sku in s.cells
    ensures sku in Next(s, step).cells && CellInv(Next(s, step).cells[sku], Next(s, step).calls, sku)
  {
    hide CellInv, InProgramOrder;
    var s' := Next(s, step);
    var h := s.cells[sku];
    assert CellInv(h, s.calls, sku);
    match step {
      case Invoke(t, item) =>
        InvokeKeepsCell(h, s.calls, sku, NewCall(s, t, item));
      case CasSucceeds(c) =>
        if s.calls[c].item.sku == sku {
          SuccessKeepsCell(h, s.calls, sku, c, s'.calls[c]);
        } else {
          QuietStepKeepsCell(h, s.calls, sku, c, s'.calls[c]);
        }
      case _ =>
        var c := step.c;
        if s.calls[c].item.sku == sku {
          QuietStepIsSound(s, step, c, sku);
        }
        QuietStepKeepsCell(h, s.calls, sku, c, s'.calls[c]);
    }
  }

  lemma StepKeepsInv(s: Service, step: Step)
    requires Inv(s) && Enabled(s, step)
    ensures Inv(Next(s, step))
  {
    hide CellInv, InProgramOrder;
    StepKeepsProgramOrder(s, step);
    var s' := Next(s, step);
    forall sku | sku in s'.cells
      ensures CellInv(s'.cells[sku], s'.calls, sku)
    {
      StepKeepsCell(s, step, sku);
    }
  }

  lemma {:induction false} RunKeepsInv(s: Service, steps: seq<Step>)
    requires Inv(s) && ValidRun(s, steps)
    ensures Inv(Exec(s, steps))
    decreases |steps|
  {
    if steps != [] {
      StepKeepsInv(s, steps[0]);
      RunKeepsInv(Next(s, steps[0]), steps[1..]);
    }
  }

  lemma StartInv(stock: map<string, int32>)
    ensures Inv(Start(stock))
  {
  }
}
