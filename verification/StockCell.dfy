/**
 The operator of get_inventory_item_data.hpp in its own, imperative form: the loop around
 compare_exchange_weak on one shared cell. Between any two of its accesses other threads may
 write the cell; Interfere is that environment.
 */
module StockCell {
  import opened Types
  import opened Reservation

  /** How often the value of a cell has risen. */
  function Rises(h: seq<int>): nat {
    if |h| < 2 then 0
    else Rises(h[..|h| - 1]) + if h[|h| - 2] < h[|h| - 1] then 1 else 0
  }

  lemma {:induction false} RisesOfExtension(h: seq<int>, h': seq<int>)
    requires h <= h'
    ensures Rises(h) <= Rises(h')
    decreases |h'|
  {
    if |h| < |h'| {
      assert h <= h'[..|h'| - 1];
      RisesOfExtension(h, h'[..|h'| - 1]);
    } else {
      assert h == h';
    }
  }

  /** The rises up to entry `at`. */
  function RisesSeen(h: seq<int>, at: nat): nat
    requires at < |h|
  {
    Rises(h[..at + 1])
  }

  lemma {:induction false} FlatUnlessRisen(h: seq<int>, i: nat, j: nat)
    requires i <= j < |h|
    ensures RisesSeen(h, i) <= RisesSeen(h, j)
    ensures RisesSeen(h, i) == RisesSeen(h, j) ==> h[j] <= h[i]
    decreases j
  {
    if i < j {
      FlatUnlessRisen(h, i, j - 1);
      assert h[..j + 1][..j] == h[..j];
    }
  }

  /** A thread that read entry `read` when the cell was `h`, and now reads entry `at` of its extension `h'`, has
      passed a rise or reads a value that is not larger. */
  lemma ReadMovesOn(h: seq<int>, h': seq<int>, read: nat, at: nat)
    requires h <= h' && read < |h| && read <= at < |h'|
    ensures Rises(h) <= Rises(h')
    ensures RisesSeen(h, read) <= RisesSeen(h', at) <= Rises(h')
    ensures RisesSeen(h, read) == RisesSeen(h', at) ==> h'[at] <= h[read]
  {
    RisesOfExtension(h, h');
    RisesOfExtension(h'[..at + 1], h');
    FlatUnlessRisen(h', read, at);
    assert h'[..read + 1] == h[..read + 1];
  }

  /** What the environment will still do to a running call: compare-exchanges that fail spuriously, and other
      calls with negative quantities that raise the cell. A call need not end under infinitely many of either. */
  datatype Disturbance = Disturbance(spurious: nat, raises: nat)

  /** One std::atomic<int32>, kept as its modification order. */
  class AtomicStock {
    var history: seq<int>
    ghost var mine: set<nat>  // the entries written by the calls of this object's own methods

    ghost predicate Valid()
      reads this
    {
      history != [] && forall k | k in mine :: k < |history|
    }

    constructor (initial: int32)
      ensures Valid() && history == [initial] && mine == {}
    {
      history, mine := [initial], {};
    }

    /** Any number of other calls take quantities, at most `raises` of them negative ones. */
    method Interfere(raises: nat) returns (raises': nat)
      requires Valid()
      modifies this`history
      ensures Valid() && old(history) <= history
      ensures raises' + Rises(history) == raises + Rises(old(history))
    {
      raises' := raises;
      var rounds: int := *;
      while 0 < rounds
        invariant Valid() && old(history) <= history
        invariant raises' + Rises(history) == raises + Rises(old(history))
        decreases rounds
      {
        var taken: int := *;
        if taken <= Stock(history) && (taken >= 0 || raises' > 0) {
          assert (history + [Stock(history) - taken])[..|history|] == history;
          history := history + [Stock(history) - taken];
          raises' := if taken < 0 then raises' - 1 else raises';
        }
        rounds := rounds - 1;
      }
    }

    /** A relaxed load: any entry not older than `seen`. */
    method Load(seen: nat, raises: nat) returns (value: int, at: nat, raises': nat)
      requires Valid() && seen < |history|
      modifies this`history
      ensures Valid() && old(history) <= history
      ensures raises' + Rises(history) == raises + Rises(old(history))
      ensures seen <= at < |history| && value == history[at]
    {
      raises' := Interfere(raises);
      at :| seen <= at < |history|;
      value := history[at];
    }

    /** compare_exchange_weak, relaxed on success and failure. */
    method CompareExchangeWeak(expected: int, desired: int, seen: nat, env: Disturbance)
      returns (ok: bool, value: int, at: nat, env': Disturbance)
      requires Valid() && seen < |history| && expected == history[seen]
      modifies this
      ensures Valid() && old(history) <= history
      ensures env'.raises + Rises(history)
              == env.raises + Rises(old(history)) + if ok && expected < desired then 1 else 0
      ensures ok ==> at == |history| - 1 && seen < at && history[at - 1] == expected && history[at] == desired
                     && value == expected && env'.spurious == env.spurious
                     && at >= |old(history)| && mine == old(mine) + {at}
      ensures !ok ==> seen <= at < |history| && value == history[at] && mine == old(mine)
      ensures !ok && value == expected ==> env'.spurious < env.spurious
      ensures !ok && value != expected ==> env'.spurious == env.spurious
    {
      var raises := Interfere(env.raises);
      env' := Disturbance(env.spurious, raises);
      var failSpuriously: bool := *;
      at :| seen <= at < |history|;
      value := history[at];
      if value != expected {
        ok := false;
      } else if failSpuriously && env.spurious > 0 {
        ok, env' := false, Disturbance(env.spurious - 1, raises);
      } else if Stock(history) == expected {
        assert (history + [desired])[..|history|] == history;
        history := history + [desired];
        ok, at := true, |history| - 1;
        mine := mine + {at};
      } else {
        ok, at := false, |history| - 1;
        value := history[at];
      }
    }
  }

  /** The reservation loop. `seen` is the newest entry that the calling thread knows. It ends because each
      genuine failure has read a smaller value or has passed one of the finitely many rises. While the cell
      has never risen, genuine failures and the success together are at most first - quantity + 1. */
  method Reserve(cell: AtomicStock, quantity: int32, seen: nat, env: Disturbance)
    returns (reserved: bool, available: int, at: nat, ghost first: int, ghost failures: nat)
    requires cell.Valid() && seen < |cell.history|
    modifies cell
    ensures cell.Valid() && old(cell.history) <= cell.history
    ensures reserved ==> at == |cell.history| - 1 && TakenAt(cell.history, at, quantity)
                         && available == cell.history[at - 1]
    ensures reserved ==> at >= |old(cell.history)| && cell.mine == old(cell.mine) + {at}
    ensures !reserved ==> cell.mine == old(cell.mine)
    ensures !reserved ==> seen <= at && RefusedAt(cell.history, at, quantity) && available == cell.history[at]
    ensures Rises(cell.history) <= env.raises + Rises(old(cell.history)) + if reserved && quantity < 0 then 1 else 0
    ensures Rises(cell.history) == 0 ==>
              && first <= old(cell.history[seen]) && failures <= first - available
              && failures + (if reserved then 1 else 0) <= Max(0, first - quantity + 1)
  {
    var env': Disturbance;
    var raises: nat;
    reserved, failures := false, 0;
    available, at, raises := cell.Load(seen, env.raises);
    env' := Disturbance(env.spurious, raises);
    first := available;
    ReadMovesOn(old(cell.history), cell.history, seen, at);
    hide Rises, RisesSeen;
    while available >= quantity
      invariant cell.Valid() && old(cell.history) <= cell.history
      invariant !reserved && seen <= at < |cell.history| && available == cell.history[at]
      invariant cell.mine == old(cell.mine)
      invariant env'.raises + Rises(cell.history) == env.raises + Rises(old(cell.history))
      invariant RisesSeen(cell.history, at) <= Rises(cell.history)
      invariant Rises(cell.history) == 0 ==>
                  && first <= old(cell.history[seen]) && failures <= first - available
                  && failures <= Max(0, first - quantity + 1)
      decreases env'.raises + Rises(cell.history) - RisesSeen(cell.history, at), available - quantity, env'.spurious
    {
      ghost var h, expected, read := cell.history, available, at;
      reserved, available, at, env' := cell.CompareExchangeWeak(available, available - quantity, at, env');
      ReadMovesOn(h, cell.history, read, at);
      if reserved {
        break;
      }
      failures := failures + if available != expected then 1 else 0;
    }
  }

  /** What the operator sends to its result output or to its error output. */
  datatype Reply = Success(result: OrderItemResult) | Failure(failure: InventoryFailure)

  class GetInventoryItemData {
    const stock: map<string, AtomicStock>

    ghost predicate Valid()
      reads this, stock.Values
    {
      && (forall sku | sku in stock :: stock[sku].Valid())
      && (forall a, b | a in stock && b in stock && stock[a] == stock[b] :: a == b)
    }

    constructor ()
      ensures Valid() && fresh(stock.Values)
      ensures stock.Keys == {"SKU-001", "SKU-002", "SKU-003"}
      ensures stock.Keys == INITIAL_STOCK.Keys
      ensures forall sku | sku in stock :: stock[sku].history == [INITIAL_STOCK[sku]]
      ensures stock["SKU-001"].history == [100] && stock["SKU-002"].history == [50] && stock["SKU-003"].history == [25]
    {
      var first := new AtomicStock(100);
      var second := new AtomicStock(50);
      var third := new AtomicStock(25);
      var cells := map["SKU-001" := first, "SKU-002" := second, "SKU-003" := third];
      assert "SKU-001"[6] != "SKU-002"[6] && "SKU-001"[6] != "SKU-003"[6] && "SKU-002"[6] != "SKU-003"[6];
      assert cells["SKU-001"] == first && cells["SKU-002"] == second && cells["SKU-003"] == third;
      assert cells.Keys == {"SKU-001", "SKU-002", "SKU-003"};
      stock := cells;
    }

    /** One request, answered while other threads use the same cells. */
    method Handle(value: OrderItem, seen: nat, env: Disturbance) returns (reply: Reply, ghost at: nat)
      requires Valid() && (value.sku in stock ==> seen < |stock[value.sku].history|)
      modifies stock.Values
      ensures value.sku !in stock ==> reply == Failure(InventoryFailure(value, 0))
      ensures value.sku in stock && reply.Success? ==>
                && TakenAt(stock[value.sku].history, at, value.quantity)
                && at >= |old(stock[value.sku].history)| && stock[value.sku].mine == old(stock[value.sku].mine) + {at}
                && reply.result == OrderItemResult(value.orderId, value.itemId, value.sku, value.quantity,
                                                   value.quantity, true, Confirmed, value.unitPrice, "")
      ensures value.sku in stock && reply.Failure? ==>
                && RefusedAt(stock[value.sku].history, at, value.quantity)
                && stock[value.sku].mine == old(stock[value.sku].mine)
                && reply.failure == InventoryFailure(value, stock[value.sku].history[at])
      ensures value.sku in stock ==> old(stock[value.sku].history) <= stock[value.sku].history
      ensures forall sku | sku in stock && sku != value.sku ::
                stock[sku].history == old(stock[sku].history) && stock[sku].mine == old(stock[sku].mine)
      ensures Valid()
    {
      var available, reserved := 0, false;
      at := 0;
      if value.sku in stock {
        var entry: nat;
        ghost var first, failures;
        reserved, available, entry, first, failures := Reserve(stock[value.sku], value.quantity, seen, env);
        at := entry;
      }
      var result := OrderItemResult(
        value.orderId, value.itemId, value.sku, value.quantity, if reserved then value.quantity else available,
        reserved, if reserved then Confirmed else OutOfStock, value.unitPrice, "");
      reply := if reserved then Success(result) else Failure(InventoryFailure(value, available));
    }
  }
}
