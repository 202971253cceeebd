/** Inventory positioning (pipeline/inventory.py): the reorder-point policy,
    computed row by row from the demand forecast, and the discrete-event
    replenishment simulator that replays actual demand against that policy,
    one series at a time, and turns the accumulated stockout and holding
    units into costs. */
module Inventory {
  import opened Common
  import Sorting

  /** A forecast row as the policy reads it: series id, day number, actual
      units, predicted units and the trailing 28-day standard deviation
      (missing for rows without enough history). */
  datatype ForecastRow = ForecastRow(id: string, date: int, units: real, predUnits: real, rollStd28: Option<real>)

  /** A forecast row with its policy columns attached. */
  datatype PolicyRow = PolicyRow(row: ForecastRow, safetyStock: real, reorderPoint: real)

  /** Order of `sort_values(["id", "date"])`. */
  function IdDateOrder(): (ahead: (PolicyRow, PolicyRow) -> bool)
  {
    Sorting.Lex(Sorting.ByString((r: PolicyRow) => r.row.id), Sorting.Ascending((r: PolicyRow) => r.row.date))
  }

  lemma IdDateOrderIsStrictWeakOrder()
    ensures Sorting.StrictWeakOrder(IdDateOrder())
  {
    Sorting.ByStringIsStrictWeakOrder((r: PolicyRow) => r.row.id);
    Sorting.AscendingIsStrictWeakOrder((r: PolicyRow) => r.row.date);
    Sorting.LexIsStrictWeakOrder(Sorting.ByString((r: PolicyRow) => r.row.id), Sorting.Ascending((r: PolicyRow) => r.row.date));
  }

  // ---------------------------------------------------------------------
  // compute_inventory_policy
  // ---------------------------------------------------------------------

  /** The daily volatility the policy uses: the 28-day rolling std, 0 when missing. */
  function SigmaDay(r: ForecastRow): real
  {
    GetOr(r.rollStd28, 0.0)
  }

  /** Policy columns of one row. `z` is the inverse normal CDF at the service
      level and `sqrtLead` the square root of the lead time, both supplied
      by the caller. */
  function PolicyFor(r: ForecastRow, z: real, lead: nat, sqrtLead: real): PolicyRow
  {
    var safety := z * (SigmaDay(r) * sqrtLead);
    PolicyRow(r, safety, r.predUnits * (lead as real) + safety)
  }

  /** Order of `sort_values(["id", "date"])` on forecast rows. */
  function ForecastOrder(): (ahead: (ForecastRow, ForecastRow) -> bool)
  {
    Sorting.Lex(Sorting.ByString((r: ForecastRow) => r.id), Sorting.Ascending((r: ForecastRow) => r.date))
  }

  lemma ForecastOrderIsStrictWeakOrder()
    ensures Sorting.StrictWeakOrder(ForecastOrder())
  {
    Sorting.ByStringIsStrictWeakOrder((r: ForecastRow) => r.id);
    Sorting.AscendingIsStrictWeakOrder((r: ForecastRow) => r.date);
    Sorting.LexIsStrictWeakOrder(Sorting.ByString((r: ForecastRow) => r.id), Sorting.Ascending((r: ForecastRow) => r.date));
  }

  /** `compute_inventory_policy`: sort by (id, date), then attach the policy
      columns; one output row per input row. */
  function ComputePolicy(rows: seq<ForecastRow>, z: real, lead: nat, sqrtLead: real): (r: seq<PolicyRow>)
    ensures |r| == |rows|
    ensures multiset(Map(r, (p: PolicyRow) => p.row)) == multiset(rows)
    ensures Sorting.SortedBy(Map(r, (p: PolicyRow) => p.row), ForecastOrder())
    ensures forall i :: 0 <= i < |r| ==> r[i] == PolicyFor(r[i].row, z, lead, sqrtLead)
  {
    var sorted := Sorting.Sort(rows, ForecastOrder());
    var policy := Map(sorted, (x: ForecastRow) => PolicyFor(x, z, lead, sqrtLead));
    RowsOfPolicy(policy, sorted);
    ForecastOrderIsStrictWeakOrder();
    Sorting.SortSorted(rows, ForecastOrder());
    policy
  }

  lemma RowsOfPolicy(policy: seq<PolicyRow>, rows: seq<ForecastRow>)
    requires |policy| == |rows| && forall i :: 0 <= i < |rows| ==> policy[i].row == rows[i]
    ensures Map(policy, (p: PolicyRow) => p.row) == rows
  {
  }

  /** With no volatility the safety stock vanishes and the reorder point is
      the lead-time demand; with non-negative z, sigma and sqrt(L) it is at least that. */
  lemma ReorderPointBounds(r: ForecastRow, z: real, lead: nat, sqrtLead: real)
    ensures var p := PolicyFor(r, z, lead, sqrtLead);
      p.row == r && p.safetyStock == z * (SigmaDay(r) * sqrtLead) && p.reorderPoint == r.predUnits * (lead as real) + p.safetyStock &&
      (SigmaDay(r) == 0.0 ==> p.safetyStock == 0.0 && p.reorderPoint == r.predUnits * (lead as real)) &&
      (z >= 0.0 && SigmaDay(r) >= 0.0 && sqrtLead >= 0.0 ==>
         p.safetyStock >= 0.0 && p.reorderPoint >= r.predUnits * (lead as real))
  {
    var s := SigmaDay(r) * sqrtLead;
    if z >= 0.0 && SigmaDay(r) >= 0.0 && sqrtLead >= 0.0 {
      assert s >= 0.0;
      assert z * s >= 0.0;
    }
  }

  /** A missing rolling std counts as zero volatility. */
  lemma MissingSigmaCountsAsZero(r: ForecastRow, z: real, lead: nat, sqrtLead: real)
    requires r.rollStd28.None?
    ensures PolicyFor(r, z, lead, sqrtLead).reorderPoint == r.predUnits * (lead as real)
  {
    ReorderPointBounds(r, z, lead, sqrtLead);
  }

  // ---------------------------------------------------------------------
  // simulate_replenishment: the per-series state machine
  // ---------------------------------------------------------------------

  /** An outstanding replenishment order: the step it arrives at and its quantity. */
  datatype Order = Order(arrival: int, qty: real)

  /** The simulator's state for one series. The stockout and holding totals
      are the series' contribution to the run-wide totals. */
  datatype SeriesState = SeriesState(onHand: real, orders: seq<Order>, stockout: real, holding: real)

  /** `[o for o in orders if o[0] == t]` */
  function ArrivedAt(orders: seq<Order>, t: int): seq<Order>
  {
    if |orders| == 0 then []
    else (if orders[0].arrival == t then [orders[0]] else []) + ArrivedAt(orders[1..], t)
  }

  /** `[o for o in orders if o[0] != t]` */
  function Outstanding(orders: seq<Order>, t: int): seq<Order>
  {
    if |orders| == 0 then []
    else (if orders[0].arrival != t then [orders[0]] else []) + Outstanding(orders[1..], t)
  }

  lemma {:induction false} ArrivedAtMembers(orders: seq<Order>, t: int)
    ensures forall o :: o in ArrivedAt(orders, t) <==> o in orders && o.arrival == t
  {
    if |orders| > 0 {
      ArrivedAtMembers(orders[1..], t);
      assert orders == [orders[0]] + orders[1..];
    }
  }

  lemma {:induction false} OutstandingMembers(orders: seq<Order>, t: int)
    ensures forall o :: o in Outstanding(orders, t) <==> o in orders && o.arrival != t
  {
    if |orders| > 0 {
      OutstandingMembers(orders[1..], t);
      assert orders == [orders[0]] + orders[1..];
    }
  }

  /** Total quantity of a list of orders. */
  function TotalQty(orders: seq<Order>): real
  {
    if |orders| == 0 then 0.0 else orders[0].qty + TotalQty(orders[1..])
  }

  /** The step an order placed at step `t` arrives at, in a series of `n` steps. */
  function ArrivalStep(t: nat, lead: nat, n: nat): int
  {
    MinInt(t + lead, n - 1)
  }

  /** Units on hand once the arrivals of step `t` are in. */
  function OnHandAfterReceipt(s: SeriesState, t: nat): real
  {
    s.onHand + TotalQty(ArrivedAt(s.orders, t))
  }

  /** Units of the step's demand that are served from stock. */
  function Fulfilled(s: SeriesState, row: PolicyRow, t: nat): real
  {
    Min(OnHandAfterReceipt(s, t), row.row.units)
  }

  /** Order-up-to level of the step. */
  function Target(row: PolicyRow, lead: nat): real
  {
    row.row.predUnits * (lead as real) + row.safetyStock
  }

  /** Whether the step places an order: on hand (not on order) at or below
      the reorder point. */
  function Reorders(s: SeriesState, row: PolicyRow, t: nat): bool
  {
    OnHandAfterReceipt(s, t) - Fulfilled(s, row, t) <= row.reorderPoint
  }

  /** The quantity a step orders when it reorders. */
  function OrderQty(s: SeriesState, row: PolicyRow, t: nat, lead: nat): real
  {
    Max(Target(row, lead) - (OnHandAfterReceipt(s, t) - Fulfilled(s, row, t)), 0.0)
  }

  /** One step `t` of a series with `n` rows: receive, fulfil, accrue, reorder. */
  function Step(s: SeriesState, row: PolicyRow, t: nat, n: nat, lead: nat): SeriesState
  {
    var onHand := OnHandAfterReceipt(s, t) - Fulfilled(s, row, t);
    var demand := row.row.units;
    var stockout := if demand > Fulfilled(s, row, t) then s.stockout + (demand - Fulfilled(s, row, t)) else s.stockout;
    var pending := Outstanding(s.orders, t);
    var orders := if Reorders(s, row, t) then pending + [Order(ArrivalStep(t, lead, n), OrderQty(s, row, t, lead))] else pending;
    SeriesState(onHand, orders, stockout, s.holding + Max(onHand, 0.0))
  }

  /** `initial_on_hand_days * mean(pred_units)` */
  function InitialOnHand(rows: seq<PolicyRow>, initialOnHandDays: nat): real
  {
    if |rows| == 0 then 0.0 else (initialOnHandDays as real) * Mean(Map(rows, (r: PolicyRow) => r.row.predUnits))
  }

  /** The state after the first `k` steps of a series that starts with `init` on hand. */
  function StateAfter(rows: seq<PolicyRow>, k: nat, lead: nat, init: real): SeriesState
    requires k <= |rows|
  {
    if k == 0 then SeriesState(init, [], 0.0, 0.0)
    else Step(StateAfter(rows, k - 1, lead, init), rows[k - 1], k - 1, |rows|, lead)
  }

  /** The state at the end of a series. */
  function FinalState(rows: seq<PolicyRow>, lead: nat, initialOnHandDays: nat): SeriesState
  {
    StateAfter(rows, |rows|, lead, InitialOnHand(rows, initialOnHandDays))
  }

  // Ledgers: cumulative demand, fulfilled units, received units and ordered
  // units over the first k steps (the source only accumulates the totals;
  // these exist to state what the totals mean).

  function DemandUpTo(rows: seq<PolicyRow>, k: nat): real
    requires k <= |rows|
  {
    if k == 0 then 0.0 else DemandUpTo(rows, k - 1) + rows[k - 1].row.units
  }

  function FulfilledUpTo(rows: seq<PolicyRow>, k: nat, lead: nat, init: real): real
    requires k <= |rows|
  {
    if k == 0 then 0.0
    else FulfilledUpTo(rows, k - 1, lead, init) + Fulfilled(StateAfter(rows, k - 1, lead, init), rows[k - 1], k - 1)
  }

  function ReceivedUpTo(rows: seq<PolicyRow>, k: nat, lead: nat, init: real): real
    requires k <= |rows|
  {
    if k == 0 then 0.0
    else ReceivedUpTo(rows, k - 1, lead, init) + TotalQty(ArrivedAt(StateAfter(rows, k - 1, lead, init).orders, k - 1))
  }

  function OrderedUpTo(rows: seq<PolicyRow>, k: nat, lead: nat, init: real): real
    requires k <= |rows|
  {
    if k == 0 then 0.0
    else
      var s := StateAfter(rows, k - 1, lead, init);
      OrderedUpTo(rows, k - 1, lead, init) + (if Reorders(s, rows[k - 1], k - 1) then OrderQty(s, rows[k - 1], k - 1, lead) else 0.0)
  }

  // ---------------------------------------------------------------------
  // Properties of the state machine
  // ---------------------------------------------------------------------

  lemma {:induction false} TotalQtyConcat(a: seq<Order>, b: seq<Order>)
    ensures TotalQty(a + b) == TotalQty(a) + TotalQty(b)
  {
    if |a| > 0 {
      assert (a + b)[1..] == a[1..] + b;
      TotalQtyConcat(a[1..], b);
    } else {
      assert a + b == b;
    }
  }

  lemma {:induction false} TotalQtyNonNegative(orders: seq<Order>)
    requires forall o :: o in orders ==> o.qty >= 0.0
    ensures TotalQty(orders) >= 0.0
  {
    if |orders| > 0 {
      assert forall o :: o in orders[1..] ==> o in orders;
      TotalQtyNonNegative(orders[1..]);
    }
  }

  /** Receiving at step t splits the pending orders exactly: what arrives and
      what stays outstanding add up to what was pending, and no order that
      stays outstanding is due at t. */
  lemma {:induction false} ReceiptPartition(orders: seq<Order>, t: int)
    ensures TotalQty(orders) == TotalQty(ArrivedAt(orders, t)) + TotalQty(Outstanding(orders, t))
    ensures |orders| == |ArrivedAt(orders, t)| + |Outstanding(orders, t)|
    ensures forall o :: o in Outstanding(orders, t) ==> o.arrival != t
  {
    if |orders| > 0 {
      ReceiptPartition(orders[1..], t);
      var a0: seq<Order> := if orders[0].arrival == t then [orders[0]] else [];
      var o0: seq<Order> := if orders[0].arrival != t then [orders[0]] else [];
      TotalQtyConcat(a0, ArrivedAt(orders[1..], t));
      TotalQtyConcat(o0, Outstanding(orders[1..], t));
      assert TotalQty(a0) == if orders[0].arrival == t then orders[0].qty else 0.0;
      assert TotalQty(o0) == if orders[0].arrival != t then orders[0].qty else 0.0;
    }
  }

  /** An order placed at step t < n arrives within [t, n - 1]; it arrives later than t
      exactly when the lead time is positive and t is not the last step. */
  lemma ArrivalWithinHorizon(t: nat, lead: nat, n: nat)
    requires t < n
    ensures t <= ArrivalStep(t, lead, n) <= n - 1
    ensures ArrivalStep(t, lead, n) > t <==> lead > 0 && t < n - 1
  {
  }

  /** The facts one step establishes: stock left after fulfilling is never
      negative, the stockout total grows by exactly the unmet demand, which is
      never negative, and every order quantity is non-negative. */
  lemma StepFacts(s: SeriesState, row: PolicyRow, t: nat, n: nat, lead: nat)
    ensures var s' := Step(s, row, t, n, lead);
      s'.onHand >= 0.0 &&
      s'.stockout == s.stockout + (row.row.units - Fulfilled(s, row, t)) &&
      Fulfilled(s, row, t) <= row.row.units &&
      OnHandAfterReceipt(s, t) == Fulfilled(s, row, t) + s'.onHand &&
      s'.holding == s.holding + s'.onHand &&
      OrderQty(s, row, t, lead) >= 0.0
  {
  }

  /** A step only ever adds orders of non-negative quantity. */
  lemma StepKeepsOrdersNonNegative(s: SeriesState, row: PolicyRow, t: nat, n: nat, lead: nat)
    requires forall o :: o in s.orders ==> o.qty >= 0.0
    ensures forall o :: o in Step(s, row, t, n, lead).orders ==> o.qty >= 0.0
  {
    StepFacts(s, row, t, n, lead);
    OutstandingMembers(s.orders, t);
  }

  /** Stock never goes negative, and every outstanding order is for a
      non-negative quantity, provided the series starts with non-negative stock. */
  lemma {:induction false} OnHandNonNegative(rows: seq<PolicyRow>, k: nat, lead: nat, init: real)
    requires k <= |rows| && init >= 0.0
    ensures StateAfter(rows, k, lead, init).onHand >= 0.0
    ensures forall o :: o in StateAfter(rows, k, lead, init).orders ==> o.qty >= 0.0
  {
    if k > 0 {
      var s := StateAfter(rows, k - 1, lead, init);
      assert StateAfter(rows, k, lead, init) == Step(s, rows[k - 1], k - 1, |rows|, lead);
      OnHandNonNegative(rows, k - 1, lead, init);
      StepFacts(s, rows[k - 1], k - 1, |rows|, lead);
      StepKeepsOrdersNonNegative(s, rows[k - 1], k - 1, |rows|, lead);
    }
  }

  /** Per step, the stockout total grows by exactly the unmet demand, which is never negative. */
  lemma StockoutStep(rows: seq<PolicyRow>, k: nat, lead: nat, init: real)
    requires k < |rows|
    ensures var s := StateAfter(rows, k, lead, init);
      StateAfter(rows, k + 1, lead, init).stockout == s.stockout + (rows[k].row.units - Fulfilled(s, rows[k], k)) &&
      Fulfilled(s, rows[k], k) <= rows[k].row.units
  {
  }

  /** The stockout total never decreases along a series' timeline. */
  lemma {:induction false} StockoutNonDecreasing(rows: seq<PolicyRow>, j: nat, k: nat, lead: nat, init: real)
    requires j <= k <= |rows|
    ensures StateAfter(rows, j, lead, init).stockout <= StateAfter(rows, k, lead, init).stockout
    decreases k - j
  {
    if j < k {
      StockoutNonDecreasing(rows, j, k - 1, lead, init);
      StockoutStep(rows, k - 1, lead, init);
    }
  }

  /** Every unit of demand is either fulfilled or counted as a stockout. */
  lemma {:induction false} DemandBalance(rows: seq<PolicyRow>, k: nat, lead: nat, init: real)
    requires k <= |rows|
    ensures FulfilledUpTo(rows, k, lead, init) + StateAfter(rows, k, lead, init).stockout == DemandUpTo(rows, k)
  {
    if k > 0 {
      DemandBalance(rows, k - 1, lead, init);
      StockoutStep(rows, k - 1, lead, init);
    }
  }

  /** Conservation of units: initial stock plus what was received equals what
      was fulfilled plus what is left on hand. */
  lemma {:induction false} StockBalance(rows: seq<PolicyRow>, k: nat, lead: nat, init: real)
    requires k <= |rows|
    ensures init + ReceivedUpTo(rows, k, lead, init) == FulfilledUpTo(rows, k, lead, init) + StateAfter(rows, k, lead, init).onHand
  {
    if k > 0 {
      StockBalance(rows, k - 1, lead, init);
    }
  }

  /** Every unit ordered has either been received or is still outstanding. */
  lemma {:induction false} OrderBalance(rows: seq<PolicyRow>, k: nat, lead: nat, init: real)
    requires k <= |rows|
    ensures OrderedUpTo(rows, k, lead, init) == ReceivedUpTo(rows, k, lead, init) + TotalQty(StateAfter(rows, k, lead, init).orders)
  {
    if k > 0 {
      OrderBalance(rows, k - 1, lead, init);
      StepOrderLedger(StateAfter(rows, k - 1, lead, init), rows[k - 1], k - 1, |rows|, lead);
    }
  }

  /** What one step does to the quantity on order: arrivals leave it, a new order joins it. */
  lemma StepOrderLedger(s: SeriesState, row: PolicyRow, t: nat, n: nat, lead: nat)
    ensures TotalQty(Step(s, row, t, n, lead).orders) ==
      TotalQty(s.orders) - TotalQty(ArrivedAt(s.orders, t)) + (if Reorders(s, row, t) then OrderQty(s, row, t, lead) else 0.0)
  {
    ReceiptPartition(s.orders, t);
    var pending := Outstanding(s.orders, t);
    if Reorders(s, row, t) {
      TotalQtyConcat(pending, [Order(ArrivalStep(t, lead, n), OrderQty(s, row, t, lead))]);
    }
  }

  /** With a positive lead time, after k < n steps every outstanding order is
      due at a later step k..n-1, so it will be received before the series ends. */
  lemma {:induction false} PendingOrdersAreAhead(rows: seq<PolicyRow>, k: nat, lead: nat, init: real)
    requires lead > 0 && k < |rows|
    ensures forall o :: o in StateAfter(rows, k, lead, init).orders ==> k <= o.arrival <= |rows| - 1
  {
    if k > 0 {
      PendingOrdersAreAhead(rows, k - 1, lead, init);
      StepKeepsOrdersAhead(StateAfter(rows, k - 1, lead, init), rows[k - 1], k - 1, |rows|, lead);
    }
  }

  lemma StepKeepsOrdersAhead(s: SeriesState, row: PolicyRow, t: nat, n: nat, lead: nat)
    requires lead > 0 && t + 1 < n
    requires forall o :: o in s.orders ==> t <= o.arrival <= n - 1
    ensures forall o :: o in Step(s, row, t, n, lead).orders ==> t + 1 <= o.arrival <= n - 1
  {
    OutstandingMembers(s.orders, t);
    ArrivalWithinHorizon(t, lead, n);
  }

  /** With a positive lead time, the only order still outstanding when the
      series ends is the one, if any, placed at the last step: the clamped
      arrival equals that step, whose receipts are already done, so it is never received. */
  lemma FinalPendingIsLastStepOrder(rows: seq<PolicyRow>, lead: nat, init: real)
    requires lead > 0 && |rows| > 0
    ensures var n := |rows|;
      var s := StateAfter(rows, n - 1, lead, init);
      StateAfter(rows, n, lead, init).orders ==
        if Reorders(s, rows[n - 1], n - 1) then [Order(n - 1, OrderQty(s, rows[n - 1], n - 1, lead))] else []
  {
    var n := |rows|;
    var s := StateAfter(rows, n - 1, lead, init);
    PendingOrdersAreAhead(rows, n - 1, lead, init);
    OutstandingEmpty(s.orders, n - 1);
  }

  lemma {:induction false} OutstandingEmpty(orders: seq<Order>, t: int)
    requires forall o :: o in orders ==> o.arrival == t
    ensures Outstanding(orders, t) == []
  {
    if |orders| > 0 {
      assert orders[0] in orders;
      assert forall o :: o in orders[1..] ==> o in orders;
      OutstandingEmpty(orders[1..], t);
    }
  }

  /** The "before" baseline: when every reorder point is negative and the
      series starts with non-negative stock, no order is ever placed. */
  lemma {:induction false} NegativeReorderPointNeverOrders(rows: seq<PolicyRow>, k: nat, lead: nat, init: real)
    requires k <= |rows| && init >= 0.0
    requires forall i :: 0 <= i < |rows| ==> rows[i].reorderPoint < 0.0
    ensures StateAfter(rows, k, lead, init).orders == []
    ensures OrderedUpTo(rows, k, lead, init) == 0.0
  {
    if k > 0 {
      NegativeReorderPointNeverOrders(rows, k - 1, lead, init);
      OnHandNonNegative(rows, k, lead, init);
    }
  }

  /** The reorder test looks at stock on hand only, not at stock on order:
      a series can hold two outstanding orders at once. */
  lemma SeveralOutstandingOrders()
    ensures var r := PolicyRow(ForecastRow("s", 0, 0.0, 1.0, None), 0.0, 100.0);
      |StateAfter([r, r, r], 2, 7, 0.0).orders| == 2
  {
    var r := PolicyRow(ForecastRow("s", 0, 0.0, 1.0, None), 0.0, 100.0);
    var rows := [r, r, r];
    var s0 := StateAfter(rows, 0, 7, 0.0);
    assert s0 == SeriesState(0.0, [], 0.0, 0.0);
    assert OnHandAfterReceipt(s0, 0) == 0.0;
    assert Fulfilled(s0, r, 0) == 0.0;
    assert Reorders(s0, r, 0);
    assert OrderQty(s0, r, 0, 7) == 7.0;
    var s1 := StateAfter(rows, 1, 7, 0.0);
    assert s1 == Step(s0, r, 0, 3, 7);
    assert s1.orders == [Order(2, 7.0)];
    assert ArrivedAt(s1.orders, 1) == [];
    assert OnHandAfterReceipt(s1, 1) == 0.0;
    assert Reorders(s1, r, 1);
    assert Outstanding(s1.orders, 1) == s1.orders;
    assert StateAfter(rows, 2, 7, 0.0) == Step(s1, r, 1, 3, 7);
  }

  lemma {:induction false} NoneDue(orders: seq<Order>, t: int)
    requires forall o :: o in orders ==> o.arrival != t
    ensures ArrivedAt(orders, t) == [] && Outstanding(orders, t) == orders
  {
    if |orders| > 0 {
      assert orders[0] in orders;
      assert forall o :: o in orders[1..] ==> o in orders;
      NoneDue(orders[1..], t);
      assert orders == [orders[0]] + orders[1..];
    }
  }

  /** With zero lead time every order is due at the step that placed it,
      whose receipts are already done: no order is ever removed, each step
      keeps the pending orders and appends its own. */
  lemma {:induction false} ZeroLeadTimeOrdersKept(rows: seq<PolicyRow>, k: nat, init: real)
    requires k <= |rows|
    ensures forall o :: o in StateAfter(rows, k, 0, init).orders ==> o.arrival < k
    ensures k > 0 ==> var s := StateAfter(rows, k - 1, 0, init);
      StateAfter(rows, k, 0, init).orders ==
        s.orders + (if Reorders(s, rows[k - 1], k - 1) then [Order(k - 1, OrderQty(s, rows[k - 1], k - 1, 0))] else [])
  {
    if k > 0 {
      ZeroLeadTimeOrdersKept(rows, k - 1, init);
      ZeroLeadStep(StateAfter(rows, k - 1, 0, init), rows[k - 1], k - 1, |rows|);
    }
  }

  /** With zero lead time nothing is ever received. */
  lemma {:induction false} ZeroLeadTimeOrderNeverArrives(rows: seq<PolicyRow>, k: nat, init: real)
    requires k <= |rows|
    ensures ReceivedUpTo(rows, k, 0, init) == 0.0
  {
    if k > 0 {
      ZeroLeadTimeOrderNeverArrives(rows, k - 1, init);
      var orders := StateAfter(rows, k - 1, 0, init).orders;
      ZeroLeadTimeDueBefore(rows, k - 1, init);
      NoneDue(orders, k - 1);
    }
  }

  lemma ZeroLeadTimeDueBefore(rows: seq<PolicyRow>, k: nat, init: real)
    requires k <= |rows|
    ensures forall o :: o in StateAfter(rows, k, 0, init).orders ==> o.arrival < k
  {
    ZeroLeadTimeOrdersKept(rows, k, init);
  }

  /** With zero lead time everything ordered is still outstanding. */
  lemma ZeroLeadTimeAllOutstanding(rows: seq<PolicyRow>, k: nat, init: real)
    requires k <= |rows|
    ensures TotalQty(StateAfter(rows, k, 0, init).orders) == OrderedUpTo(rows, k, 0, init)
  {
    ZeroLeadTimeOrderNeverArrives(rows, k, init);
    OrderBalance(rows, k, 0, init);
  }

  /** One step with zero lead time, when every pending order is due before it. */
  lemma ZeroLeadStep(s: SeriesState, row: PolicyRow, t: nat, n: nat)
    requires t < n
    requires forall o :: o in s.orders ==> o.arrival < t
    ensures ArrivedAt(s.orders, t) == []
    ensures Step(s, row, t, n, 0).orders ==
      s.orders + (if Reorders(s, row, t) then [Order(t, OrderQty(s, row, t, 0))] else [])
    ensures forall o :: o in Step(s, row, t, n, 0).orders ==> o.arrival < t + 1
  {
    NoneDue(s.orders, t);
    assert ArrivalStep(t, 0, n) == t;
  }

  // ---------------------------------------------------------------------
  // simulate_replenishment: the loops
  // ---------------------------------------------------------------------

  /** One day of the simulation loop: receive the orders due today, serve
      the demand, count stockout and holding, and reorder when at or below
      the reorder point. */
  method SimulateDay(onHand: real, orders: seq<Order>, stockout: real, holding: real,
                     row: PolicyRow, t: nat, n: nat, lead: nat)
    returns (onHand': real, orders': seq<Order>, stockout': real, holding': real)
    ensures SeriesState(onHand', orders', stockout', holding') == Step(SeriesState(onHand, orders, stockout, holding), row, t, n, lead)
  {
    ghost var before := SeriesState(onHand, orders, stockout, holding);
    onHand', orders', stockout', holding' := onHand, orders, stockout, holding;
    if |orders'| > 0 {
      var arrived := ArrivedAt(orders', t);
      if |arrived| > 0 {
        onHand' := onHand' + TotalQty(arrived);
      }
      orders' := Outstanding(orders', t);
    }
    assert onHand' == OnHandAfterReceipt(before, t);
    assert orders' == Outstanding(before.orders, t);
    var demand := row.row.units;
    var fulfilled := Min(onHand', demand);
    assert fulfilled == Fulfilled(before, row, t);
    onHand' := onHand' - fulfilled;
    if demand > fulfilled {
      stockout' := stockout' + (demand - fulfilled);
    }
    holding' := holding' + Max(onHand', 0.0);
    var rop := row.reorderPoint;
    var target := row.row.predUnits * (lead as real) + row.safetyStock;
    assert target == Target(row, lead);
    if onHand' <= rop {
      var orderQty := Max(target - onHand', 0.0);
      var arriveT := MinInt(t + lead, n - 1);
      orders' := orders' + [Order(arriveT, orderQty)];
    }
  }

  /** Runs one series (rows in date order) and returns its stockout and holding totals. */
  method SimulateSeries(rows: seq<PolicyRow>, lead: nat, initialOnHandDays: nat) returns (stockout: real, holding: real)
    ensures stockout == FinalState(rows, lead, initialOnHandDays).stockout
    ensures holding == FinalState(rows, lead, initialOnHandDays).holding
  {
    var n := |rows|;
    stockout, holding := 0.0, 0.0;
    if n == 0 {
      return;
    }
    var init := InitialOnHand(rows, initialOnHandDays);
    var onHand := init;
    var orders: seq<Order> := [];
    var t := 0;
    while t < n
      invariant 0 <= t <= n
      invariant SeriesState(onHand, orders, stockout, holding) == StateAfter(rows, t, lead, init)
    {
      onHand, orders, stockout, holding := SimulateDay(onHand, orders, stockout, holding, rows[t], t, n, lead);
      t := t + 1;
    }
  }

  /** The rows of one series, in the (id, date) order of the sorted frame. */
  function SeriesRows(sorted: seq<PolicyRow>, id: string): seq<PolicyRow>
  {
    Filter(sorted, (r: PolicyRow) => r.row.id == id)
  }

  /** The series of the frame, as `groupby("id", sort=False)` yields them after the sort. */
  function Series(rows: seq<PolicyRow>): (groups: seq<seq<PolicyRow>>)
    ensures |groups| == |SeriesIds(rows)|
  {
    var sorted := Sorting.Sort(rows, IdDateOrder());
    Map(SeriesIds(rows), (id: string) => SeriesRows(sorted, id))
  }

  function SeriesIds(rows: seq<PolicyRow>): seq<string>
  {
    Distinct(Map(Sorting.Sort(rows, IdDateOrder()), (r: PolicyRow) => r.row.id))
  }

  /** With non-negative predictions the initial stock is non-negative. */
  lemma InitialOnHandNonNegative(rows: seq<PolicyRow>, initialOnHandDays: nat)
    requires forall r :: r in rows ==> r.row.predUnits >= 0.0
    ensures InitialOnHand(rows, initialOnHandDays) >= 0.0
  {
    if |rows| > 0 {
      var preds := Map(rows, (r: PolicyRow) => r.row.predUnits);
      assert forall i :: 0 <= i < |preds| ==> preds[i] >= 0.0 by {
        forall i | 0 <= i < |preds| ensures preds[i] >= 0.0 {
          assert rows[i] in rows;
        }
      }
      SumNonNegative(preds);
    }
  }

  /** Every row of a simulated series is a row of the frame. */
  lemma SeriesRowsFromFrame(rows: seq<PolicyRow>, i: nat)
    requires i < |Series(rows)|
    ensures forall r :: r in Series(rows)[i] ==> r in rows
  {
    var sorted := Sorting.Sort(rows, IdDateOrder());
    assert Series(rows)[i] == SeriesRows(sorted, SeriesIds(rows)[i]);
    forall r | r in Series(rows)[i] ensures r in rows {
      assert r in sorted;
      assert r in multiset(sorted);
    }
  }

  /** Non-negative predictions (the forecast clips them at 0) make every
      simulated series start with non-negative stock, so on every day of
      every series the stock and the order quantities are non-negative, and
      with every reorder point negative no series ever orders. */
  lemma SimulatedSeriesFacts(rows: seq<PolicyRow>, lead: nat, initialOnHandDays: nat, i: nat, k: nat)
    requires forall r :: r in rows ==> r.row.predUnits >= 0.0
    requires i < |Series(rows)| && k <= |Series(rows)[i]|
    ensures var g := Series(rows)[i];
      var init := InitialOnHand(g, initialOnHandDays);
      var s := StateAfter(g, k, lead, init);
      init >= 0.0 && s.onHand >= 0.0 && (forall o :: o in s.orders ==> o.qty >= 0.0) &&
      ((forall r :: r in rows ==> r.reorderPoint < 0.0) ==> s.orders == [] && OrderedUpTo(g, k, lead, init) == 0.0)
  {
    var g := Series(rows)[i];
    SeriesRowsFromFrame(rows, i);
    InitialOnHandNonNegative(g, initialOnHandDays);
    var init := InitialOnHand(g, initialOnHandDays);
    OnHandNonNegative(g, k, lead, init);
    if forall r :: r in rows ==> r.reorderPoint < 0.0 {
      assert forall j :: 0 <= j < |g| ==> g[j].reorderPoint < 0.0 by {
        forall j | 0 <= j < |g| ensures g[j].reorderPoint < 0.0 {
          assert g[j] in g;
        }
      }
      NegativeReorderPointNeverOrders(g, k, lead, init);
    }
  }

  /** Run-wide stockout and holding totals: the sum of the per-series totals. */
  function TotalStockout(groups: seq<seq<PolicyRow>>, lead: nat, initialOnHandDays: nat): real
  {
    if |groups| == 0 then 0.0
    else TotalStockout(groups[..|groups| - 1], lead, initialOnHandDays) + FinalState(groups[|groups| - 1], lead, initialOnHandDays).stockout
  }

  function TotalHolding(groups: seq<seq<PolicyRow>>, lead: nat, initialOnHandDays: nat): real
  {
    if |groups| == 0 then 0.0
    else TotalHolding(groups[..|groups| - 1], lead, initialOnHandDays) + FinalState(groups[|groups| - 1], lead, initialOnHandDays).holding
  }

  /** The summary `simulate_replenishment` returns. */
  datatype SimMetrics = SimMetrics(stockoutUnits: real, avgHoldingUnits: real, holdingCost: real, stockoutCost: real, totalCost: real)

  /** The summary of run-wide totals over `rowCount` simulated rows. */
  function Summary(stockout: real, holding: real, rowCount: nat, holdingCostPerUnitDay: real, stockoutPenaltyPerUnit: real): SimMetrics
  {
    var holdingCost := holding * holdingCostPerUnitDay;
    var stockoutCost := stockout * stockoutPenaltyPerUnit;
    SimMetrics(stockout, holding / (if rowCount > 1 then rowCount as real else 1.0), holdingCost, stockoutCost, holdingCost + stockoutCost)
  }

  method SimulateReplenishment(rows: seq<PolicyRow>, lead: nat, initialOnHandDays: nat,
                               holdingCostPerUnitDay: real, stockoutPenaltyPerUnit: real)
    returns (m: SimMetrics)
    ensures m == Summary(TotalStockout(Series(rows), lead, initialOnHandDays), TotalHolding(Series(rows), lead, initialOnHandDays),
                         |rows|, holdingCostPerUnitDay, stockoutPenaltyPerUnit)
  {
    var sim := Sorting.Sort(rows, IdDateOrder());
    var ids := SeriesIds(rows);
    ghost var groups := Series(rows);
    var totalStockout, totalHolding := 0.0, 0.0;
    var i := 0;
    while i < |ids|
      invariant 0 <= i <= |ids|
      invariant totalStockout == TotalStockout(groups[..i], lead, initialOnHandDays)
      invariant totalHolding == TotalHolding(groups[..i], lead, initialOnHandDays)
    {
      var g := SeriesRows(sim, ids[i]);
      assert g == groups[i];
      var so, ho := SimulateSeries(g, lead, initialOnHandDays);
      assert groups[..i + 1][..i] == groups[..i];
      totalStockout := totalStockout + so;
      totalHolding := totalHolding + ho;
      i := i + 1;
    }
    assert groups[..|ids|] == groups;
    m := Summary(totalStockout, totalHolding, |sim|, holdingCostPerUnitDay, stockoutPenaltyPerUnit);
  }

  /** The cost outputs follow from the totals: each cost is its total times
      its rate, the total cost is their sum, the average divides by
      max(1, rows); with non-negative totals and rates no cost is negative. */
  lemma SummaryCosts(stockout: real, holding: real, rowCount: nat, holdingCostPerUnitDay: real, stockoutPenaltyPerUnit: real)
    ensures var m := Summary(stockout, holding, rowCount, holdingCostPerUnitDay, stockoutPenaltyPerUnit);
      m.stockoutUnits == stockout &&
      m.holdingCost == holding * holdingCostPerUnitDay &&
      m.stockoutCost == stockout * stockoutPenaltyPerUnit &&
      m.totalCost == m.holdingCost + m.stockoutCost &&
      m.avgHoldingUnits * (if rowCount > 0 then rowCount as real else 1.0) == holding &&
      (stockout >= 0.0 && holding >= 0.0 && holdingCostPerUnitDay >= 0.0 && stockoutPenaltyPerUnit >= 0.0 ==>
         m.holdingCost >= 0.0 && m.stockoutCost >= 0.0 && m.totalCost >= 0.0)
  {
  }

  /** The run-wide totals are never negative, so with non-negative rates
      neither is any cost: stockouts accrue only unmet demand and holding
      accrues max(on_hand, 0). */
  lemma {:induction false} TotalsNonNegative(groups: seq<seq<PolicyRow>>, lead: nat, initialOnHandDays: nat)
    ensures TotalStockout(groups, lead, initialOnHandDays) >= 0.0
    ensures TotalHolding(groups, lead, initialOnHandDays) >= 0.0
  {
    if |groups| > 0 {
      var g := groups[|groups| - 1];
      TotalsNonNegative(groups[..|groups| - 1], lead, initialOnHandDays);
      var init := InitialOnHand(g, initialOnHandDays);
      StockoutNonDecreasing(g, 0, |g|, lead, init);
      HoldingNonDecreasing(g, |g|, lead, init);
    }
  }

  /** The holding total never decreases from one day to the next (each day
      adds `max(on_hand, 0)`), so it is never negative. */
  lemma {:induction false} HoldingNonDecreasing(rows: seq<PolicyRow>, k: nat, lead: nat, init: real)
    requires k <= |rows|
    ensures StateAfter(rows, k, lead, init).holding >= 0.0
    ensures k > 0 ==> StateAfter(rows, k - 1, lead, init).holding <= StateAfter(rows, k, lead, init).holding
  {
    if k > 0 {
      HoldingNonDecreasing(rows, k - 1, lead, init);
      StepFacts(StateAfter(rows, k - 1, lead, init), rows[k - 1], k - 1, |rows|, lead);
    }
  }
}
