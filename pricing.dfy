/** The pricing stage: a log-log own-price elasticity estimate per
    (item, store), and a markdown optimizer that picks, for every series of
    the recent window, the grid markdown with the highest expected profit.
    Logarithms and real powers are parameters (`log`, `pow`). */
module Pricing {
  import opened Common
  import Sorting

  /** One daily row of the sales frame, as both functions read it. */
  datatype SalesRow = SalesRow(itemId: string, storeId: string, date: int, units: real, predUnits: real,
                               sellPrice: Option<real>)

  /** A series key: the (item_id, store_id) pair both functions group by. */
  datatype Key = Key(itemId: string, storeId: string)

  function KeyOf(r: SalesRow): Key
  {
    Key(r.itemId, r.storeId)
  }

  /** The order `groupby(["item_id", "store_id"])` yields its groups in. */
  function KeyOrder(): (Key, Key) -> bool
  {
    Sorting.Lex(Sorting.ByString((k: Key) => k.itemId), Sorting.ByString((k: Key) => k.storeId))
  }

  lemma KeyOrderIsStrictWeakOrder()
    ensures Sorting.StrictWeakOrder(KeyOrder())
  {
    Sorting.ByStringIsStrictWeakOrder((k: Key) => k.itemId);
    Sorting.ByStringIsStrictWeakOrder((k: Key) => k.storeId);
    Sorting.LexIsStrictWeakOrder(Sorting.ByString((k: Key) => k.itemId), Sorting.ByString((k: Key) => k.storeId));
  }

  /** The group keys of a frame, each once, in key order. */
  function GroupKeys(rows: seq<SalesRow>): seq<Key>
  {
    Sorting.Sort(Distinct(Map(rows, KeyOf)), KeyOrder())
  }

  /** The group keys are exactly the keys of the frame's rows, each listed once. */
  lemma GroupKeysFacts(rows: seq<SalesRow>)
    ensures forall k :: k in GroupKeys(rows) <==> exists i :: 0 <= i < |rows| && KeyOf(rows[i]) == k
    ensures forall i, j :: 0 <= i < j < |GroupKeys(rows)| ==> GroupKeys(rows)[i] != GroupKeys(rows)[j]
  {
    var ks := Map(rows, KeyOf);
    var d := Distinct(ks);
    var keys := GroupKeys(rows);
    forall k ensures k in keys <==> exists i :: 0 <= i < |rows| && KeyOf(rows[i]) == k {
      assert k in keys <==> k in multiset(d);
      assert k in d <==> k in ks;
      if k in ks {
        var i :| 0 <= i < |ks| && ks[i] == k;
        assert KeyOf(rows[i]) == k;
      }
      if exists i :: 0 <= i < |rows| && KeyOf(rows[i]) == k {
        var i :| 0 <= i < |rows| && KeyOf(rows[i]) == k;
        assert ks[i] == k;
      }
    }
    DistinctPermutation(d, keys);
  }

  /** The rows of one (item, store) series, in frame order. */
  function Group(rows: seq<SalesRow>, k: Key): seq<SalesRow>
  {
    Filter(rows, (r: SalesRow) => KeyOf(r) == k)
  }

  // ---------------------------------------------------------------------
  // Log-log elasticity
  // ---------------------------------------------------------------------

  /** A group needs this many rows to get an estimate. */
  const MinObservations: nat := 30

  /** A group whose log prices vary by no more than this gets no estimate. */
  const MinDenominator: real := 0.000000001

  /** One row of the elasticity frame; the four columns are always there. */
  datatype ElasticityRow = ElasticityRow(itemId: string, storeId: string, elasticity: real, nObs: nat)

  /** `dropna(subset=["sell_price_filled"])`. */
  function Priced(rows: seq<SalesRow>): seq<SalesRow>
  {
    Filter(rows, (r: SalesRow) => r.sellPrice.Some?)
  }

  /** Sum of element-wise products. */
  function Dot(a: seq<real>, b: seq<real>): real
    requires |a| == |b|
  {
    if |a| == 0 then 0.0 else Dot(a[..|a| - 1], b[..|b| - 1]) + a[|a| - 1] * b[|b| - 1]
  }

  lemma {:induction false} DotSelfNonNegative(a: seq<real>)
    ensures Dot(a, a) >= 0.0
  {
    if |a| > 0 {
      DotSelfNonNegative(a[..|a| - 1]);
    }
  }

  /** Deviations from the mean (`x - x.mean()`). */
  function Centered(x: seq<real>): (c: seq<real>)
    requires |x| > 0
    ensures |c| == |x|
  {
    var m := Mean(x);
    seq(|x|, i requires 0 <= i < |x| => x[i] - m)
  }

  function LogPrices(g: seq<SalesRow>, log: real -> real): (x: seq<real>)
    ensures |x| == |g|
  {
    Map(g, (r: SalesRow) => log(GetOr(r.sellPrice, 0.0) + 0.000001))
  }

  function LogUnits(g: seq<SalesRow>, log: real -> real): (y: seq<real>)
    ensures |y| == |g|
  {
    Map(g, (r: SalesRow) => log(r.units + 1.0))
  }

  /** `Σ(x - x̄)²` of a non-empty group. */
  function Denominator(g: seq<SalesRow>, log: real -> real): real
    requires |g| > 0
  {
    var cx := Centered(LogPrices(g, log));
    Dot(cx, cx)
  }

  /** `Σ(x - x̄)(y - ȳ)` of a non-empty group. */
  function Covariation(g: seq<SalesRow>, log: real -> real): real
    requires |g| > 0
  {
    Dot(Centered(LogPrices(g, log)), Centered(LogUnits(g, log)))
  }

  /** A group gets an estimate when it is long enough and its log prices vary. */
  predicate Qualifies(g: seq<SalesRow>, log: real -> real)
  {
    |g| >= MinObservations && Denominator(g, log) > MinDenominator
  }

  /** The least-squares slope of log units on log price. */
  function Slope(g: seq<SalesRow>, log: real -> real): real
    requires Qualifies(g, log)
  {
    Covariation(g, log) / Denominator(g, log)
  }

  /** The estimate rows for the groups `keys` of the priced frame, in key order. */
  function EstimatesOver(keys: seq<Key>, priced: seq<SalesRow>, log: real -> real): (r: seq<ElasticityRow>)
    ensures |r| <= |keys|
  {
    if |keys| == 0 then []
    else
      var k := keys[|keys| - 1];
      var g := Group(priced, k);
      EstimatesOver(keys[..|keys| - 1], priced, log) +
        (if Qualifies(g, log) then [ElasticityRow(k.itemId, k.storeId, Slope(g, log), |g|)] else [])
  }

  /** The result `estimate_elasticity_loglog` specifies. */
  function Estimates(rows: seq<SalesRow>, log: real -> real): seq<ElasticityRow>
  {
    var priced := Priced(rows);
    EstimatesOver(GroupKeys(priced), priced, log)
  }

  /** Extending the keys by one appends that key's row when its group qualifies. */
  lemma EstimatesStep(keys: seq<Key>, i: nat, priced: seq<SalesRow>, log: real -> real)
    requires i < |keys|
    ensures var g := Group(priced, keys[i]);
      EstimatesOver(keys[..i + 1], priced, log) == EstimatesOver(keys[..i], priced, log) +
        (if Qualifies(g, log) then [ElasticityRow(keys[i].itemId, keys[i].storeId, Slope(g, log), |g|)] else [])
  {
    assert keys[..i + 1][..i] == keys[..i];
  }

  method EstimateElasticity(rows: seq<SalesRow>, log: real -> real) returns (out: seq<ElasticityRow>)
    ensures out == Estimates(rows, log)
  {
    var priced := Priced(rows);
    var keys := GroupKeys(priced);
    out := [];
    var i := 0;
    while i < |keys|
      invariant 0 <= i <= |keys|
      invariant out == EstimatesOver(keys[..i], priced, log)
    {
      var g := Group(priced, keys[i]);
      EstimatesStep(keys, i, priced, log);
      if |g| >= MinObservations {
        var denom := Denominator(g, log);
        if denom > MinDenominator {
          var b := Covariation(g, log) / denom;
          out := out + [ElasticityRow(keys[i].itemId, keys[i].storeId, b, |g|)];
        }
      }
      i := i + 1;
    }
    assert keys[..|keys|] == keys;
  }

  function RowKey(e: ElasticityRow): Key
  {
    Key(e.itemId, e.storeId)
  }

  /** An estimate row is backed by its group of priced rows: the group has
      at least 30 rows and varying log prices, `n_obs` is its size, and the
      elasticity is its least-squares slope. */
  predicate Backed(e: ElasticityRow, priced: seq<SalesRow>, log: real -> real)
  {
    var g := Group(priced, RowKey(e));
    Qualifies(g, log) && e.nObs == |g| && e.elasticity == Slope(g, log)
  }

  /** Every estimate row is backed by a group of one of the keys. */
  lemma {:induction false} EstimatesSound(keys: seq<Key>, priced: seq<SalesRow>, log: real -> real)
    ensures forall e :: e in EstimatesOver(keys, priced, log) ==> RowKey(e) in keys && Backed(e, priced, log)
  {
    if |keys| > 0 {
      EstimatesSound(keys[..|keys| - 1], priced, log);
      assert forall k :: k in keys[..|keys| - 1] ==> k in keys;
    }
  }

  /** A key of the frame gets an estimate row exactly when its group qualifies. */
  lemma {:induction false} EstimatesComplete(keys: seq<Key>, priced: seq<SalesRow>, log: real -> real, k: Key)
    requires k in keys
    ensures (exists e :: e in EstimatesOver(keys, priced, log) && RowKey(e) == k) <==> Qualifies(Group(priced, k), log)
  {
    EstimatesSound(keys, priced, log);
    var last := keys[|keys| - 1];
    var g := Group(priced, last);
    if k == last {
      if Qualifies(g, log) {
        var e := ElasticityRow(k.itemId, k.storeId, Slope(g, log), |g|);
        assert e in EstimatesOver(keys, priced, log);
      }
    } else {
      assert k in keys[..|keys| - 1];
      EstimatesComplete(keys[..|keys| - 1], priced, log, k);
    }
  }

  /** No two estimate rows share an (item, store). */
  predicate DistinctKeys(r: seq<ElasticityRow>)
  {
    forall i, j :: 0 <= i < j < |r| ==> RowKey(r[i]) != RowKey(r[j])
  }

  /** At most one estimate row per (item, store). */
  lemma {:induction false} EstimatesDistinctKeys(keys: seq<Key>, priced: seq<SalesRow>, log: real -> real)
    requires forall i, j :: 0 <= i < j < |keys| ==> keys[i] != keys[j]
    ensures DistinctKeys(EstimatesOver(keys, priced, log))
  {
    if |keys| > 0 {
      var init := keys[..|keys| - 1];
      var last := keys[|keys| - 1];
      EstimatesDistinctKeys(init, priced, log);
      EstimatesSound(init, priced, log);
      var prev := EstimatesOver(init, priced, log);
      var r := EstimatesOver(keys, priced, log);
      assert last !in init;
      if Qualifies(Group(priced, last), log) {
        assert r == prev + [ElasticityRow(last.itemId, last.storeId, Slope(Group(priced, last), log), |Group(priced, last)|)];
        forall i, j | 0 <= i < j < |r| ensures RowKey(r[i]) != RowKey(r[j]) {
          if j < |prev| {
            assert r[i] == prev[i] && r[j] == prev[j];
          } else {
            assert r[i] == prev[i] && prev[i] in prev;
            assert RowKey(prev[i]) in init;
            assert RowKey(r[j]) == last;
          }
        }
      } else {
        assert r == prev;
      }
    }
  }

  /** The slope solves the least-squares normal equation `b·Σ(x-x̄)² = Σ(x-x̄)(y-ȳ)`. */
  lemma SlopeSolvesNormalEquation(g: seq<SalesRow>, log: real -> real)
    requires Qualifies(g, log)
    ensures Slope(g, log) * Denominator(g, log) == Covariation(g, log)
  {
  }

  /** The properties of `estimate_elasticity_loglog` on a whole frame. */
  lemma EstimatesProperties(rows: seq<SalesRow>, log: real -> real)
    ensures var r := Estimates(rows, log);
      (forall e :: e in r ==> Backed(e, Priced(rows), log) && e.nObs >= MinObservations) &&
      DistinctKeys(r)
  {
    var priced := Priced(rows);
    GroupKeysFacts(priced);
    EstimatesSound(GroupKeys(priced), priced, log);
    EstimatesDistinctKeys(GroupKeys(priced), priced, log);
  }

  /** A row with a missing price never contributes to any group. */
  lemma PricedRowsOnly(rows: seq<SalesRow>, k: Key)
    ensures forall r :: r in Group(Priced(rows), k) ==> r.sellPrice.Some? && r in rows
  {
  }

  // ---------------------------------------------------------------------
  // Markdown optimizer
  // ---------------------------------------------------------------------

  /** Elasticity assumed for a series the estimate frame has no row for. */
  const DefaultElasticity: real := -1.2

  /** The optimizer's knobs, with the defaults `cost_fraction = 0.60`,
      grid `(0.0, 0.10, 0.20, 0.30, 0.40)`, `horizon_days = 28`,
      `inventory_days_of_supply = 21`. */
  datatype Params = Params(costFraction: real, grid: seq<real>, horizonDays: int, inventoryDaysOfSupply: int)

  const DefaultParams: Params := Params(0.6, [0.0, 0.1, 0.2, 0.3, 0.4], 28, 21)

  /** One optimizer output row. */
  datatype Recommendation = Recommendation(
    itemId: string, storeId: string, basePrice: real, markdown: real, optPrice: real,
    elasticity: real, baseDemandPerDay: real, optDemandPerDay: real, inventoryOnHand: real, profit: real)

  /** The rows of the last `horizonDays` days: dates after `max(date) - horizonDays`. */
  function Window(rows: seq<SalesRow>, horizonDays: int): seq<SalesRow>
  {
    if |rows| == 0 then []
    else
      var cutoff := MaxOf(Map(rows, (r: SalesRow) => r.date)) - horizonDays;
      Filter(rows, (r: SalesRow) => r.date > cutoff)
  }

  /** One row of the per-series base frame. */
  datatype BaseRow = BaseRow(key: Key, baseDemandPerDay: real, basePrice: Option<real>)

  function BaseOf(window: seq<SalesRow>, k: Key): BaseRow
  {
    var g := Group(window, k);
    BaseRow(k, if |g| == 0 then 0.0 else Mean(Map(g, (r: SalesRow) => r.predUnits)),
            LastPresent(Map(g, (r: SalesRow) => r.sellPrice)))
  }

  /** The base frame: per series of the window, mean predicted demand and last price. */
  function Base(rows: seq<SalesRow>, horizonDays: int): seq<BaseRow>
  {
    var window := Window(rows, horizonDays);
    Map(GroupKeys(window), (k: Key) => BaseOf(window, k))
  }

  /** The elasticity of the first estimate row for the key, or -1.2 when
      there is none: what the left merge gives a series when the estimate
      frame holds at most one row per key (`MergeRowUnique`). */
  function ElasticityFor(table: seq<ElasticityRow>, k: Key): (e: real)
    ensures (forall i :: 0 <= i < |table| ==> RowKey(table[i]) != k) ==> e == DefaultElasticity
    ensures forall i :: 0 <= i < |table| && RowKey(table[i]) == k && (forall j :: 0 <= j < i ==> RowKey(table[j]) != k) ==>
      e == table[i].elasticity
  {
    if |table| == 0 then DefaultElasticity
    else if RowKey(table[0]) == k then table[0].elasticity
    else
      var e := ElasticityFor(table[1..], k);
      assert forall i :: 1 <= i < |table| ==> table[1..][i - 1] == table[i];
      e
  }

  function HasKey(k: Key): ElasticityRow -> bool
  {
    (e: ElasticityRow) => RowKey(e) == k
  }

  /** One row of the merged base frame: a base row and its elasticity. */
  datatype MergedRow = MergedRow(base: BaseRow, elasticity: real)

  /** The merged rows of one base row: `merge(..., how="left")` pairs it
      with every estimate row of its key, in table order, and `fillna(-1.2)`
      gives it the default elasticity when there is none. */
  function MergeRow(b: BaseRow, table: seq<ElasticityRow>): seq<MergedRow>
  {
    var matches := Filter(table, HasKey(b.key));
    if |matches| == 0 then [MergedRow(b, DefaultElasticity)]
    else Map(matches, (e: ElasticityRow) => MergedRow(b, e.elasticity))
  }

  /** The merged base frame: the merged rows of every base row, in base order. */
  function Merge(base: seq<BaseRow>, table: seq<ElasticityRow>): seq<MergedRow>
  {
    if |base| == 0 then []
    else Merge(base[..|base| - 1], table) + MergeRow(base[|base| - 1], table)
  }

  /** A base row without an estimate row is kept once, with elasticity -1.2;
      one with `n` estimate rows is repeated `n` times, once with each of
      their elasticities in table order. */
  lemma MergeRowSpec(b: BaseRow, table: seq<ElasticityRow>)
    ensures var m := MergeRow(b, table);
      var matches := Filter(table, HasKey(b.key));
      (forall e :: e in matches <==> e in table && RowKey(e) == b.key) &&
      (|matches| == 0 ==> m == [MergedRow(b, DefaultElasticity)]) &&
      (|matches| > 0 ==> |m| == |matches| && forall i :: 0 <= i < |m| ==> m[i] == MergedRow(b, matches[i].elasticity))
  {
  }

  /** With at most one estimate row per key (as `estimate_elasticity_loglog`
      produces, `EstimatesDistinctKeys`) the estimate rows of a key are that
      one row, if any, so the merge keeps every base row once, with the
      first-match elasticity. */
  lemma {:induction false} MergeRowUnique(b: BaseRow, table: seq<ElasticityRow>)
    requires DistinctKeys(table)
    ensures MergeRow(b, table) == [MergedRow(b, ElasticityFor(table, b.key))]
  {
    var matches := Filter(table, HasKey(b.key));
    FilterKeyDistinct(table, b.key);
    if |matches| == 1 {
      assert Map(matches, (e: ElasticityRow) => MergedRow(b, e.elasticity))[0] == MergedRow(b, matches[0].elasticity);
    }
  }

  lemma {:induction false} FilterKeyDistinct(table: seq<ElasticityRow>, k: Key)
    requires DistinctKeys(table)
    ensures var matches := Filter(table, HasKey(k));
      |matches| <= 1 &&
      (|matches| == 0 ==> ElasticityFor(table, k) == DefaultElasticity) &&
      (|matches| == 1 ==> matches[0].elasticity == ElasticityFor(table, k))
  {
    if |table| > 0 {
      var rest := table[1..];
      assert DistinctKeys(rest) by {
        forall i, j | 0 <= i < j < |rest| ensures RowKey(rest[i]) != RowKey(rest[j]) {
          assert rest[i] == table[i + 1] && rest[j] == table[j + 1];
        }
      }
      FilterKeyDistinct(rest, k);
      if RowKey(table[0]) == k {
        forall e | e in rest ensures !HasKey(k)(e) {
          var j :| 0 <= j < |rest| && rest[j] == e;
          assert table[j + 1] == e;
        }
        FilterNone(rest, HasKey(k));
      }
    }
  }

  /** A merged row is a merged row of one of the base rows, and every base
      row has at least one. */
  lemma {:induction false} MergeMembers(base: seq<BaseRow>, table: seq<ElasticityRow>)
    ensures forall m :: m in Merge(base, table) <==> exists b :: b in base && m in MergeRow(b, table)
    ensures forall b :: b in base ==> exists m :: m in Merge(base, table) && m.base == b
  {
    if |base| > 0 {
      var init := base[..|base| - 1];
      var last := base[|base| - 1];
      MergeMembers(init, table);
      assert base == init + [last];
      assert forall b :: b in base <==> b in init || b == last;
      var tail := MergeRow(last, table);
      MergeRowSpec(last, table);
      assert tail[0].base == last;
      assert tail[0] in Merge(base, table);
    }
  }

  /** With at most one estimate row per key, the merged frame is the base
      frame with each row's first-match elasticity. */
  lemma {:induction false} MergeUnique(base: seq<BaseRow>, table: seq<ElasticityRow>)
    requires DistinctKeys(table)
    ensures var m := Merge(base, table);
      |m| == |base| && forall i :: 0 <= i < |base| ==> m[i] == MergedRow(base[i], ElasticityFor(table, base[i].key))
  {
    if |base| > 0 {
      MergeUnique(base[..|base| - 1], table);
      MergeRowUnique(base[|base| - 1], table);
    }
  }

  /** The price after markdown `md`: `P0 (1 - md)`. */
  function MarkdownPrice(p0: real, md: real): real
  {
    p0 * (1.0 - md)
  }

  /** The unit cost: `P0 × cost_fraction`. */
  function UnitCost(p0: real, costFraction: real): real
  {
    p0 * costFraction
  }

  /** A grid markdown is feasible when the marked-down price stays above cost. */
  predicate Feasible(p0: real, md: real, costFraction: real)
  {
    MarkdownPrice(p0, md) > UnitCost(p0, costFraction)
  }

  /** Daily demand at price `P`: `D0 (P/P0)^e`. */
  function Demand(d0: real, p0: real, price: real, e: real, pow: (real, real) -> real): real
    requires p0 > 0.0
  {
    d0 * pow(price / p0, e)
  }

  /** Stock on hand: `D0 × inventory_days_of_supply`. */
  function Stock(d0: real, params: Params): real
  {
    d0 * (params.inventoryDaysOfSupply as real)
  }

  /** Units a candidate is expected to sell over the horizon, capped by the stock. */
  function ExpectedUnits(demand: real, stock: real, params: Params): real
  {
    Min(demand * (params.horizonDays as real), stock)
  }

  /** The candidate row of one grid markdown: price `P0(1 - md)`, demand
      `D0 (P/P0)^e`, profit = (price - cost) × expected units. */
  function Candidate(b: BaseRow, p0: real, e: real, md: real, params: Params, pow: (real, real) -> real): Recommendation
    requires p0 > 0.0
  {
    var d0 := b.baseDemandPerDay;
    var price := MarkdownPrice(p0, md);
    var demand := Demand(d0, p0, price, e, pow);
    var stock := Stock(d0, params);
    Recommendation(b.key.itemId, b.key.storeId, p0, md, price, e, d0, demand, stock,
                   Margin(price, UnitCost(p0, params.costFraction)) * ExpectedUnits(demand, stock, params))
  }

  function Margin(price: real, cost: real): real
  {
    price - cost
  }

  /** Expected units never exceed the stock on hand, so a feasible
      candidate's profit is at most its unit margin times that stock. */
  lemma CandidateWithinStock(b: BaseRow, p0: real, e: real, md: real, params: Params, pow: (real, real) -> real)
    requires p0 > 0.0 && Feasible(p0, md, params.costFraction)
    ensures var c := Candidate(b, p0, e, md, params, pow);
      ExpectedUnits(c.optDemandPerDay, c.inventoryOnHand, params) <= c.inventoryOnHand &&
      c.profit <= Margin(c.optPrice, UnitCost(p0, params.costFraction)) * c.inventoryOnHand
  {
    var c := Candidate(b, p0, e, md, params, pow);
    var units := ExpectedUnits(c.optDemandPerDay, c.inventoryOnHand, params);
    MarginTimesCap(Margin(c.optPrice, UnitCost(p0, params.costFraction)), units, c.inventoryOnHand);
  }

  lemma MarginTimesCap(margin: real, units: real, cap: real)
    requires margin > 0.0 && units <= cap
    ensures margin * units <= margin * cap
  {
  }

  /** The running best after the first `n` grid entries: a later feasible
      candidate replaces it only with a strictly greater profit. */
  function BestOf(b: BaseRow, p0: real, e: real, params: Params, pow: (real, real) -> real, n: nat): Option<Recommendation>
    requires p0 > 0.0 && n <= |params.grid|
  {
    if n == 0 then None
    else
      var prev := BestOf(b, p0, e, params, pow, n - 1);
      var md := params.grid[n - 1];
      if !Feasible(p0, md, params.costFraction) then prev
      else
        var c := Candidate(b, p0, e, md, params, pow);
        if prev.None? || c.profit > prev.value.profit then Some(c) else prev
  }

  /** The grid search for one series. */
  method SelectMarkdown(b: BaseRow, p0: real, e: real, params: Params, pow: (real, real) -> real)
    returns (best: Option<Recommendation>)
    requires p0 > 0.0
    ensures best == BestOf(b, p0, e, params, pow, |params.grid|)
  {
    best := None;
    var i := 0;
    while i < |params.grid|
      invariant 0 <= i <= |params.grid|
      invariant best == BestOf(b, p0, e, params, pow, i)
    {
      var md := params.grid[i];
      if Feasible(p0, md, params.costFraction) {
        var candidate := Candidate(b, p0, e, md, params, pow);
        if best.None? || candidate.profit > best.value.profit {
          best := Some(candidate);
        }
      }
      i := i + 1;
    }
  }

  /** The grid search is an argmax with the earliest entry winning ties: no
      result exactly when no grid entry is feasible; otherwise the result is
      the candidate of a feasible entry `j` whose profit is at least that of
      every feasible entry and strictly greater than that of every feasible
      entry before `j`. */
  lemma {:induction false} BestOfIsArgmax(b: BaseRow, p0: real, e: real, params: Params, pow: (real, real) -> real, n: nat)
    requires p0 > 0.0 && n <= |params.grid|
    ensures var best := BestOf(b, p0, e, params, pow, n);
      (best.None? <==> forall k :: 0 <= k < n ==> !Feasible(p0, params.grid[k], params.costFraction)) &&
      (best.Some? ==> exists j :: 0 <= j < n && IsBestAt(b, p0, e, params, pow, n, j, best.value))
  {
    if n > 0 {
      BestOfIsArgmax(b, p0, e, params, pow, n - 1);
      var prev := BestOf(b, p0, e, params, pow, n - 1);
      var md := params.grid[n - 1];
      if Feasible(p0, md, params.costFraction) {
        var c := Candidate(b, p0, e, md, params, pow);
        if prev.None? || c.profit > prev.value.profit {
          assert IsBestAt(b, p0, e, params, pow, n, n - 1, c);
        } else {
          var j :| 0 <= j < n - 1 && IsBestAt(b, p0, e, params, pow, n - 1, j, prev.value);
          assert IsBestAt(b, p0, e, params, pow, n, j, prev.value);
        }
      } else if prev.Some? {
        var j :| 0 <= j < n - 1 && IsBestAt(b, p0, e, params, pow, n - 1, j, prev.value);
        assert IsBestAt(b, p0, e, params, pow, n, j, prev.value);
      }
    }
  }

  /** `r` is the candidate of feasible entry `j`, and `j` is the first entry
      of maximal profit among the feasible entries of the first `n`. */
  ghost predicate IsBestAt(b: BaseRow, p0: real, e: real, params: Params, pow: (real, real) -> real, n: nat, j: nat,
                           r: Recommendation)
    requires p0 > 0.0 && n <= |params.grid|
  {
    j < n && Feasible(p0, params.grid[j], params.costFraction) &&
    r == Candidate(b, p0, e, params.grid[j], params, pow) &&
    (forall k :: 0 <= k < n && Feasible(p0, params.grid[k], params.costFraction) ==>
       Candidate(b, p0, e, params.grid[k], params, pow).profit <= r.profit) &&
    (forall k :: 0 <= k < j && Feasible(p0, params.grid[k], params.costFraction) ==>
       Candidate(b, p0, e, params.grid[k], params, pow).profit < r.profit)
  }

  /** The row `optimize_markdown` keeps for one merged row: none when the
      base price is missing or not positive, when the base demand is not
      positive, or when no grid entry is feasible. */
  function RecommendFor(m: MergedRow, params: Params, pow: (real, real) -> real): Option<Recommendation>
  {
    match m.base.basePrice
    case None => None
    case Some(p0) =>
      if p0 <= 0.0 || m.base.baseDemandPerDay <= 0.0 then None
      else BestOf(m.base, p0, m.elasticity, params, pow, |params.grid|)
  }

  function RecommendationsOver(merged: seq<MergedRow>, params: Params, pow: (real, real) -> real)
    : (r: seq<Recommendation>)
    ensures |r| <= |merged|
  {
    if |merged| == 0 then []
    else
      var last := RecommendFor(merged[|merged| - 1], params, pow);
      RecommendationsOver(merged[..|merged| - 1], params, pow) + (if last.Some? then [last.value] else [])
  }

  /** The recommendations before the final sort, one per qualifying merged row. */
  function Recommendations(rows: seq<SalesRow>, table: seq<ElasticityRow>, params: Params, pow: (real, real) -> real)
    : seq<Recommendation>
  {
    RecommendationsOver(Merge(Base(rows, params.horizonDays), table), params, pow)
  }

  /** Highest profit first. */
  function ByProfit(): (Recommendation, Recommendation) -> bool
  {
    Sorting.Descending((r: Recommendation) => r.profit)
  }

  /** The loop over the merged base frame: runs the grid search for every
      row that passes the price and demand checks and keeps the rows it finds. */
  method CollectRecommendations(merged: seq<MergedRow>, params: Params, pow: (real, real) -> real)
    returns (recs: seq<Recommendation>)
    ensures recs == RecommendationsOver(merged, params, pow)
  {
    recs := [];
    var i := 0;
    while i < |merged|
      invariant 0 <= i <= |merged|
      invariant recs == RecommendationsOver(merged[..i], params, pow)
    {
      var m := merged[i];
      ghost var kept := RecommendFor(m, params, pow);
      assert merged[..i + 1][..i] == merged[..i] && merged[..i + 1][i] == m;
      ghost var next := RecommendationsOver(merged[..i + 1], params, pow);
      assert next == recs + (if kept.Some? then [kept.value] else []);
      var b := m.base;
      if b.basePrice.Some? && b.basePrice.value > 0.0 && b.baseDemandPerDay > 0.0 {
        var best := SelectMarkdown(b, b.basePrice.value, m.elasticity, params, pow);
        assert best == kept;
        if best.Some? {
          recs := recs + [best.value];
        }
      } else {
        assert kept.None?;
      }
      assert recs == next;
      i := i + 1;
    }
    assert merged[..|merged|] == merged;
  }

  /** `optimize_markdown`: an error when no series qualifies (sorting the
      empty, column-less frame by "profit" raises), otherwise every
      recommendation, highest profit first. */
  method OptimizeMarkdown(rows: seq<SalesRow>, table: seq<ElasticityRow>, params: Params, pow: (real, real) -> real)
    returns (r: Result<seq<Recommendation>>)
    ensures r.Err? <==> |Recommendations(rows, table, params, pow)| == 0
    ensures r.Ok? ==> Sorting.SortedBy(r.value, ByProfit()) &&
                      multiset(r.value) == multiset(Recommendations(rows, table, params, pow))
  {
    var merged := Merge(Base(rows, params.horizonDays), table);
    var recs := CollectRecommendations(merged, params, pow);
    if |recs| == 0 {
      r := Err("KeyError: 'profit'");
    } else {
      Sorting.DescendingIsStrictWeakOrder((x: Recommendation) => x.profit);
      Sorting.SortSorted(recs, ByProfit());
      r := Ok(Sorting.Sort(recs, ByProfit()));
    }
  }

  /** A merged row is skipped exactly in the three cases of the source. */
  lemma RecommendForSkips(m: MergedRow, params: Params, pow: (real, real) -> real)
    ensures var b := m.base;
      RecommendFor(m, params, pow).None? <==>
      b.basePrice.None? || b.basePrice.value <= 0.0 || b.baseDemandPerDay <= 0.0 ||
      forall k :: 0 <= k < |params.grid| ==> !Feasible(b.basePrice.value, params.grid[k], params.costFraction)
  {
    var b := m.base;
    if b.basePrice.Some? && b.basePrice.value > 0.0 && b.baseDemandPerDay > 0.0 {
      BestOfIsArgmax(b, b.basePrice.value, m.elasticity, params, pow, |params.grid|);
    }
  }

  /** What every kept row satisfies: the base price and demand are positive,
      the markdown is a grid entry, the price is `P0(1 - md)` and stays above
      cost, and the elasticity is the merged row's. */
  lemma RecommendForFacts(m: MergedRow, params: Params, pow: (real, real) -> real, rec: Recommendation)
    requires RecommendFor(m, params, pow) == Some(rec)
    ensures m.base.basePrice == Some(rec.basePrice) && rec.basePrice > 0.0
    ensures rec.baseDemandPerDay == m.base.baseDemandPerDay > 0.0
    ensures rec.itemId == m.base.key.itemId && rec.storeId == m.base.key.storeId
    ensures rec.elasticity == m.elasticity
    ensures rec.markdown in params.grid
    ensures rec.optPrice == MarkdownPrice(rec.basePrice, rec.markdown) > UnitCost(rec.basePrice, params.costFraction)
    ensures rec.inventoryOnHand == Stock(rec.baseDemandPerDay, params)
  {
    var p0 := m.base.basePrice.value;
    var j := RecommendForArgmax(m, params, pow, rec);
    var md := params.grid[j];
    assert rec == Candidate(m.base, p0, m.elasticity, md, params, pow);
  }

  /** A kept row's profit is at most its unit margin times the stock on hand. */
  lemma RecommendForWithinStock(m: MergedRow, params: Params, pow: (real, real) -> real, rec: Recommendation)
    requires RecommendFor(m, params, pow) == Some(rec)
    ensures rec.profit <= Margin(rec.optPrice, UnitCost(rec.basePrice, params.costFraction)) * rec.inventoryOnHand
  {
    var p0 := m.base.basePrice.value;
    var j := RecommendForArgmax(m, params, pow, rec);
    var md := params.grid[j];
    assert rec == Candidate(m.base, p0, m.elasticity, md, params, pow);
    CandidateWithinStock(m.base, p0, m.elasticity, md, params, pow);
  }

  /** A kept row is the argmax candidate of its merged row, earliest entry winning ties. */
  lemma RecommendForArgmax(m: MergedRow, params: Params, pow: (real, real) -> real, rec: Recommendation) returns (j: nat)
    requires RecommendFor(m, params, pow) == Some(rec)
    ensures m.base.basePrice.Some? && m.base.basePrice.value > 0.0
    ensures j < |params.grid| && IsBestAt(m.base, m.base.basePrice.value, m.elasticity, params, pow, |params.grid|, j, rec)
  {
    BestOfIsArgmax(m.base, m.base.basePrice.value, m.elasticity, params, pow, |params.grid|);
    j :| 0 <= j < |params.grid| && IsBestAt(m.base, m.base.basePrice.value, m.elasticity, params, pow, |params.grid|, j, rec);
  }

  /** Every row of the result comes from one merged row that qualifies. */
  lemma {:induction false} RecommendationsFromBase(merged: seq<MergedRow>, params: Params,
                                                   pow: (real, real) -> real, rec: Recommendation)
    requires rec in RecommendationsOver(merged, params, pow)
    ensures exists m :: m in merged && RecommendFor(m, params, pow) == Some(rec)
  {
    var last := merged[|merged| - 1];
    if rec in RecommendationsOver(merged[..|merged| - 1], params, pow) {
      RecommendationsFromBase(merged[..|merged| - 1], params, pow, rec);
      var m :| m in merged[..|merged| - 1] && RecommendFor(m, params, pow) == Some(rec);
      assert m in merged;
    } else {
      assert RecommendFor(last, params, pow) == Some(rec);
    }
  }

  /** A merged row of base row `b` carries -1.2 when the estimate frame has
      no row for `b`'s series, and otherwise the elasticity of one of those
      rows; with at most one estimate row per key it carries the first-match
      elasticity. */
  lemma MergeRowElasticity(b: BaseRow, table: seq<ElasticityRow>, m: MergedRow)
    requires m in MergeRow(b, table)
    ensures m.base == b
    ensures (forall e :: e in table ==> RowKey(e) != b.key) ==> m.elasticity == DefaultElasticity
    ensures (exists e :: e in table && RowKey(e) == b.key) ==>
      exists e :: e in table && RowKey(e) == b.key && e.elasticity == m.elasticity
    ensures DistinctKeys(table) ==> m.elasticity == ElasticityFor(table, b.key)
  {
    MergeRowSpec(b, table);
    var matches := Filter(table, HasKey(b.key));
    if |matches| > 0 {
      var i :| 0 <= i < |matches| && MergeRow(b, table)[i] == m;
      assert matches[i] in table && RowKey(matches[i]) == b.key;
    } else {
      assert m == MergedRow(b, DefaultElasticity);
    }
    if DistinctKeys(table) {
      MergeRowUnique(b, table);
    }
  }

  /** A merged row belongs to a base row. */
  lemma MergedFromBase(base: seq<BaseRow>, table: seq<ElasticityRow>, m: MergedRow) returns (b: BaseRow)
    requires m in Merge(base, table)
    ensures b in base && m in MergeRow(b, table)
  {
    MergeMembers(base, table);
    b :| b in base && m in MergeRow(b, table);
  }

  /** The price and stock guarantees hold for every row `optimize_markdown`
      returns. Its elasticity is -1.2 when the estimate frame has no row for
      its series, and otherwise the elasticity of one of those rows; with at
      most one estimate row per key it is the first-match elasticity. */
  lemma OptimizeMarkdownRows(rows: seq<SalesRow>, table: seq<ElasticityRow>, params: Params, pow: (real, real) -> real,
                             rec: Recommendation)
    requires rec in Recommendations(rows, table, params, pow)
    ensures rec.basePrice > 0.0 && rec.baseDemandPerDay > 0.0 && rec.markdown in params.grid
    ensures rec.optPrice == MarkdownPrice(rec.basePrice, rec.markdown) > UnitCost(rec.basePrice, params.costFraction)
    ensures rec.profit <= Margin(rec.optPrice, UnitCost(rec.basePrice, params.costFraction)) * rec.inventoryOnHand
    ensures (forall e :: e in table ==> RowKey(e) != Key(rec.itemId, rec.storeId)) ==> rec.elasticity == DefaultElasticity
    ensures (exists e :: e in table && RowKey(e) == Key(rec.itemId, rec.storeId)) ==>
      exists e :: e in table && RowKey(e) == Key(rec.itemId, rec.storeId) && e.elasticity == rec.elasticity
    ensures DistinctKeys(table) ==> rec.elasticity == ElasticityFor(table, Key(rec.itemId, rec.storeId))
  {
    var merged := Merge(Base(rows, params.horizonDays), table);
    RecommendationsFromBase(merged, params, pow, rec);
    var m :| m in merged && RecommendFor(m, params, pow) == Some(rec);
    RecommendForFacts(m, params, pow, rec);
    RecommendForWithinStock(m, params, pow, rec);
    var b := MergedFromBase(Base(rows, params.horizonDays), table, m);
    MergeRowElasticity(b, table, m);
    assert Key(rec.itemId, rec.storeId) == b.key;
  }
}
