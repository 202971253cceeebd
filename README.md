# Merchandising copilot core, modelled in Dafny

This project models the decision pipeline of a retail merchandising
copilot built on the M5 sales data, together with the report helpers of
its agent:

- **Features** (`features.dfy`): wide-to-long melting of the daily sales
  table, the SNAP flag of a row's state, per-series lags, the
  forward-then-backward fill of missing prices, the missing-price flag, the
  day-over-day price change, the event flag and the train/validation split
  on the latest date.
- **Future** (`future.dfy`): the recursive multi-step forecast. Each series
  is forecast one future day at a time. Every clipped prediction is appended
  to the series' unit buffer, so later days' lag and rolling features see
  it as history.
- **Inventory** (`inventory.dfy`): the reorder-point policy (safety stock
  `z·σ·√L`, reorder point `μ·L + safety stock`) and the day-by-day
  replenishment simulation. The simulation receives orders, fulfils
  demand, counts stockouts and holding, and places orders when stock falls
  to the reorder point.
- **Pricing** (`pricing.dfy`): the log-log own-price elasticity estimate
  per (item, store), and the markdown grid search that keeps the most
  profitable feasible markdown per series.
- **Assortment** (`assortment.dfy`): per store, a per-category floor of the
  most profitable items, then a fill up to the store's capacity. The picks
  are de-duplicated by (item, store) and ordered by store, then by profit.
- **Orchestrator** (`orchestrator.dfy`): percent change and rounding of
  optional numbers, the ranked top-N inventory and pricing actions, the
  markdown tables and the plain-text answer layout.
- **Utils** (`utils.dfy`): the weighted absolute percentage error (WAPE).
- `common.dfy` and `sorting.dfy` hold shared helpers.
  - `Option`/`Result` model missing values and raised exceptions.
  - There are sums, filters and first-appearance de-duplication.
  - A generic stable insertion sort works over any strict weak order. It
    is proved sorted and a permutation of its input. Every sort the model
    performs is an instance of it.

Numbers are modelled as Dafny `real`. The transcendental and library
functions are parameters of the members that use them, so every property
holds whatever those functions return. These parameters are the
logarithm, square root, real power, the inverse normal CDF value `z`,
`round`, `float(str)` and `str(float)`. The regressor of the recursive
forecast is also a parameter (`predict`). Dates are day numbers.

The function `_snap` in `pipeline/future.py:27-32` is the same function as
the one in `pipeline/features.py:30-35`; `Features.Snap` models both.

The per-category floor of the assortment (`pipeline/assortment.py:17-23`)
is never trimmed to the store's capacity. The fill step
(`pipeline/assortment.py:26-29`) only adds rows while capacity remains. So
a store with more categories than capacity keeps every floor pick
(`Assortment.FloorNeverTrimmed`, and the two-item instance
`Assortment.FloorAboveCapacity`).

## Model

| member | source | states |
|---|---|---|
| Utils.Wape | pipeline/utils.py:9-13 | The metric is undefined (NaN) exactly when the absolute actuals sum to 0; otherwise the metric times that sum equals the summed absolute error. |
| Utils.WapeUndefinedIffAllZero | pipeline/utils.py:10-12 | The metric is undefined if and only if every actual is 0. |
| Utils.WapeNonNegative | pipeline/utils.py:13 | A defined metric is never negative. |
| Utils.WapePerfectForecast | pipeline/utils.py:13 | A forecast equal to the actuals scores exactly 0 whenever the metric is defined. |
| Utils.WapeZeroForecast | pipeline/utils.py:13 | An all-zero forecast scores exactly 1 whenever the metric is defined. |
| Inventory.ComputePolicy | pipeline/inventory.py:6-18 | One output row per input row. The output rows are a permutation of the input, sorted by (id, date). Each carries the policy columns computed from that row alone. |
| Inventory.ReorderPointBounds | pipeline/inventory.py:10-17 | Safety stock is `z·(σ·√L)` and reorder point is `μ·L` plus safety stock. With σ = 0 the safety stock vanishes. With non-negative z, σ and √L the reorder point is at least the lead-time demand. |
| Inventory.MissingSigmaCountsAsZero | pipeline/inventory.py:10 | A missing 28-day rolling std gives the reorder point `μ·L`. |
| Inventory.SimulateDay | pipeline/inventory.py:42-63 | One simulated day leaves the state that the transition function `Step` specifies: receipt, fulfilment, stockout, holding and reorder. |
| Inventory.SimulateSeries | pipeline/inventory.py:37-63 | The day loop over one series yields the stockout and holding totals of the specified final state, starting from `initial_on_hand_days × mean(pred_units)`. |
| Inventory.SimulateReplenishment | pipeline/inventory.py:27-74 | The result is the cost summary of the stockout and holding totals over all series grouped by id. The average holding divisor is `max(1, number of rows)`. |
| Inventory.SummaryCosts | pipeline/inventory.py:65-73 | Holding cost, stockout cost and their total are as the source computes them. The average times `max(1, n)` gives back the holding total. Non-negative inputs give non-negative costs. |
| Inventory.TotalsNonNegative | pipeline/inventory.py:52-55 | The run-wide stockout and holding totals are never negative. |
| Inventory.ArrivalWithinHorizon | pipeline/inventory.py:62 | An order placed on day t arrives between t and the series' last day. It arrives strictly later if and only if the lead time is positive and t is not the last day. |
| Inventory.ReceiptPartition | pipeline/inventory.py:42-46 | The orders arriving today and those still outstanding split the order list, by count and by quantity. No outstanding order is due today. |
| Inventory.StepFacts | pipeline/inventory.py:48-63 | After a day: on-hand stock is non-negative; fulfilled demand is at most the demand; the stockout grows by the unmet demand; stock after receipt equals fulfilled plus remaining; holding grows by the remaining stock; an order quantity is non-negative. |
| Inventory.OnHandNonNegative | pipeline/inventory.py:48-50 | From non-negative initial stock, on-hand stock stays non-negative and every order quantity is non-negative on every day. |
| Inventory.StockoutNonDecreasing | pipeline/inventory.py:52-53 | The stockout total never decreases from one day to a later one. |
| Inventory.HoldingNonDecreasing | pipeline/inventory.py:55 | Each day adds the day's remaining stock to the holding total, so the total never decreases from one day to the next and is never negative. |
| Inventory.DemandBalance | pipeline/inventory.py:48-53 | Up to any day, fulfilled demand plus stockout equals total demand. |
| Inventory.StockBalance | pipeline/inventory.py:38-50 | Up to any day, initial stock plus received quantity equals fulfilled demand plus on-hand stock. |
| Inventory.OrderBalance | pipeline/inventory.py:42-63 | Up to any day, ordered quantity equals received quantity plus the quantity still outstanding. |
| Inventory.StepOrderLedger | pipeline/inventory.py:42-63 | One day removes exactly the arriving quantity from the outstanding orders and adds the new order's quantity, if an order is placed. |
| Inventory.PendingOrdersAreAhead | pipeline/inventory.py:60-63 | With a positive lead time, every outstanding order at day k is due between day k and the last day. |
| Inventory.FinalPendingIsLastStepOrder | pipeline/inventory.py:60-63 | With a positive lead time, the only order outstanding at the end is the one placed on the last day, if any; it can never be received. |
| Inventory.NegativeReorderPointNeverOrders | pipeline/inventory.py:60-63 | With every reorder point negative and non-negative initial stock, no order is ever placed. |
| Inventory.SeveralOutstandingOrders | pipeline/inventory.py:39-63 | Several orders can be outstanding at once: a three-day instance with lead time 7 has two pending orders after two days. |
| Inventory.ZeroLeadTimeOrdersKept | pipeline/inventory.py:41-63 | For every series and day, with lead time 0 every pending order is due on an earlier day. No order is ever removed: each day keeps the pending orders and appends its own. |
| Inventory.ZeroLeadTimeOrderNeverArrives | pipeline/inventory.py:41-47 | For every series and day, with lead time 0 nothing is ever received: an order is due on the day it is placed, after that day's receipt. |
| Inventory.ZeroLeadStep | pipeline/inventory.py:41-63 | On a day where every pending order is due earlier, lead time 0 receives nothing and appends the day's order, if any, due that same day. |
| Inventory.ZeroLeadTimeDueBefore | pipeline/inventory.py:62-63 | With lead time 0, after k days every pending order is due before day k. |
| Inventory.ZeroLeadTimeAllOutstanding | pipeline/inventory.py:41-63 | With lead time 0, the quantity on order always equals everything ordered so far. |
| Inventory.InitialOnHandNonNegative | pipeline/inventory.py:37-38 | With non-negative predictions, the starting stock `initial_on_hand_days * mean(pred_units)` is non-negative. |
| Inventory.SeriesRowsFromFrame | pipeline/inventory.py:27-32 | Every row of a simulated series is a row of the input frame. |
| Inventory.SimulatedSeriesFacts | pipeline/inventory.py:32-63 | With non-negative predictions, every series starts with non-negative stock. On every day of every series, stock and order quantities are then non-negative. With every reorder point negative, no series ever orders. |
| Pricing.GroupKeysFacts | pipeline/pricing.py:8 | The group keys are exactly the (item, store) pairs present, each listed once. |
| Pricing.EstimateElasticity | pipeline/pricing.py:5-24 | The loop over the groups computes the specified estimate frame. |
| Pricing.EstimatesSound | pipeline/pricing.py:8-20 | Every estimate row belongs to one of the group keys. Its group has at least 30 priced rows and a log-price spread above 1e-9. `n_obs` is the group size and the elasticity is the least-squares slope. |
| Pricing.EstimatesComplete | pipeline/pricing.py:8-20 | A group key gets an estimate row if and only if its group qualifies. |
| Pricing.EstimatesDistinctKeys | pipeline/pricing.py:8-20 | No two estimate rows share an (item, store). |
| Pricing.EstimatesProperties | pipeline/pricing.py:5-24 | On a whole frame, every row is backed by its priced group with at least 30 observations, and the keys are distinct. |
| Pricing.SlopeSolvesNormalEquation | pipeline/pricing.py:14-19 | The slope times the centred log-price sum of squares equals the centred cross-product, i.e. the least-squares normal equation. |
| Pricing.PricedRowsOnly | pipeline/pricing.py:8 | Rows with a missing filled price never enter a group. |
| Pricing.ElasticityFor | pipeline/pricing.py:46-47 | The first-match elasticity is -1.2 when the estimate frame has no row for the series, and otherwise that of the first such row. The merge gives exactly this when keys are distinct (`Pricing.MergeRowUnique`). |
| Pricing.MergeRowSpec | pipeline/pricing.py:46-47 | The left merge keeps a base row with no estimate row once, with elasticity -1.2. A base row with n estimate rows is repeated n times, once with each of their elasticities in table order. |
| Pricing.FilterKeyDistinct | pipeline/pricing.py:46 | With distinct keys, a series matches at most one estimate row, whose elasticity is the first-match one. With no match, the first-match value is -1.2. |
| Pricing.MergeRowUnique | pipeline/pricing.py:46-47 | With at most one estimate row per key, the merge keeps a base row once, with its first-match elasticity. |
| Pricing.MergeMembers | pipeline/pricing.py:46 | Every merged row comes from a base row, and every base row yields at least one merged row. |
| Pricing.MergeUnique | pipeline/pricing.py:46-47 | With at most one estimate row per key, merged row i is base row i with its first-match elasticity. |
| Pricing.MergeRowElasticity | pipeline/pricing.py:46-47 | A merged row of a base row carries -1.2 when no estimate row has the series' key, and otherwise the elasticity of one such row. With distinct keys, it is the first-match one. |
| Pricing.MergedFromBase | pipeline/pricing.py:46 | A merged row is one of the merged rows of some base row. |
| Pricing.CandidateWithinStock | pipeline/pricing.py:59-69 | Expected units never exceed the stock on hand. A feasible candidate's profit is at most its unit margin times that stock. |
| Pricing.SelectMarkdown | pipeline/pricing.py:62-83 | The grid loop yields the specified running best over the whole grid. |
| Pricing.BestOfIsArgmax | pipeline/pricing.py:62-83 | There is no result exactly when no markdown keeps the price above cost. Otherwise the result is the candidate of a feasible markdown whose profit is at least every feasible one's and strictly above every earlier feasible one's. |
| Pricing.CollectRecommendations | pipeline/pricing.py:49-86 | The loop over the merged base frame keeps exactly the specified per-row winners, in frame order. |
| Pricing.OptimizeMarkdown | pipeline/pricing.py:26-89 | The call fails exactly when no merged row yields a recommendation. Otherwise the rows are a permutation of the recommendations, sorted by profit from high to low. |
| Pricing.RecommendForSkips | pipeline/pricing.py:50-86 | A merged row is skipped if and only if its base price is missing or not positive, its base demand is not positive, or no markdown is feasible. |
| Pricing.RecommendForFacts | pipeline/pricing.py:50-83 | Every kept row has a positive base price and demand, its own key, the merged row's elasticity, and a grid markdown with price `P0(1 - md)` above cost. Its stock is `D0 × days of supply`. |
| Pricing.RecommendForWithinStock | pipeline/pricing.py:59-69 | A kept row's profit is at most its unit margin times its stock on hand. |
| Pricing.RecommendForArgmax | pipeline/pricing.py:62-86 | A kept row is the argmax candidate of its merged row, the earliest markdown winning ties. |
| Pricing.RecommendationsFromBase | pipeline/pricing.py:49-86 | Every recommendation comes from a merged row that qualifies. |
| Pricing.OptimizeMarkdownRows | pipeline/pricing.py:26-89 | Every returned row has a positive base price and demand, a grid markdown, a price above cost, and profit within margin × stock. Its elasticity is -1.2 when the estimate frame has no row for its series, and otherwise one of those rows' elasticities. With distinct keys, it is the first-match one. |
| Common.LastPresentSpec | pipeline/pricing.py:40 | pandas' `last` is missing exactly when every value is. Otherwise it is a present value with nothing present after it. |
| Common.FirstPresentSpec | pipeline/features.py:56 | The first present value is missing exactly when every value is. Otherwise it is a present value with nothing present before it. |
| Sorting.Sort | pipeline/inventory.py:8 | The sort returns a permutation of its input. Every sort the model performs uses it. |
| Sorting.SortSorted | pipeline/inventory.py:8 | Under a strict weak order, the sort's result is sorted: no element is strictly ahead of one placed before it. |
| Common.MaxOf | pipeline/features.py:93 | The latest date is at least every row's date and is the date of some row; the markdown window's `max()` (`pipeline/pricing.py:34`) is the same function. |
| Features.SplitPartition | pipeline/features.py:92-97 | Training and validation rows partition the frame (as a multiset and by count), on either side of the cut `max(date) - horizon`. |
| Features.SplitValidationHasLatestDay | pipeline/features.py:93-96 | The validation part is non-empty if and only if the horizon is positive. |
| Features.Snap | pipeline/features.py:30-35 | CA rows read the CA flag, TX rows the TX flag, and every other state the WI flag. |
| Features.Shift | pipeline/features.py:69-70 | A lag-k series holds at every position the value k positions earlier, and is missing at the first k positions. |
| Features.FFillSpec | pipeline/features.py:56 | The forward fill at position i is the last present price at or before i. |
| Features.BFillSpec | pipeline/features.py:56 | The backward fill at position i is the first present price at or after i. |
| Features.FillKeepsPresent | pipeline/features.py:56 | Forward-then-backward filling never changes a present price. |
| Features.FillLeavesNoGap | pipeline/features.py:56 | If a series has any price, the filled series has a price at every position. |
| Features.FillOfNoPrices | pipeline/features.py:56 | A series with no price stays entirely missing after filling. |
| Features.PriceIsNa | pipeline/features.py:55 | The flag is 1 exactly where the raw price is missing and 0 exactly where it is present. |
| Features.PriceIsNaMarksFilled | pipeline/features.py:55-56 | Where the flag is 0, the filled price is the raw price. |
| Features.PriceChangePctAt | pipeline/features.py:57-63 | The change at position i is the relative change from the previous filled price; it is 0 at the first position, and where either side is missing or the previous price is 0. |
| Features.ChangeRoundTrip | pipeline/features.py:57-63 | A defined change takes the previous price back to the current one (`cur = prev·(1 + change)`); otherwise the change is 0. |
| Features.ConstantPriceNoChange | pipeline/features.py:57-63 | A constant price series has a change of 0 everywhere. |
| Features.IsEvent | pipeline/features.py:65-67 | The event flag is 0 or 1, and is 1 exactly when either event name is present. |
| Features.MeltColumn | pipeline/features.py:14 | Melting one day column gives one long row per wide row, with that row's id, the day and its cell. |
| Features.MeltCount | pipeline/features.py:13-14 | The long table has exactly (number of day columns) × (number of wide rows) rows. |
| Features.MeltSound | pipeline/features.py:13-14 | Every long row comes from a day column and a wide row, carrying that row's id and that cell's units. |
| Features.MeltComplete | pipeline/features.py:13-14 | Every cell of every day column of every wide row appears in the long table. |
| Features.ToLongSalesCount | pipeline/features.py:5-16 | The long table holds one row per wide row and column whose name starts with `d_`. |
| Future.SafeLag | pipeline/future.py:74-75 | The lag is present exactly when the buffer holds at least k values; it is then the k-th value from the end. |
| Future.Window | pipeline/future.py:81 | The rolling window is the last `min(w, len)` values of the buffer, and for `w = 0` (Python's `[-0:]`) the whole buffer. |
| Future.RollStatsSpec | pipeline/future.py:80-84 | The mean is missing, with std 0, exactly when the buffer is empty, for every window size. Otherwise the stats are the window's mean and population standard deviation. |
| Future.Predict | pipeline/future.py:100-101 | The clipped prediction is non-negative, and equals the regressor's value when that is non-negative. |
| Future.ForecastSeries | pipeline/future.py:71-107 | The day loop of one series yields the specified rollout. |
| Future.RolloutSpec | pipeline/future.py:73-107 | Day i's features are computed from the history followed by the predictions of days 0..i-1. Its prediction is the clipped regressor output on them. |
| Future.RolloutNonNegative | pipeline/future.py:101 | Every forecast is non-negative. |
| Future.FeaturizerSpec | pipeline/future.py:74-95 | The feature row keeps the future row. The lags are `safe_lag(7)` and `safe_lag(28)`, and the rolling stats are those of the 7- and 28-value windows of the buffer. |
| Future.RolloutRows | pipeline/future.py:89 | Day i's output row is built on the i-th future row. |
| Future.RolloutLags | pipeline/future.py:73-107 | Day i's lags are the safe lags of the history extended by the earlier predictions. |
| Future.RolloutFeedsBack | pipeline/future.py:73-107 | From day 7 on, the 7-day lag is the prediction made 7 days earlier; from day 28 on, the same holds for the 28-day lag. Before day 7 it is the matching history value when there is one. |
| Future.RecursiveForecast | pipeline/future.py:61-109 | The per-id loop yields the specified forecast frame: each history id's rollout over its future rows, sorted by (id, date), ids with no future rows skipped. |
| Future.ForecastRowsFromBoth | pipeline/future.py:66-69 | Every output row is a future row whose id has history. |
| Future.RolloutIds | pipeline/future.py:67 | A series' rollout only carries that series' id. |
| Future.HistoryOfSorted | pipeline/future.py:62-71 | After the (id, date) sort, a series' history rows are exactly that id's input rows, with dates that never decrease. The unit buffer lists their units in that order. |
| Future.FutureOfSorted | pipeline/future.py:63-67 | After the (id, date) sort, a series' future rows are exactly that id's input future rows, with dates that never decrease. |
| Future.RolloutKeepsDateOrder | pipeline/future.py:73-105 | A rollout over date-ordered future rows yields date-ordered output rows. |
| Future.ForecastOfSeries | pipeline/future.py:66-107 | Over distinct ids, the output rows carrying an id are that id's rollout when the id is among them, and none otherwise. |
| Future.RecursiveForecastSeries | pipeline/future.py:61-109 | In the forecast frame, the rows of one id are its rollout over its date-ordered future rows from its date-ordered history units (none without history), and their dates never decrease. |
| Future.ForecastCountPerSeries | pipeline/future.py:66-107 | The output has exactly as many rows for an id as that id has future rows when it has history, and none otherwise. |
| Assortment.CatOf | pipeline/assortment.py:7-8 | The category is missing exactly when the metadata has no row for the (item, store); otherwise it comes from such a row. |
| Assortment.Merge | pipeline/assortment.py:7-9 | The merge keeps one row per recommendation with its key. A missing profit becomes 0. |
| Assortment.AddNewKeys | pipeline/assortment.py:19-23 | Adding rows keeps the earlier picks as a prefix. The picked keys become the old keys plus the new rows' keys. |
| Assortment.AddNewDistinct | pipeline/assortment.py:19-23 | Adding rows never picks the same (item, store) twice. |
| Assortment.DedupFacts | pipeline/assortment.py:33 | De-duplication leaves distinct keys, keeps every key and only keeps input rows. |
| Assortment.PresentCatsMembers | pipeline/assortment.py:17 | The category groups are exactly the present categories of the store's rows. |
| Assortment.AddTop | pipeline/assortment.py:19-23 | The pick loop over a category's top rows appends the not yet picked ones and keeps the `picked` set equal to the picks' keys. |
| Assortment.SelectForStore | pipeline/assortment.py:13-29 | The per-store loops yield the specified selection: floor, then fill. |
| Assortment.TopIsMostProfitable | pipeline/assortment.py:13-18 | A category's top rows are at least as profitable as its other rows. |
| Sorting.FilterSortedBy | pipeline/assortment.py:13-18 | Any sub-selection of sorted rows (a boolean mask on a sorted frame) stays sorted under the same order. |
| Assortment.FloorPerCategory | pipeline/assortment.py:17-23 | The floor holds at most `min_items_per_cat` rows of each category. Each of them is one of that category's top rows. |
| Assortment.FloorCoversTops | pipeline/assortment.py:17-23 | Every top row of every category is picked in the floor (by key). |
| Assortment.FloorDistinct | pipeline/assortment.py:17-23 | The floor never picks an (item, store) twice. |
| Assortment.FillFacts | pipeline/assortment.py:26-29 | The fill is empty when the floor is at capacity, and otherwise at most the remaining capacity. Its rows are unpicked rows of the store, sorted by profit. They are the most profitable of the remaining rows. |
| Assortment.FloorNeverTrimmed | pipeline/assortment.py:17-29 | The selection starts with the whole floor. It is exactly the floor when the floor is at or above capacity, and at most the capacity otherwise. |
| Assortment.FloorAboveCapacity | pipeline/assortment.py:17-29 | A store with two categories and capacity 1 keeps both floor picks. |
| Assortment.TwoCategoriesFloor | pipeline/assortment.py:17-29 | For any two rows of two different categories, capacity 1 and floor 1, both rows are selected, in order. |
| Assortment.RecommendAssortment | pipeline/assortment.py:3-33 | An empty input gives an empty result. Otherwise the output is a permutation of the de-duplicated picks of every store, sorted by store ascending and profit descending. |
| Assortment.StoreRowsSorted | pipeline/assortment.py:12-13 | A store's rows are its rows of the input, sorted by profit. |
| Assortment.SelectionFromInput | pipeline/assortment.py:12-29 | Every pick is a row of the merged input. |
| Assortment.StoreSelectionFromGroup | pipeline/assortment.py:13-29 | Every pick of a store is one of that store's rows. |
| Assortment.OutputFacts | pipeline/assortment.py:31-33 | The output has distinct (item, store) keys and covers every picked key. Every output row is a row of the merged input. |
| Orchestrator.PctChange | backend/app/agent/orchestrator.py:18-23 | The change is missing exactly when either value is missing or the before value is 0. |
| Orchestrator.PctChangeRoundTrip | backend/app/agent/orchestrator.py:18-23 | A defined change takes the before value back to the after value (`before + before·change = after`). |
| Orchestrator.Round | backend/app/agent/orchestrator.py:26-32 | `None` stays `None`; a number becomes its rounded value. |
| Orchestrator.SortNumber | backend/app/agent/orchestrator.py:37-41 | A missing or `None` cell counts as 0. A float is itself, and an int is its float value. |
| Orchestrator.EntriesSpec | backend/app/agent/orchestrator.py:37-43 | The sort fails exactly when some row has a sort field that cannot be parsed. Otherwise entry i is row i with its two sort numbers. |
| Orchestrator.Formatted | backend/app/agent/orchestrator.py:44-53 | A formatted row has the original keys plus `rank`. The rank is the given Python `int`, and every unlisted cell is unchanged. |
| Orchestrator.FormatRow | backend/app/agent/orchestrator.py:46-53 | The rounding loop over the listed fields yields the specified formatted row. |
| Orchestrator.FormatAll | backend/app/agent/orchestrator.py:44-53 | Row i of the chosen rows is formatted with rank i + 1. |
| Orchestrator.TopActions | backend/app/agent/orchestrator.py:35-54 | The call fails exactly when the ranking fails. Otherwise row i of the result is the i-th ranked row, formatted with rank i + 1. |
| Orchestrator.TopInventoryActions | backend/app/agent/orchestrator.py:35-54 | The call ranks by (reorder point, average prediction) and rounds the three policy fields. |
| Orchestrator.TopPricingActions | backend/app/agent/orchestrator.py:57-74 | The call ranks by (markdown, profit) and rounds the five price fields. |
| Orchestrator.RankingShape | backend/app/agent/orchestrator.py:43 | The ranking has `min(n, len)` rows (Python slicing for negative n). Each is an input row, and no input row is taken twice. |
| Orchestrator.RankingOrdered | backend/app/agent/orchestrator.py:43 | Ranked rows are in descending (first, second) order, and equal keys keep their input order. |
| Orchestrator.RankingIsTop | backend/app/agent/orchestrator.py:43 | The ranking is a prefix of the full sorted list. Every ranked row's key is at least every unranked row's. |
| Orchestrator.RanksConsecutive | backend/app/agent/orchestrator.py:44-46 | The ranks are the integers 1, 2, 3, … in output order. |
| Orchestrator.ShowIntRoundTrip | backend/app/agent/orchestrator.py:112 | `str` of an int has no decimal point and no leading zero, starts with `-` exactly for a negative int, and reads back as the int. |
| Orchestrator.Digits | backend/app/agent/orchestrator.py:112 | The decimal digits of a natural number are non-empty digit characters, with no leading zero for a positive number. |
| Orchestrator.RankCellIsInteger | backend/app/agent/orchestrator.py:112 | A table's rank cell is `str` of the integer rank (`1`, not `1.0`). |
| Orchestrator.Cell | backend/app/agent/orchestrator.py:112 | A missing column renders as the empty string; a present one as its value. |
| Orchestrator.Cells | backend/app/agent/orchestrator.py:112 | One cell per column, in column order. |
| Orchestrator.MdTable | backend/app/agent/orchestrator.py:107-113 | No rows gives `(no rows)`. Otherwise the table is the header, the separator, then one line per row in input order. |
| Orchestrator.SeparatorCells | backend/app/agent/orchestrator.py:110 | The separator is `|` followed by one `---|` per column, `4n + 1` characters long. |
| Orchestrator.EmptyRowLine | backend/app/agent/orchestrator.py:112 | For every row that holds none of the columns, the line is `"| "`, the empty cells joined by `" | "`, then `" |"`; its length is 3 × columns + 1 (4 with no columns). |
| Orchestrator.MetricLinesSpec | backend/app/agent/orchestrator.py:89-100 | The metric lines are the listed metrics that are present and not `None`, in the fixed order, one line each. |
| Orchestrator.Bullets | backend/app/agent/orchestrator.py:104-105 | One `- ` line per item, in order. |
| Orchestrator.MetricSection | backend/app/agent/orchestrator.py:88-100 | The metric loop yields the specified metric lines. |
| Orchestrator.ComposeLines | backend/app/agent/orchestrator.py:77-135 | The full layout: `KEY METRICS` and the metric lines, then, each after a blank line, the decision bullets, the inventory table, the pricing table, the tradeoff and assumption bullets, and the confidence line last. |
| Orchestrator.AnswerEndsWithConfidence | backend/app/agent/orchestrator.py:133-135 | The joined answer text ends with the confidence line. |

## Left out

- Floating point: numbers are reals, so float32 casts, NaN and infinity
  propagation (`np.isfinite`, the `inf` replaced in the price change) and
  rounding error are not modelled. A missing value is an explicit `Option`.
- Library mathematics: `norm.ppf`, `np.log`, `np.sqrt`, the real power,
  `round`, `float(str)` and `str(float)` are parameters of the model, not
  defined.
- LightGBM training and prediction: the regressor is a parameter, and the
  `FEATURE_COLS` selection and `_cast_cats` category casting are left out.
- Features: the (id, date) sort and the per-id grouping of
  `add_time_series_features` (`pipeline/features.py:49`, `:56-70`) are not
  modelled. Each feature is a function of one id's series in date order.
  The sorts of `build_future_frame` (`pipeline/future.py:15`, `:20`) are left
  out with that function.
- The rolling features of `add_time_series_features` (`pipeline/features.py:72-89`)
  are not part of this model; the recursive forecast's own rolling stats are.
- The merges and calendar plumbing of `join_calendar_prices` and
  `build_future_frame` (sales/calendar/price merges, the future cross join)
  are left out. Their per-row flags (`Features.Snap`, `Features.IsEvent`)
  are modelled.
- The random sample of `to_long_sales` (`max_series`) is left out, since it
  depends on a random generator.
- Sort tie order: pandas' `sort_values` with its default algorithm does
  not promise an order for rows with equal keys. Examples are equal profits
  in a store's rows, or equal (id, date) pairs in the simulator and the
  recursive forecast. The model sorts stably, so it resolves ties in input
  order. That is one of the orders the source may produce. Sortedness and
  contents hold for every such order. A result that depends on which of two
  tied rows comes first is the input-order one, for example which of two
  equal-profit rows a store picks. Python's stable `sorted` in the top
  actions is modelled exactly.
- Orchestrator.TopActions: the source mutates the input rows in place,
  setting `rank` and the rounded fields on dictionaries the caller still
  holds. The model returns new rows and does not capture that aliasing.
- Orchestrator.SortNumber: only `None`, an int, a float and a string are
  modelled. Other falsy values such as `False` or an empty list are left
  out, and a non-empty string is parsed by the `float(str)` parameter.
- Orchestrator.Round: the exception path of `float(v)` on a non-numeric
  value is not modelled, because the model's argument is already a number.
  That path is modelled where the top actions round a cell
  (`Orchestrator.RoundValue`).
- `agent_answer` and everything that reads or writes report files, calls
  the language model or serves HTTP are left out (I/O and network).
- Utils.Wape: it requires arrays of equal length; numpy broadcasting of
  unequal shapes is left out.
- Assortment.CatOf: it takes the first matching metadata row. A
  metadata frame with several categories for one (item, store) would make
  the source's left merge duplicate the row; that case is left out.
- Assortment.RecommendAssortment: when no row at all is picked (only
  possible when the capacity is at most 0 and no store has a floor pick,
  for example because no row has a category, as `groupby` drops missing
  categories, or because `min_items_per_cat` is 0), the source fails on
  the column-less frame; the model returns the empty sequence.
- Pricing.Window: dates are day numbers, so `pd.Timedelta(days=h)` is
  subtraction of `h`.
- The unused `avg_units` column of the markdown base frame is left out.
