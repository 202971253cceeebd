/** Feature derivation for the daily sales frame, per series: the
    train/validation split, the region subsidy flag, lag shifts, the
    forward-then-backward price fill, the missing-price flag, the price
    change ratio, the event flag and the wide-to-long reshaping. Each
    column expression is a function on the sequence of one series' values
    in date order. */
module Features {
  import opened Common

  // ---------------------------------------------------------------------
  // Train / validation split
  // ---------------------------------------------------------------------

  /** The fields of a featured row the split looks at. */
  datatype DatedRow = DatedRow(id: string, date: int, units: real)

  /** `df["date"].max()`. */
  function LatestDate(rows: seq<DatedRow>): int
    requires |rows| > 0
  {
    MaxOf(Map(rows, (r: DatedRow) => r.date))
  }

  /** The split date: `max(date) - horizon`. */
  function Cut(rows: seq<DatedRow>, horizon: int): int
    requires |rows| > 0
  {
    LatestDate(rows) - horizon
  }

  function OnOrBefore(cut: int): DatedRow -> bool
  {
    (r: DatedRow) => r.date <= cut
  }

  function After(cut: int): DatedRow -> bool
  {
    (r: DatedRow) => r.date > cut
  }

  /** `make_train_valid_split`: rows up to the cut train, later rows validate.
      An empty frame has no latest date and yields two empty parts. */
  function Split(rows: seq<DatedRow>, horizon: int): (parts: (seq<DatedRow>, seq<DatedRow>))
  {
    if |rows| == 0 then ([], [])
    else
      var cut := Cut(rows, horizon);
      (Filter(rows, OnOrBefore(cut)), Filter(rows, After(cut)))
  }

  /** The split is a partition: every row lands in exactly one part (as a
      multiset, so no row is lost or duplicated), train dates are at most the
      cut and validation dates are after it. */
  lemma SplitPartition(rows: seq<DatedRow>, horizon: int)
    requires |rows| > 0
    ensures var (train, valid) := Split(rows, horizon);
      multiset(train) + multiset(valid) == multiset(rows) &&
      |train| + |valid| == |rows| &&
      (forall r :: r in train ==> r.date <= Cut(rows, horizon)) &&
      (forall r :: r in valid ==> r.date > Cut(rows, horizon))
  {
    var cut := Cut(rows, horizon);
    FilterPartition(rows, OnOrBefore(cut), After(cut));
  }

  /** The validation part is non-empty exactly when the horizon is positive
      (with a horizon of 0 or less even the latest day trains). */
  lemma SplitValidationHasLatestDay(rows: seq<DatedRow>, horizon: int)
    requires |rows| > 0
    ensures |Split(rows, horizon).1| > 0 <==> horizon > 0
  {
    var dates := Map(rows, (r: DatedRow) => r.date);
    var i :| 0 <= i < |dates| && dates[i] == LatestDate(rows);
    if horizon > 0 {
      assert rows[i] in Split(rows, horizon).1;
    } else {
      FilterNone(rows, After(Cut(rows, horizon)));
    }
  }

  // ---------------------------------------------------------------------
  // Region subsidy flag
  // ---------------------------------------------------------------------

  /** `_snap`: the SNAP flag of the row's state; any state other than CA
      and TX reads the WI column. */
  function Snap(stateId: string, snapCA: int, snapTX: int, snapWI: int): (snap: int)
    ensures stateId == "CA" ==> snap == snapCA
    ensures stateId == "TX" ==> snap == snapTX
    ensures stateId != "CA" && stateId != "TX" ==> snap == snapWI
  {
    if stateId == "CA" then snapCA
    else if stateId == "TX" then snapTX
    else snapWI
  }

  // ---------------------------------------------------------------------
  // Lags
  // ---------------------------------------------------------------------

  /** `shift(k)` within one series: each position holds the value `k`
      positions earlier, and the first `k` positions are missing. */
  function Shift<T>(s: seq<T>, k: nat): (r: seq<Option<T>>)
    ensures |r| == |s|
    ensures forall i :: 0 <= i < |s| ==> r[i] == if i >= k then Some(s[i - k]) else None
  {
    var blank := MinInt(k, |s|);
    seq(blank, _ => None) + seq(|s| - blank, i requires 0 <= i < |s| - blank => Some(s[i]))
  }

  /** Appending a day extends the lags by the value `k` days back, if there is one. */
  lemma ShiftAppend<T>(s: seq<T>, x: T, k: nat)
    ensures Shift(s + [x], k) == Shift(s, k) + [if |s| >= k then Some((s + [x])[|s| - k]) else None]
  {
    var r := Shift(s + [x], k);
    var t := Shift(s, k) + [if |s| >= k then Some((s + [x])[|s| - k]) else None];
    assert |r| == |t|;
    forall i | 0 <= i < |r| ensures r[i] == t[i] {
      if i < |s| && i >= k {
        assert (s + [x])[i - k] == s[i - k];
      }
    }
  }

  // ---------------------------------------------------------------------
  // Price fill
  // ---------------------------------------------------------------------

  /** `ffill()` within one series: a missing value takes the nearest present value before it. */
  function FFill(s: seq<Option<real>>): (r: seq<Option<real>>)
    ensures |r| == |s|
  {
    if |s| == 0 then []
    else
      var p := FFill(s[..|s| - 1]);
      p + [if s[|s| - 1].Some? then s[|s| - 1] else if |p| > 0 then p[|p| - 1] else None]
  }

  /** `bfill()` within one series: a missing value takes the nearest present value after it. */
  function BFill(s: seq<Option<real>>): (r: seq<Option<real>>)
    ensures |r| == |s|
  {
    if |s| == 0 then []
    else
      var t := BFill(s[1..]);
      [if s[0].Some? then s[0] else if |t| > 0 then t[0] else None] + t
  }

  /** `sell_price_filled`: forward fill, then backward fill. */
  function FillPrices(s: seq<Option<real>>): (r: seq<Option<real>>)
    ensures |r| == |s|
  {
    BFill(FFill(s))
  }

  /** Forward fill puts at position `i` the last present value among positions `0..i`. */
  lemma {:induction false} FFillSpec(s: seq<Option<real>>)
    ensures forall i :: 0 <= i < |s| ==> FFill(s)[i] == LastPresent(s[..i + 1])
  {
    if |s| > 0 {
      var n := |s| - 1;
      var init := s[..n];
      FFillSpec(init);
      var p := FFill(init);
      var r := FFill(s);
      forall i | 0 <= i < |s| ensures r[i] == LastPresent(s[..i + 1]) {
        if i < n {
          assert r[i] == p[i];
          assert init[..i + 1] == s[..i + 1];
        } else {
          assert s[..i + 1][..n] == init;
          if n > 0 {
            assert init[..n - 1 + 1] == init;
          }
        }
      }
    }
  }

  /** Backward fill puts at position `i` the first present value among positions `i..`. */
  lemma {:induction false} BFillSpec(s: seq<Option<real>>)
    ensures forall i :: 0 <= i < |s| ==> BFill(s)[i] == FirstPresent(s[i..])
  {
    if |s| > 0 {
      var tail := s[1..];
      BFillSpec(tail);
      var t := BFill(tail);
      var r := BFill(s);
      forall i | 0 <= i < |s| ensures r[i] == FirstPresent(s[i..]) {
        if i > 0 {
          assert r[i] == t[i - 1];
          assert tail[i - 1..] == s[i..];
        } else {
          assert s[0..][1..] == tail;
          if |tail| > 0 {
            assert tail[0..] == tail;
          }
        }
      }
    }
  }

  /** The filled price keeps every present price. */
  lemma FillKeepsPresent(s: seq<Option<real>>)
    ensures forall i :: 0 <= i < |s| && s[i].Some? ==> FillPrices(s)[i] == s[i]
  {
    var f := FFill(s);
    FFillSpec(s);
    BFillSpec(f);
    forall i | 0 <= i < |s| && s[i].Some? ensures FillPrices(s)[i] == s[i] {
      assert s[..i + 1][i] == s[i];
      assert f[i] == s[i];
      assert f[i..][0] == f[i];
    }
  }

  /** A series with at least one price has no missing value left after the fill. */
  lemma FillLeavesNoGap(s: seq<Option<real>>, j: nat)
    requires j < |s| && s[j].Some?
    ensures forall i :: 0 <= i < |s| ==> FillPrices(s)[i].Some?
  {
    var f := FFill(s);
    FFillSpec(s);
    BFillSpec(f);
    assert s[..|s| - 1 + 1] == s;
    LastPresentSpec(s);
    assert f[|s| - 1].Some?;
    forall i | 0 <= i < |s| ensures FillPrices(s)[i].Some? {
      assert f[i..][|s| - 1 - i] == f[|s| - 1];
      FirstPresentSpec(f[i..]);
    }
  }

  /** A series without any price stays entirely missing. */
  lemma FillOfNoPrices(s: seq<Option<real>>)
    requires forall j :: 0 <= j < |s| ==> s[j].None?
    ensures forall i :: 0 <= i < |s| ==> FillPrices(s)[i].None?
  {
    var f := FFill(s);
    FFillSpec(s);
    BFillSpec(f);
    forall m | 0 <= m < |s| ensures f[m].None? {
      assert forall q :: 0 <= q < m + 1 ==> s[..m + 1][q] == s[q];
      LastPresentSpec(s[..m + 1]);
    }
    forall i | 0 <= i < |s| ensures FillPrices(s)[i].None? {
      assert forall q :: 0 <= q < |s| - i ==> f[i..][q] == f[i + q];
      FirstPresentSpec(f[i..]);
    }
  }

  /** `price_isna`: 1 exactly where the original price is missing. */
  function PriceIsNa(s: seq<Option<real>>): (r: seq<int>)
    ensures |r| == |s|
    ensures forall i :: 0 <= i < |s| ==> (r[i] == 1 <==> s[i].None?) && (r[i] == 0 <==> s[i].Some?)
  {
    if |s| == 0 then [] else [if s[0].None? then 1 else 0] + PriceIsNa(s[1..])
  }

  /** Where `price_isna` is 0 the filled price is the original price. */
  lemma PriceIsNaMarksFilled(s: seq<Option<real>>, i: nat)
    requires i < |s| && PriceIsNa(s)[i] == 0
    ensures FillPrices(s)[i] == s[i] && s[i].Some?
  {
    FillKeepsPresent(s);
  }

  // ---------------------------------------------------------------------
  // Price change
  // ---------------------------------------------------------------------

  /** One step of `pct_change()` after the infinities and NaNs are zeroed:
      `cur / prev - 1`, or 0 when either value is missing or `prev` is 0
      (a non-zero value over 0 is infinite, 0 over 0 is NaN). */
  function Change(prev: Option<real>, cur: Option<real>): real
  {
    if prev.Some? && cur.Some? && prev.value != 0.0 then cur.value / prev.value - 1.0 else 0.0
  }

  /** `price_change_pct` of one series of filled prices: 0 on the first row,
      then the change from the previous row. */
  function PriceChangePct(s: seq<Option<real>>): (r: seq<real>)
    ensures |r| == |s|
  {
    if |s| == 0 then []
    else if |s| == 1 then [0.0]
    else PriceChangePct(s[..|s| - 1]) + [Change(s[|s| - 2], s[|s| - 1])]
  }

  /** The change value row `i` should carry: 0 on the first row, otherwise
      the change from row `i - 1`. */
  function ChangeAt(s: seq<Option<real>>, i: nat): real
    requires i < |s|
  {
    if i == 0 then 0.0 else Change(s[i - 1], s[i])
  }

  /** Row `i` of the change column compares the filled prices of rows `i - 1` and `i`. */
  lemma {:induction false} PriceChangePctAt(s: seq<Option<real>>)
    ensures forall i :: 0 <= i < |s| ==> PriceChangePct(s)[i] == ChangeAt(s, i)
  {
    if |s| == 1 {
      assert PriceChangePct(s) == [0.0];
    } else if |s| > 1 {
      var init := s[..|s| - 1];
      PriceChangePctAt(init);
      var r := PriceChangePct(s);
      assert r == PriceChangePct(init) + [Change(s[|s| - 2], s[|s| - 1])];
      forall i | 0 <= i < |s| ensures r[i] == ChangeAt(s, i) {
        if i < |s| - 1 {
          assert r[i] == PriceChangePct(init)[i] == ChangeAt(init, i);
          if i > 0 {
            assert init[i] == s[i] && init[i - 1] == s[i - 1];
          }
        } else {
          assert r[i] == Change(s[|s| - 2], s[|s| - 1]);
        }
      }
    }
  }

  /** The change inverts: wherever the previous price is present and
      non-zero, the current price is the previous one times `1 + change`;
      elsewhere the change is 0. */
  lemma ChangeRoundTrip(prev: Option<real>, cur: Option<real>)
    ensures if prev.Some? && cur.Some? && prev.value != 0.0
            then cur.value == prev.value * (1.0 + Change(prev, cur))
            else Change(prev, cur) == 0.0
  {
    if prev.Some? && cur.Some? && prev.value != 0.0 {
      RatioRoundTrip(prev.value, cur.value);
    }
  }

  lemma RatioRoundTrip(prev: real, cur: real)
    requires prev != 0.0
    ensures cur == prev * (1.0 + (cur / prev - 1.0))
  {
  }

  /** A series whose price never changes has a change of 0 on every row. */
  lemma ConstantPriceNoChange(s: seq<Option<real>>, p: real)
    requires forall i :: 0 <= i < |s| ==> s[i] == Some(p)
    ensures forall i :: 0 <= i < |s| ==> PriceChangePct(s)[i] == 0.0
  {
    PriceChangePctAt(s);
    forall i | 1 <= i < |s| ensures PriceChangePct(s)[i] == 0.0 {
      ChangeRoundTrip(s[i - 1], s[i]);
      if p != 0.0 {
        ZeroChange(p, Change(s[i - 1], s[i]));
      }
    }
  }

  lemma ZeroChange(p: real, c: real)
    requires p != 0.0 && p == p * (1.0 + c)
    ensures c == 0.0
  {
    assert p * c == 0.0;
  }

  // ---------------------------------------------------------------------
  // Event flag
  // ---------------------------------------------------------------------

  /** `is_event`: 1 when either event name is present, else 0. */
  function IsEvent(eventName1: Option<string>, eventName2: Option<string>): (flag: int)
    ensures flag == 0 || flag == 1
    ensures flag == 1 <==> eventName1.Some? || eventName2.Some?
  {
    var hasEvent1 := if eventName1.Some? then 1 else 0;
    var hasEvent2 := if eventName2.Some? then 1 else 0;
    if hasEvent1 == 1 || hasEvent2 == 1 then 1 else 0
  }

  // ---------------------------------------------------------------------
  // Wide to long
  // ---------------------------------------------------------------------

  /** One row of the wide sales table: the id columns and one cell per column name. */
  datatype WideRow = WideRow(id: string, itemId: string, deptId: string, catId: string, storeId: string, stateId: string,
                             cells: map<string, real>)

  /** One row of the long table. */
  datatype LongRow = LongRow(id: string, itemId: string, deptId: string, catId: string, storeId: string, stateId: string,
                             d: string, units: real)

  predicate IsDayColumn(c: string)
  {
    |c| >= 2 && c[..2] == "d_"
  }

  function DayColumns(columns: seq<string>): seq<string>
  {
    Filter(columns, IsDayColumn)
  }

  /** Every row has a cell for every column (a data frame is rectangular). */
  predicate Rectangular(wide: seq<WideRow>, columns: seq<string>)
  {
    forall r, c :: r in wide && c in columns ==> c in r.cells
  }

  /** The long rows of one day column, one per wide row, in row order. */
  function MeltColumn(wide: seq<WideRow>, d: string): (r: seq<LongRow>)
    requires forall w :: w in wide ==> d in w.cells
    ensures |r| == |wide|
    ensures forall i :: 0 <= i < |wide| ==> r[i].id == wide[i].id && r[i].d == d && r[i].units == wide[i].cells[d]
  {
    if |wide| == 0 then []
    else
      var w := wide[0];
      [LongRow(w.id, w.itemId, w.deptId, w.catId, w.storeId, w.stateId, d, w.cells[d])] + MeltColumn(wide[1..], d)
  }

  /** Every wide row has a cell for each of the day columns. */
  predicate HasCells(wide: seq<WideRow>, days: seq<string>)
  {
    forall i, j :: 0 <= i < |wide| && 0 <= j < |days| ==> days[j] in wide[i].cells
  }

  /** `melt`: the day columns one after the other, each contributing one row per wide row. */
  function Melt(wide: seq<WideRow>, days: seq<string>): seq<LongRow>
    requires HasCells(wide, days)
  {
    if |days| == 0 then []
    else
      var n := |days| - 1;
      HasCellsPrefix(wide, days, n);
      assert forall w :: w in wide ==> days[n] in w.cells;
      Melt(wide, days[..n]) + MeltColumn(wide, days[n])
  }

  /** `to_long_sales` without the sampling step. */
  function ToLongSales(wide: seq<WideRow>, columns: seq<string>): seq<LongRow>
    requires Rectangular(wide, columns)
  {
    var days := DayColumns(columns);
    assert HasCells(wide, days) by {
      forall i, j | 0 <= i < |wide| && 0 <= j < |days| ensures days[j] in wide[i].cells {
        assert days[j] in days && wide[i] in wide;
      }
    }
    Melt(wide, days)
  }

  /** `Melt` of the leading day columns is defined (a helper for the lemmas below). */
  lemma HasCellsPrefix(wide: seq<WideRow>, days: seq<string>, n: nat)
    requires HasCells(wide, days) && n <= |days|
    ensures HasCells(wide, days[..n])
  {
    forall i, j | 0 <= i < |wide| && 0 <= j < n ensures days[..n][j] in wide[i].cells {
      assert days[..n][j] == days[j];
    }
  }

  /** The long table has one row per (day column, wide row) pair. */
  lemma {:induction false} MeltCount(wide: seq<WideRow>, days: seq<string>)
    requires HasCells(wide, days)
    ensures |Melt(wide, days)| == |days| * |wide|
  {
    if |days| > 0 {
      var n := |days| - 1;
      HasCellsPrefix(wide, days, n);
      MeltCount(wide, days[..n]);
      assert |days| * |wide| == n * |wide| + |wide|;
    }
  }

  /** Every long row carries the cell of a wide row for one of the day columns. */
  lemma {:induction false} MeltSound(wide: seq<WideRow>, days: seq<string>)
    requires HasCells(wide, days)
    ensures forall r :: r in Melt(wide, days) ==>
      r.d in days && exists i :: 0 <= i < |wide| && r.id == wide[i].id && r.d in wide[i].cells && r.units == wide[i].cells[r.d]
  {
    if |days| > 0 {
      var n := |days| - 1;
      var init := days[..n];
      HasCellsPrefix(wide, days, n);
      MeltSound(wide, init);
      var prev := Melt(wide, init);
      var col := MeltColumn(wide, days[n]);
      assert Melt(wide, days) == prev + col;
      assert forall d :: d in init ==> d in days;
      forall r | r in col
        ensures r.d in days && exists i :: 0 <= i < |wide| && r.id == wide[i].id && r.d in wide[i].cells && r.units == wide[i].cells[r.d]
      {
        var i :| 0 <= i < |col| && col[i] == r;
      }
    }
  }

  /** The cell of wide row `w` for day column `d` appears as a long row. */
  ghost predicate CellMelted(long: seq<LongRow>, w: WideRow, d: string)
  {
    d in w.cells && exists r :: r in long && r.id == w.id && r.d == d && r.units == w.cells[d]
  }

  lemma CellMeltedExtend(prev: seq<LongRow>, col: seq<LongRow>, w: WideRow, d: string)
    requires CellMelted(prev, w, d)
    ensures CellMelted(prev + col, w, d)
  {
    var r :| r in prev && r.id == w.id && r.d == d && r.units == w.cells[d];
    assert r in prev + col;
  }

  /** Every (day column, wide row) cell appears as a long row. */
  lemma MeltComplete(wide: seq<WideRow>, days: seq<string>)
    requires HasCells(wide, days)
    ensures forall j, i :: 0 <= j < |days| && 0 <= i < |wide| ==> CellMelted(Melt(wide, days), wide[i], days[j])
  {
    forall j, i | 0 <= j < |days| && 0 <= i < |wide| ensures CellMelted(Melt(wide, days), wide[i], days[j]) {
      MeltCellAt(wide, days, j, i);
    }
  }

  lemma {:induction false} MeltCellAt(wide: seq<WideRow>, days: seq<string>, j: nat, i: nat)
    requires HasCells(wide, days)
    requires j < |days| && i < |wide|
    ensures CellMelted(Melt(wide, days), wide[i], days[j])
    decreases |days|
  {
    var n := |days| - 1;
    var init := days[..n];
    HasCellsPrefix(wide, days, n);
    assert forall w :: w in wide ==> days[n] in w.cells;
    var prev := Melt(wide, init);
    var col := MeltColumn(wide, days[n]);
    assert Melt(wide, days) == prev + col;
    if j < n {
      MeltCellAt(wide, init, j, i);
      assert init[j] == days[j];
      CellMeltedExtend(prev, col, wide[i], days[j]);
    } else {
      assert col[i] in prev + col;
    }
  }

  /** The row count of `to_long_sales`. */
  lemma ToLongSalesCount(wide: seq<WideRow>, columns: seq<string>)
    requires Rectangular(wide, columns)
    ensures |ToLongSales(wide, columns)| == |wide| * |DayColumns(columns)|
  {
    var days := DayColumns(columns);
    assert HasCells(wide, days) by {
      forall i, j | 0 <= i < |wide| && 0 <= j < |days| ensures days[j] in wide[i].cells {
        assert days[j] in days && wide[i] in wide;
      }
    }
    MeltCount(wide, days);
  }
}
