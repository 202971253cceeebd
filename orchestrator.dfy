/** The report helpers of the agent: percent change and rounding of optional
    numbers, the top-N inventory and pricing actions (a stable descending
    sort on two numeric fields, ranked and rounded), and the plain-text
    answer with its markdown tables. Report rows are dictionaries; number
    parsing (`float(str)`), number rendering (`str(float)`) and rounding are
    parameters. */
module Orchestrator {
  import opened Common
  import Sorting

  /** A cell of a report row: an integer (Python `int`, such as the rank), a
      floating-point number, a string, or `None`. */
  datatype Value = Int(n: int) | Num(x: real) | Text(s: string) | Null

  /** A report row (a JSON object / CSV record). */
  type Row = map<string, Value>

  // ---------------------------------------------------------------------
  // Percent change and rounding
  // ---------------------------------------------------------------------

  /** `_pct_change`: missing when either side is missing or `before` is 0. */
  function PctChange(before: Option<real>, after: Option<real>): (r: Option<real>)
    ensures r.None? <==> before.None? || after.None? || before.value == 0.0
  {
    if before.None? || after.None? then None
    else if before.value == 0.0 then None
    else Some((after.value - before.value) / before.value)
  }

  /** Applying a defined percent change to `before` gives back `after`. */
  lemma PctChangeRoundTrip(before: real, after: real)
    requires before != 0.0
    ensures var r := PctChange(Some(before), Some(after));
      r.Some? && before + before * r.value == after
  {
    var r := (after - before) / before;
    assert before * r == after - before;
  }

  /** `_round(v, nd)` with the rounding to `nd` digits as `round`: `None`
      stays `None`, a number is rounded. */
  function Round(v: Option<real>, round: real -> real): (r: Option<real>)
    ensures r.None? <==> v.None?
    ensures v.Some? ==> r.value == round(v.value)
  {
    match v
    case None => None
    case Some(x) => Some(round(x))
  }

  // ---------------------------------------------------------------------
  // Top actions
  // ---------------------------------------------------------------------

  /** `float(r.get(field, 0.0) or 0.0)`: a missing or falsy cell (absent,
      `None`, `0`, `""`) counts as 0; a string is parsed by `toFloat`, which
      fails (`ValueError`) with `None`. */
  function SortNumber(r: Row, field: string, toFloat: string -> Option<real>): (x: Option<real>)
    ensures field !in r ==> x == Some(0.0)
    ensures field in r && r[field].Null? ==> x == Some(0.0)
    ensures field in r && r[field].Num? ==> x == Some(r[field].x)
    ensures field in r && r[field].Int? ==> x == Some(r[field].n as real)
  {
    if field !in r then Some(0.0)
    else match r[field]
      case Null => Some(0.0)
      case Int(n) => Some(n as real)
      case Num(v) => Some(v)
      case Text(s) => if s == "" then Some(0.0) else toFloat(s)
  }

  /** A row together with its input position and its two sort numbers. */
  datatype Entry = Entry(index: nat, row: Row, first: real, second: real)

  /** The entries of the rows, or `None` when a sort number cannot be parsed
      (the sort raises). */
  function Entries(rows: seq<Row>, f1: string, f2: string, toFloat: string -> Option<real>): (es: Option<seq<Entry>>)
    ensures es.Some? ==> |es.value| == |rows|
  {
    if |rows| == 0 then Some([])
    else
      var init := Entries(rows[..|rows| - 1], f1, f2, toFloat);
      var last := rows[|rows| - 1];
      var a := SortNumber(last, f1, toFloat);
      var b := SortNumber(last, f2, toFloat);
      if init.None? || a.None? || b.None? then None
      else Some(init.value + [Entry(|rows| - 1, last, a.value, b.value)])
  }

  predicate Unparsable(r: Row, f1: string, f2: string, toFloat: string -> Option<real>)
  {
    SortNumber(r, f1, toFloat).None? || SortNumber(r, f2, toFloat).None?
  }

  /** The sort fails exactly when one of the rows has a sort number that
      cannot be parsed; otherwise entry `i` is row `i` with its numbers. */
  lemma {:induction false} EntriesSpec(rows: seq<Row>, f1: string, f2: string, toFloat: string -> Option<real>)
    ensures var es := Entries(rows, f1, f2, toFloat);
      (es.None? <==> (exists i :: 0 <= i < |rows| && Unparsable(rows[i], f1, f2, toFloat))) &&
      (es.Some? ==> forall i :: 0 <= i < |rows| ==>
         es.value[i] == Entry(i, rows[i], SortNumber(rows[i], f1, toFloat).value, SortNumber(rows[i], f2, toFloat).value))
  {
    if |rows| > 0 {
      var init := rows[..|rows| - 1];
      EntriesSpec(init, f1, f2, toFloat);
      assert forall i :: 0 <= i < |init| ==> init[i] == rows[i];
    }
  }

  /** `sorted(rows, key=(first, second), reverse=True)`: larger tuples first,
      and ties keep the input order (Python's sort is stable). */
  function ActionOrder(): (Entry, Entry) -> bool
  {
    Sorting.Lex(Sorting.Lex(Sorting.Descending((e: Entry) => e.first), Sorting.Descending((e: Entry) => e.second)),
                Sorting.Ascending((e: Entry) => e.index as int))
  }

  lemma ActionOrderIsStrictWeakOrder()
    ensures Sorting.StrictWeakOrder(ActionOrder())
  {
    var byFirst := Sorting.Descending((e: Entry) => e.first);
    var bySecond := Sorting.Descending((e: Entry) => e.second);
    var byIndex := Sorting.Ascending((e: Entry) => e.index as int);
    Sorting.DescendingIsStrictWeakOrder((e: Entry) => e.first);
    Sorting.DescendingIsStrictWeakOrder((e: Entry) => e.second);
    Sorting.AscendingIsStrictWeakOrder((e: Entry) => e.index as int);
    Sorting.LexIsStrictWeakOrder(byFirst, bySecond);
    Sorting.LexIsStrictWeakOrder(Sorting.Lex(byFirst, bySecond), byIndex);
  }

  /** The chosen entries: the sorted entries cut at `[:n]`. */
  function Ranking(rows: seq<Row>, n: int, f1: string, f2: string, toFloat: string -> Option<real>): Option<seq<Entry>>
  {
    var es := Entries(rows, f1, f2, toFloat);
    if es.None? then None else Some(Head(Sorting.Sort(es.value, ActionOrder()), n))
  }

  /** `float(v)` followed by `_round`: a number or a parsable string becomes
      the rounded number; anything else raises and stays as it is. */
  function RoundValue(v: Value, toFloat: string -> Option<real>, round: real -> real): Value
  {
    match v
    case Int(n) => Num(round(n as real))
    case Num(x) => Num(round(x))
    case Text(s) => if toFloat(s).Some? then Num(round(toFloat(s).value)) else v
    case Null => v
  }

  /** A row after formatting: `rank` set, the listed fields that are present
      rounded, and every other cell as it was. */
  function Formatted(row: Row, rank: nat, fields: set<string>, toFloat: string -> Option<real>,
                     round: real -> real): (r: Row)
    ensures r.Keys == row.Keys + {"rank"}
    ensures r["rank"] == Int(rank)
    ensures forall k :: k in row && k != "rank" && k !in fields ==> r[k] == row[k]
  {
    map k | k in row.Keys + {"rank"} ::
      if k == "rank" then Int(rank)
      else if k in fields then RoundValue(row[k], toFloat, round)
      else row[k]
  }

  function FieldSet(fields: seq<string>): set<string>
  {
    set k | k in fields
  }

  /** With no rounded field, formatting only sets the rank. */
  lemma FormattedNoFields(row: Row, rank: nat, toFloat: string -> Option<real>, round: real -> real)
    ensures Formatted(row, rank, {}, toFloat, round) == row["rank" := Int(rank)]
  {
  }

  /** Rounding one more field changes that cell only, and only when present. */
  lemma FormattedAddField(row: Row, rank: nat, fields: set<string>, k: string, toFloat: string -> Option<real>,
                          round: real -> real)
    requires k != "rank" && k !in fields
    ensures k in row ==> Formatted(row, rank, fields + {k}, toFloat, round) ==
                         Formatted(row, rank, fields, toFloat, round)[k := RoundValue(row[k], toFloat, round)]
    ensures k !in row ==> Formatted(row, rank, fields + {k}, toFloat, round) == Formatted(row, rank, fields, toFloat, round)
  {
  }

  /** The inner formatting loop over the rounded fields of one row. */
  method FormatRow(row: Row, rank: nat, fields: seq<string>, toFloat: string -> Option<real>, round: real -> real)
    returns (r: Row)
    requires "rank" !in fields
    requires forall i, j :: 0 <= i < j < |fields| ==> fields[i] != fields[j]
    ensures r == Formatted(row, rank, FieldSet(fields), toFloat, round)
  {
    r := row["rank" := Int(rank)];
    FormattedNoFields(row, rank, toFloat, round);
    assert FieldSet(fields[..0]) == {};
    for j := 0 to |fields|
      invariant r == Formatted(row, rank, FieldSet(fields[..j]), toFloat, round)
    {
      var k := fields[j];
      assert k !in FieldSet(fields[..j]);
      assert FieldSet(fields[..j + 1]) == FieldSet(fields[..j]) + {k} by {
        assert fields[..j + 1] == fields[..j] + [k];
      }
      FormattedAddField(row, rank, FieldSet(fields[..j]), k, toFloat, round);
      if k in r {
        r := r[k := RoundValue(r[k], toFloat, round)];
      }
    }
    assert fields[..|fields|] == fields;
  }

  /** The ranking and rounding loop over the chosen entries. */
  method FormatAll(top: seq<Entry>, fields: seq<string>, toFloat: string -> Option<real>, round: real -> real)
    returns (result: seq<Row>)
    requires "rank" !in fields
    requires forall i, j :: 0 <= i < j < |fields| ==> fields[i] != fields[j]
    ensures |result| == |top|
    ensures forall i :: 0 <= i < |top| ==> result[i] == Formatted(top[i].row, i + 1, FieldSet(fields), toFloat, round)
  {
    result := [];
    for i := 0 to |top|
      invariant |result| == i
      invariant forall j :: 0 <= j < i ==> result[j] == Formatted(top[j].row, j + 1, FieldSet(fields), toFloat, round)
    {
      var r := FormatRow(top[i].row, i + 1, fields, toFloat, round);
      result := result + [r];
    }
  }

  /** The shared body of `_top_inventory_actions` and `_top_pricing_actions`:
      sort, cut at `[:n]`, then rank from 1 and round the listed fields. */
  method TopActions(rows: seq<Row>, n: int, f1: string, f2: string, fields: seq<string>,
                    toFloat: string -> Option<real>, round: real -> real)
    returns (out: Result<seq<Row>>)
    requires "rank" !in fields
    requires forall i, j :: 0 <= i < j < |fields| ==> fields[i] != fields[j]
    ensures out.Ok? <==> Ranking(rows, n, f1, f2, toFloat).Some?
    ensures out.Ok? ==> var top := Ranking(rows, n, f1, f2, toFloat).value;
      |out.value| == |top| &&
      forall i :: 0 <= i < |top| ==> out.value[i] == Formatted(top[i].row, i + 1, FieldSet(fields), toFloat, round)
  {
    var es := Entries(rows, f1, f2, toFloat);
    if es.None? {
      return Err("ValueError: could not convert string to float");
    }
    var top := Head(Sorting.Sort(es.value, ActionOrder()), n);
    assert Ranking(rows, n, f1, f2, toFloat) == Some(top);
    var result := FormatAll(top, fields, toFloat, round);
    out := Ok(result);
  }

  /** `_top_inventory_actions`: by reorder point, then average prediction. */
  method TopInventoryActions(rows: seq<Row>, n: int, toFloat: string -> Option<real>, round: real -> real)
    returns (out: Result<seq<Row>>)
    ensures out.Ok? <==> Ranking(rows, n, "reorder_point", "avg_pred", toFloat).Some?
    ensures out.Ok? ==> var top := Ranking(rows, n, "reorder_point", "avg_pred", toFloat).value;
      |out.value| == |top| &&
      forall i :: 0 <= i < |top| ==>
        out.value[i] == Formatted(top[i].row, i + 1, {"avg_pred", "reorder_point", "safety_stock"}, toFloat, round)
  {
    var fields := ["avg_pred", "reorder_point", "safety_stock"];
    assert FieldSet(fields) == {"avg_pred", "reorder_point", "safety_stock"};
    out := TopActions(rows, n, "reorder_point", "avg_pred", fields, toFloat, round);
  }

  /** `_top_pricing_actions`: by markdown, then profit. */
  method TopPricingActions(rows: seq<Row>, n: int, toFloat: string -> Option<real>, round: real -> real)
    returns (out: Result<seq<Row>>)
    ensures out.Ok? <==> Ranking(rows, n, "markdown", "profit", toFloat).Some?
    ensures out.Ok? ==> var top := Ranking(rows, n, "markdown", "profit", toFloat).value;
      |out.value| == |top| &&
      forall i :: 0 <= i < |top| ==>
        out.value[i] == Formatted(top[i].row, i + 1, {"base_price", "opt_price", "markdown", "elasticity", "profit"},
                                  toFloat, round)
  {
    var fields := ["base_price", "opt_price", "markdown", "elasticity", "profit"];
    assert FieldSet(fields) == {"base_price", "opt_price", "markdown", "elasticity", "profit"};
    out := TopActions(rows, n, "markdown", "profit", fields, toFloat, round);
  }

  /** The ranking keeps at most `n` rows (all rows when there are fewer, all
      but the last `-n` for a negative `n`), each taken from its input
      position and none twice. */
  lemma RankingShape(rows: seq<Row>, n: int, f1: string, f2: string, toFloat: string -> Option<real>)
    requires Ranking(rows, n, f1, f2, toFloat).Some?
    ensures var top := Ranking(rows, n, f1, f2, toFloat).value;
      (n >= 0 ==> |top| == MinInt(n, |rows|)) &&
      (n < 0 ==> |top| == if |rows| + n > 0 then |rows| + n else 0) &&
      (forall i :: 0 <= i < |top| ==> top[i].index < |rows| && top[i].row == rows[top[i].index]) &&
      (forall i, j :: 0 <= i < j < |top| ==> top[i].index != top[j].index)
  {
    var es := Entries(rows, f1, f2, toFloat).value;
    var sorted := Sorting.Sort(es, ActionOrder());
    var top := Head(sorted, n);
    EntriesSpec(rows, f1, f2, toFloat);
    forall i | 0 <= i < |top| ensures top[i].index < |rows| && top[i].row == rows[top[i].index] {
      assert top[i] == sorted[i];
      assert sorted[i] in multiset(es);
    }
    forall i, j | 0 <= i < j < |top| ensures top[i].index != top[j].index {
      EntryIndexDistinct(es, sorted, i, j, rows, f1, f2, toFloat);
    }
  }

  /** Two positions of a reordering of the entries hold different entries,
      hence different input positions. */
  lemma EntryIndexDistinct(es: seq<Entry>, sorted: seq<Entry>, i: nat, j: nat,
                           rows: seq<Row>, f1: string, f2: string, toFloat: string -> Option<real>)
    requires Entries(rows, f1, f2, toFloat) == Some(es)
    requires multiset(sorted) == multiset(es)
    requires i < j < |sorted|
    ensures sorted[i].index != sorted[j].index
  {
    EntriesSpec(rows, f1, f2, toFloat);
    assert forall p, q :: 0 <= p < q < |es| ==> es[p] != es[q] by {
      forall p, q | 0 <= p < q < |es| ensures es[p] != es[q] {
        assert es[p].index == p && es[q].index == q;
      }
    }
    DistinctPermutation(es, sorted);
    assert sorted[i] in multiset(es) && sorted[j] in multiset(es);
    var p :| 0 <= p < |es| && es[p] == sorted[i];
    var q :| 0 <= q < |es| && es[q] == sorted[j];
    assert es[p].index == p && es[q].index == q;
  }

  /** The ranking is ordered by the two numbers from high to low, and rows
      with equal numbers keep their input order. */
  lemma RankingOrdered(rows: seq<Row>, n: int, f1: string, f2: string, toFloat: string -> Option<real>)
    requires Ranking(rows, n, f1, f2, toFloat).Some?
    ensures var top := Ranking(rows, n, f1, f2, toFloat).value;
      forall i, j :: 0 <= i < j < |top| ==>
        (top[i].first > top[j].first ||
         (top[i].first == top[j].first && top[i].second > top[j].second) ||
         (top[i].first == top[j].first && top[i].second == top[j].second && top[i].index < top[j].index))
  {
    var es := Entries(rows, f1, f2, toFloat).value;
    var sorted := Sorting.Sort(es, ActionOrder());
    var top := Head(sorted, n);
    ActionOrderIsStrictWeakOrder();
    Sorting.SortSorted(es, ActionOrder());
    RankingShape(rows, n, f1, f2, toFloat);
    forall i, j | 0 <= i < j < |top|
      ensures top[i].first > top[j].first ||
              (top[i].first == top[j].first && top[i].second > top[j].second) ||
              (top[i].first == top[j].first && top[i].second == top[j].second && top[i].index < top[j].index)
    {
      assert top[i] == sorted[i] && top[j] == sorted[j];
      assert !ActionOrder()(sorted[j], sorted[i]);
    }
  }

  /** No row left out of the ranking is ahead of a row in it: the cut keeps
      the top of the order. */
  lemma RankingIsTop(rows: seq<Row>, n: int, f1: string, f2: string, toFloat: string -> Option<real>)
    requires Entries(rows, f1, f2, toFloat).Some?
    ensures var sorted := Sorting.Sort(Entries(rows, f1, f2, toFloat).value, ActionOrder());
      var top := Ranking(rows, n, f1, f2, toFloat).value;
      top == sorted[..|top|] &&
      forall i, j :: 0 <= i < |top| <= j < |sorted| ==>
        sorted[i].first > sorted[j].first || (sorted[i].first == sorted[j].first && sorted[i].second >= sorted[j].second)
  {
    var sorted := Sorting.Sort(Entries(rows, f1, f2, toFloat).value, ActionOrder());
    ActionOrderIsStrictWeakOrder();
    Sorting.SortSorted(Entries(rows, f1, f2, toFloat).value, ActionOrder());
    forall i, j | 0 <= i < j < |sorted|
      ensures sorted[i].first > sorted[j].first || (sorted[i].first == sorted[j].first && sorted[i].second >= sorted[j].second)
    {
      assert !ActionOrder()(sorted[j], sorted[i]);
    }
  }

  /** The ranks of the output are 1, 2, ... in output order. */
  lemma RanksConsecutive(out: seq<Row>, top: seq<Entry>, fields: set<string>, toFloat: string -> Option<real>,
                         round: real -> real)
    requires |out| == |top|
    requires forall i :: 0 <= i < |top| ==> out[i] == Formatted(top[i].row, i + 1, fields, toFloat, round)
    ensures forall i :: 0 <= i < |out| ==> "rank" in out[i] && out[i]["rank"] == Int(i + 1)
  {
  }

  // ---------------------------------------------------------------------
  // The answer text
  // ---------------------------------------------------------------------

  /** `sep.join(parts)`. */
  function Join(sep: string, parts: seq<string>): string
  {
    if |parts| == 0 then ""
    else if |parts| == 1 then parts[0]
    else Join(sep, parts[..|parts| - 1]) + sep + parts[|parts| - 1]
  }

  /** A joined text ends with its last part. */
  lemma JoinEndsWithLast(sep: string, parts: seq<string>)
    requires |parts| > 0
    ensures var j := Join(sep, parts);
      |j| >= |parts[|parts| - 1]| && j[|j| - |parts[|parts| - 1]|..] == parts[|parts| - 1]
  {
  }

  /** `[x] * n`. */
  function Repeat<T>(x: T, n: nat): (r: seq<T>)
    ensures |r| == n && forall i :: 0 <= i < n ==> r[i] == x
  {
    if n == 0 then [] else Repeat(x, n - 1) + [x]
  }

  /** The concatenation of a sequence of strings. */
  function Concat(parts: seq<string>): string
  {
    if |parts| == 0 then "" else Concat(parts[..|parts| - 1]) + parts[|parts| - 1]
  }

  /** The decimal digits of `n`, without leading zeros. */
  function Digits(n: nat): (s: string)
    ensures |s| > 0 && forall i :: 0 <= i < |s| ==> '0' <= s[i] <= '9'
    ensures n > 0 ==> s[0] != '0'
  {
    var last := (('0' as int) + n % 10) as char;
    if n < 10 then [last] else Digits(n / 10) + [last]
  }

  /** The number a string of decimal digits denotes. */
  function DigitsValue(s: string): nat
  {
    if |s| == 0 then 0
    else
      var c := s[|s| - 1];
      10 * DigitsValue(s[..|s| - 1]) + (if '0' <= c <= '9' then c as int - '0' as int else 0)
  }

  /** `str(n)` of a Python `int`: an optional minus sign and the digits. */
  function ShowInt(n: int): string
  {
    if n < 0 then "-" + Digits(-n) else Digits(n)
  }

  /** `int(s)` of a rendered integer. */
  function ParseInt(s: string): int
  {
    if |s| > 0 && s[0] == '-' then -(DigitsValue(s[1..]) as int) else DigitsValue(s)
  }

  lemma {:induction false} DigitsRoundTrip(n: nat)
    ensures DigitsValue(Digits(n)) == n
  {
    var s := Digits(n);
    assert s[..|s| - 1] == if n < 10 then [] else Digits(n / 10);
    if n >= 10 {
      DigitsRoundTrip(n / 10);
    }
  }

  /** An integer renders without a decimal point or leading zeros, and
      reading the text back gives the integer. */
  lemma ShowIntRoundTrip(n: int)
    ensures ParseInt(ShowInt(n)) == n
    ensures '.' !in ShowInt(n)
    ensures var s := ShowInt(n); s[0] == '-' <==> n < 0
    ensures n != 0 ==> ShowInt(n)[if n < 0 then 1 else 0] != '0'
  {
    if n < 0 {
      DigitsRoundTrip(-n);
      assert ShowInt(n)[1..] == Digits(-n);
    } else {
      DigitsRoundTrip(n);
    }
  }

  /** `str(v)` of a cell; integers are rendered by `ShowInt`, floating-point
      numbers by `showNum`. */
  function Show(v: Value, showNum: real -> string): string
  {
    match v
    case Int(n) => ShowInt(n)
    case Num(x) => showNum(x)
    case Text(s) => s
    case Null => "None"
  }

  /** `str(r.get(c, ""))`: a missing cell renders as the empty string. */
  function Cell(r: Row, c: string, showNum: real -> string): (s: string)
    ensures c !in r ==> s == ""
    ensures c in r ==> s == Show(r[c], showNum)
  {
    if c in r then Show(r[c], showNum) else ""
  }

  function Cells(r: Row, cols: seq<string>, showNum: real -> string): (cells: seq<string>)
    ensures |cells| == |cols| && forall i :: 0 <= i < |cols| ==> cells[i] == Cell(r, cols[i], showNum)
  {
    seq(|cols|, i requires 0 <= i < |cols| => Cell(r, cols[i], showNum))
  }

  function HeaderLine(cols: seq<string>): string
  {
    "| " + Join(" | ", cols) + " |"
  }

  function SeparatorLine(n: nat): string
  {
    "|" + Join("|", Repeat("---", n)) + "|"
  }

  function RowLine(r: Row, cols: seq<string>, showNum: real -> string): string
  {
    "| " + Join(" | ", Cells(r, cols, showNum)) + " |"
  }

  /** The lines of a table, as `MdTable` builds them. */
  function TableLines(rows: seq<Row>, cols: seq<string>, showNum: real -> string): seq<string>
  {
    if |rows| == 0 then
      ["(no rows)"]
    else
      [HeaderLine(cols), SeparatorLine(|cols|)] +
        seq(|rows|, i requires 0 <= i < |rows| => RowLine(rows[i], cols, showNum))
  }

  /** `md_table`: "(no rows)" for no rows; otherwise the header line, the
      separator line and one line per row, in row order. */
  method MdTable(rows: seq<Row>, cols: seq<string>, showNum: real -> string) returns (out: seq<string>)
    ensures |rows| == 0 ==> out == ["(no rows)"]
    ensures |rows| > 0 ==>
      |out| == |rows| + 2 && out[0] == HeaderLine(cols) && out[1] == SeparatorLine(|cols|) &&
      forall i :: 0 <= i < |rows| ==> out[i + 2] == RowLine(rows[i], cols, showNum)
    ensures out == TableLines(rows, cols, showNum)
  {
    if |rows| == 0 {
      return ["(no rows)"];
    }
    out := [HeaderLine(cols), SeparatorLine(|cols|)];
    for i := 0 to |rows|
      invariant |out| == i + 2 && out[0] == HeaderLine(cols) && out[1] == SeparatorLine(|cols|)
      invariant forall j :: 0 <= j < i ==> out[j + 2] == RowLine(rows[j], cols, showNum)
    {
      out := out + [RowLine(rows[i], cols, showNum)];
    }
  }

  /** The separator holds one `---` cell per column: for `n > 0` columns it
      is `|` followed by `n` copies of `---|`. */
  lemma {:induction false} SeparatorCells(n: nat)
    requires n > 0
    ensures SeparatorLine(n) == "|" + Concat(Repeat("---|", n))
    ensures |SeparatorLine(n)| == 4 * n + 1
  {
    JoinRepeat(n);
    ConcatRepeatLength(n);
  }

  lemma {:induction false} JoinRepeat(n: nat)
    requires n > 0
    ensures Join("|", Repeat("---", n)) + "|" == Concat(Repeat("---|", n))
  {
    var r := Repeat("---", n);
    var q := Repeat("---|", n);
    assert r[..n - 1] == Repeat("---", n - 1);
    assert q[..n - 1] == Repeat("---|", n - 1);
    if n == 1 {
      assert Concat(q) == Concat([]) + "---|";
    } else {
      JoinRepeat(n - 1);
      assert Join("|", r) == Join("|", Repeat("---", n - 1)) + "|" + "---";
    }
  }

  lemma {:induction false} ConcatRepeatLength(n: nat)
    ensures |Concat(Repeat("---|", n))| == 4 * n
  {
    if n > 0 {
      var q := Repeat("---|", n);
      assert q[..n - 1] == Repeat("---|", n - 1);
      ConcatRepeatLength(n - 1);
    }
  }

  /** The rank column of a formatted row renders as the integer rank (`1`,
      not `1.0`). */
  lemma RankCellIsInteger(row: Row, rank: nat, fields: set<string>, toFloat: string -> Option<real>,
                          round: real -> real, showNum: real -> string)
    ensures var s := Cell(Formatted(row, rank, fields, toFloat, round), "rank", showNum);
      s == ShowInt(rank) && ParseInt(s) == rank && '.' !in s
  {
    ShowIntRoundTrip(rank);
  }

  /** A row holding none of the table's columns renders as a line of empty
      cells: `"| "`, then `|cols| - 1` separators, then `" |"`. */
  lemma EmptyRowLine(r: Row, cols: seq<string>, showNum: real -> string)
    requires forall i :: 0 <= i < |cols| ==> cols[i] !in r
    ensures RowLine(r, cols, showNum) == "| " + Join(" | ", Repeat("", |cols|)) + " |"
    ensures |RowLine(r, cols, showNum)| == if |cols| == 0 then 4 else 3 * |cols| + 1
  {
    assert Cells(r, cols, showNum) == Repeat("", |cols|);
    JoinEmptyLength(|cols|);
  }

  lemma {:induction false} JoinEmptyLength(n: nat)
    ensures |Join(" | ", Repeat("", n))| == if n == 0 then 0 else 3 * (n - 1)
  {
    if n > 1 {
      assert Repeat("", n)[..n - 1] == Repeat("", n - 1);
      JoinEmptyLength(n - 1);
    }
  }

  /** The key metrics, in the order the answer lists them. */
  const MetricNames: seq<string> := [
    "forecast_valid_wape", "forecast_valid_rmse",
    "stockout_units_before", "stockout_units_after", "stockout_units_pct_change",
    "total_cost_before", "total_cost_after", "total_cost_pct_change"]

  /** A metric is listed when it is present and not `None`. */
  predicate Listed(metrics: map<string, Value>, k: string)
  {
    k in metrics && !metrics[k].Null?
  }

  function MetricLine(k: string, v: Value, showNum: real -> string): string
  {
    "- " + k + ": " + Show(v, showNum)
  }

  /** The line of a listed metric. */
  function MetricLineOf(metrics: map<string, Value>, showNum: real -> string): string -> string
  {
    (k: string) => if k in metrics then MetricLine(k, metrics[k], showNum) else ""
  }

  /** The metric lines for the names `names`, in their order. */
  function MetricLines(metrics: map<string, Value>, names: seq<string>, showNum: real -> string): seq<string>
  {
    if |names| == 0 then []
    else
      var k := names[|names| - 1];
      MetricLines(metrics, names[..|names| - 1], showNum) +
        (if Listed(metrics, k) then [MetricLine(k, metrics[k], showNum)] else [])
  }

  /** Exactly the listed metrics get a line, in the fixed order: the lines
      are those of the listed names, name by name. */
  lemma {:induction false} MetricLinesSpec(metrics: map<string, Value>, names: seq<string>, showNum: real -> string)
    ensures var listed := Filter(names, (k: string) => Listed(metrics, k));
      MetricLines(metrics, names, showNum) == Map(listed, MetricLineOf(metrics, showNum))
  {
    if |names| > 0 {
      var init := names[..|names| - 1];
      var k := names[|names| - 1];
      MetricLinesSpec(metrics, init, showNum);
      assert names == init + [k];
      FilterAppend(init, k, (k: string) => Listed(metrics, k));
    }
  }

  /** "- " + each item. */
  function Bullets(items: seq<string>): (lines: seq<string>)
    ensures |lines| == |items| && forall i :: 0 <= i < |items| ==> lines[i] == "- " + items[i]
  {
    seq(|items|, i requires 0 <= i < |items| => "- " + items[i])
  }

  function ConfidenceLine(confidence: real, round2: real -> real, showNum: real -> string): string
  {
    "CONFIDENCE: " + showNum(round2(confidence))
  }

  /** The loop over the key metrics of `_compose_markdown_answer`. */
  method MetricSection(metrics: map<string, Value>, showNum: real -> string) returns (lines: seq<string>)
    ensures lines == MetricLines(metrics, MetricNames, showNum)
  {
    lines := [];
    for i := 0 to |MetricNames|
      invariant lines == MetricLines(metrics, MetricNames[..i], showNum)
    {
      var k := MetricNames[i];
      assert MetricNames[..i + 1][..i] == MetricNames[..i];
      if k in metrics && metrics[k] != Null {
        lines := lines + [MetricLine(k, metrics[k], showNum)];
      }
    }
    assert MetricNames[..|MetricNames|] == MetricNames;
  }

  /** The columns of the two action tables. */
  const InventoryColumns: seq<string> := ["rank", "item_id", "avg_pred", "reorder_point", "safety_stock"]
  const PricingColumns: seq<string> := ["rank", "item_id", "base_price", "opt_price", "markdown", "elasticity", "profit"]

  /** `_compose_markdown_answer`, as its list of lines (the answer is the
      lines joined by newlines). */
  method ComposeLines(metrics: map<string, Value>, decisions: seq<string>, invTop: seq<Row>, prcTop: seq<Row>,
                      tradeoffs: seq<string>, assumptions: seq<string>, confidence: real,
                      round2: real -> real, showNum: real -> string)
    returns (lines: seq<string>)
    ensures |lines| > |MetricLines(metrics, MetricNames, showNum)| + 1 && lines[0] == "KEY METRICS"
    ensures lines[1..1 + |MetricLines(metrics, MetricNames, showNum)|] == MetricLines(metrics, MetricNames, showNum)
    ensures lines[|lines| - 1] == ConfidenceLine(confidence, round2, showNum)
    ensures lines == ["KEY METRICS"] + MetricLines(metrics, MetricNames, showNum) +
      ["", "DECISION (what to do now)"] + Bullets(decisions) +
      ["", "TOP 10 INVENTORY ACTIONS"] + TableLines(invTop, InventoryColumns, showNum) +
      ["", "TOP 10 PRICING ACTIONS"] + TableLines(prcTop, PricingColumns, showNum) +
      ["", "TRADEOFFS"] + Bullets(tradeoffs) +
      ["", "ASSUMPTIONS"] + Bullets(assumptions) +
      ["", ConfidenceLine(confidence, round2, showNum)]
  {
    var metricLines := MetricSection(metrics, showNum);
    var inv := MdTable(invTop, InventoryColumns, showNum);
    var prc := MdTable(prcTop, PricingColumns, showNum);
    var rest := ["", "DECISION (what to do now)"] + Bullets(decisions) +
                ["", "TOP 10 INVENTORY ACTIONS"] + inv +
                ["", "TOP 10 PRICING ACTIONS"] + prc +
                ["", "TRADEOFFS"] + Bullets(tradeoffs) +
                ["", "ASSUMPTIONS"] + Bullets(assumptions);
    var tail := ["", ConfidenceLine(confidence, round2, showNum)];
    lines := ["KEY METRICS"] + metricLines + rest + tail;
    assert lines[1..1 + |metricLines|] == metricLines;
    assert lines[|lines| - 1] == tail[1];
  }

  /** The answer text ends with the confidence line. */
  lemma AnswerEndsWithConfidence(lines: seq<string>, confidence: real, round2: real -> real, showNum: real -> string)
    requires |lines| > 0 && lines[|lines| - 1] == ConfidenceLine(confidence, round2, showNum)
    ensures var answer := Join("\n", lines);
      var c := ConfidenceLine(confidence, round2, showNum);
      |answer| >= |c| && answer[|answer| - |c|..] == c
  {
    JoinEndsWithLast("\n", lines);
  }
}
