/** The assortment selector: per store, a per-category floor of the most
    profitable items, then a fill of the best remaining items up to the
    store's capacity; the picks are de-duplicated by (store, item) and
    ordered by store, then by profit from high to low. */
module Assortment {
  import opened Common
  import Sorting

  /** One row of the markdown recommendations (the selector's input). */
  datatype PricingRow = PricingRow(itemId: string, storeId: string, basePrice: real, markdown: real,
                                   optPrice: real, profit: Option<real>, elasticity: real)

  /** One row of the forecast frame's item metadata. */
  datatype MetaRow = MetaRow(itemId: string, storeId: string, catId: string)

  /** A recommendation joined with its category (missing when the item has no
      metadata), with a missing profit read as 0. */
  datatype Pick = Pick(storeId: string, catId: Option<string>, itemId: string, basePrice: real,
                       markdown: real, optPrice: real, profit: real, elasticity: real)

  /** The identity `picked` and `drop_duplicates` use: (item_id, store_id). */
  datatype Key = Key(itemId: string, storeId: string)

  function KeyOf(p: Pick): Key
  {
    Key(p.itemId, p.storeId)
  }

  function StoreOf(p: Pick): string
  {
    p.storeId
  }

  /** The category of an (item, store) in the metadata, if it has one. */
  function CatOf(meta: seq<MetaRow>, itemId: string, storeId: string): (c: Option<string>)
    ensures c.None? <==> forall m :: m in meta ==> m.itemId != itemId || m.storeId != storeId
    ensures c.Some? ==> MetaRow(itemId, storeId, c.value) in meta
  {
    if |meta| == 0 then None
    else if meta[0].itemId == itemId && meta[0].storeId == storeId then Some(meta[0].catId)
    else CatOf(meta[1..], itemId, storeId)
  }

  function JoinRow(r: PricingRow, meta: seq<MetaRow>): Pick
  {
    Pick(r.storeId, CatOf(meta, r.itemId, r.storeId), r.itemId, r.basePrice, r.markdown, r.optPrice,
         GetOr(r.profit, 0.0), r.elasticity)
  }

  /** The left merge with the metadata followed by `fillna(0.0)` on profit:
      row for row, the key is kept and a missing profit becomes 0. */
  function Merge(rec: seq<PricingRow>, meta: seq<MetaRow>): (df: seq<Pick>)
    ensures |df| == |rec|
    ensures forall i :: 0 <= i < |rec| ==>
      KeyOf(df[i]) == Key(rec[i].itemId, rec[i].storeId) &&
      df[i].profit == GetOr(rec[i].profit, 0.0) &&
      (rec[i].profit.None? ==> df[i].profit == 0.0)
  {
    if |rec| == 0 then [] else [JoinRow(rec[0], meta)] + Merge(rec[1..], meta)
  }

  /** `sort_values("profit", ascending=False)`. */
  function ByProfit(): (Pick, Pick) -> bool
  {
    Sorting.Descending((p: Pick) => p.profit)
  }

  /** The output order: store ascending, then profit descending. */
  function OutputOrder(): (Pick, Pick) -> bool
  {
    Sorting.Lex(Sorting.ByString(StoreOf), Sorting.Descending((p: Pick) => p.profit))
  }

  lemma OutputOrderIsStrictWeakOrder()
    ensures Sorting.StrictWeakOrder(OutputOrder())
  {
    Sorting.ByStringIsStrictWeakOrder(StoreOf);
    Sorting.DescendingIsStrictWeakOrder((p: Pick) => p.profit);
    Sorting.LexIsStrictWeakOrder(Sorting.ByString(StoreOf), Sorting.Descending((p: Pick) => p.profit));
  }

  // ---------------------------------------------------------------------
  // Keys
  // ---------------------------------------------------------------------

  /** The set of (item, store) keys of a sequence of picks. */
  function KeySet(s: seq<Pick>): set<Key>
  {
    if |s| == 0 then {} else KeySet(s[..|s| - 1]) + {KeyOf(s[|s| - 1])}
  }

  lemma KeySetAppend(s: seq<Pick>, x: Pick)
    ensures KeySet(s + [x]) == KeySet(s) + {KeyOf(x)}
  {
    assert (s + [x])[..|s|] == s;
  }

  lemma {:induction false} KeySetMembers(s: seq<Pick>)
    ensures forall k :: k in KeySet(s) <==> exists i :: 0 <= i < |s| && KeyOf(s[i]) == k
  {
    if |s| > 0 {
      var init := s[..|s| - 1];
      KeySetMembers(init);
      forall k ensures k in KeySet(s) <==> exists i :: 0 <= i < |s| && KeyOf(s[i]) == k {
        if k in KeySet(init) {
          var i :| 0 <= i < |init| && KeyOf(init[i]) == k;
          assert KeyOf(s[i]) == k;
        }
        if exists i :: 0 <= i < |s| && KeyOf(s[i]) == k {
          var i :| 0 <= i < |s| && KeyOf(s[i]) == k;
          if i < |init| {
            assert KeyOf(init[i]) == k;
          }
        }
      }
    }
  }

  /** The key set depends only on which picks occur, not on their order. */
  lemma KeySetOfMultiset(a: seq<Pick>, b: seq<Pick>)
    requires multiset(a) == multiset(b)
    ensures KeySet(a) == KeySet(b)
  {
    KeySetMembers(a);
    KeySetMembers(b);
    forall k | k in KeySet(a) ensures k in KeySet(b) {
      var i :| 0 <= i < |a| && KeyOf(a[i]) == k;
      assert a[i] in multiset(b);
      var j :| 0 <= j < |b| && b[j] == a[i];
    }
    forall k | k in KeySet(b) ensures k in KeySet(a) {
      var j :| 0 <= j < |b| && KeyOf(b[j]) == k;
      assert b[j] in multiset(a);
      var i :| 0 <= i < |a| && a[i] == b[j];
    }
  }

  /** No two picks share an (item, store) key. */
  predicate KeysDistinct(s: seq<Pick>)
  {
    forall i, j :: 0 <= i < j < |s| ==> KeyOf(s[i]) != KeyOf(s[j])
  }

  /** Keys are distinct exactly when there are as many keys as picks. */
  lemma {:induction false} KeysDistinctCount(s: seq<Pick>)
    ensures |KeySet(s)| <= |s|
    ensures KeysDistinct(s) <==> |KeySet(s)| == |s|
  {
    if |s| > 0 {
      var init := s[..|s| - 1];
      KeysDistinctCount(init);
      KeysDistinctSnoc(s);
      assert KeySet(s) == KeySet(init) + {KeyOf(s[|s| - 1])};
    }
  }

  /** A sequence has distinct keys exactly when all but its last pick do and
      the last pick's key is new. */
  lemma KeysDistinctSnoc(s: seq<Pick>)
    requires |s| > 0
    ensures KeysDistinct(s) <==> KeysDistinct(s[..|s| - 1]) && KeyOf(s[|s| - 1]) !in KeySet(s[..|s| - 1])
  {
    var init := s[..|s| - 1];
    var x := s[|s| - 1];
    KeySetMembers(init);
    assert forall i :: 0 <= i < |init| ==> init[i] == s[i];
    if KeyOf(x) in KeySet(init) {
      var i :| 0 <= i < |init| && KeyOf(init[i]) == KeyOf(x);
      assert KeyOf(s[i]) == KeyOf(s[|s| - 1]);
    } else if KeysDistinct(init) {
      forall i, j | 0 <= i < j < |s| ensures KeyOf(s[i]) != KeyOf(s[j]) {
        if j == |s| - 1 {
          assert KeyOf(init[i]) in KeySet(init);
        } else {
          assert KeyOf(init[i]) != KeyOf(init[j]);
        }
      }
    }
  }

  /** A reordering of picks with distinct keys has distinct keys. */
  lemma KeysDistinctPermutation(a: seq<Pick>, b: seq<Pick>)
    requires multiset(a) == multiset(b)
    requires KeysDistinct(a)
    ensures KeysDistinct(b)
  {
    KeySetOfMultiset(a, b);
    KeysDistinctCount(a);
    KeysDistinctCount(b);
    assert |a| == |multiset(a)| == |multiset(b)| == |b|;
  }

  // ---------------------------------------------------------------------
  // Adding picks that are not yet picked
  // ---------------------------------------------------------------------

  /** `picks` followed by every row of `rows` whose key is not yet picked;
      `AddNew([], s)` is also `drop_duplicates(subset=["store_id", "item_id"])`. */
  function AddNew(picks: seq<Pick>, rows: seq<Pick>): seq<Pick>
  {
    if |rows| == 0 then picks
    else
      var p := AddNew(picks, rows[..|rows| - 1]);
      var r := rows[|rows| - 1];
      if KeyOf(r) in KeySet(p) then p else p + [r]
  }

  /** Adding keeps the earlier picks in front and picks up every new key. */
  lemma {:induction false} AddNewKeys(picks: seq<Pick>, rows: seq<Pick>)
    ensures |AddNew(picks, rows)| >= |picks|
    ensures AddNew(picks, rows)[..|picks|] == picks
    ensures KeySet(AddNew(picks, rows)) == KeySet(picks) + KeySet(rows)
  {
    if |rows| > 0 {
      var init := rows[..|rows| - 1];
      AddNewKeys(picks, init);
      var p := AddNew(picks, init);
      var r := rows[|rows| - 1];
      if KeyOf(r) !in KeySet(p) {
        KeySetAppend(p, r);
        assert (p + [r])[..|picks|] == p[..|picks|];
      }
    }
  }

  /** Adding never repeats a key: it keeps keys distinct. */
  lemma {:induction false} AddNewDistinct(picks: seq<Pick>, rows: seq<Pick>)
    requires KeysDistinct(picks)
    ensures KeysDistinct(AddNew(picks, rows))
  {
    if |rows| > 0 {
      var init := rows[..|rows| - 1];
      AddNewDistinct(picks, init);
      var p := AddNew(picks, init);
      var r := rows[|rows| - 1];
      if KeyOf(r) !in KeySet(p) {
        KeySetMembers(p);
        forall i, j | 0 <= i < j < |p + [r]| ensures KeyOf((p + [r])[i]) != KeyOf((p + [r])[j]) {
          if j == |p| {
            assert KeyOf(p[i]) in KeySet(p);
          }
        }
      }
    }
  }

  /** Everything added comes from the earlier picks or from the rows. */
  lemma {:induction false} AddNewFrom(picks: seq<Pick>, rows: seq<Pick>)
    ensures forall x :: x in AddNew(picks, rows) ==> x in picks || x in rows
  {
    if |rows| > 0 {
      var init := rows[..|rows| - 1];
      AddNewFrom(picks, init);
      assert forall x :: x in init ==> x in rows;
    }
  }

  /** Adding a sequence of rows adds at most as many `q`-rows as it has. */
  lemma {:induction false} AddNewFilterBound(picks: seq<Pick>, rows: seq<Pick>, q: Pick -> bool)
    ensures |Filter(AddNew(picks, rows), q)| <= |Filter(picks, q)| + |Filter(rows, q)|
  {
    if |rows| > 0 {
      var init := rows[..|rows| - 1];
      var r := rows[|rows| - 1];
      var p := AddNew(picks, init);
      AddNewFilterBound(picks, init, q);
      assert rows == init + [r];
      FilterAppend(init, r, q);
      assert |Filter(rows, q)| >= |Filter(init, q)|;
      if KeyOf(r) !in KeySet(p) {
        assert AddNew(picks, rows) == p + [r];
        FilterAppend(p, r, q);
      } else {
        assert AddNew(picks, rows) == p;
      }
    }
  }

  /** De-duplication keeps exactly one pick per key: the keys are distinct
      and none is lost. */
  lemma DedupFacts(s: seq<Pick>)
    ensures KeysDistinct(AddNew([], s))
    ensures KeySet(AddNew([], s)) == KeySet(s)
    ensures forall x :: x in AddNew([], s) ==> x in s
  {
    AddNewDistinct([], s);
    AddNewKeys([], s);
    AddNewFrom([], s);
  }

  // ---------------------------------------------------------------------
  // One store
  // ---------------------------------------------------------------------

  /** The present category ids of a store's rows, in row order. */
  function PresentCats(g: seq<Pick>): seq<string>
  {
    if |g| == 0 then []
    else
      var last := g[|g| - 1];
      PresentCats(g[..|g| - 1]) + (if last.catId.Some? then [last.catId.value] else [])
  }

  /** The categories `groupby("cat_id", sort=False)` visits: each present
      category once, in order of first appearance; a missing category forms
      no group. */
  function Cats(g: seq<Pick>): seq<string>
  {
    Distinct(PresentCats(g))
  }

  lemma {:induction false} PresentCatsMembers(g: seq<Pick>)
    ensures forall c :: c in PresentCats(g) <==> exists i :: 0 <= i < |g| && g[i].catId == Some(c)
  {
    if |g| > 0 {
      var init := g[..|g| - 1];
      PresentCatsMembers(init);
      assert forall i :: 0 <= i < |init| ==> init[i] == g[i];
    }
  }

  function InCat(c: string): Pick -> bool
  {
    (p: Pick) => p.catId == Some(c)
  }

  /** `cg.head(min_items_per_cat)`: the first rows of the category `c`. */
  function Top(g: seq<Pick>, c: string, minPerCat: int): seq<Pick>
  {
    Head(Filter(g, InCat(c)), minPerCat)
  }

  /** The floor phase over the categories `cats`, in order. */
  function Floor(g: seq<Pick>, cats: seq<string>, minPerCat: int): seq<Pick>
  {
    if |cats| == 0 then []
    else AddNew(Floor(g, cats[..|cats| - 1], minPerCat), Top(g, cats[|cats| - 1], minPerCat))
  }

  function NotPicked(picked: set<Key>): Pick -> bool
  {
    (p: Pick) => KeyOf(p) !in picked
  }

  /** The fill phase: when the floor leaves room, up to the remaining
      capacity of the not yet picked rows, in the group's order. */
  function Fill(g: seq<Pick>, floor: seq<Pick>, maxItems: int): seq<Pick>
  {
    if |floor| < maxItems then Head(Filter(g, NotPicked(KeySet(floor))), maxItems - |floor|) else []
  }

  /** The picks of one store, from its rows sorted by profit. */
  function StoreSelection(g: seq<Pick>, maxItems: int, minPerCat: int): seq<Pick>
  {
    var floor := Floor(g, Cats(g), minPerCat);
    floor + Fill(g, floor, maxItems)
  }

  /** Extending the categories by one adds that category's top rows. */
  lemma FloorStep(g: seq<Pick>, cats: seq<string>, ci: nat, minPerCat: int)
    requires ci < |cats|
    ensures Floor(g, cats[..ci + 1], minPerCat) == AddNew(Floor(g, cats[..ci], minPerCat), Top(g, cats[ci], minPerCat))
  {
    assert cats[..ci + 1][..ci] == cats[..ci];
  }

  /** Extending the rows by one adds that row when its key is new. */
  lemma AddNewStep(picks: seq<Pick>, top: seq<Pick>, j: nat)
    requires j < |top|
    ensures var p := AddNew(picks, top[..j]);
      AddNew(picks, top[..j + 1]) == if KeyOf(top[j]) in KeySet(p) then p else p + [top[j]]
  {
    assert top[..j + 1][..j] == top[..j];
  }

  /** The inner floor loop: appends the rows of `top` whose key is not yet
      in `picked`, and records their keys. */
  method AddTop(picks: seq<Pick>, picked: set<Key>, top: seq<Pick>) returns (picks': seq<Pick>, picked': set<Key>)
    requires picked == KeySet(picks) && |picked| == |picks|
    ensures picks' == AddNew(picks, top)
    ensures picked' == KeySet(picks') && |picked'| == |picks'|
  {
    picks', picked' := picks, picked;
    for j := 0 to |top|
      invariant picks' == AddNew(picks, top[..j])
      invariant picked' == KeySet(picks') && |picked'| == |picks'|
    {
      AddNewStep(picks, top, j);
      var key := KeyOf(top[j]);
      if key !in picked' {
        KeySetAppend(picks', top[j]);
        picked' := picked' + {key};
        picks' := picks' + [top[j]];
      }
    }
    assert top[..|top|] == top;
  }

  /** The picks of one store: the floor loop over categories and their top
      rows, then the fill. */
  method SelectForStore(g: seq<Pick>, maxItems: int, minPerCat: int) returns (picks: seq<Pick>)
    ensures picks == StoreSelection(g, maxItems, minPerCat)
  {
    var cats := Cats(g);
    var picked: set<Key> := {};
    picks := [];
    for ci := 0 to |cats|
      invariant picks == Floor(g, cats[..ci], minPerCat)
      invariant picked == KeySet(picks) && |picked| == |picks|
    {
      FloorStep(g, cats, ci, minPerCat);
      picks, picked := AddTop(picks, picked, Top(g, cats[ci], minPerCat));
    }
    assert cats[..|cats|] == cats;
    if |picked| < maxItems {
      var remaining := Filter(g, NotPicked(picked));
      var need := maxItems - |picked|;
      picks := picks + Head(remaining, need);
    }
  }

  /** Within a category, the floor takes the most profitable rows: no row of
      the category left out of its top is more profitable than one taken. */
  lemma TopIsMostProfitable(g: seq<Pick>, c: string, minPerCat: int)
    requires Sorting.SortedBy(g, ByProfit())
    ensures var cg := Filter(g, InCat(c));
      forall i, j :: 0 <= i < |Top(g, c, minPerCat)| <= j < |cg| ==> cg[i].profit >= cg[j].profit
  {
    Sorting.FilterSortedBy(g, InCat(c), ByProfit());
  }

  /** The floor takes at most `min_items_per_cat` rows of each category, all
      of them from that category's top. */
  lemma {:induction false} FloorPerCategory(g: seq<Pick>, cats: seq<string>, minPerCat: int, c: string)
    requires forall i, j :: 0 <= i < j < |cats| ==> cats[i] != cats[j]
    ensures |Filter(Floor(g, cats, minPerCat), InCat(c))| <= if c in cats then |Top(g, c, minPerCat)| else 0
    ensures forall x :: x in Floor(g, cats, minPerCat) && x.catId == Some(c) ==> x in Top(g, c, minPerCat)
  {
    if |cats| > 0 {
      var init := cats[..|cats| - 1];
      var last := cats[|cats| - 1];
      var top := Top(g, last, minPerCat);
      FloorPerCategory(g, init, minPerCat, c);
      AddNewFilterBound(Floor(g, init, minPerCat), top, InCat(c));
      AddNewFrom(Floor(g, init, minPerCat), top);
      assert forall x :: x in top ==> x in Filter(g, InCat(last));
      if last == c {
        assert c !in init;
        FilterNone(Floor(g, init, minPerCat), InCat(c));
      } else {
        FilterNone(top, InCat(c));
        assert c in cats <==> c in init;
      }
    }
  }

  /** Every top row of every category has its key picked by the floor. */
  lemma {:induction false} FloorCoversTops(g: seq<Pick>, cats: seq<string>, minPerCat: int)
    ensures forall c, x :: c in cats && x in Top(g, c, minPerCat) ==> KeyOf(x) in KeySet(Floor(g, cats, minPerCat))
  {
    if |cats| > 0 {
      var init := cats[..|cats| - 1];
      var top := Top(g, cats[|cats| - 1], minPerCat);
      FloorCoversTops(g, init, minPerCat);
      AddNewKeys(Floor(g, init, minPerCat), top);
      KeySetMembers(top);
      forall c, x | c in cats && x in Top(g, c, minPerCat)
        ensures KeyOf(x) in KeySet(Floor(g, cats, minPerCat))
      {
        if c == cats[|cats| - 1] {
          var i :| 0 <= i < |top| && top[i] == x;
        } else {
          assert c in init;
        }
      }
    }
  }

  /** The floor never repeats a key. */
  lemma {:induction false} FloorDistinct(g: seq<Pick>, cats: seq<string>, minPerCat: int)
    ensures KeysDistinct(Floor(g, cats, minPerCat))
  {
    if |cats| > 0 {
      FloorDistinct(g, cats[..|cats| - 1], minPerCat);
      AddNewDistinct(Floor(g, cats[..|cats| - 1], minPerCat), Top(g, cats[|cats| - 1], minPerCat));
    }
  }

  /** The fill phase runs only below capacity, adds at most the remaining
      capacity, never a row whose key is already picked, and takes the most
      profitable remaining rows. */
  lemma FillFacts(g: seq<Pick>, floor: seq<Pick>, maxItems: int)
    requires Sorting.SortedBy(g, ByProfit())
    ensures var fill := Fill(g, floor, maxItems);
      (|floor| >= maxItems ==> fill == []) &&
      (|floor| < maxItems ==> |fill| <= maxItems - |floor|) &&
      (forall x :: x in fill ==> x in g && KeyOf(x) !in KeySet(floor)) &&
      Sorting.SortedBy(fill, ByProfit())
    ensures |floor| < maxItems ==>
      var rest := Filter(g, NotPicked(KeySet(floor)));
      forall i, j :: 0 <= i < |Fill(g, floor, maxItems)| <= j < |rest| ==> rest[i].profit >= rest[j].profit
  {
    var rest := Filter(g, NotPicked(KeySet(floor)));
    Sorting.FilterSortedBy(g, NotPicked(KeySet(floor)), ByProfit());
    if |floor| < maxItems {
      var fill := Fill(g, floor, maxItems);
      forall x | x in fill ensures x in rest {
        var i :| 0 <= i < |fill| && fill[i] == x;
        assert rest[i] == x;
      }
    }
  }

  /** The floor is never trimmed: the store's picks start with the whole
      floor, and a floor that reaches the capacity is the whole selection. */
  lemma FloorNeverTrimmed(g: seq<Pick>, maxItems: int, minPerCat: int)
    ensures var floor := Floor(g, Cats(g), minPerCat);
      var sel := StoreSelection(g, maxItems, minPerCat);
      |sel| >= |floor| && sel[..|floor|] == floor &&
      (|floor| >= maxItems ==> sel == floor) &&
      (|floor| < maxItems ==> |sel| <= maxItems)
  {
    var floor := Floor(g, Cats(g), minPerCat);
    assert (floor + Fill(g, floor, maxItems))[..|floor|] == floor;
  }

  /** Two categories, one item each, a floor of one item per category and a
      capacity of one: the floor keeps both items, above the capacity. */
  lemma FloorAboveCapacity()
    ensures var a := Pick("S1", Some("FOODS"), "A", 2.0, 0.1, 1.8, 5.0, -1.2);
      var b := Pick("S1", Some("HOBBIES"), "B", 3.0, 0.0, 3.0, 4.0, -1.2);
      |StoreSelection([a, b], 1, 1)| == 2
  {
    var a := Pick("S1", Some("FOODS"), "A", 2.0, 0.1, 1.8, 5.0, -1.2);
    var b := Pick("S1", Some("HOBBIES"), "B", 3.0, 0.0, 3.0, 4.0, -1.2);
    TwoCategoriesFloor(a, b, "FOODS", "HOBBIES");
  }

  /** Two rows of two different categories with different keys: with a floor
      of one per category, both rows are kept. */
  lemma TwoCategoriesFloor(a: Pick, b: Pick, ca: string, cb: string)
    requires a.catId == Some(ca) && b.catId == Some(cb) && ca != cb
    requires KeyOf(a) != KeyOf(b)
    ensures StoreSelection([a, b], 1, 1) == [a, b]
  {
    var g := [a, b];
    var cats := [ca, cb];
    TwoCategories(a, b, ca, cb);
    TwoTops(a, b, ca, cb);
    assert cats[..1] == [ca] && [ca][..0] == [];
    assert Floor(g, [ca], 1) == AddNew([], [a]);
    assert AddNew([], [a]) == [a] by {
      assert [a][..0] == [];
      assert AddNew([], []) == [];
      assert KeySet([]) == {};
    }
    assert Floor(g, cats, 1) == AddNew([a], [b]);
    assert AddNew([a], [b]) == [a, b] by {
      assert [b][..0] == [] && [a][..0] == [];
      assert KeySet([a]) == {KeyOf(a)};
    }
  }

  lemma TwoCategories(a: Pick, b: Pick, ca: string, cb: string)
    requires a.catId == Some(ca) && b.catId == Some(cb) && ca != cb
    ensures Cats([a, b]) == [ca, cb]
  {
    TwoPresentCategories(a, b, ca, cb);
    TwoDistinct(ca, cb);
  }

  lemma TwoPresentCategories(a: Pick, b: Pick, ca: string, cb: string)
    requires a.catId == Some(ca) && b.catId == Some(cb)
    ensures PresentCats([a, b]) == [ca, cb]
  {
    assert [a, b][..1] == [a] && [a][..0] == [];
    assert PresentCats([a]) == [ca];
  }

  lemma TwoDistinct(ca: string, cb: string)
    requires ca != cb
    ensures Distinct([ca, cb]) == [ca, cb]
  {
    assert [ca, cb][..1] == [ca] && [ca][..0] == [];
    assert Distinct([ca]) == [ca];
  }

  lemma TwoTops(a: Pick, b: Pick, ca: string, cb: string)
    requires a.catId == Some(ca) && b.catId == Some(cb) && ca != cb
    ensures Top([a, b], ca, 1) == [a] && Top([a, b], cb, 1) == [b]
  {
    var g := [a, b];
    assert g[1..] == [b] && [b][1..] == [];
    assert Filter(g, InCat(ca)) == [a];
    assert Filter(g, InCat(cb)) == [b];
  }

  // ---------------------------------------------------------------------
  // All stores
  // ---------------------------------------------------------------------

  function InStore(store: string): Pick -> bool
  {
    (p: Pick) => p.storeId == store
  }

  /** The stores `groupby("store_id", sort=False)` visits, in order of first appearance. */
  function Stores(df: seq<Pick>): seq<string>
  {
    Distinct(Map(df, StoreOf))
  }

  /** A store's rows, most profitable first. */
  function StoreRows(df: seq<Pick>, store: string): seq<Pick>
  {
    Sorting.Sort(Filter(df, InStore(store)), ByProfit())
  }

  /** The picks of the stores `stores`, store after store. */
  function Selection(df: seq<Pick>, stores: seq<string>, maxItems: int, minPerCat: int): seq<Pick>
  {
    if |stores| == 0 then []
    else Selection(df, stores[..|stores| - 1], maxItems, minPerCat) +
         StoreSelection(StoreRows(df, stores[|stores| - 1]), maxItems, minPerCat)
  }

  /** Extending the stores by one appends that store's picks. */
  lemma SelectionStep(df: seq<Pick>, stores: seq<string>, si: nat, maxItems: int, minPerCat: int)
    requires si < |stores|
    ensures Selection(df, stores[..si + 1], maxItems, minPerCat) ==
            Selection(df, stores[..si], maxItems, minPerCat) + StoreSelection(StoreRows(df, stores[si]), maxItems, minPerCat)
  {
    assert stores[..si + 1][..si] == stores[..si];
  }

  /** `recommend_assortment`: an empty input gives an empty result;
      otherwise the output holds the de-duplicated picks of every store,
      ordered by store ascending and profit descending (ties in some order). */
  method RecommendAssortment(rec: seq<PricingRow>, meta: seq<MetaRow>, maxItems: int, minPerCat: int)
    returns (out: seq<Pick>)
    ensures |rec| == 0 ==> out == []
    ensures var df := Merge(rec, meta);
      multiset(out) == multiset(AddNew([], Selection(df, Stores(df), maxItems, minPerCat)))
    ensures Sorting.SortedBy(out, OutputOrder())
  {
    var df := Merge(rec, meta);
    if |rec| == 0 {
      return [];
    }
    var stores := Stores(df);
    var picks := [];
    for si := 0 to |stores|
      invariant picks == Selection(df, stores[..si], maxItems, minPerCat)
    {
      SelectionStep(df, stores, si, maxItems, minPerCat);
      var g := StoreRows(df, stores[si]);
      var sel := SelectForStore(g, maxItems, minPerCat);
      picks := picks + sel;
    }
    assert stores[..|stores|] == stores;
    OutputOrderIsStrictWeakOrder();
    out := Sorting.Sort(AddNew([], picks), OutputOrder());
    Sorting.SortSorted(AddNew([], picks), OutputOrder());
  }

  /** Each store's rows are sorted by profit, whatever the tie order. */
  lemma StoreRowsSorted(df: seq<Pick>, store: string)
    ensures Sorting.SortedBy(StoreRows(df, store), ByProfit())
    ensures multiset(StoreRows(df, store)) == multiset(Filter(df, InStore(store)))
  {
    Sorting.DescendingIsStrictWeakOrder((p: Pick) => p.profit);
    Sorting.SortSorted(Filter(df, InStore(store)), ByProfit());
  }

  /** Every pick is a row of the merged input. */
  lemma {:induction false} SelectionFromInput(df: seq<Pick>, stores: seq<string>, maxItems: int, minPerCat: int)
    ensures forall x :: x in Selection(df, stores, maxItems, minPerCat) ==> x in df
  {
    if |stores| > 0 {
      SelectionFromInput(df, stores[..|stores| - 1], maxItems, minPerCat);
      var g := StoreRows(df, stores[|stores| - 1]);
      assert forall x :: x in g ==> x in Filter(df, InStore(stores[|stores| - 1])) by {
        forall x | x in g ensures x in Filter(df, InStore(stores[|stores| - 1])) {
          assert x in multiset(g);
        }
      }
      StoreSelectionFromGroup(g, maxItems, minPerCat);
    }
  }

  /** Every pick of a store is one of its rows. */
  lemma StoreSelectionFromGroup(g: seq<Pick>, maxItems: int, minPerCat: int)
    ensures forall x :: x in StoreSelection(g, maxItems, minPerCat) ==> x in g
  {
    FloorFromGroup(g, Cats(g), minPerCat);
  }

  lemma {:induction false} FloorFromGroup(g: seq<Pick>, cats: seq<string>, minPerCat: int)
    ensures forall x :: x in Floor(g, cats, minPerCat) ==> x in g
  {
    if |cats| > 0 {
      FloorFromGroup(g, cats[..|cats| - 1], minPerCat);
      AddNewFrom(Floor(g, cats[..|cats| - 1], minPerCat), Top(g, cats[|cats| - 1], minPerCat));
    }
  }

  /** The output has one row per (store, item) key that was picked, no more,
      and each of its rows is a row of the input. */
  lemma OutputFacts(out: seq<Pick>, df: seq<Pick>, maxItems: int, minPerCat: int)
    requires multiset(out) == multiset(AddNew([], Selection(df, Stores(df), maxItems, minPerCat)))
    ensures KeysDistinct(out)
    ensures KeySet(out) == KeySet(Selection(df, Stores(df), maxItems, minPerCat))
    ensures forall x :: x in out ==> x in df
  {
    var sel := Selection(df, Stores(df), maxItems, minPerCat);
    var dedup := AddNew([], sel);
    DedupFacts(sel);
    KeysDistinctPermutation(dedup, out);
    KeySetOfMultiset(dedup, out);
    SelectionFromInput(df, Stores(df), maxItems, minPerCat);
    forall x | x in out ensures x in df {
      assert x in multiset(dedup);
    }
  }
}
