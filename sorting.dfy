/** Sorting as the pipeline uses it (`sort_values`, `sorted`): a stable
    insertion sort over a comparison `ahead(a, b)` that holds when `a` must
    come strictly before `b`. The comparison must be a strict weak order
    (asymmetric, and "not ahead" transitive); every key ordering in the
    pipeline (numbers ascending or descending, strings ascending, and
    lexicographic combinations of those) is one. */
module Sorting {
  import Common

  ghost predicate StrictWeakOrder<T(!new)>(ahead: (T, T) -> bool)
  {
    (forall a, b :: ahead(a, b) ==> !ahead(b, a)) &&
    (forall a, b, c :: !ahead(a, b) && !ahead(b, c) ==> !ahead(a, c))
  }

  /** No element is strictly ahead of an element placed before it. */
  ghost predicate SortedBy<T>(s: seq<T>, ahead: (T, T) -> bool)
  {
    forall i, j :: 0 <= i < j < |s| ==> !ahead(s[j], s[i])
  }

  /** Selecting rows of a sorted sequence (a boolean mask on a sorted
      frame) keeps it sorted. */
  lemma {:induction false} FilterSortedBy<T(!new)>(s: seq<T>, p: T -> bool, ahead: (T, T) -> bool)
    requires SortedBy(s, ahead)
    ensures SortedBy(Common.Filter(s, p), ahead)
  {
    if |s| > 0 {
      FilterSortedBy(s[1..], p, ahead);
      var rest := Common.Filter(s[1..], p);
      if p(s[0]) {
        forall j | 0 <= j < |rest| ensures !ahead(rest[j], s[0]) {
          assert rest[j] in s[1..];
          var k :| 0 <= k < |s[1..]| && s[1..][k] == rest[j];
          assert s[k + 1] == rest[j];
        }
      }
    }
  }

  /** Inserts `x` in front of the first element that is not strictly ahead of it. */
  function Insert<T>(x: T, s: seq<T>, ahead: (T, T) -> bool): (r: seq<T>)
    ensures multiset(r) == multiset(s) + multiset{x}
    ensures |r| == |s| + 1
  {
    if |s| == 0 then [x]
    else if ahead(s[0], x) then
      assert s == [s[0]] + s[1..];
      [s[0]] + Insert(x, s[1..], ahead)
    else [x] + s
  }

  function Sort<T>(s: seq<T>, ahead: (T, T) -> bool): (r: seq<T>)
    ensures multiset(r) == multiset(s)
    ensures |r| == |s|
  {
    if |s| == 0 then []
    else
      assert s == [s[0]] + s[1..];
      Insert(s[0], Sort(s[1..], ahead), ahead)
  }

  lemma {:induction false} InsertSorted<T(!new)>(x: T, s: seq<T>, ahead: (T, T) -> bool)
    requires StrictWeakOrder(ahead)
    requires SortedBy(s, ahead)
    ensures SortedBy(Insert(x, s, ahead), ahead)
  {
    if |s| > 0 {
      var r := Insert(x, s, ahead);
      if ahead(s[0], x) {
        var tail := Insert(x, s[1..], ahead);
        InsertSorted(x, s[1..], ahead);
        assert r == [s[0]] + tail;
        forall j | 0 < j < |r| ensures !ahead(r[j], s[0]) {
          assert r[j] == tail[j - 1];
          assert r[j] in multiset(tail);
          assert r[j] in multiset(s[1..]) || r[j] == x;
          if r[j] != x {
            var k :| 0 <= k < |s[1..]| && s[1..][k] == r[j];
            assert s[k + 1] == r[j];
          }
        }
      } else {
        assert r == [x] + s;
        forall j | 0 < j < |r| ensures !ahead(r[j], x) {
          assert r[j] == s[j - 1];
          if j > 1 {
            assert !ahead(s[j - 1], s[0]);
          }
        }
      }
    }
  }

  lemma {:induction false} SortSorted<T(!new)>(s: seq<T>, ahead: (T, T) -> bool)
    requires StrictWeakOrder(ahead)
    ensures SortedBy(Sort(s, ahead), ahead)
  {
    if |s| > 0 {
      SortSorted(s[1..], ahead);
      InsertSorted(s[0], Sort(s[1..], ahead), ahead);
    }
  }

  /** Descending order on a real key (`sort_values(key, ascending=False)`). */
  function Descending<T>(key: T -> real): (ahead: (T, T) -> bool)
  {
    (a: T, b: T) => key(a) > key(b)
  }

  lemma DescendingIsStrictWeakOrder<T(!new)>(key: T -> real)
    ensures StrictWeakOrder(Descending(key))
  {
  }

  /** Ascending order on an integer key (`sort_values("date")`). */
  function Ascending<T>(key: T -> int): (ahead: (T, T) -> bool)
  {
    (a: T, b: T) => key(a) < key(b)
  }

  lemma AscendingIsStrictWeakOrder<T(!new)>(key: T -> int)
    ensures StrictWeakOrder(Ascending(key))
  {
  }

  /** Strict lexicographic order on strings (Python's `<` on str, by code point). */
  predicate StrLess(a: string, b: string)
  {
    if |a| == 0 then |b| > 0
    else if |b| == 0 then false
    else a[0] < b[0] || (a[0] == b[0] && StrLess(a[1..], b[1..]))
  }

  lemma {:induction false} StrLessIrreflexive(a: string)
    ensures !StrLess(a, a)
  {
    if |a| > 0 {
      StrLessIrreflexive(a[1..]);
    }
  }

  lemma {:induction false} StrLessTransitive(a: string, b: string, c: string)
    requires StrLess(a, b) && StrLess(b, c)
    ensures StrLess(a, c)
  {
    if |a| > 0 && |b| > 0 && |c| > 0 && a[0] == b[0] && b[0] == c[0] {
      StrLessTransitive(a[1..], b[1..], c[1..]);
    }
  }

  lemma {:induction false} StrLessTotal(a: string, b: string)
    ensures a == b || StrLess(a, b) || StrLess(b, a)
  {
    if |a| > 0 && |b| > 0 && a[0] == b[0] {
      StrLessTotal(a[1..], b[1..]);
      if a[1..] == b[1..] {
        assert a == [a[0]] + a[1..] && b == [b[0]] + b[1..];
      }
    }
  }

  lemma StrLessAsymmetric(a: string, b: string)
    ensures StrLess(a, b) ==> !StrLess(b, a)
  {
    if StrLess(a, b) && StrLess(b, a) {
      StrLessTransitive(a, b, a);
      StrLessIrreflexive(a);
    }
  }

  /** "Not less" on strings is transitive: a <= b fails and b <= c fails only together with a <= c failing. */
  lemma StrNotLessTransitive(a: string, b: string, c: string)
    requires !StrLess(a, b) && !StrLess(b, c)
    ensures !StrLess(a, c)
  {
    StrLessTotal(a, b);
    StrLessTotal(b, c);
    if StrLess(a, c) {
      if a == b {
      } else if b == c {
      } else {
        StrLessTransitive(c, b, a);
        StrLessAsymmetric(a, c);
      }
    }
  }

  /** Ascending order on a string key (`sort_values("id")`). */
  function ByString<T>(key: T -> string): (ahead: (T, T) -> bool)
  {
    (a: T, b: T) => StrLess(key(a), key(b))
  }

  lemma ByStringIsStrictWeakOrder<T(!new)>(key: T -> string)
    ensures StrictWeakOrder(ByString(key))
  {
    forall a: T, b: T ensures StrLess(key(a), key(b)) ==> !StrLess(key(b), key(a)) {
      StrLessAsymmetric(key(a), key(b));
    }
    forall a: T, b: T, c: T | !StrLess(key(a), key(b)) && !StrLess(key(b), key(c))
      ensures !StrLess(key(a), key(c))
    {
      StrNotLessTransitive(key(a), key(b), key(c));
    }
  }

  /** Sort by `first`, and elements that `first` leaves tied by `second`
      (a multi-column `sort_values`). */
  function Lex<T>(first: (T, T) -> bool, second: (T, T) -> bool): (ahead: (T, T) -> bool)
  {
    (a: T, b: T) => first(a, b) || (!first(b, a) && second(a, b))
  }

  lemma LexIsStrictWeakOrder<T(!new)>(first: (T, T) -> bool, second: (T, T) -> bool)
    requires StrictWeakOrder(first) && StrictWeakOrder(second)
    ensures StrictWeakOrder(Lex(first, second))
  {
    var lex := Lex(first, second);
    forall a: T, b: T, c: T | !lex(a, b) && !lex(b, c) ensures !lex(a, c) {
      assert !first(a, c);
      if first(b, a) {
        assert first(b, c) || first(c, a);
      }
      if first(c, b) {
        assert first(c, a) || first(a, b);
      }
    }
  }
}
