/** Small value-level helpers shared by every module of the model: optional
    (possibly missing) values, sums and means over real sequences, filtering
    and first-appearance de-duplication. */
module Common {

  /** A value that may be missing (pandas NaN / Python None). */
  datatype Option<T> = None | Some(value: T)

  /** The outcome of an operation that can fail (a raised exception). */
  datatype Result<T> = Ok(value: T) | Err(error: string)

  /** `fillna(d)`: the value, or `d` when it is missing. */
  function GetOr<T>(o: Option<T>, d: T): (r: T)
    ensures o.Some? ==> r == o.value
    ensures o.None? ==> r == d
  {
    match o
    case Some(v) => v
    case None => d
  }

  function Min(a: real, b: real): (r: real)
    ensures r <= a && r <= b && (r == a || r == b)
  {
    if a <= b then a else b
  }

  function Max(a: real, b: real): (r: real)
    ensures r >= a && r >= b && (r == a || r == b)
  {
    if a >= b then a else b
  }

  /** `min` on integers (counts, indices, step numbers). It is the integer
      twin of `Min`: the model keeps day numbers and counts as `int` and
      measured quantities as `real`, and the two types have separate
      comparison functions. */
  function MinInt(a: int, b: int): (r: int)
    ensures r <= a && r <= b && (r == a || r == b)
  {
    if a <= b then a else b
  }

  /** The largest element of a non-empty sequence (pandas `max()`). */
  function MaxOf(s: seq<int>): (m: int)
    requires |s| > 0
    ensures forall i :: 0 <= i < |s| ==> s[i] <= m
    ensures exists i :: 0 <= i < |s| && s[i] == m
  {
    if |s| == 1 then s[0]
    else
      var m := MaxOf(s[..|s| - 1]);
      assert forall i :: 0 <= i < |s| - 1 ==> s[..|s| - 1][i] == s[i];
      if s[|s| - 1] > m then s[|s| - 1] else m
  }

  function Abs(x: real): (r: real)
    ensures r >= 0.0 && (r == x || r == -x)
  {
    if x < 0.0 then -x else x
  }

  /** Sum of a sequence of reals, folded from the left (the last element is added last). */
  function Sum(s: seq<real>): real
  {
    if |s| == 0 then 0.0 else Sum(s[..|s| - 1]) + s[|s| - 1]
  }

  lemma {:induction false} SumAppend(s: seq<real>, x: real)
    ensures Sum(s + [x]) == Sum(s) + x
  {
    assert (s + [x])[..|s|] == s;
  }

  lemma {:induction false} SumConcat(a: seq<real>, b: seq<real>)
    ensures Sum(a + b) == Sum(a) + Sum(b)
    decreases |b|
  {
    if |b| == 0 {
      assert a + b == a;
    } else {
      var b' := b[..|b| - 1];
      assert a + b == (a + b') + [b[|b| - 1]];
      assert b == b' + [b[|b| - 1]];
      SumConcat(a, b');
      SumAppend(a + b', b[|b| - 1]);
      SumAppend(b', b[|b| - 1]);
    }
  }

  lemma {:induction false} SumNonNegative(s: seq<real>)
    requires forall i :: 0 <= i < |s| ==> s[i] >= 0.0
    ensures Sum(s) >= 0.0
  {
    if |s| > 0 {
      SumNonNegative(s[..|s| - 1]);
    }
  }

  /** A sequence with every element equal to 0 sums to 0. */
  lemma {:induction false} SumZeros(s: seq<real>)
    requires forall i :: 0 <= i < |s| ==> s[i] == 0.0
    ensures Sum(s) == 0.0
  {
    if |s| > 0 {
      SumZeros(s[..|s| - 1]);
    }
  }

  /** Arithmetic mean; pandas' mean is only taken of non-empty groups here. */
  function Mean(s: seq<real>): real
    requires |s| > 0
  {
    Sum(s) / (|s| as real)
  }

  /** `[x for x in s if p(x)]`, order preserved. */
  function Filter<T(!new)>(s: seq<T>, p: T -> bool): (r: seq<T>)
    ensures |r| <= |s|
    ensures forall x :: x in r <==> x in s && p(x)
  {
    if |s| == 0 then []
    else if p(s[0]) then [s[0]] + Filter(s[1..], p)
    else Filter(s[1..], p)
  }

  lemma {:induction false} FilterConcat<T(!new)>(a: seq<T>, b: seq<T>, p: T -> bool)
    ensures Filter(a + b, p) == Filter(a, p) + Filter(b, p)
  {
    if |a| > 0 {
      assert (a + b)[1..] == a[1..] + b;
      FilterConcat(a[1..], b, p);
    } else {
      assert a + b == b;
    }
  }

  lemma FilterAppend<T(!new)>(a: seq<T>, x: T, p: T -> bool)
    ensures Filter(a + [x], p) == Filter(a, p) + (if p(x) then [x] else [])
  {
    FilterConcat(a, [x], p);
    assert Filter([x], p) == (if p(x) then [x] else []) by {
      assert [x][1..] == [];
    }
  }

  lemma {:induction false} FilterMultiset<T(!new)>(s: seq<T>, p: T -> bool)
    ensures multiset(Filter(s, p)) <= multiset(s)
  {
    if |s| > 0 {
      FilterMultiset(s[1..], p);
      assert s == [s[0]] + s[1..];
    }
  }

  /** Filtering keeps every copy of an element that passes, and none of one that fails. */
  lemma {:induction false} FilterCount<T(!new)>(s: seq<T>, p: T -> bool, x: T)
    ensures multiset(Filter(s, p))[x] == if p(x) then multiset(s)[x] else 0
  {
    if |s| > 0 {
      FilterCount(s[1..], p, x);
      assert s == [s[0]] + s[1..];
    }
  }

  /** Filtering two permutations of each other gives permutations of each other. */
  lemma FilterPermutation<T(!new)>(a: seq<T>, b: seq<T>, p: T -> bool)
    requires multiset(a) == multiset(b)
    ensures multiset(Filter(a, p)) == multiset(Filter(b, p))
  {
    forall x ensures multiset(Filter(a, p))[x] == multiset(Filter(b, p))[x] {
      FilterCount(a, p, x);
      FilterCount(b, p, x);
    }
  }

  /** Filtering keeps everything when every element passes. */
  lemma {:induction false} FilterAll<T(!new)>(s: seq<T>, p: T -> bool)
    requires forall x :: x in s ==> p(x)
    ensures Filter(s, p) == s
  {
    if |s| > 0 {
      assert forall x :: x in s[1..] ==> x in s;
      FilterAll(s[1..], p);
      assert s == [s[0]] + s[1..];
    }
  }

  /** Filtering keeps nothing when no element passes. */
  lemma {:induction false} FilterNone<T(!new)>(s: seq<T>, p: T -> bool)
    requires forall x :: x in s ==> !p(x)
    ensures Filter(s, p) == []
  {
    if |s| > 0 {
      assert forall x :: x in s[1..] ==> x in s;
      FilterNone(s[1..], p);
    }
  }

  /** Two complementary filters partition the sequence (as a multiset). */
  lemma {:induction false} FilterPartition<T(!new)>(s: seq<T>, p: T -> bool, q: T -> bool)
    requires forall x :: x in s ==> (q(x) <==> !p(x))
    ensures multiset(Filter(s, p)) + multiset(Filter(s, q)) == multiset(s)
    ensures |Filter(s, p)| + |Filter(s, q)| == |s|
  {
    if |s| > 0 {
      FilterPartition(s[1..], p, q);
      assert s == [s[0]] + s[1..];
    }
  }

  /** The first `n` elements, or all of them when there are fewer (pandas `head(n)`). */
  function Take<T>(s: seq<T>, n: nat): (r: seq<T>)
    ensures |r| == MinInt(n, |s|) && r == s[..|r|]
  {
    if n <= |s| then s[..n] else s
  }

  /** pandas `head(n)` and Python's `s[:n]`: the first `n` elements, and for
      a negative `n` every element except the last `-n`. */
  function Head<T>(s: seq<T>, n: int): (r: seq<T>)
    ensures |r| <= |s| && r == s[..|r|]
    ensures n >= 0 ==> |r| == MinInt(n, |s|)
    ensures n < 0 ==> |r| == (if |s| + n > 0 then |s| + n else 0)
  {
    if n >= 0 then Take(s, n)
    else if |s| + n > 0 then s[..|s| + n]
    else []
  }

  /** The distinct elements of `s`, in order of first appearance (pandas `groupby(sort=False)` keys). */
  function Distinct<T(==,!new)>(s: seq<T>): (r: seq<T>)
    ensures forall x :: x in r <==> x in s
    ensures forall i, j :: 0 <= i < j < |r| ==> r[i] != r[j]
  {
    if |s| == 0 then []
    else
      var d := Distinct(s[..|s| - 1]);
      assert forall x :: x in s[..|s| - 1] ==> x in s;
      assert forall x :: x in s ==> x in s[..|s| - 1] || x == s[|s| - 1];
      if s[|s| - 1] in d then d else d + [s[|s| - 1]]
  }

  /** Element-wise image of a sequence. */
  function Map<T, U>(s: seq<T>, f: T -> U): (r: seq<U>)
    ensures |r| == |s| && forall i :: 0 <= i < |s| ==> r[i] == f(s[i])
  {
    seq(|s|, i requires 0 <= i < |s| => f(s[i]))
  }

  /** The last present value of a sequence, if any (pandas' `last` skips missing values). */
  function LastPresent<T>(s: seq<Option<T>>): Option<T>
  {
    if |s| == 0 then None
    else if s[|s| - 1].Some? then s[|s| - 1]
    else LastPresent(s[..|s| - 1])
  }

  /** `LastPresent` is missing exactly when every value is, and otherwise is a
      present value with nothing present after it. */
  lemma {:induction false} LastPresentSpec<T>(s: seq<Option<T>>)
    ensures LastPresent(s).None? <==> forall i :: 0 <= i < |s| ==> s[i].None?
    ensures LastPresent(s).Some? ==>
      exists i :: 0 <= i < |s| && s[i] == LastPresent(s) && NoneAfter(s, i)
  {
    if |s| > 0 && s[|s| - 1].None? {
      var init := s[..|s| - 1];
      LastPresentSpec(init);
      assert forall i :: 0 <= i < |init| ==> init[i] == s[i];
      if LastPresent(init).Some? {
        var i :| 0 <= i < |init| && init[i] == LastPresent(init) && NoneAfter(init, i);
        assert s[i] == LastPresent(s) && NoneAfter(s, i);
      }
    } else if |s| > 0 {
      assert NoneAfter(s, |s| - 1);
    }
  }

  /** No value after position `i` is present. */
  ghost predicate NoneAfter<T>(s: seq<Option<T>>, i: nat)
  {
    forall j :: i < j < |s| ==> s[j].None?
  }

  /** No value before position `i` is present. */
  ghost predicate NoneBefore<T>(s: seq<Option<T>>, i: nat)
    requires i <= |s|
  {
    forall j :: 0 <= j < i ==> s[j].None?
  }

  /** The first present value of a sequence, if any. */
  function FirstPresent<T>(s: seq<Option<T>>): Option<T>
  {
    if |s| == 0 then None
    else if s[0].Some? then s[0]
    else FirstPresent(s[1..])
  }

  /** `FirstPresent` is missing exactly when every value is, and otherwise is a
      present value with nothing present before it. */
  lemma {:induction false} FirstPresentSpec<T>(s: seq<Option<T>>)
    ensures FirstPresent(s).None? <==> forall i :: 0 <= i < |s| ==> s[i].None?
    ensures FirstPresent(s).Some? ==>
      exists i :: 0 <= i < |s| && s[i] == FirstPresent(s) && NoneBefore(s, i)
  {
    if |s| > 0 && s[0].None? {
      var tail := s[1..];
      FirstPresentSpec(tail);
      assert forall i :: 0 <= i < |tail| ==> tail[i] == s[i + 1];
      assert forall i :: 1 <= i < |s| ==> s[i] == tail[i - 1];
      if FirstPresent(tail).Some? {
        var i :| 0 <= i < |tail| && tail[i] == FirstPresent(tail) && NoneBefore(tail, i);
        assert s[i + 1] == FirstPresent(s) && NoneBefore(s, i + 1);
      }
    } else if |s| > 0 {
      assert NoneBefore(s, 0);
    }
  }

  /** A permutation of a sequence without repeats has no repeats either. */
  lemma DistinctPermutation<T>(d: seq<T>, s: seq<T>)
    requires forall i, j :: 0 <= i < j < |d| ==> d[i] != d[j]
    requires multiset(s) == multiset(d)
    ensures forall i, j :: 0 <= i < j < |s| ==> s[i] != s[j]
  {
    CountAtMostOne(d);
    forall i, j | 0 <= i < j < |s| ensures s[i] != s[j] {
      RepeatCounted(s, i, j);
    }
  }

  lemma RepeatCounted<T>(s: seq<T>, i: nat, j: nat)
    requires i < j < |s|
    ensures s[i] == s[j] ==> multiset(s)[s[i]] >= 2
  {
    assert s == s[..j] + s[j..];
    assert s[i] in multiset(s[..j]);
    assert s[j] in multiset(s[j..]);
  }

  lemma {:induction false} CountAtMostOne<T>(d: seq<T>)
    requires forall i, j :: 0 <= i < j < |d| ==> d[i] != d[j]
    ensures forall x :: multiset(d)[x] <= 1
  {
    if |d| > 0 {
      var init := d[..|d| - 1];
      CountAtMostOne(init);
      assert d == init + [d[|d| - 1]];
      assert d[|d| - 1] !in init;
    }
  }
}
