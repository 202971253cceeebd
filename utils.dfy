/** The forecast error metric: weighted absolute percentage error. */
module Utils {
  import opened Common

  /** The absolute values of a sequence. */
  function AbsAll(y: seq<real>): (r: seq<real>)
    ensures |r| == |y| && forall i :: 0 <= i < |y| ==> r[i] == Abs(y[i])
  {
    if |y| == 0 then [] else AbsAll(y[..|y| - 1]) + [Abs(y[|y| - 1])]
  }

  /** The absolute errors, element by element. */
  function AbsErrors(yTrue: seq<real>, yPred: seq<real>): (r: seq<real>)
    requires |yTrue| == |yPred|
    ensures |r| == |yTrue| && forall i :: 0 <= i < |yTrue| ==> r[i] == Abs(yTrue[i] - yPred[i])
  {
    if |yTrue| == 0 then []
    else AbsErrors(yTrue[..|yTrue| - 1], yPred[..|yPred| - 1]) + [Abs(yTrue[|yTrue| - 1] - yPred[|yPred| - 1])]
  }

  /** `wape`: the summed absolute error over the summed absolute actuals, or
      missing (NaN) when the actuals sum to 0 in absolute value. */
  function Wape(yTrue: seq<real>, yPred: seq<real>): (w: Option<real>)
    requires |yTrue| == |yPred|
    ensures w.None? <==> Sum(AbsAll(yTrue)) == 0.0
    ensures w.Some? ==> w.value * Sum(AbsAll(yTrue)) == Sum(AbsErrors(yTrue, yPred))
  {
    var denom := Sum(AbsAll(yTrue));
    var errors := Sum(AbsErrors(yTrue, yPred));
    if denom == 0.0 then None
    else
      DivideBack(errors, denom);
      Some(errors / denom)
  }

  lemma DivideBack(e: real, d: real)
    requires d != 0.0
    ensures (e / d) * d == e
  {
  }

  /** The metric is undefined exactly when every actual is 0. */
  lemma WapeUndefinedIffAllZero(yTrue: seq<real>, yPred: seq<real>)
    requires |yTrue| == |yPred|
    ensures Wape(yTrue, yPred).None? <==> forall i :: 0 <= i < |yTrue| ==> yTrue[i] == 0.0
  {
    AbsSumZero(yTrue);
  }

  lemma {:induction false} AbsSumZero(y: seq<real>)
    ensures Sum(AbsAll(y)) == 0.0 <==> forall i :: 0 <= i < |y| ==> y[i] == 0.0
  {
    if |y| > 0 {
      var init := y[..|y| - 1];
      AbsSumZero(init);
      assert AbsAll(y)[..|y| - 1] == AbsAll(init);
      SumNonNegative(AbsAll(init));
      assert forall i :: 0 <= i < |init| ==> init[i] == y[i];
    }
  }

  /** A defined metric is never negative. */
  lemma WapeNonNegative(yTrue: seq<real>, yPred: seq<real>)
    requires |yTrue| == |yPred|
    requires Wape(yTrue, yPred).Some?
    ensures Wape(yTrue, yPred).value >= 0.0
  {
    SumNonNegative(AbsAll(yTrue));
    SumNonNegative(AbsErrors(yTrue, yPred));
    var d := Sum(AbsAll(yTrue));
    var e := Sum(AbsErrors(yTrue, yPred));
    assert d > 0.0;
    assert e / d >= 0.0;
  }

  /** A perfect forecast scores 0 whenever the metric is defined. */
  lemma WapePerfectForecast(y: seq<real>)
    requires Sum(AbsAll(y)) != 0.0
    ensures Wape(y, y) == Some(0.0)
  {
    SumZeros(AbsErrors(y, y));
  }

  /** Forecasting 0 everywhere scores exactly 1 whenever the metric is defined. */
  lemma WapeZeroForecast(y: seq<real>, zeros: seq<real>)
    requires |zeros| == |y| && forall i :: 0 <= i < |zeros| ==> zeros[i] == 0.0
    requires Sum(AbsAll(y)) != 0.0
    ensures Wape(y, zeros) == Some(1.0)
  {
    ErrorsAgainstZeros(y, zeros);
    WapeOfEqualSums(y, zeros);
  }

  lemma WapeOfEqualSums(y: seq<real>, p: seq<real>)
    requires |y| == |p|
    requires Sum(AbsErrors(y, p)) == Sum(AbsAll(y)) != 0.0
    ensures Wape(y, p) == Some(1.0)
  {
    DivSelf(Sum(AbsAll(y)));
  }

  lemma DivSelf(d: real)
    requires d != 0.0
    ensures d / d == 1.0
  {
  }

  lemma {:induction false} ErrorsAgainstZeros(y: seq<real>, zeros: seq<real>)
    requires |zeros| == |y| && forall i :: 0 <= i < |zeros| ==> zeros[i] == 0.0
    ensures AbsErrors(y, zeros) == AbsAll(y)
  {
    if |y| > 0 {
      ErrorsAgainstZeros(y[..|y| - 1], zeros[..|zeros| - 1]);
      assert y[|y| - 1] - zeros[|zeros| - 1] == y[|y| - 1];
    }
  }
}
