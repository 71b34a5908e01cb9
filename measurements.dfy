/**
 * The evaluation metrics of measurements.py: `sse`, `mse` and
 * `categorical_accuracy`. A trained learner is seen only through its
 * `predict`, a function from an input row to a finite float; the features and
 * the labels are the values of two datasets, which the metrics only read.
 */
module Measurements {
  import opened Wrappers
  import opened PyNumbers
  import opened Tables

  /** The exceptions the metrics raise. */
  datatype MetricError =
    | RowCountMismatch   // features and labels differ in length
    | NotScalarLabels    // labels have more or fewer than one column
    | NoRows             // `sse` on zero rows
    | NotAnInteger       // `int(target)` on a row that is not one cell (TypeError)
    | InfiniteLabel      // `int(target)` on MISSING (OverflowError)
    | DivisionByZero     // `categorical_accuracy` on zero labels

  /** A trained learner's `predict`: one finite prediction per input row. */
  type Predictor = Row -> real

  /** Every label row holds exactly one cell. */
  predicate Scalar(labels: seq<Row>) {
    forall k :: 0 <= k < |labels| ==> |labels[k]| == 1
  }

  /* ---------------- sse and mse ---------------- */

  /**
   * The sum of `(target - pred) ** 2` over the first `n` rows. A MISSING label
   * is +infinity, so it makes the sum +infinity; otherwise the sum is finite
   * and never negative.
   */
  function SquaresUpTo(predict: Predictor, features: seq<Row>, labels: seq<Row>, n: nat): (s: Cell)
    requires n <= |features| && n <= |labels| && Scalar(labels)
    ensures s.Num? ==> s.value >= 0.0
    ensures s.Missing? <==> exists k :: 0 <= k < n && labels[k][0].Missing?
  {
    if n == 0 then Num(0.0)
    else
      var before := SquaresUpTo(predict, features, labels, n - 1);
      assert before.Missing? ==> exists k :: 0 <= k < n && labels[k][0].Missing?;
      Add(before, SquaredError(labels[n - 1][0], predict(features[n - 1])))
  }

  /** The sum squared error of `predict` over all rows. */
  function SumOfSquares(predict: Predictor, features: seq<Row>, labels: seq<Row>): Cell
    requires |features| == |labels| && Scalar(labels)
  {
    SquaresUpTo(predict, features, labels, |labels|)
  }

  /** The labels of a one-column table are scalar. */
  lemma OneColumnScalar(labels: Table)
    requires labels.Valid() && labels.cols == 1
    ensures Scalar(labels.rows)
  {
  }

  /**
   * `sse(model, features, labels)`: the three checks in their order, then the
   * sum of squared errors accumulated row by row.
   */
  method Sse(predict: Predictor, features: Table, labels: Table) returns (r: Result<Cell, MetricError>)
    requires features.Valid() && labels.Valid()
    ensures features.Size() != labels.Size() ==> r == Failure(RowCountMismatch)
    ensures features.Size() == labels.Size() && labels.cols != 1 ==> r == Failure(NotScalarLabels)
    ensures features.Size() == labels.Size() && labels.cols == 1 && features.Size() == 0 ==> r == Failure(NoRows)
    ensures r.Ok? <==> features.Size() == labels.Size() && labels.cols == 1 && features.Size() > 0
    ensures r.Ok? ==> Scalar(labels.rows) && r.value == SumOfSquares(predict, features.rows, labels.rows)
  {
    if features.Size() != labels.Size() {
      return Failure(RowCountMismatch);
    }
    if labels.cols != 1 {
      return Failure(NotScalarLabels);
    }
    if features.Size() == 0 {
      return Failure(NoRows);
    }
    OneColumnScalar(labels);
    var sse := Num(0.0);
    var k := 0;
    while k < labels.Size()
      invariant 0 <= k <= labels.Size()
      invariant sse == SquaresUpTo(predict, features.rows, labels.rows, k)
    {
      var pred := predict(features.rows[k]);
      sse := Add(sse, SquaredError(labels.rows[k][0], pred));
      k := k + 1;
    }
    r := Ok(sse);
  }

  /** A learner that predicts every label exactly has a sum squared error of zero. */
  lemma {:induction false} ExactPredictionNoError(predict: Predictor, features: seq<Row>, labels: seq<Row>, n: nat)
    requires n <= |features| && n <= |labels| && Scalar(labels)
    requires forall k :: 0 <= k < n ==> labels[k][0] == Num(predict(features[k]))
    ensures SquaresUpTo(predict, features, labels, n) == Num(0.0)
  {
    if n > 0 {
      ExactPredictionNoError(predict, features, labels, n - 1);
      var p, t := predict(features[n - 1]), labels[n - 1][0];
      assert t == Num(p);
      ExactSquare(p);
    }
  }

  /** An exact prediction has no squared error. */
  lemma ExactSquare(p: real)
    ensures SquaredError(Num(p), p) == Num(0.0)
  {
    assert p - p == 0.0;
  }

  /** Each row's squared error is at most the whole sum: the sum bounds every term. */
  lemma {:induction false} SquareBelowSum(predict: Predictor, features: seq<Row>, labels: seq<Row>, n: nat, k: nat)
    requires n <= |features| && n <= |labels| && Scalar(labels) && k < n
    requires SquaresUpTo(predict, features, labels, n).Num?
    ensures SquaredError(labels[k][0], predict(features[k])).Num?
    ensures SquaredError(labels[k][0], predict(features[k])).value <= SquaresUpTo(predict, features, labels, n).value
  {
    if k < n - 1 {
      SquareBelowSum(predict, features, labels, n - 1, k);
    }
  }

  /**
   * `mse(model, features, labels)`: `sse` divided by the number of rows, with
   * the errors of `sse`; +infinity divided by a count stays +infinity.
   */
  method Mse(predict: Predictor, features: Table, labels: Table) returns (r: Result<Cell, MetricError>)
    requires features.Valid() && labels.Valid()
    ensures r.Ok? <==> features.Size() == labels.Size() && labels.cols == 1 && features.Size() > 0
    ensures r.Failure? ==> features.Size() != labels.Size() ==> r.error == RowCountMismatch
    ensures r.Failure? && features.Size() == labels.Size() ==>
              r.error == if labels.cols != 1 then NotScalarLabels else NoRows
    ensures r.Ok? ==> Scalar(labels.rows)
    ensures r.Ok? ==> (r.value.Missing? <==> SumOfSquares(predict, features.rows, labels.rows).Missing?)
    ensures r.Ok? && r.value.Num? ==>
              r.value.value >= 0.0 &&
              r.value.value * features.Size() as real == SumOfSquares(predict, features.rows, labels.rows).value
  {
    var sse := Sse(predict, features, labels);
    if sse.Failure? {
      return Failure(sse.error);
    }
    var n := features.Size() as real;
    match sse.value
    case Missing =>
      r := Ok(Missing);
    case Num(s) =>
      assert s / n * n == s;
      r := Ok(Num(s / n));
  }

  /* ---------------- categorical accuracy ---------------- */

  /** `int(target)` fails on this label row: it is not one cell, or the cell is MISSING. */
  predicate BadLabel(target: Row) {
    |target| != 1 || target[0].Missing?
  }

  /** Label row `k`, among the first `m`, is the first bad one. */
  predicate FirstBadLabel(labels: seq<Row>, k: nat, m: nat) {
    k < m && k < |labels| && BadLabel(labels[k]) && forall j :: 0 <= j < k ==> !BadLabel(labels[j])
  }

  /** The exception `int(target)` raises on a bad label row. */
  function LabelError(target: Row): MetricError
    requires BadLabel(target)
  {
    if |target| != 1 then NotAnInteger else InfiniteLabel
  }

  /** `int(round(pred)) == int(target)` for a good label row. */
  predicate Hit(predict: Predictor, feat: Row, target: Row)
    requires !BadLabel(target)
  {
    RoundHalfEven(predict(feat)) == Trunc(target[0].value)
  }

  /** How many of the first `n` pairs are hits, when none of their labels is bad. */
  function HitsUpTo(predict: Predictor, features: seq<Row>, labels: seq<Row>, n: nat): (c: nat)
    requires n <= |features| && n <= |labels|
    requires forall k :: 0 <= k < n ==> !BadLabel(labels[k])
    ensures c <= n
  {
    if n == 0 then 0
    else HitsUpTo(predict, features, labels, n - 1) + (if Hit(predict, features[n - 1], labels[n - 1]) then 1 else 0)
  }

  /** `zip(features, labels)` stops at the shorter of the two. */
  function Paired(features: seq<Row>, labels: seq<Row>): nat
  {
    if |features| <= |labels| then |features| else |labels|
  }

  /**
   * `categorical_accuracy(model, features, labels)`: over the zipped pairs,
   * count the predictions that round to the label's integer part, then divide
   * by the number of labels. The first bad label among the pairs raises; with
   * no labels at all the division raises.
   */
  method CategoricalAccuracy(predict: Predictor, features: Table, labels: Table) returns (r: Result<real, MetricError>)
    ensures r.Ok? <==>
              |labels.rows| > 0 &&
              forall k :: 0 <= k < Paired(features.rows, labels.rows) ==> !BadLabel(labels.rows[k])
    ensures r == Failure(DivisionByZero) <==> |labels.rows| == 0
    ensures r.Failure? && r.error != DivisionByZero ==>
              exists k: nat :: FirstBadLabel(labels.rows, k, Paired(features.rows, labels.rows)) &&
                r.error == LabelError(labels.rows[k])
    ensures r.Ok? ==> 0.0 <= r.value <= 1.0
    ensures r.Ok? ==>
              r.value == Ratio(HitsUpTo(predict, features.rows, labels.rows, Paired(features.rows, labels.rows)), |labels.rows|)
  {
    var m := Paired(features.rows, labels.rows);
    var correct := 0;
    var k := 0;
    while k < m
      invariant 0 <= k <= m
      invariant forall j :: 0 <= j < k ==> !BadLabel(labels.rows[j])
      invariant correct == HitsUpTo(predict, features.rows, labels.rows, k)
    {
      var target := labels.rows[k];
      var pred := predict(features.rows[k]);
      if BadLabel(target) {
        r := Failure(LabelError(target));
        assert FirstBadLabel(labels.rows, k, m);
        return;
      }
      correct := correct + if RoundHalfEven(pred) == Trunc(target[0].value) then 1 else 0;
      k := k + 1;
    }
    if |labels.rows| == 0 {
      return Failure(DivisionByZero);
    }
    assert correct == HitsUpTo(predict, features.rows, labels.rows, m);
    r := Ok(Ratio(correct, |labels.rows|));
  }

  /** `count / total` for a count no larger than the total: a fraction in [0, 1] that times the total gives the count back. */
  function Ratio(count: nat, total: nat): (q: real)
    requires count <= total && total > 0
    ensures 0.0 <= q <= 1.0
    ensures q * total as real == count as real
  {
    count as real / total as real
  }

  /** A learner that predicts every integer label exactly gets every pair right. */
  lemma {:induction false} ExactPredictionAllHits(predict: Predictor, features: seq<Row>, labels: seq<Row>, n: nat)
    requires n <= |features| && n <= |labels|
    requires forall k :: 0 <= k < n ==>
               && !BadLabel(labels[k])
               && labels[k][0].value == labels[k][0].value.Floor as real
               && predict(features[k]) == labels[k][0].value
    ensures HitsUpTo(predict, features, labels, n) == n
  {
    if n > 0 {
      ExactPredictionAllHits(predict, features, labels, n - 1);
      var x := labels[n - 1][0].value;
      RoundHalfEvenNearest(x, x.Floor);
      assert Hit(predict, features[n - 1], labels[n - 1]);
    }
  }
}
