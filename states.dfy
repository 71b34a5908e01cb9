/**
 * The workflow states of states.py. The state decides how a dataset is split
 * into folds, which fold the learner trains on and which fold the metrics are
 * computed on. The learner is seen only through what it receives, and each
 * metric is a function of the features and targets it is given.
 */
module States {
  import opened Wrappers
  import opened PyNumbers
  import opened Tables
  import opened Datasets
  import opened Measurements

  datatype WorkflowState = NoSplit | NoValidation | WithValidation | CrossValidation

  /** The exceptions that leave a state's methods. */
  datatype StateError =
    | IndexError                       // a fold or a column that is not there
    | TypeError                        // `range` of a float
    | MetricFailed(error: MetricError) // a metric raised inside `test`

  /** A number from the command line: a Python `int` or `float`. */
  datatype PyNum = PyInt(i: int) | PyFloat(f: real)

  function AsReal(x: PyNum): real {
    match x
    case PyInt(i) => i as real
    case PyFloat(f) => f
  }

  /** The split ratios as the numbers `Dataset.split` multiplies with. */
  function AsReals(splits: seq<PyNum>): seq<real>
  {
    seq(|splits|, k requires 0 <= k < |splits| => AsReal(splits[k]))
  }

  /* ---------------- separate_targets ---------------- */

  /**
   * `separate_targets(datasets)`: the `inputs` of every dataset, then the
   * `targets` of every dataset. A dataset without columns has neither (numpy
   * raises IndexError).
   */
  function SeparateTargets(datasets: seq<Table>): (r: Result<(seq<Table>, seq<Table>), StateError>)
    requires forall k :: 0 <= k < |datasets| ==> datasets[k].Valid()
    ensures r.Ok? <==> forall k :: 0 <= k < |datasets| ==> datasets[k].cols > 0
    ensures r.Failure? ==> r.error == IndexError
    ensures r.Ok? ==> |r.value.0| == |datasets| && |r.value.1| == |datasets|
    ensures r.Ok? ==> forall k :: 0 <= k < |datasets| ==>
              r.value.0[k] == datasets[k].Inputs() && r.value.1[k] == datasets[k].Targets().value
  {
    if exists k :: 0 <= k < |datasets| && datasets[k].cols == 0 then Failure(IndexError)
    else Ok((seq(|datasets|, k requires 0 <= k < |datasets| => datasets[k].Inputs()),
             seq(|datasets|, k requires 0 <= k < |datasets| => datasets[k].Targets().value)))
  }

  /** Position `k` of the two lists, put back together row by row, is dataset `k`. */
  lemma SeparateTargetsRecombine(datasets: seq<Table>, k: nat, j: nat)
    requires forall i :: 0 <= i < |datasets| ==> datasets[i].Valid()
    requires SeparateTargets(datasets).Ok? && k < |datasets| && j < datasets[k].Size()
    ensures SeparateTargets(datasets).value.0[k].rows[j] + SeparateTargets(datasets).value.1[k].rows[j]
            == datasets[k].rows[j]
  {
    InputsTargetsRecombine(datasets[k], j);
  }

  /* ---------------- split ---------------- */

  /**
   * The ratios `CrossValidation.split` hands to `Dataset.split`: `k` copies
   * of `1/k` for `k = splits[0]`. No first element raises IndexError, a float
   * `k` makes `range` raise TypeError, and `k <= 0` gives no ratios at all.
   */
  function CrossRatios(splits: seq<PyNum>): (r: Result<seq<real>, StateError>)
    ensures |splits| == 0 ==> r == Failure(IndexError)
    ensures |splits| > 0 && splits[0].PyFloat? ==> r == Failure(TypeError)
    ensures r.Ok? <==> |splits| > 0 && splits[0].PyInt?
    ensures r.Ok? ==> |r.value| == (if splits[0].i > 0 then splits[0].i else 0)
    ensures r.Ok? ==> forall k :: 0 <= k < |r.value| ==> r.value[k] * splits[0].i as real == 1.0
  {
    if |splits| == 0 then Failure(IndexError)
    else match splits[0]
      case PyFloat(_) => Failure(TypeError)
      case PyInt(k) =>
        if k > 0 then Ok(seq(k, _ => 1.0 / k as real)) else Ok([])
  }

  /**
   * The ratios each state hands to `Dataset.split`, or None for `NoSplit`,
   * which does not split at all.
   */
  function SplitRatios(state: WorkflowState, splits: seq<PyNum>): (r: Result<Option<seq<real>>, StateError>)
    ensures state.NoSplit? ==> r == Ok(None)
    ensures state.NoValidation? || state.WithValidation? ==> r == Ok(Some(AsReals(splits)))
    ensures state.CrossValidation? ==> (r.Ok? <==> CrossRatios(splits).Ok?)
    ensures state.CrossValidation? && r.Ok? ==> r.value == Some(CrossRatios(splits).value)
    ensures state.CrossValidation? && r.Failure? ==> r.error == CrossRatios(splits).error
  {
    match state
    case NoSplit => Ok(None)
    case NoValidation => Ok(Some(AsReals(splits)))
    case WithValidation => Ok(Some(AsReals(splits)))
    case CrossValidation =>
      match CrossRatios(splits)
      case Failure(e) => Failure(e)
      case Ok(ratios) => Ok(Some(ratios))
  }

  /** The values of the datasets `Dataset.split(ratios)` returns from a dataset whose value is `t`. */
  function FoldTables(ratios: seq<real>, t: Table): (folds: seq<Table>)
    requires t.Valid()
    ensures |folds| == |ratios|
    ensures forall k :: 0 <= k < |ratios| ==> folds[k].Valid()
  {
    var parts := SplitRows(ratios, t.rows);
    FoldsRectangular(ratios, t.rows, t.cols);
    seq(|ratios|, k requires 0 <= k < |ratios| => t.(rows := parts[k]))
  }

  /** Every fold of a rectangular table is rectangular. */
  lemma FoldsRectangular(ratios: seq<real>, rows: seq<Row>, cols: nat)
    requires Rectangular(rows, cols)
    ensures forall k :: 0 <= k < |ratios| ==> Rectangular(SplitRows(ratios, rows)[k], cols)
  {
    forall k | 0 <= k < |ratios| ensures Rectangular(SplitRows(ratios, rows)[k], cols) {
      SplitRowsConcat(ratios, rows);
      FoldWithin(ratios, rows, k);
    }
  }

  /** Every row of a fold is a row of the original table. */
  lemma FoldWithin(ratios: seq<real>, rows: seq<Row>, k: nat)
    requires k < |ratios|
    ensures forall j :: 0 <= j < |SplitRows(ratios, rows)[k]| ==> SplitRows(ratios, rows)[k][j] in rows
  {
    var last := |ratios| - 1;
    FrontThenRemaining(ratios, rows, k);
    RemainingIsSuffix(ratios[..k], rows);
    if k < last {
      assert ratios[..k + 1][..k] == ratios[..k];
    }
    var before := Remaining(ratios[..k], rows);
    forall j | 0 <= j < |SplitRows(ratios, rows)[k]| ensures SplitRows(ratios, rows)[k][j] in rows {
      assert SplitRows(ratios, rows)[k][j] in before;
    }
  }

  /** What remains after any number of cuts is a suffix of the rows. */
  lemma {:induction false} RemainingIsSuffix(ratios: seq<real>, rows: seq<Row>)
    ensures Remaining(ratios, rows) == rows[|rows| - |Remaining(ratios, rows)|..]
    decreases |ratios|
  {
    if |ratios| > 0 {
      RemainingIsSuffix(ratios[..|ratios| - 1], rows);
    }
  }

  /**
   * What `split(dataset, splits)` of a state returns for a dataset whose
   * value is `t`: the features and targets of the whole dataset for
   * `NoSplit`, of each fold otherwise.
   */
  function SplitOutcome(state: WorkflowState, t: Table, splits: seq<PyNum>): (r: Result<(seq<Table>, seq<Table>), StateError>)
    requires t.Valid()
    ensures state.NoSplit? ==> r == SeparateTargets([t])
    ensures SplitRatios(state, splits).Failure? ==> r == Failure(SplitRatios(state, splits).error)
    ensures SplitRatios(state, splits).Ok? && SplitRatios(state, splits).value.Some? ==>
              r == SeparateTargets(FoldTables(SplitRatios(state, splits).value.value, t))
  {
    match SplitRatios(state, splits)
    case Failure(e) => Failure(e)
    case Ok(None) => SeparateTargets([t])
    case Ok(Some(ratios)) => SeparateTargets(FoldTables(ratios, t))
  }

  /** The rows the dataset itself keeps after the split: the last fold, or all of them when nothing is cut. */
  function RowsKept(state: WorkflowState, rows: seq<Row>, splits: seq<PyNum>): seq<Row>
  {
    match SplitRatios(state, splits)
    case Ok(Some(ratios)) => if |ratios| > 0 then SplitRows(ratios, rows)[|ratios| - 1] else rows
    case _ => rows
  }

  /**
   * Whether `state.split(dataset, splits)` finishes without reading the
   * dataset's data: the ratios are rejected first, or there is no ratio for
   * `Dataset.split` to cut (an empty list, or a cross-validation count of at
   * most 0).
   */
  predicate ReadsNoData(state: WorkflowState, splits: seq<PyNum>) {
    SplitRatios(state, splits).Failure? || SplitRatios(state, splits) == Ok(Some([]))
  }

  /** A split that reads no data returns two empty lists or the ratio error, and the dataset keeps its rows. */
  lemma ReadsNoDataOutcome(state: WorkflowState, t: Table, splits: seq<PyNum>)
    requires t.Valid() && ReadsNoData(state, splits)
    ensures SplitRatios(state, splits).Ok? ==> SplitOutcome(state, t, splits) == Ok(([], []))
    ensures SplitRatios(state, splits).Failure? ==> SplitOutcome(state, t, splits) == Failure(SplitRatios(state, splits).error)
    ensures RowsKept(state, t.rows, splits) == t.rows
  {
    if SplitRatios(state, splits).Ok? {
      assert FoldTables([], t) == [];
    }
  }

  /**
   * `state.split(dataset, splits)`: `NoSplit` leaves the dataset alone; the
   * other states split it with their ratios, which leaves the dataset holding
   * its last fold.
   */
  method Split(state: WorkflowState, d: Dataset, splits: seq<PyNum>) returns (r: Result<(seq<Table>, seq<Table>), StateError>)
    requires d.Valid() && (d.loaded || ReadsNoData(state, splits))
    modifies d
    ensures r == SplitOutcome(state, old(d.Snapshot()), splits)
    ensures d.data == RowsKept(state, old(d.data), splits)
    ensures d.Header() == old(d.Header()) && d.Valid()
  {
    ghost var t := d.Snapshot();
    assert t.Valid();
    var ratios: seq<real>;
    match state {
      case NoSplit =>
        r := SeparateTargets([d.Snapshot()]);
        return;
      case NoValidation =>
        ratios := AsReals(splits);
      case WithValidation =>
        ratios := AsReals(splits);
      case CrossValidation =>
        var cross := CrossRatios(splits);
        if cross.Failure? {
          return Failure(cross.error);
        }
        ratios := cross.value;
    }
    var tables := SplitTables(d, ratios);
    r := SeparateTargets(tables);
  }

  /** `dataset.split(ratios)`, seen through the values of the datasets it returns. */
  method SplitTables(d: Dataset, ratios: seq<real>) returns (tables: seq<Table>)
    requires d.Valid() && (d.loaded || |ratios| == 0)
    modifies d
    ensures tables == FoldTables(ratios, old(d.Snapshot()))
    ensures d.data == if |ratios| > 0 then SplitRows(ratios, old(d.data))[|ratios| - 1] else old(d.data)
    ensures d.Header() == old(d.Header()) && d.Valid()
  {
    ghost var want := FoldTables(ratios, d.Snapshot());
    var folds, err := d.Split(ratios);
    tables := seq(|folds|, k requires 0 <= k < |folds| reads folds => folds[k].Snapshot());
    forall k | 0 <= k < |ratios| ensures tables[k] == want[k] {
      assert Holds(folds[k], SplitRows(ratios, old(d.data))[k], old(d.Header()));
    }
  }

  /** The folds a state's split produces, as features and targets, hold every row of the dataset in order. */
  lemma SplitOutcomeFolds(state: WorkflowState, t: Table, splits: seq<PyNum>, k: nat, j: nat)
    requires t.Valid() && SplitOutcome(state, t, splits).Ok?
    requires SplitRatios(state, splits).Ok? && SplitRatios(state, splits).value.Some?
    requires k < |SplitRatios(state, splits).value.value|
    requires j < |SplitRows(SplitRatios(state, splits).value.value, t.rows)[k]|
    ensures var (features, targets) := SplitOutcome(state, t, splits).value;
            k < |features| && k < |targets| &&
            features[k].rows[j] + targets[k].rows[j] == SplitRows(SplitRatios(state, splits).value.value, t.rows)[k][j]
  {
    var ratios := SplitRatios(state, splits).value.value;
    SeparateTargetsRecombine(FoldTables(ratios, t), k, j);
  }

  /** Cross-validation of twelve rows into four: the folds hold 3, 2, 1 and 6 rows, not 3 each. */
  lemma CrossValidationTwelveByFour(rows: seq<Row>)
    requires |rows| == 12
    ensures CrossRatios([PyInt(4)]) == Ok([0.25, 0.25, 0.25, 0.25])
    ensures var folds := SplitRows([0.25, 0.25, 0.25, 0.25], rows);
            |folds[0]| == 3 && |folds[1]| == 2 && |folds[2]| == 1 && |folds[3]| == 6
  {
    var q := [0.25, 0.25, 0.25, 0.25];
    assert CrossRatios([PyInt(4)]).value == q;
    assert q[..3] == [0.25, 0.25, 0.25];
    assert q[..3][..2] == q[..2] == [0.25, 0.25];
    assert q[..2][..1] == q[..1] == [0.25];
    assert q[..1][..0] == [];
    assert FrontCount(0.25, 12) == 3;
    assert FrontCount(0.25, 9) == 2;
    assert FrontCount(0.25, 7) == 1;
  }

  /** The training fold and the test fold of a split into two or more are disjoint consecutive runs from the front. */
  lemma TrainThenTestFromFront(ratios: seq<real>, rows: seq<Row>)
    requires |ratios| >= 2
    ensures SplitRows(ratios, rows)[0] + SplitRows(ratios, rows)[1] <= rows
  {
    var folds := SplitRows(ratios, rows);
    FrontThenRemaining(ratios, rows, 2);
    assert FrontRows(ratios, rows, 1) == Cut(ratios, rows, 0);
    if |ratios| == 2 {
      FrontThenRemaining(ratios, rows, 1);
      assert ratios[..1] == ratios[..1];
    }
  }

  /* ---------------- train ---------------- */

  /** What a learner receives for one of `features` or `targets`: the whole list, or one fold of it. */
  datatype Batch = Folds(tables: seq<Table>) | Fold(table: Table)

  /** The arguments of the one `model.train(features, targets)` call. */
  datatype TrainCall = TrainCall(features: Batch, targets: Batch)

  /**
   * `state.train(model, features, targets)`: the call the learner receives,
   * or None when the state never calls it. `NoValidation` trains on fold 0
   * and raises IndexError when there is none.
   */
  function Train(state: WorkflowState, features: seq<Table>, targets: seq<Table>): (r: Result<Option<TrainCall>, StateError>)
    ensures state.NoSplit? ==> r == Ok(Some(TrainCall(Folds(features), Folds(targets))))
    ensures state.NoValidation? ==> (r.Ok? <==> |features| > 0 && |targets| > 0)
    ensures state.NoValidation? && r.Ok? ==> r.value == Some(TrainCall(Fold(features[0]), Fold(targets[0])))
    ensures r.Failure? ==> state.NoValidation? && r.error == IndexError
    ensures state.WithValidation? || state.CrossValidation? ==> r == Ok(None)
  {
    match state
    case NoSplit => Ok(Some(TrainCall(Folds(features), Folds(targets))))
    case NoValidation =>
      if |features| == 0 || |targets| == 0 then Failure(IndexError)
      else Ok(Some(TrainCall(Fold(features[0]), Fold(targets[0]))))
    case WithValidation => Ok(None)
    case CrossValidation => Ok(None)
  }

  /* ---------------- test ---------------- */

  /**
   * A registered metric applied to the trained learner: a value from the
   * features and targets it is given, or the exception the metric raises.
   */
  type Evaluator<V> = (Batch, Batch) -> Result<V, MetricError>

  /** The names the metrics are stored under. */
  function Names<V>(methods: seq<(Evaluator<V>, string)>): set<string>
  {
    set i | 0 <= i < |methods| :: methods[i].1
  }

  /** Every metric returns a value on these features and targets. */
  predicate AllSucceed<V>(methods: seq<(Evaluator<V>, string)>, features: Batch, targets: Batch) {
    forall i :: 0 <= i < |methods| ==> methods[i].0(features, targets).Ok?
  }

  /** Metric `i` is the first to raise on these features and targets. */
  predicate FirstFailure<V>(methods: seq<(Evaluator<V>, string)>, features: Batch, targets: Batch, i: nat) {
    && i < |methods|
    && methods[i].0(features, targets).Failure?
    && AllSucceed(methods[..i], features, targets)
  }

  /**
   * The dictionary the loop of `test` fills: each metric's value under its
   * name, in order, so a later metric of the same name replaces an earlier one.
   * The first metric that raises ends the loop with its exception.
   */
  function Evaluations<V>(methods: seq<(Evaluator<V>, string)>, features: Batch, targets: Batch): (r: Result<map<string, V>, MetricError>)
    ensures r.Ok? <==> AllSucceed(methods, features, targets)
    ensures r.Ok? ==> r.value.Keys == Names(methods)
    ensures r.Failure? ==> exists i: nat :: FirstFailure(methods, features, targets, i) &&
                                            r.error == methods[i].0(features, targets).error
    decreases |methods|
  {
    if |methods| == 0 then Ok(map[])
    else
      var init := methods[..|methods| - 1];
      var last := methods[|methods| - 1];
      SnocFacts(methods, features, targets);
      match Evaluations(init, features, targets)
      case Failure(e) =>
        var i: nat :| FirstFailure(init, features, targets, i) && e == init[i].0(features, targets).error;
        FirstFailureExtends(methods, features, targets, i);
        Failure(e)
      case Ok(before) =>
        match last.0(features, targets)
        case Failure(e) => Failure(e)
        case Ok(v) => Ok(before[last.1 := v])
  }

  /** How names, success and the last metric's failure relate a list to the list without its last metric. */
  lemma SnocFacts<V>(methods: seq<(Evaluator<V>, string)>, features: Batch, targets: Batch)
    requires |methods| > 0
    ensures var init := methods[..|methods| - 1];
      && Names(methods) == Names(init) + {methods[|methods| - 1].1}
      && (AllSucceed(methods, features, targets) <==>
            AllSucceed(init, features, targets) && methods[|methods| - 1].0(features, targets).Ok?)
      && (AllSucceed(init, features, targets) && methods[|methods| - 1].0(features, targets).Failure? ==>
            FirstFailure(methods, features, targets, |methods| - 1))
  {
    var init := methods[..|methods| - 1];
    assert forall i :: 0 <= i < |init| ==> init[i] == methods[i];
    forall n | n in Names(methods) ensures n in Names(init) + {methods[|methods| - 1].1} {
      var i :| 0 <= i < |methods| && methods[i].1 == n;
      if i < |methods| - 1 {
        assert init[i] == methods[i];
      }
    }
  }

  /** A first failure among all but the last metric is the first failure of them all. */
  lemma FirstFailureExtends<V>(methods: seq<(Evaluator<V>, string)>, features: Batch, targets: Batch, i: nat)
    requires |methods| > 0 && FirstFailure(methods[..|methods| - 1], features, targets, i)
    ensures FirstFailure(methods, features, targets, i)
    ensures methods[..|methods| - 1][i] == methods[i]
  {
    assert methods[..|methods| - 1][..i] == methods[..i];
  }

  /** When every metric returns, under each name the dictionary holds the value of the last metric of that name. */
  lemma {:induction false} EvaluationsLastWins<V>(methods: seq<(Evaluator<V>, string)>, features: Batch, targets: Batch, i: nat)
    requires i < |methods|
    requires AllSucceed(methods, features, targets)
    requires forall j :: i < j < |methods| ==> methods[j].1 != methods[i].1
    ensures methods[i].1 in Evaluations(methods, features, targets).value
    ensures Evaluations(methods, features, targets).value[methods[i].1] == methods[i].0(features, targets).value
    decreases |methods|
  {
    var init := methods[..|methods| - 1];
    assert forall j :: 0 <= j < |init| ==> init[j] == methods[j];
    if i < |methods| - 1 {
      EvaluationsLastWins(init, features, targets, i);
    }
  }

  /**
   * The loop of `test`: evaluate each metric in order and store it under its
   * name; the first metric that raises propagates its exception.
   */
  method EvaluateAll<V>(methods: seq<(Evaluator<V>, string)>, features: Batch, targets: Batch)
    returns (r: Result<map<string, V>, MetricError>)
    ensures r == Evaluations(methods, features, targets)
  {
    var metrics := map[];
    var i := 0;
    while i < |methods|
      invariant 0 <= i <= |methods|
      invariant Evaluations(methods[..i], features, targets) == Ok(metrics)
    {
      var (method_, name) := methods[i];
      var value := method_(features, targets);
      if value.Failure? {
        EvaluationsFailAt(methods, features, targets, i, metrics);
        return Failure(value.error);
      }
      EvaluationsGrow(methods, features, targets, i, metrics);
      metrics := metrics[name := value.value];
      i := i + 1;
    }
    assert methods[..|methods|] == methods;
    r := Ok(metrics);
  }

  /** One more metric that returns adds its value under its name. */
  lemma EvaluationsGrow<V>(methods: seq<(Evaluator<V>, string)>, features: Batch, targets: Batch, i: nat, metrics: map<string, V>)
    requires i < |methods| && Evaluations(methods[..i], features, targets) == Ok(metrics)
    requires methods[i].0(features, targets).Ok?
    ensures Evaluations(methods[..i + 1], features, targets) ==
              Ok(metrics[methods[i].1 := methods[i].0(features, targets).value])
  {
    assert methods[..i + 1][..i] == methods[..i];
  }

  /** A metric that raises after all earlier ones returned ends the evaluation with its exception. */
  lemma EvaluationsFailAt<V>(methods: seq<(Evaluator<V>, string)>, features: Batch, targets: Batch, i: nat, metrics: map<string, V>)
    requires i < |methods| && Evaluations(methods[..i], features, targets) == Ok(metrics)
    requires methods[i].0(features, targets).Failure?
    ensures Evaluations(methods, features, targets) == Failure(methods[i].0(features, targets).error)
  {
    EvaluationsStopAt(methods, features, targets, i);
  }

  /** After the first metric that raises, the later metrics are never evaluated. */
  lemma {:induction false} EvaluationsStopAt<V>(methods: seq<(Evaluator<V>, string)>, features: Batch, targets: Batch, i: nat)
    requires FirstFailure(methods, features, targets, i)
    ensures Evaluations(methods, features, targets) == Failure(methods[i].0(features, targets).error)
    decreases |methods|
  {
    var init := methods[..|methods| - 1];
    assert forall j :: 0 <= j < |init| ==> init[j] == methods[j];
    if i < |methods| - 1 {
      assert init[..i] == methods[..i];
      EvaluationsStopAt(init, features, targets, i);
    } else {
      assert init == methods[..i];
    }
  }

  /** The outcome of `test` in a state that evaluates: the dictionary, or the metric's exception. */
  function Reported<V>(metrics: Result<map<string, V>, MetricError>): Result<Option<map<string, V>>, StateError>
  {
    match metrics
    case Ok(m) => Ok(Some(m))
    case Failure(e) => Failure(MetricFailed(e))
  }

  /**
   * `state.test(model, features, targets, methods)`: the metrics of the
   * learner on the whole lists for `NoSplit`, on fold 1 for `NoValidation`
   * (IndexError when there is no fold 1), and None for the states whose test
   * does nothing.
   */
  method Test<V>(state: WorkflowState, methods: seq<(Evaluator<V>, string)>, features: seq<Table>, targets: seq<Table>)
    returns (r: Result<Option<map<string, V>>, StateError>)
    ensures state.NoSplit? ==> r == Reported(Evaluations(methods, Folds(features), Folds(targets)))
    ensures state.NoValidation? && (|features| < 2 || |targets| < 2) ==> r == Failure(IndexError)
    ensures state.NoValidation? && |features| > 1 && |targets| > 1 ==>
              r == Reported(Evaluations(methods, Fold(features[1]), Fold(targets[1])))
    ensures state.WithValidation? || state.CrossValidation? ==> r == Ok(None)
  {
    match state {
      case NoSplit =>
        var metrics := EvaluateAll(methods, Folds(features), Folds(targets));
        r := Reported(metrics);
      case NoValidation =>
        if |features| < 2 || |targets| < 2 {
          return Failure(IndexError);
        }
        var metrics := EvaluateAll(methods, Fold(features[1]), Fold(targets[1]));
        r := Reported(metrics);
      case WithValidation =>
        r := Ok(None);
      case CrossValidation =>
        r := Ok(None);
    }
  }
}
