/**
 * `MLSystemManager` of manager.py: the object that holds the current
 * workflow state, the registries of metrics and learners, and hands `split`,
 * `train` and `test` on to its state.
 */
module Manager {
  import opened Wrappers
  import opened Tables
  import opened Arff
  import opened Datasets
  import opened States

  /** The evaluation functions the registry can name. */
  datatype MetricKind = SumSquaredError | MeanSquaredError | RootMeanSquaredError | ConfusionMatrix | RawAccuracy

  /** The learner classes the registry can name. */
  datatype LearnerKind = Baseline | Perceptron | NeuralNet | Knn | DecisionTree

  datatype ManagerError =
    | UnrecognizedModel(model: string)   // `get_learner` on a name outside the registry
    | UnknownMetric(key: string)         // KeyError in `gather_metrics`

  /** The metric registry: each key with its function and its description. */
  const MetricRegistry: map<string, (MetricKind, string)> := map[
    "sse" := (SumSquaredError, "Sum Squared Error"),
    "mse" := (MeanSquaredError, "Mean Squared Error"),
    "rmse" := (RootMeanSquaredError, "Root Mean Squared Error"),
    "confusion" := (ConfusionMatrix, "Confusion Matrix"),
    "categorical" := (RawAccuracy, "Raw Accuracy")]

  /** The learner registry. */
  const ModelRegistry: map<string, LearnerKind> := map[
    "baseline" := Baseline,
    "perceptron" := Perceptron,
    "neuralnet" := NeuralNet,
    "knn" := Knn,
    "decisiontree" := DecisionTree]

  /** The registries hold exactly these keys, and no two metrics share a description. */
  lemma RegistryKeys()
    ensures MetricRegistry.Keys == {"sse", "mse", "rmse", "confusion", "categorical"}
    ensures ModelRegistry.Keys == {"baseline", "perceptron", "neuralnet", "knn", "decisiontree"}
    ensures forall a, b :: a in MetricRegistry && b in MetricRegistry && a != b ==>
              MetricRegistry[a].1 != MetricRegistry[b].1
  {
  }

  /**
   * `get_learner(model)`: a new learner of the registered class, or the
   * "Unrecognized model" exception.
   */
  function GetLearner(model: string): (r: Result<LearnerKind, ManagerError>)
    ensures r.Ok? <==> model in ModelRegistry
    ensures r.Failure? ==> r.error == UnrecognizedModel(model)
    ensures r.Ok? ==> r.value == ModelRegistry[model]
  {
    if model in ModelRegistry then Ok(ModelRegistry[model]) else Failure(UnrecognizedModel(model))
  }

  /** Every learner class is reachable by exactly one registry name. */
  lemma EveryLearnerOneName(kind: LearnerKind)
    ensures exists name :: GetLearner(name) == Ok(kind)
    ensures forall a, b :: GetLearner(a) == Ok(kind) && GetLearner(b) == Ok(kind) ==> a == b
  {
    match kind
    case Baseline => assert GetLearner("baseline") == Ok(kind);
    case Perceptron => assert GetLearner("perceptron") == Ok(kind);
    case NeuralNet => assert GetLearner("neuralnet") == Ok(kind);
    case Knn => assert GetLearner("knn") == Ok(kind);
    case DecisionTree => assert GetLearner("decisiontree") == Ok(kind);
  }

  /** Key `methods[i]` is the first one the metric registry does not hold. */
  predicate FirstUnknown(methods: seq<string>, i: nat) {
    i < |methods| && methods[i] !in MetricRegistry && forall j :: 0 <= j < i ==> methods[j] in MetricRegistry
  }

  /**
   * `gather_metrics(methods)`: the registered (function, description) pair of
   * every requested key, in request order; the first unknown key raises.
   */
  function GatherMetrics(methods: seq<string>): (r: Result<seq<(MetricKind, string)>, ManagerError>)
    ensures r.Ok? <==> forall i :: 0 <= i < |methods| ==> methods[i] in MetricRegistry
    ensures r.Ok? ==> |r.value| == |methods|
    ensures r.Ok? ==> forall i :: 0 <= i < |methods| ==> r.value[i] == MetricRegistry[methods[i]]
    ensures r.Failure? ==> exists i: nat :: FirstUnknown(methods, i) && r.error == UnknownMetric(methods[i])
  {
    if |methods| == 0 then Ok([])
    else if methods[0] !in MetricRegistry then
      assert FirstUnknown(methods, 0);
      Failure(UnknownMetric(methods[0]))
    else
      match GatherMetrics(methods[1..])
      case Failure(e) =>
        var i: nat :| FirstUnknown(methods[1..], i) && e == UnknownMetric(methods[1..][i]);
        assert FirstUnknown(methods, i + 1);
        Failure(e)
      case Ok(rest) =>
        assert forall i :: 1 <= i < |methods| ==> methods[i] == methods[1..][i - 1];
        Ok([MetricRegistry[methods[0]]] + rest)
  }

  /**
   * The metrics `test` evaluates for the requested keys, once each registered
   * function is given its evaluator: they are stored under their descriptions.
   */
  function BindMetrics<V>(gathered: seq<(MetricKind, string)>, evaluate: MetricKind -> Evaluator<V>): seq<(Evaluator<V>, string)>
  {
    seq(|gathered|, i requires 0 <= i < |gathered| => (evaluate(gathered[i].0), gathered[i].1))
  }

  /** Given gathered metrics, `test` stores them under exactly their descriptions. */
  lemma BoundNames<V>(gathered: seq<(MetricKind, string)>, evaluate: MetricKind -> Evaluator<V>)
    ensures Names(BindMetrics(gathered, evaluate)) == set i | 0 <= i < |gathered| :: gathered[i].1
  {
    var methods := BindMetrics(gathered, evaluate);
    var descriptions := set i | 0 <= i < |gathered| :: gathered[i].1;
    forall n | n in Names(methods) ensures n in descriptions {
      var i :| 0 <= i < |methods| && methods[i].1 == n;
    }
    forall n | n in descriptions ensures n in Names(methods) {
      var i :| 0 <= i < |gathered| && gathered[i].1 == n;
      assert methods[i].1 == n;
    }
  }

  class MLSystemManager {
    var state: WorkflowState

    /** A new manager starts in `NoValidation`. */
    constructor ()
      ensures state == States.NoValidation
    {
      state := States.NoValidation;
    }

    /** `load_dataset(file)`: a new dataset loaded from the file's lines. */
    method LoadDataset(lines: seq<string>) returns (r: Result<Dataset, LoadError>)
      ensures r.Ok? <==> ParseArff("Untitled", lines).Ok?
      ensures r.Ok? ==> fresh(r.value) && r.value.Snapshot() == ParseArff("Untitled", lines).value && r.value.Valid()
      ensures r.Ok? ==> r.value.loaded
      ensures r.Failure? ==> r.error == ParseArff("Untitled", lines).error
    {
      r := FromArff(lines);
    }

    /** `do_validation`: switch to `WithValidation`, whatever the state was. */
    method DoValidation()
      modifies this
      ensures state == States.WithValidation
    {
      state := States.WithValidation;
    }

    /** `cross_validation`: switch to `CrossValidation`. */
    method CrossValidation()
      modifies this
      ensures state == States.CrossValidation
    {
      state := States.CrossValidation;
    }

    /** `no_validation`: switch to `NoValidation`. */
    method NoValidation()
      modifies this
      ensures state == States.NoValidation
    {
      state := States.NoValidation;
    }

    /** `no_split`: switch to `NoSplit`. */
    method NoSplit()
      modifies this
      ensures state == States.NoSplit
    {
      state := States.NoSplit;
    }

    /** `split(dataset, split)`: what the current state's split returns; the state stays. */
    method Split(d: Dataset, splits: seq<PyNum>) returns (r: Result<(seq<Table>, seq<Table>), StateError>)
      requires d.Valid() && (d.loaded || ReadsNoData(state, splits))
      modifies d
      ensures r == SplitOutcome(state, old(d.Snapshot()), splits)
      ensures d.data == RowsKept(state, old(d.data), splits)
      ensures d.Header() == old(d.Header()) && d.Valid()
    {
      r := States.Split(state, d, splits);
    }

    /** `train(model, features, targets)`: the call the current state makes on the learner. */
    method Train(features: seq<Table>, targets: seq<Table>) returns (r: Result<Option<TrainCall>, StateError>)
      ensures r == States.Train(state, features, targets)
    {
      r := States.Train(state, features, targets);
    }

    /**
     * `test(model, features, targets, methods)`: the current state evaluates
     * the metrics and the result is dropped; only an exception remains:
     * IndexError when `NoValidation` has no fold 1, or the exception of the
     * first metric that raises.
     */
    method Test<V>(methods: seq<(Evaluator<V>, string)>, features: seq<Table>, targets: seq<Table>) returns (err: Option<StateError>)
      ensures state.NoValidation? && (|features| < 2 || |targets| < 2) ==> err == Some(IndexError)
      ensures state.NoValidation? && |features| > 1 && |targets| > 1 ==>
                (err.Some? <==> !AllSucceed(methods, Fold(features[1]), Fold(targets[1])))
      ensures state.NoValidation? && |features| > 1 && |targets| > 1 && err.Some? ==>
                exists i: nat :: FirstFailure(methods, Fold(features[1]), Fold(targets[1]), i) &&
                                 err.value == MetricFailed(methods[i].0(Fold(features[1]), Fold(targets[1])).error)
      ensures state.NoSplit? ==> (err.Some? <==> !AllSucceed(methods, Folds(features), Folds(targets)))
      ensures state.NoSplit? && err.Some? ==>
                exists i: nat :: FirstFailure(methods, Folds(features), Folds(targets), i) &&
                                 err.value == MetricFailed(methods[i].0(Folds(features), Folds(targets)).error)
      ensures state.WithValidation? || state.CrossValidation? ==> err == None
    {
      var r := States.Test(state, methods, features, targets);
      err := if r.Failure? then Some(r.error) else None;
    }
  }
}
