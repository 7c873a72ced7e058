/**
 * Problem-type detection, the scikit-learn pipeline layout, backend selection in training
 * and the feature projection before prediction. The learners themselves (scikit-learn and
 * PyCaret fitting and prediction) are foreign and enter as the functions of a `Learner`.
 */
module Modeling {
  import opened Wrappers
  import opened Seqs
  import opened Frame

  datatype ProblemType = Classification | Regression

  datatype Backend = PyCaret | Sklearn

  /** `n_obs`: the number of present values of the target. */
  function ObservationCount(y: Column): nat
  {
    |NonMissing(y.cells)|
  }

  /** `n_unique`: the number of distinct present values of the target. */
  function DistinctCount(y: Column): nat
  {
    |set v | v in NonMissing(y.cells)|
  }

  lemma {:induction false} DistinctAtMostLength(s: seq<Value>)
    ensures |set v | v in s| <= |s|
  {
    if s != [] {
      DistinctAtMostLength(s[1..]);
      assert (set v | v in s) == {s[0]} + (set v | v in s[1..]);
    }
  }

  /** A target never has more distinct values than observations. */
  lemma DistinctAtMostObservations(y: Column)
    ensures DistinctCount(y) <= ObservationCount(y)
  {
    DistinctAtMostLength(NonMissing(y.cells));
  }

  /** `max(2, int(0.2 * n_obs))`, with `int(0.2 * n)` as the integer quotient `n / 5`. */
  function ClassLimit(nObs: nat): (k: nat)
    ensures k >= 2 && k >= nObs / 5 && (k == 2 || k == nObs / 5)
  {
    if nObs / 5 > 2 then nObs / 5 else 2
  }

  /**
   * `detect_problem_type`: float targets are regression; integer targets are classification
   * exactly when they have at most 20 distinct values and at most `max(2, n_obs / 5)`;
   * every other target (text, categorical) is classification.
   */
  function DetectProblemType(y: Column): (p: ProblemType)
    ensures y.dtype.FloatT? ==> p == Regression
    ensures !IsNumeric(y.dtype) ==> p == Classification
    ensures y.dtype.IntT? ==>
      (p == Classification <==> DistinctCount(y) <= 20 && DistinctCount(y) <= ClassLimit(ObservationCount(y)))
  {
    if y.dtype.FloatT? then Regression
    else if y.dtype.IntT? then
      var nUnique := DistinctCount(y);
      var nObs := ObservationCount(y);
      if nUnique <= 20 && nUnique <= ClassLimit(nObs) then Classification else Regression
    else Classification
  }

  /** An integer target with at most two distinct values is always classification. */
  lemma BinaryIntegerIsClassification(y: Column)
    requires y.dtype.IntT? && DistinctCount(y) <= 2
    ensures DetectProblemType(y) == Classification
  {
  }

  /** An integer target with more than twenty distinct values is always regression. */
  lemma ManyValuedIntegerIsRegression(y: Column)
    requires y.dtype.IntT? && DistinctCount(y) > 20
    ensures DetectProblemType(y) == Regression
  {
  }

  /**
   * More observations of the same distinct integer values never turn a classification
   * target into a regression one.
   */
  lemma MoreObservationsKeepClassification(y: Column, z: Column)
    requires y.dtype.IntT? && z.dtype.IntT?
    requires DistinctCount(z) == DistinctCount(y) && ObservationCount(z) >= ObservationCount(y)
    requires DetectProblemType(y) == Classification
    ensures DetectProblemType(z) == Classification
  {
    assert ObservationCount(z) / 5 >= ObservationCount(y) / 5;
  }

  predicate IsNumericColumn(x: Table, c: string)
  {
    c in x.data && IsNumeric(x.data[c].dtype)
  }

  /** `[c for c in cols if not is_numeric_dtype(X[c])]`. */
  function CategoricalOf(cols: seq<string>, x: Table): seq<string>
  {
    Filter(cols, c => !IsNumericColumn(x, c))
  }

  /** `[c for c in cols if is_numeric_dtype(X[c])]`. */
  function NumericOf(cols: seq<string>, x: Table): seq<string>
  {
    Filter(cols, c => IsNumericColumn(x, c))
  }

  function CategoricalColumns(x: Table): seq<string>
  {
    CategoricalOf(x.columns, x)
  }

  function NumericColumns(x: Table): seq<string>
  {
    NumericOf(x.columns, x)
  }

  /**
   * The categorical and numeric lists partition the columns: disjoint, covering, each in the
   * original column order, and together exactly as long as the column list.
   */
  lemma ColumnPartition(x: Table)
    requires Valid(x)
    ensures forall c :: c in CategoricalColumns(x) <==> c in x.columns && !IsNumeric(x.data[c].dtype)
    ensures forall c :: c in NumericColumns(x) <==> c in x.columns && IsNumeric(x.data[c].dtype)
    ensures forall c :: c in x.columns ==> (c in CategoricalColumns(x) <==> c !in NumericColumns(x))
    ensures |CategoricalColumns(x)| + |NumericColumns(x)| == |x.columns|
    ensures IsSubsequence(CategoricalColumns(x), x.columns) && IsSubsequence(NumericColumns(x), x.columns)
  {
    var cat, num := CategoricalColumns(x), NumericColumns(x);
    assert forall c :: c in cat <==> c in x.columns && !IsNumericColumn(x, c);
    assert forall c :: c in num <==> c in x.columns && IsNumericColumn(x, c);
    PartitionLength(x);
  }

  lemma PartitionLength(x: Table)
    ensures |CategoricalColumns(x)| + |NumericColumns(x)| == |x.columns|
  {
    PartitionLengthOf(x.columns, x);
  }

  lemma {:induction false} PartitionLengthOf(cols: seq<string>, x: Table)
    ensures |CategoricalOf(cols, x)| + |NumericOf(cols, x)| == |cols|
  {
    if cols != [] {
      PartitionLengthOf(cols[1..], x);
    }
  }

  datatype Estimator = RandomForestClassifier | RandomForestRegressor

  /**
   * The scikit-learn pipeline: most-frequent imputation and one-hot encoding (unknown
   * categories ignored) for the categorical columns, median imputation for the numeric
   * ones, then a 300-tree random forest seeded with `seed`.
   */
  datatype SklearnPipeline = SklearnPipeline(
    categorical: seq<string>,
    numeric: seq<string>,
    estimator: Estimator,
    nEstimators: nat,
    seed: int)

  /** `build_sklearn_pipeline`: a classifier exactly for classification problems. */
  function BuildSklearnPipeline(x: Table, problem: ProblemType, seed: int): (p: SklearnPipeline)
    ensures p.categorical == CategoricalColumns(x) && p.numeric == NumericColumns(x)
    ensures p.estimator == RandomForestClassifier <==> problem == Classification
    ensures p.nEstimators == 300 && p.seed == seed
  {
    var estimator := if problem == Classification then RandomForestClassifier else RandomForestRegressor;
    SklearnPipeline(CategoricalColumns(x), NumericColumns(x), estimator, 300, seed)
  }

  /**
   * The foreign learners, as functions of their inputs. A fitted model or a PyCaret
   * experiment is an opaque handle (a number).
   *  - `fitSklearn(pipeline, X, y)`: `pipeline.fit(X, y)`.
   *  - `fitPycaret(problem, data, target, session_id, sort)`: `setup`, `compare_models(sort=...)`
   *    and `finalize_model` of a three-fold experiment; gives (final model, experiment).
   *  - `predictSklearn(model, X)`: `model.predict(X)`.
   *  - `predictPycaret(experiment, model, X)`: the `prediction_label` column of `predict_model`.
   */
  datatype Learner = Learner(
    fitSklearn: (SklearnPipeline, Table, Column) -> nat,
    fitPycaret: (ProblemType, Table, string, int, string) -> (nat, nat),
    predictSklearn: (nat, Table) -> Column,
    predictPycaret: (nat, nat, Table) -> Column)

  /** `TrainedModel`; `extra` holds the PyCaret experiment handle, if any. */
  datatype TrainedModel = TrainedModel(
    problemType: ProblemType,
    model: nat,
    backend: Backend,
    target: string,
    features: seq<string>,
    extra: Option<nat>)

  /** The metric PyCaret's model comparison sorts by. */
  function CompareMetric(problem: ProblemType): string
  {
    if problem == Classification then "AUC" else "R2"
  }

  /**
   * `train_model`: the problem type is the given one or the detected one; the features are
   * the columns of `x` in order; PyCaret runs only when preferred and available, on `x` with
   * the target added under its own name; otherwise the scikit-learn pipeline is fitted.
   */
  function TrainModel(x: Table, y: Column, yName: string, problemType: Option<ProblemType>,
                      seed: int, preferPycaret: bool, pycaretAvailable: bool,
                      learner: Learner): (m: TrainedModel)
    requires Valid(x) && |y.cells| == x.rows
    ensures m.problemType == if problemType.Some? then problemType.value else DetectProblemType(y)
    ensures m.features == x.columns && m.target == yName
    ensures m.backend == PyCaret <==> preferPycaret && pycaretAvailable
    ensures m.backend == PyCaret <==> m.extra.Some?
    ensures m.backend == Sklearn ==>
      m.model == learner.fitSklearn(BuildSklearnPipeline(x, m.problemType, seed), x, y)
    ensures m.backend == PyCaret ==>
      && m.extra.Some?
      && (m.model, m.extra.value)
         == learner.fitPycaret(m.problemType, SetColumn(x, yName, y), yName, seed, CompareMetric(m.problemType))
  {
    var problem := if problemType.Some? then problemType.value else DetectProblemType(y);
    if preferPycaret && pycaretAvailable then
      var data := SetColumn(x, yName, y);
      var fitted := learner.fitPycaret(problem, data, yName, seed, CompareMetric(problem));
      TrainedModel(problem, fitted.0, PyCaret, yName, x.columns, Some(fitted.1))
    else
      var pipeline := BuildSklearnPipeline(x, problem, seed);
      TrainedModel(problem, learner.fitSklearn(pipeline, x, y), Sklearn, yName, x.columns, None)
  }

  datatype PredictError =
    | MissingFeature   // `X[list(model.features)]` raises KeyError
    | MissingExperiment  // `model.extra["experiment"]` on a PyCaret model without one

  /**
   * `predict`: selects exactly the model's features, in the recorded order, then asks the
   * backend that trained the model.
   */
  function Predict(m: TrainedModel, x: Table, learner: Learner): (r: Result<Column, PredictError>)
    requires Valid(x)
    ensures r.Ok? <==> (forall f :: f in m.features ==> f in x.columns) && (m.backend == PyCaret ==> m.extra.Some?)
    ensures r.Ok? ==> var xs := Project(x, m.features).value;
      r.value == if m.backend == PyCaret then learner.predictPycaret(m.extra.value, m.model, xs)
                 else learner.predictSklearn(m.model, xs)
  {
    match Project(x, m.features)
    case None => Err(MissingFeature)
    case Some(xs) =>
      if m.backend == PyCaret then
        (match m.extra
         case None => Err(MissingExperiment)
         case Some(experiment) => Ok(learner.predictPycaret(experiment, m.model, xs)))
      else Ok(learner.predictSklearn(m.model, xs))
  }

  /**
   * Prediction sees only the model's features: two tables that agree on those columns get
   * the same predictions, whatever other columns they have and in whatever order.
   */
  lemma PredictSeesOnlyFeatures(m: TrainedModel, x1: Table, x2: Table, learner: Learner)
    requires Valid(x1) && Valid(x2) && x1.rows == x2.rows
    requires forall f :: f in m.features ==> (f in x1.data <==> f in x2.data)
    requires forall f :: f in m.features && f in x1.data ==> x1.data[f] == x2.data[f]
    ensures Predict(m, x1, learner) == Predict(m, x2, learner)
  {
    if Project(x1, m.features).Some? {
      assert Project(x1, m.features).value.data == Project(x2, m.features).value.data;
    }
  }

  /** The learners give one prediction per row of the table they predict on. */
  ghost predicate Rowwise(learner: Learner)
  {
    && (forall m, x :: |learner.predictSklearn(m, x).cells| == x.rows)
    && (forall e, m, x :: |learner.predictPycaret(e, m, x).cells| == x.rows)
  }

  /**
   * A model predicts on any table that has the columns it was trained on, and with
   * row-wise learners it gives one prediction per row of that table.
   */
  lemma TrainedModelPredicts(x: Table, y: Column, yName: string, problemType: Option<ProblemType>,
                             seed: int, preferPycaret: bool, pycaretAvailable: bool,
                             learner: Learner, z: Table)
    requires Valid(x) && |y.cells| == x.rows && Valid(z)
    requires forall c :: c in x.columns ==> c in z.columns
    ensures var r := Predict(TrainModel(x, y, yName, problemType, seed, preferPycaret, pycaretAvailable, learner), z, learner);
      r.Ok? && (Rowwise(learner) ==> |r.value.cells| == z.rows)
  {
  }
}
