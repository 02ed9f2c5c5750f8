/** The champion/challenger step of src/components/model_evaluation.py: the
    held-out test frame is transformed, the production model (if the registry
    has one) is scored on it, and the newly trained model is accepted only
    when its F1 score strictly beats that baseline. F1 scores are exact reals;
    the registry lookup, the one-hot expansion and the scoring of the
    production model are library or network calls and enter as functions. */
module ModelEvaluation {
  import opened Wrappers
  import opened Frames
  import opened FeatureTransform

  datatype ModelEvaluationConfig = ModelEvaluationConfig(bucketName: string, s3ModelKeyPath: string)

  datatype ClassificationMetricArtifact = ClassificationMetricArtifact(f1Score: real)

  datatype ModelTrainerArtifact =
    ModelTrainerArtifact(trainedModelFilePath: string, metricArtifact: ClassificationMetricArtifact)

  /** `EvaluateModelResponse`; `bestModelF1Score` is `None` when no
      production model exists. */
  datatype EvaluateModelResponse = EvaluateModelResponse(
    trainedModelF1Score: real,
    bestModelF1Score: Option<real>,
    isModelAccepted: bool,
    difference: real)

  datatype ModelEvaluationArtifact = ModelEvaluationArtifact(
    isModelAccepted: bool,
    s3ModelPath: string,
    trainedModelPath: string,
    changedAccuracy: real)

  /** A handle on the production model in the object store. */
  datatype VehicleEstimator = VehicleEstimator(bucketName: string, modelPath: string)

  /** The outside world the component talks to: whether `load_object` can
      load the file at a path, the registry's presence check,
      `pd.get_dummies(drop_first=True)`, and the F1 score of the production
      model's predictions against the given labels. The registry check and
      the scoring (the production model's `predict` followed by `f1_score`)
      can raise; `None` stands for that. */
  datatype Services = Services(
    loads: string -> bool,
    isModelPresent: string -> Option<bool>,
    dummies: Table -> Table,
    productionF1: (VehicleEstimator, Table, seq<Cell>) -> Option<real>)

  /** Why an evaluation aborts: a frame operation failed, the trained model
      could not be loaded, the registry check raised, or scoring the
      production model raised. */
  datatype EvaluationError =
    | FeatureFailed(cause: FrameError)
    | LoadFailed
    | RegistryFailed
    | ScoringFailed

  /** `get_dummies` keeps a frame well formed and keeps its rows. */
  ghost predicate KeepsShape(dummies: Table -> Table) {
    forall t: Table :: t.Valid() ==> dummies(t).Valid() && dummies(t).rows == t.rows
  }

  /** One run of the component: its configuration, the test partition as
      read from the ingestion artifact's file, the trainer's artifact, the
      schema's `drop_columns` entry and the target column's name. */
  datatype ModelEvaluationComponent = ModelEvaluationComponent(
    config: ModelEvaluationConfig,
    testData: Table,
    trainer: ModelTrainerArtifact,
    dropColumn: string,
    targetColumn: string)

  // ---------------------------------------------------------------------
  // The acceptance rule
  // ---------------------------------------------------------------------

  /** The handle `get_best_model` builds from the configuration. */
  function ProductionHandle(config: ModelEvaluationConfig): VehicleEstimator {
    VehicleEstimator(config.bucketName, config.s3ModelKeyPath)
  }

  /** `get_best_model`: fails when the registry check raises; otherwise a
      handle on the production model exactly when the registry reports one
      under the configured key. */
  function GetBestModel(config: ModelEvaluationConfig, isModelPresent: string -> Option<bool>)
    : (r: Result<Option<VehicleEstimator>, EvaluationError>)
    ensures r.Failure? <==> isModelPresent(config.s3ModelKeyPath).None?
    ensures r.Failure? ==> r.error == RegistryFailed
    ensures r.Success? ==> (r.value.Some? <==> isModelPresent(config.s3ModelKeyPath) == Some(true))
    ensures r.Success? && r.value.Some? ==>
      r.value.value.bucketName == config.bucketName && r.value.value.modelPath == config.s3ModelKeyPath
  {
    match isModelPresent(config.s3ModelKeyPath)
    case None => Failure(RegistryFailed)
    case Some(present) => Success(if present then Some(ProductionHandle(config)) else None)
  }

  /** The score to beat: the production model's, or 0 without one. */
  function Baseline(bestF1: Option<real>): real {
    match bestF1
    case None => 0.0
    case Some(s) => s
  }

  /** The decision at the end of `evaluate_model`: both scores are recorded,
      the difference is taken against the baseline, and the model is
      accepted exactly when that difference is positive. */
  function Judge(trainedF1: real, bestF1: Option<real>): (r: EvaluateModelResponse)
    ensures r.trainedModelF1Score == trainedF1 && r.bestModelF1Score == bestF1
    ensures r.difference + Baseline(bestF1) == trainedF1
    ensures r.isModelAccepted <==> r.difference > 0.0
  {
    var baseline := Baseline(bestF1);
    EvaluateModelResponse(trainedF1, bestF1, trainedF1 > baseline, trainedF1 - baseline)
  }

  /** Acceptance in terms of the two scores: without a production model any
      positive score wins; with one, the trained score must be strictly
      higher. */
  lemma JudgeAccepts(trainedF1: real, bestF1: Option<real>)
    ensures bestF1.None? ==> (Judge(trainedF1, bestF1).isModelAccepted <==> trainedF1 > 0.0)
    ensures bestF1.Some? ==> (Judge(trainedF1, bestF1).isModelAccepted <==> trainedF1 > bestF1.value)
  {
  }

  /** Ties go to the production model. */
  lemma TiesAreRejected(score: real)
    ensures !Judge(score, Some(score)).isModelAccepted
    ensures Judge(score, Some(score)).difference == 0.0
  {
  }

  /** Without a production model the best score is absent and the difference
      is the trained score itself. */
  lemma NoProductionModel(trainedF1: real)
    ensures Judge(trainedF1, None).bestModelF1Score.None?
    ensures Judge(trainedF1, None).difference == trainedF1
  {
  }

  /** For scores in the F1 range, acceptance agrees with the rule "beats the
      larger of the production score and 0". For a negative production score
      the two would differ: the program compares against the score itself. */
  lemma AcceptanceMatchesMaxRule(trainedF1: real, bestF1: Option<real>)
    requires bestF1.Some? ==> 0.0 <= bestF1.value
    ensures Judge(trainedF1, bestF1).isModelAccepted <==>
      trainedF1 > (if bestF1.Some? && bestF1.value > 0.0 then bestF1.value else 0.0)
  {
  }

  /** Raising the trained score never turns an acceptance into a rejection. */
  lemma AcceptanceMonotone(low: real, high: real, bestF1: Option<real>)
    requires low <= high
    requires Judge(low, bestF1).isModelAccepted
    ensures Judge(high, bestF1).isModelAccepted
    ensures Judge(high, bestF1).difference >= Judge(low, bestF1).difference
  {
  }

  /** The two worked examples of the acceptance rule. */
  lemma AcceptanceExamples()
    ensures Judge(0.70, None).isModelAccepted && Judge(0.70, None).difference == 0.70
    ensures !Judge(0.65, Some(0.70)).isModelAccepted && Judge(0.65, Some(0.70)).difference == -0.05
  {
  }

  // ---------------------------------------------------------------------
  // evaluate_model and initiate_model_evaluation
  // ---------------------------------------------------------------------

  /** The four feature steps `evaluate_model` applies to the test features,
      in order: gender encoding, identifier drop, one-hot expansion, and
      renaming with integer casts. */
  function TransformFeatures(x: Table, dropColumn: string, dummies: Table -> Table): (r: Result<Table, FrameError>)
    requires x.Valid() && KeepsShape(dummies)
    ensures GenderColumn !in x.data ==> r == Failure(MissingColumn(GenderColumn))
    ensures MapGenderColumn(x).Failure? ==> r == Failure(MapGenderColumn(x).error)
    ensures r.Success? ==> MapGenderColumn(x).Success?
    ensures r.Success? ==> r.value.Valid() && r.value.rows == x.rows
    ensures r.Success? ==> AgeBelowOneRaw !in r.value.data && AgeAboveTwoRaw !in r.value.data
    ensures r.Success? ==> forall d :: d in IndicatorColumns && d in r.value.data ==>
      forall k :: 0 <= k < r.value.rows ==> r.value.data[d][k].IntC?
  {
    var x1 :- MapGenderColumn(x);
    var x2 := DropIdColumn(x1, dropColumn);
    var x3 := dummies(x2);
    var r := RenameDummyColumns(x3);
    assert r.Success? ==> AgeBelowOneRaw !in r.value.data && AgeAboveTwoRaw !in r.value.data by {
      if r.Success? {
        RawLabelsGone(x3);
      }
    }
    assert r.Success? ==> forall d :: d in IndicatorColumns && d in r.value.data ==>
      forall k :: 0 <= k < r.value.rows ==> r.value.data[d][k].IntC? by {
      if r.Success? {
        IndicatorsHoldIntegers(x3);
      }
    }
    r
  }

  /** The test features: the test frame without its target column, which
      must exist (`drop(columns=[TARGET_COLUMN])` raises otherwise). */
  function TestFeatures(c: ModelEvaluationComponent): (x: Table)
    requires c.testData.Valid() && c.targetColumn in c.testData.data
    ensures x.Valid() && x.rows == c.testData.rows && c.targetColumn !in x.data
    ensures x.cols == Remove(c.testData.cols, c.targetColumn)
    ensures forall d :: d in c.testData.data && d != c.targetColumn ==> d in x.data && x.data[d] == c.testData.data[d]
  {
    DropColumn(c.testData, c.targetColumn)
  }

  /** The production model's F1 score on the test set, when the registry
      has a model; `None` inside means no production model. */
  function ProductionScore(c: ModelEvaluationComponent, s: Services, x: Table, y: seq<Cell>)
    : (r: Result<Option<real>, EvaluationError>)
    ensures r.Failure? <==>
      || s.isModelPresent(c.config.s3ModelKeyPath).None?
      || (s.isModelPresent(c.config.s3ModelKeyPath) == Some(true) && s.productionF1(ProductionHandle(c.config), x, y).None?)
    ensures s.isModelPresent(c.config.s3ModelKeyPath).None? ==> r == Failure(RegistryFailed)
    ensures s.isModelPresent(c.config.s3ModelKeyPath).Some? && r.Failure? ==> r.error == ScoringFailed
    ensures r.Success? ==> (r.value.Some? <==> s.isModelPresent(c.config.s3ModelKeyPath) == Some(true))
    ensures r.Success? && r.value.Some? ==> r.value.value == s.productionF1(ProductionHandle(c.config), x, y).value
  {
    var best :- GetBestModel(c.config, s.isModelPresent);
    match best
    case None => Success(None)
    case Some(model) =>
      match s.productionF1(model, x, y)
      case None => Failure(ScoringFailed)
      case Some(f1) => Success(Some(f1))
  }

  /** `evaluate_model`: split off the target, transform the features, take
      the trained score from the trainer's artifact, score the production
      model (when there is one) on the same transformed test set, and judge.
      The steps fail in the source's order: a missing target column, a
      failing feature step, loading the trained model (whose object is not
      used further), the registry check, then the production model's
      scoring; a failure of any of them aborts the evaluation. */
  function EvaluateModel(c: ModelEvaluationComponent, s: Services): (r: Result<EvaluateModelResponse, EvaluationError>)
    requires c.testData.Valid() && KeepsShape(s.dummies)
    ensures c.targetColumn !in c.testData.data ==> r == Failure(FeatureFailed(MissingColumn(c.targetColumn)))
    ensures c.targetColumn in c.testData.data ==>
      var x := TransformFeatures(TestFeatures(c), c.dropColumn, s.dummies);
      && (x.Failure? ==> r == Failure(FeatureFailed(x.error)))
      && (x.Success? && !s.loads(c.trainer.trainedModelFilePath) ==> r == Failure(LoadFailed))
      && (x.Success? && s.loads(c.trainer.trainedModelFilePath) ==>
            (r.Success? <==> ProductionScore(c, s, x.value, c.testData.data[c.targetColumn]).Success?))
      && (x.Success? && s.loads(c.trainer.trainedModelFilePath) && r.Failure? ==>
            r.error == ProductionScore(c, s, x.value, c.testData.data[c.targetColumn]).error)
      && (x.Success? && r.Success? ==>
            r.value.bestModelF1Score == ProductionScore(c, s, x.value, c.testData.data[c.targetColumn]).value)
    ensures r.Success? ==> r.value.trainedModelF1Score == c.trainer.metricArtifact.f1Score
    ensures r.Success? ==>
      (r.value.isModelAccepted <==> c.trainer.metricArtifact.f1Score > Baseline(r.value.bestModelF1Score))
    ensures r.Success? ==>
      r.value.difference == c.trainer.metricArtifact.f1Score - Baseline(r.value.bestModelF1Score)
  {
    if c.targetColumn !in c.testData.data then Failure(FeatureFailed(MissingColumn(c.targetColumn)))
    else
      var y := c.testData.data[c.targetColumn];
      var x :- match TransformFeatures(TestFeatures(c), c.dropColumn, s.dummies)
               case Failure(e) => Failure(FeatureFailed(e))
               case Success(x) => Success(x);
      if !s.loads(c.trainer.trainedModelFilePath) then Failure(LoadFailed)
      else
        var trainedF1 := c.trainer.metricArtifact.f1Score;
        var bestF1 :- ProductionScore(c, s, x, y);
        Success(Judge(trainedF1, bestF1))
  }

  /** The evaluation succeeds exactly when the target column exists, the
      feature steps succeed, the trained model loads, the registry check
      answers, and, when it reports
      a production model, that model can be scored; the best score is then
      present exactly when the registry has a model. */
  lemma {:induction false} EvaluateModelSucceeds(c: ModelEvaluationComponent, s: Services)
    requires c.testData.Valid() && KeepsShape(s.dummies)
    ensures EvaluateModel(c, s).Success? <==>
      && c.targetColumn in c.testData.data
      && TransformFeatures(TestFeatures(c), c.dropColumn, s.dummies).Success?
      && s.loads(c.trainer.trainedModelFilePath)
      && s.isModelPresent(c.config.s3ModelKeyPath).Some?
      && (s.isModelPresent(c.config.s3ModelKeyPath) == Some(true) ==>
            s.productionF1(ProductionHandle(c.config),
                           TransformFeatures(TestFeatures(c), c.dropColumn, s.dummies).value,
                           c.testData.data[c.targetColumn]).Some?)
    ensures EvaluateModel(c, s).Success? ==>
      (EvaluateModel(c, s).value.bestModelF1Score.Some? <==> s.isModelPresent(c.config.s3ModelKeyPath) == Some(true))
  {
    if c.targetColumn in c.testData.data {
      var x := TransformFeatures(TestFeatures(c), c.dropColumn, s.dummies);
      if x.Success? && s.loads(c.trainer.trainedModelFilePath) {
        var p := ProductionScore(c, s, x.value, c.testData.data[c.targetColumn]);
        assert EvaluateModel(c, s).Success? <==> p.Success?;
      }
    }
  }

  /** `initiate_model_evaluation`: the artifact copies the decision, takes
      the registry key from the configuration and the model path from the
      trainer's artifact, and records the score difference as
      `changed_accuracy`. */
  function InitiateModelEvaluation(c: ModelEvaluationComponent, s: Services): (r: Result<ModelEvaluationArtifact, EvaluationError>)
    requires c.testData.Valid() && KeepsShape(s.dummies)
    ensures r.Success? <==> EvaluateModel(c, s).Success?
    ensures r.Failure? ==> r.error == EvaluateModel(c, s).error
    ensures r.Success? ==> r.value.isModelAccepted == EvaluateModel(c, s).value.isModelAccepted
    ensures r.Success? ==> r.value.changedAccuracy == EvaluateModel(c, s).value.difference
    ensures r.Success? ==> r.value.s3ModelPath == c.config.s3ModelKeyPath
    ensures r.Success? ==> r.value.trainedModelPath == c.trainer.trainedModelFilePath
    ensures r.Success? ==> (r.value.isModelAccepted <==> r.value.changedAccuracy > 0.0)
  {
    var response :- EvaluateModel(c, s);
    Success(ModelEvaluationArtifact(
      response.isModelAccepted,
      c.config.s3ModelKeyPath,
      c.trainer.trainedModelFilePath,
      response.difference))
  }

  /** With an empty registry the artifact accepts exactly the models with a
      positive F1 score and records that score as the change. */
  lemma FirstModelAccepted(c: ModelEvaluationComponent, s: Services)
    requires c.testData.Valid() && KeepsShape(s.dummies)
    requires s.isModelPresent(c.config.s3ModelKeyPath) == Some(false)
    requires InitiateModelEvaluation(c, s).Success?
    ensures InitiateModelEvaluation(c, s).value.changedAccuracy == c.trainer.metricArtifact.f1Score
    ensures InitiateModelEvaluation(c, s).value.isModelAccepted <==> c.trainer.metricArtifact.f1Score > 0.0
  {
    var e := EvaluateModel(c, s);
    assert e.Success?;
    EvaluateModelSucceeds(c, s);
    assert e.value.bestModelF1Score.None?;
    assert Baseline(e.value.bestModelF1Score) == 0.0;
  }
}
