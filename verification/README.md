# Vehicle-Insurance: model evaluation, prediction alignment and data export

This project is a Dafny model of three parts of the vehicle-insurance
response-prediction pipeline:

- **The model-evaluation component** (`ModelEvaluation`). It reloads the
  held-out test partition and re-applies the feature normalisation. Then it
  compares the newly trained model's F1 score with the F1 score of the
  production model that the registry holds, if there is one. The new model is
  accepted only when it strictly beats that baseline. Without a production
  model the baseline is 0.
- **The model wrapper `MyModel`**. Before scaling and classifying, it aligns an
  incoming frame to the feature names its fitted preprocessor recorded. It also
  holds the target-label mapping `yes: 0, no: 1` and its reverse.
- **The post-processing of the document-store export.** One frame column is
  built per document field. The store's `_id` column is dropped, and the `"na"`
  sentinel becomes the missing-value marker.

The files are:

- `wrappers.dfy`: `Option` and `Result`.
- `frames.dfy`: an abstract data frame and the pandas column primitives the
  pipeline uses. A frame is a sequence of distinct labels, a map from label to
  column of cells, and a row count.
- `feature_transform.dfy`: `map_gender_column`, `drop_id_column` and
  `_rename_columns`.
- `model_evaluation.dfy`: `get_best_model`, `evaluate_model` and
  `initiate_model_evaluation`.
- `estimator.dfy`: `TargetValueMapping` and `MyModel.predict`.
- `vehicle_data.dfy`: `export_collection_as_dataframe`, after the fetch.

Some steps are library calls whose numerics are outside the model. These are
`pd.get_dummies`, the fitted preprocessor's `transform`, the classifiers'
`predict`, `f1_score`, and the registry's `is_model_present`. Each one enters as
a function parameter. Every property stated about the steps that call them
therefore holds whatever those functions compute. The registry check, the
production model's scoring, `transform` and the classifier's `predict` can
raise. Each returns an `Option`, and `None` stands for the exception.
`load_object` can raise too. It is modelled as a `bool` that says whether the
trained model loads. In every case the caller then fails the way the source
re-raises.

Two facts about the code are worth stating on their own:

- A natural reading of the acceptance rule is "trained score >
  max(production score, 0)". The code compares against the production score
  itself whenever one exists. `ModelEvaluation.AcceptanceMatchesMaxRule`
  proves that the two readings agree for every production score of at least
  0, which covers the F1 range [0, 1].
- `_rename_columns` is idempotent on its own output
  (`FeatureTransform.RenameDummyColumnsIdempotent`). `map_gender_column` is
  not. On a non-empty frame it has already encoded, the 0/1 cells match
  neither label, so the integer cast fails
  (`FeatureTransform.MapGenderRejectsMappedFrame`). A frame with no rows
  re-encodes without error.

## Model

| member | source | states |
|---|---|---|
| Frames.DropColumn | src/components/model_evaluation.py:89-90 | dropping a label removes exactly that column; every other column keeps its cells and its relative order; dropping an absent label changes nothing |
| Frames.RemoveAt | src/components/model_evaluation.py:89-90 | dropping a label that occurs once cuts it out at its position, so the remaining labels keep their order and the frame is one column narrower |
| Frames.SetColumn | src/entity/estimator.py:48-49 | assigning a column replaces it in place when the label exists and appends it as the last column otherwise; the frame stays well formed |
| Frames.RenameColumn | src/components/model_evaluation.py:75-78 | a rename keeps every column at its position, moves the renamed column's cells to the new label, leaves other columns alone, and ignores an absent label |
| Frames.MapCells | src/components/model_evaluation.py:59 | a cell-wise conversion succeeds exactly when it succeeds on every cell, and then yields the converted cell at every index |
| Frames.ConvertColumn | src/components/model_evaluation.py:59 | converting a column fails naming that column exactly when some cell cannot be converted; on success only that column changes, cell by cell |
| FeatureTransform.LabelsDistinct | src/components/model_evaluation.py:75-79 | the raw and canonical vehicle-age labels and the damage label are five different labels |
| FeatureTransform.IndicatorColumnsDistinct | src/components/model_evaluation.py:79 | the three indicator columns cast to int are three different columns |
| FeatureTransform.MapGenderColumn | src/components/model_evaluation.py:56-60 | gender encoding fails with a missing-column error when there is no Gender column; otherwise it succeeds exactly when every cell is "Female" or "Male", in which case Female becomes 0, Male becomes 1, and every other column and the column order are kept |
| FeatureTransform.MapGenderRejectsMappedFrame | src/components/model_evaluation.py:56-60 | encoding a non-empty, already-encoded frame a second time fails with a cast error, so the gender step is not idempotent |
| FeatureTransform.DropIdColumn | src/components/model_evaluation.py:85-92 | the schema's drop column is absent afterwards; a frame without it is returned unchanged; otherwise exactly that column is cut out at its position, so the other columns keep their cells and their relative order |
| FeatureTransform.CastToInt | src/components/model_evaluation.py:81 | an integer cast of a cell always yields an integer: integers are unchanged, booleans become 0 or 1 and reals are truncated toward zero, while strings and NaN do not cast |
| FeatureTransform.Truncate | src/components/model_evaluation.py:81 | a real is cast to the integer next to it on the side of zero |
| FeatureTransform.CastCells | src/components/model_evaluation.py:81 | a castable column is cast cell by cell, keeping its length |
| FeatureTransform.CastPresent | src/components/model_evaluation.py:79-81 | the cast of the listed columns that are present succeeds exactly when each of them is castable; then those columns are cast, every other column is untouched, and the labels and rows are kept |
| FeatureTransform.RenameVehicleAge | src/components/model_evaluation.py:75-78 | the rename moves every column, in place and with its cells, to its canonical label, and creates no other label |
| FeatureTransform.RenamedLabels | src/components/model_evaluation.py:75-78 | the two renames in sequence relabel each position with its canonical label and keep the frame well formed |
| FeatureTransform.RenamedCells | src/components/model_evaluation.py:75-78 | after the two renames each input column's cells sit under its canonical label |
| FeatureTransform.RenamedOrigins | src/components/model_evaluation.py:75-78 | after the two renames every label is the canonical label of some input column |
| FeatureTransform.RenameDummyColumns | src/components/model_evaluation.py:70-83 | `_rename_columns` fails on a rename clash or on an uncastable indicator; on success the frame keeps its rows and width, and every position carries its canonical label |
| FeatureTransform.RenameDummyColumnsSucceeds | src/components/model_evaluation.py:70-83 | `_rename_columns` succeeds if and only if neither rename clashes and every column that lands on an indicator label is castable |
| FeatureTransform.RenameDummyColumnsCells | src/components/model_evaluation.py:70-83 | on success each input column reappears under its canonical label, cast to int when that label is an indicator and unchanged otherwise |
| FeatureTransform.RenameDummyColumnsAddsNothing | src/components/model_evaluation.py:70-83 | on success every output label comes from an input column |
| FeatureTransform.RawLabelsGone | src/components/model_evaluation.py:75-78 | no raw vehicle-age label survives a successful `_rename_columns` |
| FeatureTransform.IndicatorsHoldIntegers | src/components/model_evaluation.py:79-81 | after a successful `_rename_columns` every indicator column holds only integers |
| FeatureTransform.CastIntegersIsIdentity | src/components/model_evaluation.py:79-81 | casting columns that already hold integers succeeds and returns the frame unchanged |
| FeatureTransform.RenameDummyColumnsIdempotent | src/components/model_evaluation.py:70-83 | applying `_rename_columns` to its own successful output returns that output |
| ModelEvaluation.GetBestModel | src/components/model_evaluation.py:37-54 | the lookup fails exactly when the registry check raises; otherwise a production-model handle is returned exactly when the registry reports a model under the configured key, and it carries the configured bucket and key |
| ModelEvaluation.Judge | src/components/model_evaluation.py:126-130 | the response records both scores; the difference is the trained score minus the baseline (the production score, or 0 without one); the model is accepted exactly when that difference is positive |
| ModelEvaluation.JudgeAccepts | src/components/model_evaluation.py:126-130 | without a production model, acceptance means a positive trained score; with one, it means a trained score strictly above the production score |
| ModelEvaluation.TiesAreRejected | src/components/model_evaluation.py:129 | equal scores are rejected, with difference 0 |
| ModelEvaluation.NoProductionModel | src/components/model_evaluation.py:118-130 | without a production model the best score stays absent and the difference is the trained score |
| ModelEvaluation.AcceptanceMatchesMaxRule | src/components/model_evaluation.py:126-130 | for production scores of at least 0, acceptance is "trained score above the larger of the production score and 0" |
| ModelEvaluation.AcceptanceMonotone | src/components/model_evaluation.py:126-130 | raising the trained score keeps an accepted model accepted and does not lower the difference |
| ModelEvaluation.AcceptanceExamples | src/components/model_evaluation.py:126-130 | a score of 0.70 with no production model is accepted with difference 0.70; 0.65 against 0.70 is rejected with difference -0.05 |
| ModelEvaluation.TransformFeatures | src/components/model_evaluation.py:108-111 | the four feature steps fail at once on a frame without Gender and pass on the gender-encoding error unchanged; on success the result is well formed with the input's rows, the raw vehicle-age labels are gone and every indicator column present holds integers |
| ModelEvaluation.TestFeatures | src/components/model_evaluation.py:105 | given that the target column exists, the test features have the test frame's rows and no target column, and every other column keeps its cells and its order |
| ModelEvaluation.ProductionScore | src/components/model_evaluation.py:118-123 | scoring the production side fails when the registry check raises (a registry error) or when an existing production model cannot be scored (a scoring error); otherwise the score is present exactly when the registry has a model, and it is that model's F1 on the given features and labels |
| ModelEvaluation.EvaluateModel | src/components/model_evaluation.py:103-136 | the steps fail in the source's order: a missing target column, then a failing feature step with its own error, then loading the trained model, then the registry check or the production model's scoring; on success the trained score comes from the trainer's artifact, the best score is the production model's F1 on the same transformed test features and labels, and acceptance and difference are taken against the baseline |
| ModelEvaluation.EvaluateModelSucceeds | src/components/model_evaluation.py:103-136 | evaluation succeeds if and only if the target exists, the feature steps succeed, the trained model loads, the registry check answers, and a reported production model can be scored; the best score is then present exactly when the registry has a model |
| ModelEvaluation.InitiateModelEvaluation | src/components/model_evaluation.py:139-158 | the artifact exists exactly when evaluation succeeds; it copies the decision and the difference, takes the registry key from the configuration and the model path from the trainer; it is accepted exactly when its changed accuracy is positive |
| ModelEvaluation.FirstModelAccepted | src/components/model_evaluation.py:118-152 | when the registry reports no model, the artifact records the trained score as the change and accepts exactly the models with a positive score |
| Estimator.ReverseMappingAt | src/entity/estimator.py:15-17 | with distinct values, the reverse mapping sends each attribute's value back to that attribute's name |
| Estimator.ReverseMapping | src/entity/estimator.py:15-17 | `reverse_mapping` has as its keys exactly the attribute values |
| Estimator.ForwardMappingAt | src/entity/estimator.py:9-14 | with distinct names, the forward mapping sends each attribute's name to its value |
| Estimator.ForwardMapping | src/entity/estimator.py:9-14 | the attribute dictionary `_asdict` returns has as its keys exactly the attribute names |
| Estimator.MappingRoundTrip | src/entity/estimator.py:9-17 | with distinct names and values, forward then reverse, and reverse then forward, are both the identity |
| Estimator.TargetReverseMapping | src/entity/estimator.py:9-17 | `TargetValueMapping` encodes yes as 0 and no as 1, and its reverse mapping is {0: "yes", 1: "no"} |
| Estimator.MissingColumns | src/entity/estimator.py:46 | the missing columns are exactly the expected labels the frame lacks, without repeats |
| Estimator.AddZeroColumns | src/entity/estimator.py:48-49 | each missing label is appended in order as a zero column; existing columns are untouched and nothing else is added |
| Estimator.SelectColumns | src/entity/estimator.py:51 | selecting the expected labels yields exactly those columns, in that order, with their cells |
| Estimator.Align | src/entity/estimator.py:44-51 | after alignment the columns are exactly the expected ones, in order; columns the frame had keep their cells, missing ones are all zeros, and extra ones are gone |
| Estimator.AlignAlignedIsIdentity | src/entity/estimator.py:44-51 | a frame already in the expected layout is returned unchanged |
| Estimator.AlignUnique | src/entity/estimator.py:44-51 | any frame with the expected columns, holding the input's cells or zeros, is the aligned frame, so the alignment contract determines its result |
| Estimator.AlignIdempotent | src/entity/estimator.py:44-51 | aligning twice is aligning once |
| Estimator.AlignDependsOnlyOnExpected | src/entity/estimator.py:44-51 | two frames that agree on the expected columns align to the same frame, whatever their extra columns or column order |
| Estimator.AlignColumns | src/entity/estimator.py:45-51 | the loop form of alignment computes the same frame as `Align` |
| Estimator.CollectMissing | src/entity/estimator.py:46 | the loop over the expected labels collects exactly the absent ones, without repeats |
| Estimator.AppendZeros | src/entity/estimator.py:48-49 | the assignment loop adds a zero column for each missing label and keeps every existing column |
| Estimator.Reindex | src/entity/estimator.py:51 | the reindexing loop yields exactly the expected columns, in order, with the source frame's cells |
| Estimator.FittedPreprocessor | src/entity/estimator.py:38-42 | a pipeline contributes its "preprocessor" step when it has one; a bare transformer is its own step |
| Estimator.FrameForTransform | src/entity/estimator.py:36-51 | without recorded feature names the frame passes through unchanged; with them it is aligned to them |
| Estimator.Predict | src/entity/estimator.py:28-68 | prediction succeeds exactly when transform and classifier both succeed on the aligned frame, and then returns the classifier's output on the transformed aligned frame; a failing transform and a failing classifier are each reported as such |
| Estimator.PredictIgnoresExtraColumns | src/entity/estimator.py:36-62 | with recorded feature names, predictions depend only on the input's cells in those columns |
| VehicleData.Keys | src/data_access/vehical_data.py:53 | a document's field names, one per field, in stored order |
| VehicleData.Lookup | src/data_access/vehical_data.py:53 | a document's cell for a label is the value stored under that field, or the missing marker when the document lacks the field |
| VehicleData.AppendNew | src/data_access/vehical_data.py:53 | extending a column list with a document's fields keeps the earlier labels as a prefix, adds exactly the new labels, and adds no repeats |
| VehicleData.AppendNewFresh | src/data_access/vehical_data.py:53 | every label appended after the earlier ones is a field of the document and was not already a column |
| VehicleData.AppendNewOrder | src/data_access/vehical_data.py:53 | the appended labels come in the order of their first appearance among the document's fields |
| VehicleData.GatherColumns | src/data_access/vehical_data.py:53 | folding documents into a column list yields, without repeats, every label seen so far |
| VehicleData.ColumnsOf | src/data_access/vehical_data.py:53 | the frame's columns are, without repeats, exactly the field names of the fetched documents |
| VehicleData.FromRecords | src/data_access/vehical_data.py:53 | the frame has one row per document, and each cell is that document's value for the column or the missing marker |
| VehicleData.ReplaceNa | src/data_access/vehical_data.py:60 | no "na" cell survives; "na" cells become missing; every other cell, label and row is kept |
| VehicleData.ReplaceNaIdempotent | src/data_access/vehical_data.py:60 | replacing the sentinel twice is replacing it once |
| VehicleData.ExportCollection | src/data_access/vehical_data.py:53-61 | the exported frame has one row per document, no `_id` column and no "na" cell; its columns are the fetched field names other than `_id`, in order of first appearance; each cell is the document's value, with "na" read as missing |
| VehicleData.NoIdKeepsColumns | src/data_access/vehical_data.py:57-58 | when no document has `_id`, the export keeps exactly the fetched columns, in the fetched order |

## Left out

- The network fetch, `collection.find()`, and the MongoDB client: the export is modelled from the sequence of documents the fetch returned.
- `pd.read_csv` of the test partition: the component receives the test frame as data.
- `load_object` of the trained model: only whether the load succeeds is modelled, because `evaluate_model` never uses the loaded object. The S3 download behind `VehicleEstimator` is not part of this model.
- The `MyException` wrapping, logging and `print` calls.
- The training pipeline, the FastAPI application and the MongoDB connection class, which only call into this core.
- `f1_score`, `pd.get_dummies`, the preprocessor's `transform`, the classifiers' `predict` and `is_model_present`: these enter as function parameters, so the model states nothing about their numerics. Their failures are modelled as `None` results.
- ModelEvaluation.TransformFeatures: assumes that `get_dummies` keeps a well-formed frame well formed and keeps its row count (`KeepsShape`), because its column expansion is not modelled.
- ModelEvaluation.Judge: F1 scores and their difference are exact reals, so floating-point rounding of `trained - best` is not modelled.
- FeatureTransform.RenameDummyColumns: if a rename would land on a label the frame already has, pandas keeps two columns under one label. The model cannot represent duplicate labels and reports `DuplicateLabel` instead.
- FeatureTransform.CastToInt: `astype('int')` produces 64-bit integers; the unbounded integer cell does not model overflow on huge integers or the out-of-range result of casting huge reals.
- FeatureTransform.CastToInt: rejects every string cell, whereas numpy would also parse strings holding integers. The one-hot columns it is applied to hold booleans or integers.
- Estimator.Predict: requires the recorded feature names to be distinct (`WellFormed`), as a fitted frame's columns are. The `except` fallback at src/entity/estimator.py:53-55 is not modelled as a separate path, because alignment of a well-formed frame with distinct expected labels cannot fail.
- Estimator.Predict: the alignment's in-place assignment `dataframe[col] = 0` also adds zero columns to the caller's frame. The model is pure and does not show that side effect.
- FeatureTransform.DropIdColumn: the schema's `drop_columns` entry is taken to be a single label, which is how the code uses it.
