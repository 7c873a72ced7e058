# datafusion-ml, modelled in Dafny

datafusion-ml fuses two tabular datasets that share some descriptive columns (the
*overlap features*). Each dataset also has outcome columns (*targets*) that the other
lacks. For every target of A, a model is trained on A's overlap features and predicts that
target for the rows of B, and the same is done from B to A. The two enriched tables are then
stacked into one *fused* table.

Around this engine sit four more pieces:

- the service layer, which turns a request into a configuration and shapes the response;
- a command line;
- a FastAPI web service with upload validation, an in-memory store of asynchronous jobs,
  a rate limiter, JWT header checks and environment-driven settings;
- a script that writes the example notebooks.

The model covers these modules:

| module (file) | what it models |
|---|---|
| `Wrappers` (`wrappers.dfy`) | `Option` and `Result`. |
| `Seqs` (`seqs.dfy`) | List comprehensions with a condition, and the subsequence order they keep. |
| `Ordering` (`ordering.dfy`) | Python's `<` on `str`. `sorted(set(xs))` as the strictly sorted list of the distinct elements, which is unique. |
| `Text` (`text.dfy`) | `str.isspace`, `strip`, `split` on one character, `join`, ASCII `lower`, `startswith`/`endswith`. The comma-list idiom `[x.strip() for x in s.split(",") if x.strip()]`. |
| `Frame` (`frame.dfy`) | The part of a pandas DataFrame that is used: columns with a dtype tag and possibly-missing cells, selection, assignment, `head`, `drop`, `reindex`, `concat` and `to_dict(orient="records")`. |
| `Modeling` (`modeling.dfy`) | Problem-type detection, the column partition of the scikit-learn pipeline, backend choice in `train_model`, and feature selection in `predict`. The learners are function values. |
| `Fusion` (`fusion.dfy`) | Overlap and target inference, categorical alignment, the two enrichment loops, the fused table and `fuse_datasets`. |
| `Service` (`service.dfy`) | The configuration built from a request, `_maybe_filter_dataframe`, `_clean`, and the response parts. |
| `Cli` (`cli.dfy`) | `_split_columns`. |
| `WebConfig` (`web_config.dfy`) | `APISettings`: defaults, `ge=1` bounds, origin normalisation and the checks of `from_env`. |
| `Router` (`router.dfy`) | File-type detection from magic numbers and names, size and row limits, the pre-parse guards, and the job store as a class. |
| `Middleware` (`middleware.dfy`) | The rate limiter as a class. A replay of one client's requests, with a lemma that at most the limit is admitted in any minute. Client identification and the JWT header check. |
| `Notebooks` (`notebooks.dfy`) | `to_lines` and the notebook record of `write_notebook`. |

State that the source updates in place has an imperative model:

- the job store (two dictionaries);
- the rate limiter (a dictionary of lists);
- the loops of `_coerce_categorical_alignment` and of the enrichment;
- the step-by-step construction of the configuration and the response.

The loops and step-by-step constructions are methods with `while` loops or sequential
updates. Each is proved equal to a function that specifies it.

Where the code and the design description disagree, the model follows the code:

- The `fuse_datasets` in `fusion.py` takes no `config` argument. Its result carries no
  metrics, and it runs no cross-validation. `perform_fusion` nevertheless passes
  `config=config` (`service/fusion_service.py:61`), which raises `TypeError` on every call,
  and it reads `result.metrics_a_to_b` (`service/fusion_service.py:86`), which does not
  exist. `PerformFusion` models the call as intended rather than as written: it calls
  `FuseDatasets` without a configuration, and the metric maps reach it as parameters.
- `_clean` drops only NaN values (`mv == mv`), not every non-finite value. Infinities pass
  through.
- Explicit target lists are processed in the caller's order, repetitions included. Only
  inferred targets are sorted.
- An explicit overlap list may repeat a name: `fusion.py:61` keeps repetitions. For such a
  name, `a_aligned[c]` at `fusion.py:40` selects a DataFrame, not a column, and the pandas
  dtype tests answer False for it. So `_coerce_categorical_alignment` leaves a repeated
  name unaligned. The model does the same: only names listed once (`Single`) are aligned.

## Model

| member | source | states |
|---|---|---|
| Ordering.SortedUnique | datafusion_ml/fusion.py:26 | `sorted(set(xs))`: the result is strictly sorted and has exactly the elements of `xs`. |
| Ordering.SortedIsUnique | datafusion_ml/fusion.py:26 | Two strictly sorted lists with the same elements are equal, so the sorted name list is determined by the set. |
| Ordering.StrLessIsStrictTotalOrder | datafusion_ml/fusion.py:31 | Python's string `<` is irreflexive, transitive and total, so sorting names is well defined. |
| Frame.ValueLessIsStrictTotalOrder | datafusion_ml/fusion.py:41 | The order `sorted` uses on category values of one kind is a strict total order. |
| Seqs.Filter | datafusion_ml/fusion.py:61 | A comprehension keeps exactly the elements that satisfy the condition, in their order (a subsequence), and never grows. |
| Seqs.SubsequenceTransitive | datafusion_ml/service/fusion_service.py:19-27 | Selecting from a selection keeps the original order. |
| Text.Split | datafusion_ml/cli.py:14 | `split(",")` gives one piece more than there are separators, and no piece contains the separator. |
| Text.JoinSplit | datafusion_ml/cli.py:14 | Joining the pieces of a split gives back the string. |
| Text.SplitJoin | datafusion_ml/cli.py:14 | Splitting a join of separator-free pieces gives back the pieces. |
| Text.StripBy | datafusion_ml/cli.py:14 | `strip`: the result starts where the stripped start ends (`InfixAt`), neither starts nor ends with a stripped character, and every character cut off on either side is one. |
| Text.StripFacts | datafusion_ml/cli.py:14 | Trimming the start and then the end leaves exactly that infix, with only stripped characters around it. |
| Text.TrimmedInfix | datafusion_ml/cli.py:14 | A prefix of a suffix is the infix of the original that starts where the suffix does; what the prefix leaves off is stripped characters. |
| Text.FirstIndex | datafusion_ml/web/middleware.py:49 | The position of the first separator: no separator before it, and it is the end or a separator. |
| Text.SplitFirst | datafusion_ml/web/middleware.py:49 | `split(",")[0]` is everything before the first comma. |
| Text.StripAll | datafusion_ml/web/config.py:90 | `[p.strip() for p in pieces]` has one element per piece. |
| Text.StrippedNonBlank | datafusion_ml/web/config.py:90 | The comprehension `[p.strip() for p in pieces if p.strip()]` equals filtering the stripped pieces for non-empty ones; every item is non-empty and has no surrounding whitespace. |
| Text.StripAllTail | datafusion_ml/web/config.py:90 | Stripping every piece commutes with dropping the first piece. |
| Text.CommaList | datafusion_ml/web/config.py:90 | The items are exactly the non-empty ones of the stripped comma pieces, in order. None is empty, contains a comma or has surrounding whitespace, and there are at most one more than the commas. |
| Text.CommaListOfJoin | datafusion_ml/web/config.py:90 | Clean items joined by commas come back unchanged and in order. |
| Text.CommaListOfPieces | datafusion_ml/web/config.py:90 | For any comma-free pieces, the comma list of their join is the pieces stripped with the empty ones dropped. |
| Text.CommaListOfSeparators | datafusion_ml/cli.py:14 | A string of commas and whitespace has no items. |
| Text.LowerAscii | datafusion_ml/web/routers/fusion.py:137 | No upper-case ASCII letter is left. Each upper-case letter becomes its lower-case letter and every other character is kept, so the length is kept. |
| Text.LowerAsciiAppend | datafusion_ml/web/routers/fusion.py:137 | Lowering distributes over concatenation. |
| Text.LowerAsciiOfLower | datafusion_ml/web/routers/fusion.py:137 | A string without upper-case letters lowers to itself, so lowering is idempotent. |
| Text.EndsWithIgnoringCase | datafusion_ml/web/routers/fusion.py:137-142 | A name ending in any case variant of a suffix ends, once lowered, in the lowered suffix. |
| Frame.NonMissing | datafusion_ml/modeling.py:33-34 | `dropna()` keeps exactly the present values and never grows. |
| Frame.NonMissingAppend | datafusion_ml/modeling.py:33-34 | `dropna()` of a column with one more cell is that of the column plus the cell, when present. |
| Frame.Project | datafusion_ml/fusion.py:69-71 | `df[names]` succeeds exactly when every name is a column; the result has the listed columns in that order, unchanged. |
| Frame.SetColumn | datafusion_ml/fusion.py:82-83 | `df[name] = col` replaces or appends that one column; no other column changes. |
| Frame.Head | datafusion_ml/service/fusion_service.py:28-29 | `head(n)` keeps all columns and the first `min(n, rows)` cells of each. |
| Frame.DropColumns | datafusion_ml/service/fusion_service.py:24-27 | `drop(columns=...)` removes exactly the listed names and keeps the order and the cells of the rest. |
| Frame.Reindex | datafusion_ml/fusion.py:100-101 | `reindex(columns=...)` gives the listed columns; an absent one is all missing. |
| Frame.ConcatRows | datafusion_ml/fusion.py:99-102 | `concat` of two tables stacks each column's cells, so the row count is the sum. |
| Frame.Records | datafusion_ml/service/fusion_service.py:68-70 | One record per row, keyed by the column names, holding that row's cells. |
| Modeling.DetectProblemType | datafusion_ml/modeling.py:27-39 | Float targets are regression and non-numeric ones classification. An integer target is classification exactly when it has at most 20 distinct values and at most `max(2, n_obs / 5)`. |
| Modeling.ClassLimit | datafusion_ml/modeling.py:35 | `max(2, int(0.2 * n_obs))` is at least 2 and at least `n_obs / 5`, and equals one of them. |
| Modeling.DistinctAtMostObservations | datafusion_ml/modeling.py:33-34 | A target never has more distinct values than observations. |
| Modeling.BinaryIntegerIsClassification | datafusion_ml/modeling.py:32-36 | An integer target with at most two distinct values is classification. |
| Modeling.ManyValuedIntegerIsRegression | datafusion_ml/modeling.py:35-37 | An integer target with more than 20 distinct values is regression. |
| Modeling.MoreObservationsKeepClassification | datafusion_ml/modeling.py:33-36 | More observations of the same number of distinct values keep a classification target a classification target. |
| Modeling.ColumnPartition | datafusion_ml/modeling.py:47-48 | The categorical and numeric lists are disjoint, cover the columns, keep their order and add up to the column count. |
| Modeling.BuildSklearnPipeline | datafusion_ml/modeling.py:42-84 | The pipeline uses those two lists and 300 trees seeded with the given seed. It is a classifier exactly for classification. |
| Modeling.TrainModel | datafusion_ml/modeling.py:97-168 | The problem type is the given one or the detected one, and the features are the training columns in order. PyCaret is used exactly when preferred and available, and only then is an experiment kept; the PyCaret model and experiment are fitted on the features with the target added under its name, sorted by AUC or R2. Otherwise the scikit-learn pipeline is fitted on the features and the target. |
| Modeling.Predict | datafusion_ml/modeling.py:171-188 | Succeeds exactly when every feature is present (and a PyCaret model has its experiment). It predicts with the backend that trained the model, on exactly the features in their recorded order. |
| Modeling.PredictSeesOnlyFeatures | datafusion_ml/modeling.py:173 | Tables that agree on the model's features get the same predictions. |
| Modeling.TrainedModelPredicts | datafusion_ml/modeling.py:107 | A trained model predicts on any table that has its training columns, with one value per row when the learners are row-wise. |
| Fusion.InferOverlapFeatures | datafusion_ml/fusion.py:20-27 | Strictly sorted; a name is in it exactly when it is a column of both tables and not excluded. |
| Fusion.ExclusiveColumns | datafusion_ml/fusion.py:30-31 | Strictly sorted and duplicate-free; exactly the columns of the left table that the right one lacks. |
| Fusion.FilterOverlap | datafusion_ml/fusion.py:61 | An explicit overlap list keeps exactly the names present in both tables, in the caller's order and with every repetition. |
| Fusion.ResolveOverlap | datafusion_ml/fusion.py:57-61 | Every overlap name is a column of both tables. An inferred overlap contains no target of either side. |
| Fusion.Recode | datafusion_ml/fusion.py:42-43 | `astype(CategoricalDtype(cats))` gives a categorical column over `cats` with the same length. |
| Fusion.RecodeKeepsCells | datafusion_ml/fusion.py:41-43 | Recoding to levels that hold every present value changes no cell. |
| Fusion.AlignColumn | datafusion_ml/fusion.py:40-43 | Numeric pairs are untouched. Otherwise it fails exactly when numbers and strings are mixed. On success both sides share strictly sorted levels that are exactly the present values of either side, and no cell changes. |
| Fusion.AlignColumnIdempotent | datafusion_ml/fusion.py:39-43 | Aligning an aligned pair again changes nothing. |
| Fusion.AlignedTables | datafusion_ml/fusion.py:34-44 | The aligned copies are valid, with the columns and rows of the inputs. |
| Fusion.SingleNotBefore | datafusion_ml/fusion.py:39 | A name listed once is not met before its position in the list. |
| Fusion.CoerceCategoricalAlignment | datafusion_ml/fusion.py:34-44 | Succeeds exactly when every name listed once can be aligned (`AlignmentOk`), and then returns `AlignedTables`: each name listed once becomes its aligned pair; repeated names, every other column, the column order and the row counts stay unchanged. |
| Fusion.AlignAdvance | datafusion_ml/fusion.py:39-43 | Aligning a name listed once, not passed before, extends the aligned prefix by that name. |
| Fusion.AlignSkip | datafusion_ml/fusion.py:39-40 | Passing a repeated name changes nothing and extends the aligned prefix. |
| Fusion.AlignedAll | datafusion_ml/fusion.py:44 | Once every name has been passed, the copies are exactly `AlignedTables`. |
| Fusion.AlignedLeft | datafusion_ml/fusion.py:37-44 | The left copy is the left table of `AlignedTables`. |
| Fusion.AlignedRight | datafusion_ml/fusion.py:38-44 | The right copy is the right table of `AlignedTables`. |
| Fusion.TargetModel | datafusion_ml/fusion.py:78-79 | The model for a target is trained on the source's overlap features, under the caller's problem type or the detected one. |
| Fusion.PredColumnName | datafusion_ml/fusion.py:82 | Predictions are stored under the target's name, or under `<target>_pred` when that name is taken. |
| Fusion.PredNames | datafusion_ml/fusion.py:76-82 | One storage name per target, in the targets' order. |
| Fusion.StepOutcome | datafusion_ml/fusion.py:76-83 | A missing target is a KeyError and a prediction array of the wrong length a ValueError. On success the predictions are stored under that name, no other column changes, the rows are kept and the model is recorded. |
| Fusion.EnrichSpec | datafusion_ml/fusion.py:74-95 | The enrichment loop as a left fold: a successful result is a valid table with the destination's rows. |
| Fusion.EnrichShape | datafusion_ml/fusion.py:74-83 | After enrichment the columns are the successive `AddName`s, every distinct target has exactly the model trained for it, and earlier models of other names are kept. |
| Fusion.EnrichColumns | datafusion_ml/fusion.py:82-83 | The enriched columns are the successive `AddName`s of the prediction names. |
| Fusion.SpecUnfold | datafusion_ml/fusion.py:76-83 | A successful fold starts with a successful step that records the first target's model, and continues from its result. |
| Fusion.EnrichKeeps | datafusion_ml/fusion.py:75-83 | A successful enrichment keeps the cells of every destination column that no target is stored under. |
| Fusion.EnrichProduces | datafusion_ml/fusion.py:79-83 | After a successful enrichment, the column each target was last stored under holds the prediction of that target's model on the destination features. |
| Fusion.ProducedAtIndex | datafusion_ml/fusion.py:79-83 | The same for the target at one position, by induction on the position. |
| Fusion.ProducedLater | datafusion_ml/fusion.py:76-83 | A target after the first delivers its prediction because it does so in the rest of the fold. |
| Fusion.ProducesFirst | datafusion_ml/fusion.py:79-83 | The first target's column holds its prediction unless a later target overwrote it. |
| Fusion.NamesUnfold | datafusion_ml/fusion.py:76-82 | A successful fold is one step followed by the fold of the rest, and the rest stores under the remaining names. |
| Fusion.ShiftWrite | datafusion_ml/fusion.py:76-83 | Facts about the `i`-th target of the list are those about the `(i-1)`-th of its tail. |
| Fusion.EnrichTargetsPresent | datafusion_ml/fusion.py:77 | A successful enrichment read every target from the source. |
| Fusion.EnrichModelsFold | datafusion_ml/fusion.py:79-80 | The models a successful enrichment records are those of the table-free fold `ModelsFor`. |
| Fusion.ModelsForContents | datafusion_ml/fusion.py:79-80 | The fold records exactly the targets and the earlier names; each target maps to the model trained for it, and earlier models of other names are kept. |
| Fusion.EnrichModels | datafusion_ml/fusion.py:79-80 | The recorded model names are the earlier ones plus the targets; each target has its own trained model. |
| Fusion.EnrichOutcome | datafusion_ml/fusion.py:76-83 | Enrichment succeeds only if every target is a source column. With row-wise learners it succeeds exactly then, and a failure names a missing target. |
| Fusion.BareNames | datafusion_ml/fusion.py:82 | Distinct targets that are not yet columns are appended under their own names, in order. |
| Fusion.EnrichDirection | datafusion_ml/fusion.py:74-83 | The imperative loop computes exactly the fold `EnrichSpec` from an empty model map. |
| Fusion.EnrichDelivers | datafusion_ml/fusion.py:86-95 | A successful direction keeps the destination's rows, has one model per distinct target, and trains each model on the overlap features under its target's name. |
| Fusion.EnrichDeliversCells | datafusion_ml/fusion.py:74-95 | A successful direction keeps the untouched destination columns and holds, under each target's last name, its recorded model's predictions on the destination features. |
| Fusion.DirectionOutcome | datafusion_ml/fusion.py:74-95 | A direction succeeds only if every target is a source column, and then delivers the column layout, the models and the predicted cells. With row-wise learners on matching rows it succeeds exactly then. |
| Fusion.BarePredNames | datafusion_ml/fusion.py:82 | Distinct targets that are not yet columns are stored under their own names. |
| Fusion.DefaultTargetCells | datafusion_ml/fusion.py:63-83 | With the default targets, each target is a new column holding its model's predictions, and every original column keeps its cells. |
| Fusion.DistinctLastWrite | datafusion_ml/fusion.py:76-83 | Without repeated names, no target's column is overwritten. |
| Fusion.DefaultTargetNames | datafusion_ml/fusion.py:63-66 | Default targets are new to the other table and distinct, so each is stored under its own name. |
| Fusion.ProjectedAlignment | datafusion_ml/fusion.py:69-71 | The overlap columns align in the projections exactly when they align in the full tables. |
| Fusion.OverlapFeatures | datafusion_ml/fusion.py:69-71 | The aligned overlap projections are valid, hold exactly the overlap columns and keep the rows of their tables. |
| Fusion.FusedColumns | datafusion_ml/fusion.py:98 | Strictly sorted, and exactly the union of both tables' columns. |
| Fusion.FusedTable | datafusion_ml/fusion.py:97-102 | Valid, with as many rows as both tables together, over the sorted union of their columns. |
| Fusion.FusedTableCells | datafusion_ml/fusion.py:97-102 | Rows of A come first, then rows of B. Each cell is taken from its table, or missing where that table lacks the column. |
| Fusion.StackedColumn | datafusion_ml/fusion.py:99-101 | One stacked column holds the first table's cells and then the second's, missing where a table lacks the column. |
| Fusion.FuseDatasets | datafusion_ml/fusion.py:47-110 | Succeeds only if every overlap column listed once aligns and every target is a source column, and with row-wise learners exactly then. Both directions deliver their layout and models. Each enriched table keeps its untouched cells and holds each target's predictions on the aligned overlap features. The fused table stacks the enriched tables, and inferred targets keep their bare names. |
| Service.BuildConfig | datafusion_ml/service/fusion_service.py:37-51 | `prefer_pycaret` and `random_state` default to True and 42. Each advanced field replaces its default only when given. |
| Service.MaybeFilter | datafusion_ml/service/fusion_service.py:13-30 | The kept columns are the present ones, restricted by the include list when it names a present column, minus the excluded ones. They are in the include list's order, or the table's order. The rows are `min(rows, row_limit)`; cells are prefixes of the originals. |
| Service.IncludeStage | datafusion_ml/service/fusion_service.py:20-23 | The include list, when it names a present column, keeps exactly the present listed columns in its order; otherwise the table is unchanged. |
| Service.ExcludeStage | datafusion_ml/service/fusion_service.py:24-27 | Exactly the excluded names are dropped; the remaining columns keep their order and their cells. |
| Service.IncludeAndLimit | datafusion_ml/service/fusion_service.py:20-29 | An include list of present columns with a row limit gives exactly the limited number of records, each keyed by exactly those names. |
| Service.CleanOne | datafusion_ml/service/fusion_service.py:83 | Exactly the NaN metric values are dropped; the others are unchanged. |
| Service.Clean | datafusion_ml/service/fusion_service.py:80-87 | Every target is kept, and within each only NaN values are dropped. |
| Service.WantedParts | datafusion_ml/service/fusion_service.py:64 | The requested part names, or all four parts when none are requested. |
| Service.BuildResponse | datafusion_ml/service/fusion_service.py:64-88 | A part is present exactly when wanted. Each table part holds the records of its filtered table, and the metrics are cleaned. |
| Service.PerformFusion | datafusion_ml/service/fusion_service.py:33-88 | Returns the configuration, the fusion result and the response. The configuration has the request's preference and seed. With row-wise learners the call succeeds exactly when the fusion can. The result's tables are valid, with the inputs' rows, the fused table stacking the enriched ones and both directions delivering. Each wanted table part holds the records of that filtered result table, and each metrics part holds the cleaned metrics. |
| Cli.SplitColumns | datafusion_ml/cli.py:11-14 | No option or a blank one gives None. Otherwise the comma items, each non-empty, comma-free and stripped. |
| Cli.SeparatorsOnlyGiveEmptyList | datafusion_ml/cli.py:12-14 | A non-blank option of only commas and whitespace gives an empty list, not None. |
| Cli.SplitColumnsOfJoin | datafusion_ml/cli.py:14 | Clean names written as a comma list are read back unchanged. |
| WebConfig.BelowMinimum | datafusion_ml/web/config.py:37-52 | No field is reported exactly when `max_body_mb`, `max_rows` and `rate_limit_per_minute` are all at least 1. |
| WebConfig.Overlay | datafusion_ml/web/config.py:9-76 | Without environment values the settings are the declared defaults. |
| WebConfig.NormalizeOrigins | datafusion_ml/web/config.py:89-91 | A list is kept, and a raw string becomes its comma list. |
| WebConfig.FromEnv | datafusion_ml/web/config.py:78-104 | Out-of-range fields, then credentials with `*`, then JWT without a secret are rejected, in that order and exactly then. Accepted settings hold a normalised origin list and satisfy both checks. |
| WebConfig.DefaultsAreConsistent | datafusion_ml/web/config.py:12-76 | The defaults pass every bound and check (50 MB, 200000 rows, 60 requests per minute). |
| WebConfig.WildcardInRawOrigins | datafusion_ml/web/config.py:89-97 | A `*` item in a raw origin string survives normalisation, so it is caught by the credentials check. |
| Router.DetectFileType | datafusion_ml/web/routers/fusion.py:113-149 | Empty content is 422. A `PAR1` start is Parquet whatever the name, and a `PK` start of four bytes or more is 422. Otherwise a `.parquet` name (any case) gives Parquet and `.xlsx`/`.xls` gives 422. The result is CSV exactly when none of these applies. |
| Router.ValidateFileSize | datafusion_ml/web/routers/fusion.py:103-110 | 413 exactly when the content exceeds `max_size_mb` MiB. |
| Router.CsvPrecheck | datafusion_ml/web/routers/fusion.py:157-177 | Accepted exactly when non-empty with a `,`, `;`, tab, LF or CR among the first 1024 bytes; otherwise 422. |
| Router.ParquetPrecheck | datafusion_ml/web/routers/fusion.py:203-216 | Accepted exactly when the content starts with `PAR1`; otherwise 422. |
| Router.CheckUploads | datafusion_ml/web/routers/fusion.py:250-278 | Accepted uploads are non-empty and within the size limit. A file read as Parquet starts with `PAR1`, and one read as CSV has a delimiter near its start, whatever its name. |
| Router.ParquetMagicWins | datafusion_ml/web/routers/fusion.py:123-125 | Parquet content within the limit is read as Parquet whatever the file names. |
| Router.ParquetNameWithoutMagicRejected | datafusion_ml/web/routers/fusion.py:136-141 | A `.parquet` name without the magic number passes detection but is rejected by the Parquet guard. |
| Router.ParquetNameAnyCase | datafusion_ml/web/routers/fusion.py:136-141 | Any case variant of `.parquet` at the end of a name is read as Parquet when the bytes decide nothing. |
| Router.CheckRowLimit | datafusion_ml/web/routers/fusion.py:51-57 | 413 exactly when the requested row limit exceeds `max_rows`. |
| Router.Unexpired | datafusion_ml/web/routers/fusion.py:39-43 | Exactly the entries at most 3600 seconds old remain, unchanged. |
| Router.LaterCleanupSubsumes | datafusion_ml/web/routers/fusion.py:31-48 | Cleaning up later after cleaning up earlier is the same as cleaning up once, later. |
| Router.FreshEntrySurvives | datafusion_ml/web/routers/fusion.py:60-72 | A job written at time `t` is still reported at any time within the TTL of `t`. |
| Router.JobStore.constructor | datafusion_ml/web/routers/fusion.py:25-26 | The store starts empty, with both maps on the same keys. |
| Router.JobStore.CleanupOldJobs | datafusion_ml/web/routers/fusion.py:31-48 | Removes exactly the expired jobs from both maps, which keep the same keys. |
| Router.JobStore.CreateJob | datafusion_ml/web/routers/fusion.py:75-87 | After the cleanup, the new job is pending and stamped `now`. |
| Router.JobStore.CompleteJob | datafusion_ml/web/routers/fusion.py:60-72 | The job becomes done with its result or failed with its message, and its stamp is refreshed. |
| Router.JobStore.Status | datafusion_ml/web/routers/fusion.py:90-100 | After the cleanup, a stored job is reported and any other id is 404. |
| Middleware.Recent | datafusion_ml/web/middleware.py:63-66 | Keeps exactly the timestamps newer than the cutoff, in order. |
| Middleware.RecentTwice | datafusion_ml/web/middleware.py:33-38 | Pruning at a later cutoff after an earlier one equals pruning at the later one. |
| Middleware.RecentAppend | datafusion_ml/web/middleware.py:72-73 | Pruning distributes over appending one timestamp. |
| Middleware.Pruned | datafusion_ml/web/middleware.py:33-40 | Every list is pruned, and exactly the clients whose list becomes empty are deleted. |
| Middleware.Decide | datafusion_ml/web/middleware.py:61-74 | A request is admitted exactly when fewer than the limit remain in the last minute, and only then recorded. An admitted history has at most the limit. |
| Middleware.SlidingWindow | datafusion_ml/web/middleware.py:55-74 | For requests in time order, the history is exactly the admitted requests of the last minute and never exceeds the limit. |
| Middleware.NondecreasingInit | datafusion_ml/web/middleware.py:55-74 | Requests but the last stay in time order, and the last of them is not after the final one. |
| Middleware.WindowStep | datafusion_ml/web/middleware.py:61-74 | One decision keeps the history equal to the last minute's admitted requests and within the limit. |
| Middleware.GetClientId | datafusion_ml/web/middleware.py:44-53 | A non-empty `X-Forwarded-For` gives its text before the first comma, stripped, so comma-free. Otherwise a non-empty `X-Real-IP`, then the client host, then `"unknown"`. |
| Middleware.ForwardedFirstHop | datafusion_ml/web/middleware.py:47-49 | The first hop of a proxy chain is identified exactly. |
| Middleware.JwtCheck | datafusion_ml/web/middleware.py:102-138 | No secret or an exempt path skips the check. A missing header or one not starting with `Bearer ` is rejected, exactly then. A verified token is the header after `Bearer `. |
| Middleware.BearerRoundTrip | datafusion_ml/web/middleware.py:131-138 | `Bearer <token>` yields exactly `<token>`. |
| Middleware.PartlyPrunedStep | datafusion_ml/web/middleware.py:34-40 | Visiting one more client in the cleanup loop prunes or deletes exactly that client. |
| Middleware.PartlyPrunedDone | datafusion_ml/web/middleware.py:34-42 | Once every client is visited, the map is fully pruned. |
| Middleware.RateLimiter.constructor | datafusion_ml/web/middleware.py:21-25 | The limiter starts empty with its limit and its cleanup time set. |
| Middleware.RateLimiter.CleanupOldEntries | datafusion_ml/web/middleware.py:27-42 | Within 60 seconds of the last cleanup nothing changes. Otherwise every list is pruned to the last minute, emptied clients are deleted and the time is recorded. |
| Middleware.RateLimiter.IsAllowed | datafusion_ml/web/middleware.py:55-74 | After the cleanup, the client's history is the `Decide` outcome and the client entry exists. No other client changes, and the history stays within the limit. |
| Middleware.RateLimiter.Admit | datafusion_ml/web/middleware.py:77-99 | Exempt paths pass without touching the limiter. Other requests pass exactly when admitted, and otherwise get 429. The client's history becomes the `Decide` outcome on the cleaned map, and the cleanup time advances only when a minute has passed. |
| Notebooks.ToLines | scripts/rewrite_notebooks.py:40-41 | Every line ends with one newline and has no other. There is one more line than there are newlines in the stripped block. |
| Notebooks.ConcatTerminated | scripts/rewrite_notebooks.py:41 | Pieces given back their newline concatenate to their newline-join plus one newline. |
| Notebooks.ToLinesConcat | scripts/rewrite_notebooks.py:40-41 | The lines concatenate to the stripped block followed by exactly one newline. |
| Notebooks.StripNewlinesEmpty | scripts/rewrite_notebooks.py:41 | Stripping newlines empties exactly the blocks made of newlines only. |
| Notebooks.ToLinesOfBlank | scripts/rewrite_notebooks.py:40-41 | A block made only of newlines gives `["\n"]`, and only such a block. |
| Notebooks.WriteNotebook | scripts/rewrite_notebooks.py:6-34 | Two cells: a markdown heading `# <title>`, then an unexecuted code cell with the lines and no outputs. Format 4.5, Python 3 kernel. |
| Notebooks.NotebookOfBlock | scripts/rewrite_notebooks.py:6-41 | A notebook written from a block gives back its title from the heading. Its code cell reads as the stripped block plus one newline. |

## Left out

- Fitting and prediction of scikit-learn and PyCaret (imputation, one-hot encoding, random
  forests, `compare_models`, `finalize_model`). They are floating-point foreign code. They
  enter as the function fields of `Learner`, and fitted models are opaque handles.
- `is_pycaret_available` is an import probe. It enters as a boolean parameter.
- Reading CSV, Parquet and JSON, `pd.DataFrame.from_records`, and the file writes of the CLI
  and the notebook script are I/O. Tables enter as values; parsing and serialisation are not
  modelled.
- The `main` functions of the CLI and the notebook script, and the example scripts, are glue
  and I/O.
- Clocks, `uuid4`, the thread lock around the job store, `async` handlers and
  `BackgroundTasks` are not modelled. Time and job ids are parameters.
- Interleaving is not modelled: each method of `JobStore` and `RateLimiter` runs as one
  atomic step. The source does not guarantee this. `fuse_async` and `fuse_async_status`
  run the cleanup and the store access under separate acquisitions of the lock
  (`web/routers/fusion.py:79-84` and `94-97`), so another request can run in between. The
  rate limiter holds no lock at all (`web/middleware.py:27-74`).
- Tables hold one column per name. pandas allows repeated labels, which arise when an
  explicit overlap list repeats a name (`fusion.py:61`, `69-70`). The model keeps only the
  effect that matters downstream: repeated names are not aligned. A projected feature
  table lists such a name as often as it is given but holds one column for it, so a
  model's feature list repeats the name where pandas would pass the duplicated column.
- Learners are total functions: training and prediction never raise. scikit-learn and
  PyCaret can raise, for instance on missing target values or on an empty feature list.
  A raised exception aborts `fuse_datasets`, and no such failure is modelled. The only
  modelled failures are missing targets, misaligned categories and prediction arrays of
  the wrong length.
- The signature check of `jwt.decode` (PyJWT) is not modelled. `JwtCheck` stops at the token
  it would verify.
- Logging and exception messages are not modelled. Errors are tagged values carrying the
  HTTP status.
- The CORS middleware wiring and app construction in `web/app.py` are not part of this model.
- Metrics and cross-validation do not exist in the `fuse_datasets` shown. `PerformFusion`
  takes the metric maps as parameters and does not pass its configuration on.
- Metric values are `Finite`, `PosInf`, `NegInf` or `NaN`. Floating-point arithmetic is not
  modelled.
- Fusion.FuseDatasets: success is characterised exactly only for row-wise learners (one
  prediction per row). For other learners only the "only if" direction is stated. A
  learner giving arrays of the wrong length fails with `LengthMismatch`.
- Service.PerformFusion: its success condition is stated only for row-wise learners, for
  the same reason.
- Frame.ConcatRows: the dtype of a stacked column follows a simplified common-type rule
  (`CombineDType`), not pandas' full upcasting rules.
- Modeling.ClassLimit: `int(0.2 * n_obs)` is modelled as `n_obs / 5`. The two agree for
  every count below 2^52. Above that the double `0.2`, which is slightly more than 1/5,
  can round the product up to the next integer (for `n_obs = 7000000000000004` the source
  gives 1400000000000001).
- Router.DetectFileType: `str.lower()` is modelled on ASCII only. For the ASCII suffixes
  `.parquet`, `.xlsx` and `.xls` the outcome is the same.
- Router.CsvPrecheck: the UTF-8 decode with `errors="ignore"` is not modelled. It keeps every
  ASCII byte and never raises, so the check is made on bytes, and the dead
  `UnicodeDecodeError` branch is absent.
- Middleware.RateLimiter.IsAllowed: `time.time()` is read once. The source reads it separately
  in the cleanup and in the check.
- The settings class construction in pydantic (type coercion of environment strings) is not
  modelled. `EnvValues` holds the already-converted values.
