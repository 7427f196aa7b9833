# Electricity price forecasting: the table and feature logic

This project models the core of a daily electricity-price forecasting system
for the Swedish SE3 region. The system has these parts:

- It fetches hourly spot prices day by day and aggregates them into daily
  rows.
- It joins the daily prices with daily weather and engineers calendar, weather,
  lag and rolling features (the backfill pipeline).
- It stores feature tables in a versioned table store. That store is either a
  file-backed stand-in or the managed remote store. The stand-in's feature view
  splits a table chronologically into train and test parts.
- It trains a model on a prefix/suffix split. It then writes the model's
  artifacts into a local directory, or registers them through a temporary
  directory.
- It builds forecast feature rows from the recent price history.
- It keeps a prediction-tracking ledger. Each run replaces the rows of its
  target dates.
- It reconciles the ledger with actual prices into a predicted-versus-actual
  view with absolute errors and a mean absolute error.
- It reads rows back for a dashboard through date, range, city and cutoff
  filters.

Tables are pandas frames in the original. Here a row is a map from column name
to value, and a column absent from the row is a missing (NaN) cell. Numeric
daily tables (`Frames.DailyRow`) map column names to reals. Dates are day
numbers counted from 1970-01-01 and timestamps are seconds. The file system is
the class `Disk.FileSystem`, which has a map of table files and a map of
directories. Code that only computes is written as functions with lemmas.
Code that changes stored state is written as methods. `LocalStorage.Insert`,
`LocalStorage.Save`, `Training.SaveModelLocal` and
`Training.SaveModelHopsworks` take a `Disk.FileSystem` and modify it.
`Inference.SavePredictionsForTracking` modifies an `Inference.TrackingFile`.
The lazily connecting remote store is the class
`StorageFactory.HopsworksStorage`. The price fetch loop is the method
`Prices.FetchDays`, with a loop invariant tying it to its specification
functions.

The model, the clock, HTTP requests, the environment and the remote registry
are parameters:

- `predict` stands for `model.predict`.
- `fetch` stands for the HTTP request plus JSON decoding.
- `now` and `savedAt` are clock readings.
- `env` is the process environment.
- `login` and `register` are the remote calls.
- `sampleStd` and `populationStd` are the floating-point standard deviations.

Modules: `Wrappers` (Option/Result), `Strings`, `Calendar`, `Stats`, `Sorting`
(a stable insertion sort standing for `sort_values`), `Dedup`
(`drop_duplicates(keep='last')`), `Frames`, `Disk`, and one module per core
source file: `LocalStorage`, `FeatureBackfill`, `Inference`, `Training`,
`Retrieval`, `StorageFactory`, `Prices`.

## Model

| member | source | states |
|---|---|---|
| LocalStorage.Insert | functions/local_storage.py:22-44 | the group's file afterwards holds `AfterInsert` of its old content (or of no file) and the batch; no other file and no directory changes |
| LocalStorage.Read | functions/local_storage.py:46-59 | an absent file reads as the empty frame; otherwise the stored table |
| LocalStorage.InsertReplaces | functions/local_storage.py:33-34 | with `overwrite` or with no file yet, the stored table is exactly the batch |
| LocalStorage.InsertAppendDeduplicates | functions/local_storage.py:36-43 | appending with both key columns keeps the surviving old rows whose key the batch lacks, then the batch's survivors; keys are unique; every key of either side remains; the result is a subsequence of old ++ new; every row is the last one with its key |
| LocalStorage.InsertIncomingWins | functions/local_storage.py:39-43 | on a (date, city) collision the batch's last row with that key is stored and no other row with that key remains |
| LocalStorage.InsertAppendWithoutKey | functions/local_storage.py:39-43 | without `date` or `city`, appending concatenates: length is old + new |
| LocalStorage.InsertTwiceIsOnce | functions/local_storage.py:36-43 | with both key columns, appending the same batch twice equals appending it once |
| LocalStorage.InsertTwiceIntoNewFile | functions/local_storage.py:33-43 | a first insert into an absent file stores the batch undeduplicated; a second identical insert agrees with it when the batch has one row per key |
| LocalStorage.ReadAfterInsert | functions/local_storage.py:22-59 | after an insert, reading that group returns the stored table and reading any other file is unchanged |
| LocalStorage.Truncate | functions/local_storage.py:107 | `int()` of a non-negative float is its floor |
| LocalStorage.SliceBound | functions/local_storage.py:109-110 | a slice bound within the length denotes itself; any bound is clamped into the sequence |
| LocalStorage.SplitIndex | functions/local_storage.py:107 | for `0 <= test_size <= 1` the split index is the floor of n·(1 − test_size), never past n |
| LocalStorage.FeatureColumns | functions/local_storage.py:113 | a column is a feature iff it is not a label, `date` or `city` |
| LocalStorage.TrainTestSplit | functions/local_storage.py:87-128 | an empty table gives four empty results; a non-empty one fails iff `date` is missing or its present cells mix kinds (numbers, strings, dates) that `sort_values` cannot compare, the first label is missing, or `city` is missing |
| LocalStorage.SplitAtAligned | functions/local_storage.py:115-118 | after a cut, X and y have the same length row for row; y is the first label's cells, or empty without labels |
| LocalStorage.SortedRows | functions/local_storage.py:104 | the rows a split works on are a permutation of the stored rows, ordered by date cell |
| LocalStorage.TrainTestSplitPartition | functions/local_storage.py:104-124 | X's columns are the features plus `date` and `city`; train ++ test is the table, reordered by date cell (a permutation of it), projected on X; train has `SplitIndex` rows |
| LocalStorage.SplitAtPartition | functions/local_storage.py:109-110 | cutting at k puts the first k projected rows in train and the rest in test |
| LocalStorage.TrainTestSplitChronological | functions/local_storage.py:104-110 | no training row's date cell orders after a test row's (numbers, strings or dates by value, missing last) |
| LocalStorage.TrainTestSplitChronologicalDays | functions/local_storage.py:104-110 | with dates stored as dates, no training day comes after a test day |
| LocalStorage.SplitAtChronological | functions/local_storage.py:109-110 | a cut of rows sorted by date cell leaves every train row `DateCellLe` every test row |
| LocalStorage.TrainTestSplitAligned | functions/local_storage.py:115-118 | y_train and y_test line up with X_train and X_test and hold the first label's cells |
| LocalStorage.TrainTestSplitCut | functions/local_storage.py:104-118 | a successful split of a non-empty table is the cut of the rows, ordered by date cell, at the split index |
| LocalStorage.GetOrCreateFeatureGroup | functions/local_storage.py:140-155 | a handle with the given name, version and base path; no file is created |
| LocalStorage.GetFeatureGroup | functions/local_storage.py:157-171 | fails iff the (name, version) file is absent; otherwise the same handle as get-or-create |
| LocalStorage.GetOrCreateFeatureView | functions/local_storage.py:173-189 | ValueError iff no query is given; the view reads that group; absent labels become `[]` |
| LocalStorage.CreateModel | functions/local_storage.py:205-217 | always version 1, in `{base}/{name}_v1` |
| LocalStorage.GetModel | functions/local_storage.py:219-230 | the handle of the requested version, without metrics or description |
| LocalStorage.Metadata | functions/local_storage.py:262-271 | `metadata.json` has exactly name, version, description, metrics and saved_at: the model's name, version and description, its metrics object or null, and the clock's reading |
| LocalStorage.Save | functions/local_storage.py:246-273 | the directories become `DirsAfterSave`; tables are untouched; success iff the source directory exists and is not the model directory itself |
| LocalStorage.SaveReplacesDirectory | functions/local_storage.py:255-271 | after a successful save the model directory holds exactly the copied files plus `metadata.json`; no other directory changes |
| LocalStorage.SaveTwiceKeepsSecond | functions/local_storage.py:255-271 | two saves leave only what the second one wrote |
| LocalStorage.FailedSaveLosesModel | functions/local_storage.py:255-258 | when the copy fails the old model directory is already gone |
| LocalStorage.Download | functions/local_storage.py:275-286 | fails iff the model directory is absent; otherwise returns its path |
| FeatureBackfill.Matches | pipelines/feature_backfill.py:38 | the joined rows of one weather row are its combinations with the price rows of its date |
| FeatureBackfill.Merge | pipelines/feature_backfill.py:38 | the inner join holds a combined row for every (weather, price) pair sharing a date, and only those |
| FeatureBackfill.JoinedSpec | pipelines/feature_backfill.py:38-40 | the sorted join holds exactly the combined rows of (weather, price) pairs sharing a date, and its dates ascend |
| FeatureBackfill.JoinedDates | pipelines/feature_backfill.py:38 | a date occurs in the join iff both inputs have a row for it |
| FeatureBackfill.Window | pipelines/feature_backfill.py:59-61 | the trailing window at i holds the prices of positions max(0, i−6) .. i in order |
| FeatureBackfill.Product | pipelines/feature_backfill.py:49-52 | a product is present iff both factors are, and then it is their product |
| FeatureBackfill.FeatureRow | pipelines/feature_backfill.py:43-64 | a feature row keeps the joined row's date, and each of its cells is the derived cell for that column at that position |
| FeatureBackfill.Features | pipelines/feature_backfill.py:43-64 | one feature row per joined row, position for position |
| FeatureBackfill.CalendarCells | pipelines/feature_backfill.py:43-46 | day_of_week, month and day_of_year come from the row's own date; is_weekend is 1 iff day_of_week ≥ 5 |
| FeatureBackfill.WeatherCells | pipelines/feature_backfill.py:49-52 | temp_squared is temperature², wind_temp_interaction is wind × temperature, of the same row |
| FeatureBackfill.LagCells | pipelines/feature_backfill.py:55-56 | price_lag_1d at i is the price at i−1, missing at 0; price_lag_7d is the price at i−7, missing below 7 |
| FeatureBackfill.OtherCells | pipelines/feature_backfill.py:43-64 | columns the transform does not assign keep the joined row's cells |
| FeatureBackfill.RollingMeanPresent | pipelines/feature_backfill.py:59-61 | the rolling mean column holds `RollingMean`, which is present iff some price at positions max(0, i−6) .. i is present |
| FeatureBackfill.RollingMeanBounds | pipelines/feature_backfill.py:59-61 | the rolling mean lies within any bounds of its window's prices |
| FeatureBackfill.RollingMeanFullWindow | pipelines/feature_backfill.py:59-61 | with seven present prices, the rolling mean is the mean of prices i−6 .. i |
| FeatureBackfill.DropCritical | pipelines/feature_backfill.py:68-69 | a row is kept iff it is an input row with price, temperature and price_lag_1d all present |
| FeatureBackfill.DropCriticalAppend | pipelines/feature_backfill.py:68-69 | the drop distributes over concatenation |
| FeatureBackfill.Filled | pipelines/feature_backfill.py:72 | a filled row keeps its row's date |
| FeatureBackfill.ForwardFill | pipelines/feature_backfill.py:72 | one filled row per row, position for position |
| FeatureBackfill.LastWith | pipelines/feature_backfill.py:72 | the nearest position at or before i with the column present: present there, absent at every later position up to i |
| FeatureBackfill.ForwardFillPrefix | pipelines/feature_backfill.py:72 | the fill of a prefix is the prefix of the fill |
| FeatureBackfill.ForwardFillNearest | pipelines/feature_backfill.py:72 | a filled cell is present iff the column had a value at or before the row, and takes the nearest such value |
| FeatureBackfill.EngineerFeatures | pipelines/feature_backfill.py:26-74 | KeyError iff temperature, wind or price is absent from the joined columns |
| FeatureBackfill.DropCriticalOrder | pipelines/feature_backfill.py:69 | kept rows keep their relative order: later kept rows come from later input positions |
| FeatureBackfill.OutputRow | pipelines/feature_backfill.py:69-72 | an output row has the date of its joined row, keeps every cell that row had after the derived columns, and has price, temperature and price_lag_1d |
| FeatureBackfill.EngineerFeaturesSorted | pipelines/feature_backfill.py:40-72 | output dates ascend |
| FeatureBackfill.EngineerFeaturesDates | pipelines/feature_backfill.py:38-69 | every output date has a row in both inputs |
| FeatureBackfill.EngineerFeaturesWeather | pipelines/feature_backfill.py:49-72 | every output row has price, temperature and price_lag_1d, and temp_squared is its temperature squared |
| FeatureBackfill.FeatureSquared | pipelines/feature_backfill.py:49 | a feature row's temp_squared is its temperature squared |
| FeatureBackfill.EngineerFeaturesCalendar | pipelines/feature_backfill.py:43-72 | every output row carries day_of_week, month and day_of_year of its date, and is_weekend 1 on Saturday and Sunday and 0 on the other days |
| FeatureBackfill.FirstRowDropped | pipelines/feature_backfill.py:55-69 | the first joined row lacks price_lag_1d and never survives the drop |
| FeatureBackfill.LeadingLag7StaysMissing | pipelines/feature_backfill.py:56-72 | the kept rows from the first seven joined positions stay without price_lag_7d after the fill |
| Inference.LoadModelLocal | pipelines/inference_pipeline.py:32-49 | loads iff the experiment directory exists with the model file and a JSON feature-name file; an absent directory is FileNotFoundError |
| Inference.SavedModelLoads | pipelines/inference_pipeline.py:32-49 | after `save_model_local` the model loads and the saved feature names come back unchanged |
| Inference.HistoryPrices | pipelines/inference_pipeline.py:100 | one price per history row, the row's price cell or missing |
| Inference.Recent | pipelines/inference_pipeline.py:100 | `tail(200)`: the suffix of the last min(200, n) prices |
| Inference.NanMean | pipelines/inference_pipeline.py:116-117 | present iff there is a value and none is missing |
| Inference.ForecastRow | pipelines/inference_pipeline.py:125 | the row holds only requested names, each with the forecast cell for its column |
| Inference.PrepareWith | pipelines/inference_pipeline.py:72-125 | fails iff temperature or wind is missing from the forecast or price from the history (KeyError) or the history has no rows (IndexError); otherwise one row per forecast row, with columns exactly `feature_names` |
| Inference.PrepareForecastFeatures | pipelines/inference_pipeline.py:72-125 | the pipeline as written: hourly offsets, no day_of_year |
| Inference.PrepareForecastFeaturesDaily | pipelines/inference_pipeline.py:72-125 | the corrected preparation: daily offsets, day_of_year computed |
| Inference.PreparedCell | pipelines/inference_pipeline.py:125 | a requested cell of an output row is the forecast cell for that column |
| Inference.HistoryCells | pipelines/inference_pipeline.py:102-118 | the lag and rolling cells of a forecast row are picked from the recent prices |
| Inference.RecentLag | pipelines/inference_pipeline.py:100-110 | within the `tail(200)` cut, `recent[-k]` is the history's price k from the end, or the last one when fewer exist |
| Inference.RecentWindow | pipelines/inference_pipeline.py:100-118 | within the cut, `recent[-w:]` is the history's last w prices, or all of them |
| Inference.ForecastLags | pipelines/inference_pipeline.py:100-110 | every forecast row's price_lag_1d is the price 24 rows from the end (the last when fewer) and price_lag_7d the one 168 rows from the end |
| Inference.ForecastRollingMean | pipelines/inference_pipeline.py:113-118 | every forecast row's rolling mean is the NaN-propagating mean of the last 168 prices, or of all of them |
| Inference.ForecastDefaults | pipelines/inference_pipeline.py:121-125 | every requested feature the forecast lacks is 0; output columns are exactly the requested names in order |
| Inference.DefaultCell | pipelines/inference_pipeline.py:121-123 | a column neither computed nor in the forecast is 0 |
| Inference.ForecastCalendar | pipelines/inference_pipeline.py:88-91 | day_of_week and month are those of the row's date, is_weekend is 1 on Saturday and Sunday and 0 on the other days, and hour is 0 |
| Inference.ForecastDayOfYearIsZero | pipelines/inference_pipeline.py:88-123 | as written, day_of_year is 0 unless the forecast carries it, whereas a training row's is at least 1 |
| Inference.ForecastLagCountsHours | pipelines/inference_pipeline.py:102-105 | as written, on a 24-day history 0, 1, …, 23 the forecast's price_lag_1d is 0.0, not 23.0 |
| Inference.DailyForecastLags | pipelines/inference_pipeline.py:102-110 | with daily offsets the forecast lags equal the backfill lags of the day after the history |
| Inference.ExtendedLags | pipelines/feature_backfill.py:55-56 | the backfill lags at the day after the history are its last price and the price seven rows back |
| Inference.DailyOutLags | pipelines/inference_pipeline.py:102-110 | with daily offsets the forecast lags are the last price and the one seven rows back |
| Inference.DailyForecastDayOfYear | pipelines/inference_pipeline.py:88-91 | with day_of_year computed, a forecast row carries the training day of year of its date |
| Inference.DailyForecastRollingMean | pipelines/inference_pipeline.py:113-118 | with daily offsets the rolling mean covers the last seven prices |
| Inference.Batch | pipelines/inference_pipeline.py:253-257 | one ledger row per forecast row, with its date and price and the one prediction date |
| Inference.TrackingFile.constructor | pipelines/inference_pipeline.py:260-273 | the ledger file holds the given content, or does not exist |
| Inference.SavePredictionsForTracking | pipelines/inference_pipeline.py:242-275 | the file afterwards holds `Tracked` of its old content and the batch; with no file, the batch as given |
| Inference.PredictionLeIsTotalPreorder | pipelines/inference_pipeline.py:270 | (target date, prediction date) order is a total preorder |
| Inference.TrackedReplacesByTarget | pipelines/inference_pipeline.py:266-270 | the saved ledger is sorted by (target, prediction date) and is a permutation of the batch plus the old rows whose target the batch lacks |
| Inference.TrackedTargetsCarryNewDate | pipelines/inference_pipeline.py:266-270 | every row for a batch target carries the new prediction date, even where an old row had a later one |
| Inference.MatchOne | pipelines/inference_pipeline.py:187 | every joined row carries the ledger row's target date, prediction date and predicted price |
| Inference.MatchOneMember | pipelines/inference_pipeline.py:187 | a joined row pairs the ledger row with a history row of its date |
| Inference.MatchAllMember | pipelines/inference_pipeline.py:187 | the inner join holds exactly the pairs of a ledger row and a history row of its target date |
| Inference.MatchedOrders | pipelines/inference_pipeline.py:194-196 | the two sort orders of the view are total preorders |
| Inference.LatestMembers | pipelines/inference_pipeline.py:194-196 | the view holds exactly the rows the deduplication keeps |
| Inference.LatestAscending | pipelines/inference_pipeline.py:194-196 | target dates strictly ascend: one row per target date |
| Inference.LatestCovers | pipelines/inference_pipeline.py:194-196 | every view row comes from the input and every input target date keeps a row |
| Inference.LatestFromInput | pipelines/inference_pipeline.py:194-196 | every view row is an input row |
| Inference.LatestHasEveryTarget | pipelines/inference_pipeline.py:194-196 | every input target date has a view row |
| Inference.LatestIsNewest | pipelines/inference_pipeline.py:194-196 | each view row has the largest prediction date among the input rows of its target |
| Inference.LatestFromLedger | pipelines/inference_pipeline.py:187-196 | each view row is a ledger row paired with an actual price of its target date |
| Inference.LatestKeepsTargets | pipelines/inference_pipeline.py:187-196 | every ledger row with an actual keeps its target date in the view |
| Inference.LatestNewestInLedger | pipelines/inference_pipeline.py:187-196 | each view row's prediction date is the ledger's largest for its target |
| Inference.LatestIdempotent | pipelines/inference_pipeline.py:194-196 | reconciling the view again changes nothing |
| Inference.Abs | pipelines/inference_pipeline.py:200 | the absolute value is non-negative and equals x or −x |
| Inference.WithError | pipelines/inference_pipeline.py:199-200 | error = predicted − actual and abs_error = its magnitude, missing when the actual is |
| Inference.AbsErrors | pipelines/inference_pipeline.py:201 | the abs_error column, row for row |
| Inference.MaeSpec | pipelines/inference_pipeline.py:201 | the MAE exists iff some row has an actual and is then non-negative |
| Inference.Compare | pipelines/inference_pipeline.py:164-202 | no result without a ledger file or with an empty join; KeyError without the price column |
| Inference.CompareSpec | pipelines/inference_pipeline.py:187-201 | the comparison rows are the reconciled view with errors; its MAE is the mean of the present absolute errors, exists iff some row has an actual, and is non-negative |
| Inference.MaeOfReconciled | pipelines/inference_pipeline.py:199-201 | the MAE over reconciled rows exists iff one has an actual, and is non-negative |
| Inference.MaeAllActual | pipelines/inference_pipeline.py:199-201 | when every reconciled row has an actual price, the averaged errors are exactly each row's abs(predicted − actual), in order, and the MAE is their mean |
| Training.TrainingSplitIndex | pipelines/training_pipeline.py:51 | the split index is ⌊0.8·n⌋ |
| Training.TrainingFeatures | pipelines/training_pipeline.py:45 | a column is a feature iff it is neither the target nor `date` |
| Training.PrepareTrainingData | pipelines/training_pipeline.py:31-59 | KeyError iff the target column is absent; the feature names are `TrainingFeatures` |
| Training.PrepareTrainingDataSplit | pipelines/training_pipeline.py:42-53 | train is the first ⌊0.8·n⌋ stored rows and test the rest, projected on the features; y is the target row for row |
| Training.SampleCounts | pipelines/training_pipeline.py:109-110 | the metrics record exactly the two sample counts |
| Training.SampleCountsSplit | pipelines/training_pipeline.py:109-110 | the recorded counts are ⌊0.8·n⌋ and n − ⌊0.8·n⌋ |
| Training.ArtifactFiles | pipelines/training_pipeline.py:123-131 | the model directory's three files: model.json, feature_names.json, metrics.json |
| Training.ArtifactWrites | pipelines/training_pipeline.py:123-131 | the three writes one after another give the old files overwritten by the artifacts |
| Training.SaveModelLocal | pipelines/training_pipeline.py:117-134 | writes the artifacts into `data/models/electricity_price_xgboost_{experiment}`, created if absent; no other directory or table changes |
| Training.LocalSaveKeepsOtherFiles | pipelines/training_pipeline.py:120-131 | after a local save the directory holds the three artifacts and every other file it held before |
| Training.FreshArtifacts | pipelines/training_pipeline.py:148-154 | the writes into an empty directory give exactly the artifacts |
| Training.RemoveFresh | pipelines/training_pipeline.py:167-168 | removing a freshly created directory restores the old listing |
| Training.SaveModelHopsworks | pipelines/training_pipeline.py:137-168 | the temporary directory is gone afterwards on every path; success iff the registry is available and registration succeeds, registering exactly the artifacts |
| Disk.EncodeNames | pipelines/training_pipeline.py:126-127 | the JSON list has one string per name |
| Disk.DecodeNames | pipelines/inference_pipeline.py:45-46 | a decoded list has one name per list item |
| Disk.NamesRoundTrip | pipelines/training_pipeline.py:126-127 | decoding an encoded name list gives it back |
| Retrieval.Filter | functions/electricity_data_retrieval.py:30 | a boolean mask keeps the rows it accepts, each as often as in the input |
| Retrieval.FilterAppend | functions/electricity_data_retrieval.py:30 | masking a concatenation masks each part, keeping the order |
| Retrieval.FilterOne | functions/electricity_data_retrieval.py:30 | one row is kept iff the mask accepts it |
| Retrieval.Render | functions/electricity_data_retrieval.py:75 | `astype(str)` renders the date as YYYY-MM-DD and changes no other cell |
| Retrieval.RenderAll | functions/electricity_data_retrieval.py:75 | every row rendered, in order |
| Retrieval.HistoricalForDate | functions/electricity_data_retrieval.py:10-39 | empty when the batch or date is unusable; otherwise each row of that date and city exactly as often as stored (a permutation of the selection), sorted by date |
| Retrieval.RangeRows | functions/electricity_data_retrieval.py:65-72 | each row with start ≤ date ≤ end and the city exactly as often as in the input, sorted by date |
| Retrieval.HistoricalInRange | functions/electricity_data_retrieval.py:42-81 | empty on any failure; otherwise the input's columns, and rows that render some date-sorted sequence holding each range-and-city row exactly as often as stored |
| Retrieval.RangeRowsSpec | functions/electricity_data_retrieval.py:65-72 | every returned date is in the range and dates ascend |
| Retrieval.RangeOfOneDay | functions/electricity_data_retrieval.py:60-75 | a one-day range gives the rows of that day with dates rendered |
| Retrieval.FeatureColumns | functions/electricity_data_retrieval.py:113 | the model input is every column except `date` and `city` |
| Retrieval.ModelInput | functions/electricity_data_retrieval.py:113-114 | the model input projects each selected row onto the feature columns |
| Retrieval.DayRows | functions/electricity_data_retrieval.py:106 | each row of the day and the city exactly as often as stored |
| Retrieval.FutureForDate | functions/electricity_data_retrieval.py:84-130 | at most one row; a row only when a forecast row exists and the model returns one prediction, and then it is that date with that prediction |
| Retrieval.FutureForDateOne | functions/electricity_data_retrieval.py:106-126 | with a matching row and one prediction the result has one row |
| Retrieval.FutureForDateNoRows | functions/electricity_data_retrieval.py:108-110 | with no matching row the result is empty whatever the model does |
| Retrieval.Paired | functions/electricity_data_retrieval.py:173-176 | pairs each selected row's date with the prediction at its position |
| Retrieval.RangeSelection | functions/electricity_data_retrieval.py:156-160 | each row of the range and the city exactly as often as stored, each dated in the range |
| Retrieval.FutureInRange | functions/electricity_data_retrieval.py:133-186 | non-empty iff the inputs are usable, some row matches and the model returns one prediction per row; then the paired rows sorted by date and rendered |
| Retrieval.PairedSorted | functions/electricity_data_retrieval.py:173-180 | the result is a date-sorted permutation of the pairs, each pair a selected row's date and its prediction, every date in range |
| Retrieval.PredictionsSince | functions/electricity_data_retrieval.py:189-218 | empty on failure; otherwise each row of the city dated at or after now − days exactly as often as stored, sorted by date |
| Retrieval.LocalGroupTable | functions/electricity_data_retrieval.py:203-204 | the read succeeds iff the local group's file exists |
| Retrieval.LocalPredictions | functions/electricity_data_retrieval.py:203-218 | against the local store a missing predictions group gives an empty frame, a present one its rows since the cutoff |
| Retrieval.LocalHistoricalForDate | functions/electricity_data_retrieval.py:24-33 | over a local view the filter reads the group's stored table |
| StorageFactory.DetectMode | functions/storage_factory.py:106-115 | production iff `HOPSWORKS_API_KEY` is set and non-empty |
| StorageFactory.ParseMode | functions/storage_factory.py:35-41 | 'local' and 'production' are accepted; anything else is a ValueError |
| StorageFactory.DetectedModeParses | functions/storage_factory.py:113-115 | a detected mode is always accepted by `get_storage` |
| StorageFactory.GetLocalProject | functions/local_storage.py:308-316 | the local project over the table and model base paths |
| StorageFactory.HopsworksStorage.constructor | functions/storage_factory.py:49-54 | a new storage is unconnected and has never logged in |
| StorageFactory.HopsworksStorage.GetFeatureStore | functions/storage_factory.py:61-78 | once connected, returns the held store without logging in; unconnected without a key, ValueError and stays unconnected; otherwise exactly one login, and the project is kept once returned |
| StorageFactory.HopsworksStorage.GetModelRegistry | functions/storage_factory.py:80-84 | connects first when unconnected, then returns the held project's registry; the login count, project and feature store change exactly as the connection leaves them |
| StorageFactory.GetStorage | functions/storage_factory.py:25-41 | 'local' gives the local project; 'production' a fresh unconnected storage, or ImportError when the library is missing; any other mode a ValueError |
| Prices.CivilUrlNamesDay | functions/util.py:178-179 | the URL is the API base, the ISO date with '/' after the year, `_region.json` |
| Prices.ValidPrefixSpec | functions/util.py:185-189 | a response keeps its well-formed entries up to the first malformed one |
| Prices.Urls | functions/util.py:176-179 | one request per day from start to stop − 1 |
| Prices.UrlsDays | functions/util.py:176-195 | the k-th request is for day start + k |
| Prices.UrlsAppend | functions/util.py:195 | one more day adds its request at the end |
| Prices.GatheredAppend | functions/util.py:176-195 | entries gathered from consecutive request batches concatenate |
| Prices.GatheredOne | functions/util.py:181-193 | one request contributes its day's entries |
| Prices.FailedDaySkipped | functions/util.py:183-195 | a failed or non-200 day contributes nothing and the loop continues |
| Prices.DaysOf | functions/util.py:202 | each entry's UTC day |
| Prices.PricesOn | functions/util.py:203 | exactly the prices of entries on that day |
| Prices.PricesOnAppend | functions/util.py:203 | the prices of a concatenation are each part's prices of the day, in order |
| Prices.PricesOnOne | functions/util.py:203 | one entry contributes its price iff it falls on the day |
| Prices.DailyPrices | functions/util.py:203 | one aggregated row per group day |
| Prices.GroupDaysMembers | functions/util.py:203 | a day is a group iff some entry falls on it |
| Prices.GroupDaysAscending | functions/util.py:203 | group days strictly ascend |
| Prices.DailyPricesSpec | functions/util.py:200-204 | each row aggregates its day's prices: min and max are among them and bound them, min ≤ mean ≤ max, std missing iff one price |
| Prices.PriceFrame | functions/util.py:197-207 | empty iff nothing was collected; one row per day |
| Prices.PriceFrameRows | functions/util.py:200-205 | each row is a day some entry falls on, later rows are later days, min ≤ mean ≤ max, std present iff two prices or more |
| Prices.PriceFrameCoversDays | functions/util.py:200-205 | every day an entry falls on has its row |
| Prices.FetchDays | functions/util.py:170-195 | the loop requests exactly `Urls(start, end + 1)` and collects exactly what `Gathered` says |
| Prices.GetElectricityPrices | functions/util.py:158-207 | requests every day from start to end inclusive and returns their daily aggregation |
| Prices.EmptyRange | functions/util.py:176-207 | a start after the end requests nothing and gives the empty frame |
| Calendar.CivilFromDays | functions/util.py:178 | a civil date whose day lies within its month and whose closed-form day number `DaysFromCivil` is `z`; `z` lies within that date's year |
| Calendar.CivilFromCounts | functions/util.py:178 | the date `doy` days into year `y` has closed-form day number `DaysBeforeYear(y) + doy` |
| Calendar.DaysBeforeYearStep | functions/util.py:178 | the closed-form count moves on by each year's length (366 in leap years) |
| Calendar.LeapsBeforeStep | functions/util.py:178 | the leap count steps up by one exactly over a leap year |
| Calendar.DayOfWeek | pipelines/feature_backfill.py:43 | a weekday 0 … 6 with day 0 (1970-01-01, a Thursday) at 3, so Monday is 0 |
| Calendar.DayOfWeekNext | pipelines/feature_backfill.py:43 | each next day moves the weekday on by one, Sunday wrapping to Monday |
| Calendar.Month | pipelines/feature_backfill.py:44 | the month of its year whose days contain `z` |
| Calendar.DayOfYear | pipelines/feature_backfill.py:46 | `z`'s ordinal within its year, counted from 1 on 1 January |
| Calendar.DayOfTimestamp | functions/util.py:200-202 | the UTC day holding the timestamp |
| Calendar.DatePathIsIsoDate | functions/util.py:178 | `%Y/%m-%d` is the ISO date with '/' after the year |
| Sorting.SortBySorted | pipelines/feature_backfill.py:40 | the sort yields an ordered permutation of its input |
| Sorting.SortBySortedIsIdentity | pipelines/inference_pipeline.py:196 | sorting an already ordered sequence changes nothing |
| Frames.DateCellLeIsTotalPreorder | functions/local_storage.py:104 | the order `sort_values('date')` puts raw date cells in (numbers, strings by code point, dates, missing last) is total and transitive |
| Frames.DateCellLeOnDays | functions/local_storage.py:104 | on date cells that are dates or missing, that order is the day order `DateLe` |
| Dedup.DedupUnique | functions/local_storage.py:41-42 | `drop_duplicates(keep='last')` leaves at most one row per key |
| Dedup.DedupKeepsLast | functions/local_storage.py:41-42 | every survivor is the input's last row with its key |
| Dedup.DedupSubsequence | functions/local_storage.py:41-42 | survivors keep their relative order |
| Dedup.DedupIdempotent | functions/local_storage.py:41-42 | deduplicating twice is deduplicating once |
| Dedup.DedupAppend | functions/local_storage.py:39-42 | deduplicating old ++ new keeps the old survivors whose key new lacks, then new's survivors |
| Dedup.AppendTwice | functions/local_storage.py:39-42 | appending the same batch twice deduplicates to appending it once |
| Stats.MinMeanMax | functions/util.py:203 | min ≤ mean ≤ max |
| Stats.MeanNonNegative | pipelines/inference_pipeline.py:201 | the mean of non-negative values is non-negative |
| Stats.Present | pipelines/feature_backfill.py:60 | every present value appears and only present values do; order and multiplicity are fixed by `PresentAppend` and `PresentOne` |
| Stats.PresentAppend | pipelines/feature_backfill.py:60 | the present values of a concatenation are each part's present values, in order |
| Stats.PresentOne | pipelines/feature_backfill.py:60 | one value is kept exactly when it is present |

## Left out

- Plotting is not modelled. This covers pipelines/inference_pipeline.py:128-161 and 204-237 and functions/util.py:248-276. It draws figures and holds no table logic.
- Training the booster is not modelled (pipelines/training_pipeline.py:62-114). Neither are `model.predict` or the model's serialisation. The booster is an opaque payload and `predict` is a parameter.
- The HTTP and weather clients are not modelled (functions/util.py:19-155), nor is the request itself. A price request is the parameter `fetch`.
- Remote store internals and the maintenance helpers are not modelled (functions/util.py:280-331). They are foreign calls.
- The remote login, feature store and registry are not modelled. They enter as `login` and `register`.
- Parquet and CSV encoding is not modelled. A table file is a map entry holding a frame, and the ledger file holds its rows.
- Parsing date strings is not modelled. Dates arrive parsed as day numbers, and a date that does not parse is `None`. Time zones other than UTC are not modelled.
- `datetime.now()` is a parameter: `now`, `savedAt` and the prediction date.
- The `main()` argument parsing of the three pipelines is not modelled.
- Floating point is not modelled. Means and products are exact reals, and `int(n*0.8)` and `int(n*(1-test_size))` are exact rational floors.
- Standard deviations are not modelled: the rolling std and `np.std` are the parameters `sampleStd` and `populationStd`.
- The RMSE and its square root (pipelines/inference_pipeline.py:202) are not modelled.
- Crash atomicity is not modelled. Writes are sequential updates. `LocalStorage.FailedSaveLosesModel` still shows that a failing copy loses the old model.
- Creating the base directories with `os.makedirs` is not modelled. The model directory itself is modelled.
- Directories are flat: subdirectories copied by `copytree` are not modelled.
- Which order `sort_values` gives to equal keys is not modelled. The model sorts with a stable insertion sort, and its lemmas state only sortedness and permutation.
- Column-name suffixes of `pd.merge` are not modelled: a price column overwrites a weather column of the same name.
- `app.py` and the live network smoke tests are not part of this model.
- `get_local_project` is modelled only as the two base paths, without printing its banner.
- StorageFactory.HopsworksStorage.GetFeatureStore: the "connected" message and the project-name print are left out.
- Calendar.YearText: Python dates hold years 1 … 9999 only; the model accepts every day number. `str(date)` pads the year to four digits as `IsoDate` does, but `strftime('%Y')` on Linux does not pad years below 1000, so `DatePath` matches the source for years 1000 … 9999 only.
- Retrieval.Usable: a date column is usable only when every present cell is already a date. `pd.to_datetime` would also read numbers as nanoseconds since the epoch and parse date strings; here such a column yields the empty frame of the `except` branch. This narrows the next five lines' members.
- Retrieval.HistoricalForDate: a batch whose dates are stored as numbers or strings gives the empty frame (see `Retrieval.Usable`).
- Retrieval.HistoricalInRange: a batch whose dates are stored as numbers or strings gives the empty frame (see `Retrieval.Usable`).
- Retrieval.FutureForDate: a batch whose dates are stored as numbers or strings gives the empty frame (see `Retrieval.Usable`).
- Retrieval.FutureInRange: a batch whose dates are stored as numbers or strings gives the empty frame (see `Retrieval.Usable`).
- Retrieval.PredictionsSince: a table whose dates are stored as numbers or strings gives the empty frame (see `Retrieval.Usable`).
- Prices.GetElectricityPrices: an entry's `SEK_per_kWh` is taken to be a number. A non-numeric price, which the loop would append and the later aggregation would reject, is not modelled.
- Retrieval.FutureForDate: the result frame is built from one date and the predictions. A prediction count other than one raises in pandas, and that is modelled as the empty frame returned by the `except` branch.

## Findings

| source | as written | input that shows it | evidently intended | confidence | as-written member | corrected member |
|---|---|---|---|---|---|---|
| pipelines/inference_pipeline.py:102-118 | the lags and the rolling window count 24 and 168 rows back, i.e. hours, but the history holds one row per day | a 24-day history with prices 0, 1, …, 23: price_lag_1d becomes 0.0, the price 24 days back | the price of the last day and of seven days back, and a seven-day rolling mean, as the backfill transform computes them for training | not executed | Inference.ForecastLagCountsHours | Inference.DailyForecastLags |
| pipelines/inference_pipeline.py:88-91, 121-123 | `day_of_year` is never computed for a forecast row, so it falls to the default 0 | any forecast frame without a `day_of_year` column, for a model trained with that feature | the row's day of the year (1 … 366), as the training rows carry it | not executed | Inference.ForecastDayOfYearIsZero | Inference.DailyForecastDayOfYear |
