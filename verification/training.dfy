/**
 * The training pipeline around the (opaque) booster: the chronological 80/20
 * split of the feature table, the local artifact directory, and the temporary
 * directory used when registering a model with the remote registry.
 */
module Training {
  import opened Wrappers
  import opened Frames
  import opened Disk

  const Target := "price_sek_kwh_mean"
  const ModelName := "electricity_price_xgboost"
  const ModelFileName := "model.json"
  const FeatureNamesFile := "feature_names.json"
  const MetricsFile := "metrics.json"

  /** `data/models/electricity_price_xgboost_{experiment}`. */
  function ExperimentDir(experiment: string): string
  {
    "data/models/" + ModelName + "_" + experiment
  }

  datatype TrainingData = TrainingData(xTrain: Frame, xTest: Frame,
                                       yTrain: seq<Option<Value>>, yTest: seq<Option<Value>>,
                                       featureNames: seq<string>)

  /** `int(len(df) * 0.8)`, read as the exact rational floor. */
  function TrainingSplitIndex(n: nat): (k: nat)
    ensures k <= n
    ensures 5 * k <= 4 * n < 5 * k + 5
  {
    (4 * n) / 5
  }

  /** Every column but the target and `date`, in stored order. */
  function TrainingFeatures(columns: seq<string>): (r: seq<string>)
    ensures forall c :: c in r <==> c in columns && c != Target && c != "date"
  {
    Without(columns, {Target, "date"})
  }

  /** `prepare_training_data`: KeyError when the target column is absent. */
  function PrepareTrainingData(df: Frame): (r: Result<TrainingData>)
    ensures r.Err? <==> Target !in df.columns
    ensures r.Ok? ==> r.value.featureNames == TrainingFeatures(df.columns)
  {
    if Target !in df.columns then Err(MissingColumn(Target))
    else
      var cols := TrainingFeatures(df.columns);
      var k := TrainingSplitIndex(|df.rows|);
      var x := ProjectAll(df.rows, cols);
      var y := ColumnOf(df.rows, Target);
      Ok(TrainingData(Frame(cols, x[..k]), Frame(cols, x[k..]), y[..k], y[k..], cols))
  }

  /**
   * The split follows the stored row order (no sort, no shuffle): train is the
   * first ⌊0.8·n⌋ rows and test the rest, X and y row for row.
   */
  lemma PrepareTrainingDataSplit(df: Frame)
    requires Target in df.columns
    ensures var d := PrepareTrainingData(df).value;
      var k := TrainingSplitIndex(|df.rows|);
      && d.xTrain.columns == d.featureNames && d.xTest.columns == d.featureNames
      && |d.xTrain.rows| == |d.yTrain| == k
      && |d.xTest.rows| == |d.yTest| == |df.rows| - k
      && d.xTrain.rows + d.xTest.rows == ProjectAll(df.rows, d.featureNames)
      && (forall i :: 0 <= i < k ==>
            d.xTrain.rows[i] == Project(df.rows[i], d.featureNames) && d.yTrain[i] == Cell(df.rows[i], Target))
      && (forall i :: 0 <= i < |df.rows| - k ==>
            d.xTest.rows[i] == Project(df.rows[k + i], d.featureNames) && d.yTest[i] == Cell(df.rows[k + i], Target))
  {
    var x := ProjectAll(df.rows, TrainingFeatures(df.columns));
    var k := TrainingSplitIndex(|df.rows|);
    assert x == x[..k] + x[k..];
  }

  /** The sample counts the metrics record. */
  function SampleCounts(d: TrainingData): (m: map<string, Json>)
    ensures m.Keys == {"n_training_samples", "n_test_samples"}
  {
    map["n_training_samples" := JInt(|d.xTrain.rows|), "n_test_samples" := JInt(|d.xTest.rows|)]
  }

  /** The recorded counts are ⌊0.8·n⌋ and the rest. */
  lemma SampleCountsSplit(df: Frame)
    requires Target in df.columns
    ensures var k := TrainingSplitIndex(|df.rows|);
      SampleCounts(PrepareTrainingData(df).value) ==
        map["n_training_samples" := JInt(k), "n_test_samples" := JInt(|df.rows| - k)]
  {
    PrepareTrainingDataSplit(df);
  }

  /** The three artifact files written into a model directory. */
  function ArtifactFiles(payload: string, featureNames: seq<string>, metrics: map<string, Json>): (d: Directory)
    ensures d.Keys == {ModelFileName, FeatureNamesFile, MetricsFile}
  {
    map[ModelFileName := ModelFile(payload),
        FeatureNamesFile := JsonFile(EncodeNames(featureNames)),
        MetricsFile := JsonFile(JObject(metrics))]
  }

  /** The directory after the three writes: the old files, overwritten where the names clash. */
  function WithArtifacts(existing: Directory, payload: string, featureNames: seq<string>, metrics: map<string, Json>): Directory
  {
    existing + ArtifactFiles(payload, featureNames, metrics)
  }

  /** Writing the three files one after another gives `WithArtifacts`. */
  lemma ArtifactWrites(existing: Directory, payload: string, featureNames: seq<string>, metrics: map<string, Json>)
    ensures existing[ModelFileName := ModelFile(payload)]
                    [FeatureNamesFile := JsonFile(EncodeNames(featureNames))]
                    [MetricsFile := JsonFile(JObject(metrics))]
         == WithArtifacts(existing, payload, featureNames, metrics)
  {
  }

  /** `save_model_local`: create the directory if needed, then write three files into it. */
  method SaveModelLocal(fs: FileSystem, payload: string, featureNames: seq<string>, metrics: map<string, Json>,
                        experiment: string) returns (dir: string)
    modifies fs
    ensures dir == ExperimentDir(experiment)
    ensures fs.dirs == old(fs.dirs)[dir :=
      WithArtifacts(if dir in old(fs.dirs) then old(fs.dirs)[dir] else map[], payload, featureNames, metrics)]
    ensures fs.tables == old(fs.tables)
  {
    dir := ExperimentDir(experiment);
    if dir !in fs.dirs {
      fs.dirs := fs.dirs[dir := map[]];
    }
    ArtifactWrites(fs.dirs[dir], payload, featureNames, metrics);
    fs.dirs := fs.dirs[dir := fs.dirs[dir][ModelFileName := ModelFile(payload)]];
    fs.dirs := fs.dirs[dir := fs.dirs[dir][FeatureNamesFile := JsonFile(EncodeNames(featureNames))]];
    fs.dirs := fs.dirs[dir := fs.dirs[dir][MetricsFile := JsonFile(JObject(metrics))]];
  }

  /**
   * After a local save the directory holds the three artifacts and every other
   * file it held before; no other directory changes.
   */
  lemma LocalSaveKeepsOtherFiles(dirs: map<string, Directory>, dir: string, payload: string,
                                 featureNames: seq<string>, metrics: map<string, Json>)
    ensures var prior := if dir in dirs then dirs[dir] else map[];
      var d := WithArtifacts(prior, payload, featureNames, metrics);
      && d.Keys == prior.Keys + {ModelFileName, FeatureNamesFile, MetricsFile}
      && d[ModelFileName] == ModelFile(payload)
      && d[FeatureNamesFile] == JsonFile(EncodeNames(featureNames))
      && d[MetricsFile] == JsonFile(JObject(metrics))
      && (forall f :: f in prior && f !in {ModelFileName, FeatureNamesFile, MetricsFile} ==> d[f] == prior[f])
  {
  }

  /** The same three writes into an empty directory give exactly the artifacts. */
  lemma FreshArtifacts(payload: string, featureNames: seq<string>, metrics: map<string, Json>)
    ensures map[][ModelFileName := ModelFile(payload)]
               [FeatureNamesFile := JsonFile(EncodeNames(featureNames))]
               [MetricsFile := JsonFile(JObject(metrics))]
         == ArtifactFiles(payload, featureNames, metrics)
  {
  }

  /** Removing a directory that was created fresh restores the old listing. */
  lemma RemoveFresh(dirs: map<string, Directory>, tmp: string, d: Directory)
    requires tmp !in dirs
    ensures dirs[tmp := d] - {tmp} == dirs
  {
  }

  /** What `create_model(...).save(dir)` hands to the remote registry. */
  datatype Registration = Registration(name: string, metrics: map<string, Json>, description: string, files: Directory)

  function Description(experiment: string): string
  {
    "XGBoost model for electricity price prediction - " + experiment
  }

  /**
   * `save_model_hopsworks`: get the registry (which may fail before anything is
   * written), write the artifacts into the fresh temporary directory `tmp`,
   * register them (`register` says whether the remote call succeeds) and always
   * remove `tmp` again.
   */
  method SaveModelHopsworks(fs: FileSystem, registry: Result<string>, tmp: string, payload: string,
                         featureNames: seq<string>, metrics: map<string, Json>, experiment: string,
                         register: Registration -> bool) returns (r: Result<Registration>)
    requires tmp !in fs.dirs
    modifies fs
    ensures fs.dirs == old(fs.dirs) && fs.tables == old(fs.tables)
    ensures var reg := Registration(ModelName, metrics, Description(experiment),
                                    ArtifactFiles(payload, featureNames, metrics));
      && (r.Ok? <==> registry.Ok? && register(reg))
      && (r.Ok? ==> r.value == reg)
  {
    if registry.Err? {
      return Err(registry.error);
    }
    fs.dirs := fs.dirs[tmp := map[]];
    FreshArtifacts(payload, featureNames, metrics);
    fs.dirs := fs.dirs[tmp := fs.dirs[tmp][ModelFileName := ModelFile(payload)]];
    fs.dirs := fs.dirs[tmp := fs.dirs[tmp][FeatureNamesFile := JsonFile(EncodeNames(featureNames))]];
    fs.dirs := fs.dirs[tmp := fs.dirs[tmp][MetricsFile := JsonFile(JObject(metrics))]];
    assert fs.dirs[tmp] == ArtifactFiles(payload, featureNames, metrics);
    var reg := Registration(ModelName, metrics, Description(experiment), fs.dirs[tmp]);
    var ok := register(reg);
    RemoveFresh(old(fs.dirs), tmp, fs.dirs[tmp]);
    fs.dirs := fs.dirs - {tmp};
    if ok {
      r := Ok(reg);
    } else {
      r := Err(Foreign("model registration failed"));
    }
  }
}
