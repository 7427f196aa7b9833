/**
 * The file-backed stand-in for the managed feature store: versioned tables kept
 * one file per (name, version), a feature view that splits a table into
 * chronological train and test parts, and a model registry of directories.
 */
module LocalStorage {
  import opened Wrappers
  import opened Frames
  import opened Disk
  import opened Strings
  import Dedup
  import Sorting

  const TableBase: string := "data/processed"
  const ModelBase: string := "data/models"
  const MetadataFile: string := "metadata.json"

  /* ---------------- Feature groups: versioned tables ---------------- */

  /** A feature group handle; it holds no data, the table lives in its file. */
  datatype FeatureGroup = FeatureGroup(name: string, version: int, basePath: string)

  /** `{base_path}/{name}_v{version}.parquet`. */
  function TableFile(fg: FeatureGroup): string
  {
    PathJoin(fg.basePath, fg.name + "_v" + IntToString(fg.version) + ".parquet")
  }

  /** The primary key (date, city); a missing cell is a key part of its own, as in pandas. */
  function PrimaryKey(r: Row): (Option<Value>, Option<Value>)
  {
    (Cell(r, "date"), Cell(r, "city"))
  }

  /** Both key columns are present, so appends deduplicate. */
  predicate HasKeyColumns(f: Frame)
  {
    "date" in f.columns && "city" in f.columns
  }

  /** The table a file holds after `insert(df, overwrite)` when it held `existing` (None: no file). */
  function AfterInsert(existing: Option<Frame>, df: Frame, overwrite: bool): Frame
  {
    if overwrite || existing.None? then df
    else
      var combined := Concat(existing.value, df);
      if HasKeyColumns(combined) then Frame(combined.columns, Dedup.DedupLast(combined.rows, PrimaryKey))
      else combined
  }

  function Stored(tables: map<string, Frame>, path: string): Option<Frame>
  {
    if path in tables then Some(tables[path]) else None
  }

  /** `LocalFeatureGroup.insert`: read the file if any, combine, write it back. */
  method Insert(fs: FileSystem, fg: FeatureGroup, df: Frame, overwrite: bool)
    modifies fs
    ensures fs.tables == old(fs.tables)[TableFile(fg) := AfterInsert(Stored(old(fs.tables), TableFile(fg)), df, overwrite)]
    ensures fs.dirs == old(fs.dirs)
  {
    var path := TableFile(fg);
    if overwrite || path !in fs.tables {
      fs.tables := fs.tables[path := df];
    } else {
      var existing := fs.tables[path];
      var combined := Concat(existing, df);
      if "date" in combined.columns && "city" in combined.columns {
        combined := Frame(combined.columns, Dedup.DedupLast(combined.rows, PrimaryKey));
      }
      fs.tables := fs.tables[path := combined];
    }
  }

  /** `LocalFeatureGroup.read`: the stored table, or an empty frame when there is no file. */
  function Read(tables: map<string, Frame>, fg: FeatureGroup): (f: Frame)
    ensures TableFile(fg) !in tables ==> f == EmptyFrame()
    ensures TableFile(fg) in tables ==> f == tables[TableFile(fg)]
  {
    var path := TableFile(fg);
    if path in tables then tables[path] else EmptyFrame()
  }

  /** With `overwrite`, or with no file yet, the table becomes exactly the batch. */
  lemma InsertReplaces(existing: Option<Frame>, df: Frame, overwrite: bool)
    requires overwrite || existing.None?
    ensures AfterInsert(existing, df, overwrite) == df
  {
  }

  /**
   * Appending with both key columns: the existing rows that survive deduplication
   * and whose key the batch does not hold, then the batch's own survivors. One row
   * per key remains, it is the last one with that key, and the order is kept.
   */
  lemma InsertAppendDeduplicates(existing: Frame, df: Frame)
    requires HasKeyColumns(Concat(existing, df))
    ensures var r := AfterInsert(Some(existing), df, false);
      && r.rows == Dedup.WithoutKeys(Dedup.DedupLast(existing.rows, PrimaryKey), Dedup.Keys(df.rows, PrimaryKey), PrimaryKey)
                   + Dedup.DedupLast(df.rows, PrimaryKey)
      && Dedup.UniqueKeys(r.rows, PrimaryKey)
      && Dedup.Keys(r.rows, PrimaryKey) == Dedup.Keys(existing.rows, PrimaryKey) + Dedup.Keys(df.rows, PrimaryKey)
      && Dedup.IsSubsequence(r.rows, existing.rows + df.rows)
      && (forall i :: 0 <= i < |r.rows| ==>
            PrimaryKey(r.rows[i]) in Dedup.Keys(existing.rows + df.rows, PrimaryKey) &&
            r.rows[i] == Dedup.LastWithKey(existing.rows + df.rows, PrimaryKey(r.rows[i]), PrimaryKey))
  {
    var all := existing.rows + df.rows;
    Dedup.DedupAppend(existing.rows, df.rows, PrimaryKey);
    Dedup.DedupUnique(all, PrimaryKey);
    Dedup.DedupKeys(all, PrimaryKey);
    Dedup.KeysAppend(existing.rows, df.rows, PrimaryKey);
    Dedup.DedupSubsequence(all, PrimaryKey);
    Dedup.DedupKeepsLast(all, PrimaryKey);
  }

  /** On a key collision the batch's row is kept and the existing one dropped. */
  lemma InsertIncomingWins(existing: Frame, df: Frame, i: nat)
    requires HasKeyColumns(Concat(existing, df))
    requires i < |df.rows|
    ensures var r := AfterInsert(Some(existing), df, false);
      Dedup.LastWithKey(df.rows, PrimaryKey(df.rows[i]), PrimaryKey) in r.rows &&
      forall row :: row in r.rows && PrimaryKey(row) == PrimaryKey(df.rows[i]) ==>
        row == Dedup.LastWithKey(df.rows, PrimaryKey(df.rows[i]), PrimaryKey)
  {
    var k := PrimaryKey(df.rows[i]);
    Dedup.KeysMember(df.rows, PrimaryKey, k);
    var r := AfterInsert(Some(existing), df, false);
    var head := Dedup.WithoutKeys(Dedup.DedupLast(existing.rows, PrimaryKey), Dedup.Keys(df.rows, PrimaryKey), PrimaryKey);
    var tail := Dedup.DedupLast(df.rows, PrimaryKey);
    InsertAppendDeduplicates(existing, df);
    assert r.rows == head + tail;
    Dedup.DedupKeys(df.rows, PrimaryKey);
    Dedup.KeysMember(tail, PrimaryKey, k);
    var j :| 0 <= j < |tail| && PrimaryKey(tail[j]) == k;
    Dedup.DedupKeepsLast(df.rows, PrimaryKey);
    assert tail[j] == Dedup.LastWithKey(df.rows, k, PrimaryKey);
    assert r.rows[|head| + j] == tail[j];
    forall row | row in r.rows && PrimaryKey(row) == k
      ensures row == Dedup.LastWithKey(df.rows, k, PrimaryKey)
    {
      var p :| 0 <= p < |r.rows| && r.rows[p] == row;
      assert p == |head| + j;
    }
  }

  /** Appending without both key columns concatenates: nothing is dropped. */
  lemma InsertAppendWithoutKey(existing: Frame, df: Frame)
    requires !HasKeyColumns(Concat(existing, df))
    ensures AfterInsert(Some(existing), df, false).rows == existing.rows + df.rows
    ensures |AfterInsert(Some(existing), df, false).rows| == |existing.rows| + |df.rows|
  {
  }

  /** Inserting the same batch twice into an existing table equals inserting it once. */
  lemma InsertTwiceIsOnce(existing: Frame, df: Frame)
    requires HasKeyColumns(Concat(existing, df))
    ensures var once := AfterInsert(Some(existing), df, false);
      AfterInsert(Some(once), df, false) == once
  {
    var once := AfterInsert(Some(existing), df, false);
    UnionColumnsAbsorbs(once.columns, df.columns);
    Dedup.AppendTwice(existing.rows, df.rows, PrimaryKey);
  }

  /**
   * The first insert into an absent file stores the batch as given, without
   * deduplication; a second identical insert then deduplicates. The two agree
   * when the batch has one row per key.
   */
  lemma InsertTwiceIntoNewFile(df: Frame)
    requires HasKeyColumns(df)
    requires Dedup.UniqueKeys(df.rows, PrimaryKey)
    ensures AfterInsert(Some(AfterInsert(None, df, false)), df, false) == AfterInsert(None, df, false)
  {
    UnionColumnsAbsorbs(df.columns, df.columns);
    Dedup.DedupAppend(df.rows, df.rows, PrimaryKey);
    Dedup.DedupOfUnique(df.rows, PrimaryKey);
    Dedup.WithoutOwnKeys(df.rows, Dedup.Keys(df.rows, PrimaryKey), PrimaryKey);
  }

  /** After an insert, a read of that group returns what was stored; other files are untouched. */
  lemma ReadAfterInsert(tables: map<string, Frame>, fg: FeatureGroup, other: FeatureGroup, df: Frame, overwrite: bool)
    ensures var after := tables[TableFile(fg) := AfterInsert(Stored(tables, TableFile(fg)), df, overwrite)];
      && Read(after, fg) == AfterInsert(Stored(tables, TableFile(fg)), df, overwrite)
      && (TableFile(other) != TableFile(fg) ==> Read(after, other) == Read(tables, other))
  {
  }

  /* ---------------- Feature views: chronological split ---------------- */

  datatype FeatureView = FeatureView(name: string, group: FeatureGroup, labels: seq<string>)

  /** `LocalFeatureView.get_batch_data`: the whole table of the view's group. */
  function GetBatchData(tables: map<string, Frame>, fv: FeatureView): Frame
  {
    Read(tables, fv.group)
  }

  /** `(X_train, X_test, y_train, y_test)`; an empty y stands for `pd.Series()`. */
  datatype Split = Split(xTrain: Frame, xTest: Frame, yTrain: seq<Option<Value>>, yTest: seq<Option<Value>>)

  /** Python's `int(x)` on a float: truncation toward zero. */
  function Truncate(x: real): (i: int)
    ensures x >= 0.0 ==> i == x.Floor
  {
    if x >= 0.0 then x.Floor else -((-x).Floor)
  }

  /** The position a slice bound `i` (`s[:i]`, `s[i:]`) denotes in a sequence of length `n`. */
  function SliceBound(i: int, n: nat): (k: nat)
    ensures k <= n
    ensures 0 <= i <= n ==> k == i
  {
    if i < 0 then (if n + i < 0 then 0 else n + i) else if i > n then n else i
  }

  /** `int(len(df) * (1 - test_size))`, applied as a slice bound. */
  function SplitIndex(n: nat, testSize: real): (k: nat)
    ensures k <= n
    ensures 0.0 <= testSize <= 1.0 ==> k == ((n as real) * (1.0 - testSize)).Floor
  {
    var x := (n as real) * (1.0 - testSize);
    ScaledBounds(n, testSize);
    SliceBound(Truncate(x), n)
  }

  lemma ScaledBounds(n: nat, t: real)
    ensures 0.0 <= t <= 1.0 ==> 0.0 <= (n as real) * (1.0 - t) <= n as real
  {
    if 0.0 <= t <= 1.0 {
      assert (n as real) * (1.0 - t) == (n as real) - (n as real) * t;
      assert 0.0 <= (n as real) * t <= n as real;
    }
  }

  function LabelSet(labels: seq<string>): set<string>
  {
    set l | l in labels
  }

  /** Feature columns: everything but the labels, `date` and `city`, in stored order. */
  function FeatureColumns(columns: seq<string>, labels: seq<string>): (r: seq<string>)
    ensures forall c :: c in r <==> c in columns && c !in labels && c != "date" && c != "city"
  {
    Without(columns, LabelSet(labels) + {"date", "city"})
  }

  /** `LocalFeatureView.train_test_split`. */
  function TrainTestSplit(tables: map<string, Frame>, fv: FeatureView, testSize: real): (r: Result<Split>)
    ensures IsEmpty(Read(tables, fv.group)) ==> r == Ok(Split(EmptyFrame(), EmptyFrame(), [], []))
    ensures var df := Read(tables, fv.group);
      r.Err? <==> (!IsEmpty(df) &&
        ("date" !in df.columns || !DatesComparable(df.rows) ||
         (fv.labels != [] && fv.labels[0] !in df.columns) || "city" !in df.columns))
  {
    var df := Read(tables, fv.group);
    if IsEmpty(df) then Ok(Split(EmptyFrame(), EmptyFrame(), [], []))
    else if "date" !in df.columns then Err(MissingColumn("date"))
    else if !DatesComparable(df.rows) then Err(TypeMismatch("date column mixes values that do not compare"))
    else if fv.labels != [] && fv.labels[0] !in df.columns then Err(MissingColumn(fv.labels[0]))
    else if "city" !in df.columns then Err(MissingColumn("city"))
    else
      var sorted := SortedRows(tables, fv);
      Ok(SplitAt(sorted, SplitIndex(|sorted|, testSize), XColumns(tables, fv), fv.labels))
  }

  /** The rows cut at `k`: X projected onto `xcols`, y the first label column (none without labels). */
  function SplitAt(sorted: seq<Row>, k: nat, xcols: seq<string>, labels: seq<string>): Split
    requires k <= |sorted|
  {
    Split(
      Frame(xcols, ProjectAll(sorted[..k], xcols)),
      Frame(xcols, ProjectAll(sorted[k..], xcols)),
      if labels != [] then ColumnOf(sorted[..k], labels[0]) else [],
      if labels != [] then ColumnOf(sorted[k..], labels[0]) else [])
  }

  /** X and y of a cut line up row for row with the rows they come from. */
  lemma SplitAtAligned(sorted: seq<Row>, k: nat, xcols: seq<string>, labels: seq<string>)
    requires k <= |sorted|
    ensures var s := SplitAt(sorted, k, xcols, labels);
      && (labels == [] ==> s.yTrain == [] && s.yTest == [])
      && (labels != [] ==>
            && |s.yTrain| == k && |s.yTest| == |sorted| - k
            && (forall i :: 0 <= i < k ==>
                  s.xTrain.rows[i] == Project(sorted[i], xcols) && s.yTrain[i] == Cell(sorted[i], labels[0]))
            && (forall i :: 0 <= i < |sorted| - k ==>
                  s.xTest.rows[i] == Project(sorted[k + i], xcols) && s.yTest[i] == Cell(sorted[k + i], labels[0])))
  {
    assert forall i :: 0 <= i < |sorted| - k ==> sorted[k..][i] == sorted[k + i];
  }

  /** The rows a successful split works on: the stored rows ordered by their date cells. */
  function SortedRows(tables: map<string, Frame>, fv: FeatureView): (r: seq<Row>)
    ensures multiset(r) == multiset(Read(tables, fv.group).rows)
    ensures Sorting.Sorted(r, DateCellLe)
  {
    DateCellLeIsTotalPreorder();
    Sorting.SortBySorted(Read(tables, fv.group).rows, DateCellLe);
    Sorting.SortBy(Read(tables, fv.group).rows, DateCellLe)
  }

  function XColumns(tables: map<string, Frame>, fv: FeatureView): seq<string>
  {
    FeatureColumns(Read(tables, fv.group).columns, fv.labels) + ["date", "city"]
  }

  /**
   * A successful split of a non-empty table: X is the feature columns plus `date`
   * and `city`; train followed by test is the table's rows, reordered by date and
   * projected onto X, the first `SplitIndex` of them in train.
   */
  lemma TrainTestSplitPartition(tables: map<string, Frame>, fv: FeatureView, testSize: real)
    requires TrainTestSplit(tables, fv, testSize).Ok?
    requires !IsEmpty(Read(tables, fv.group))
    ensures var s := TrainTestSplit(tables, fv, testSize).value;
      var n := |Read(tables, fv.group).rows|;
      && s.xTrain.columns == XColumns(tables, fv) && s.xTest.columns == XColumns(tables, fv)
      && |s.xTrain.rows| == SplitIndex(n, testSize) && |s.xTest.rows| == n - SplitIndex(n, testSize)
      && s.xTrain.rows + s.xTest.rows == ProjectAll(SortedRows(tables, fv), XColumns(tables, fv))
      && multiset(SortedRows(tables, fv)) == multiset(Read(tables, fv.group).rows)
  {
    var sorted := SortedRows(tables, fv);
    TrainTestSplitCut(tables, fv, testSize);
    SplitAtPartition(sorted, SplitIndex(|sorted|, testSize), XColumns(tables, fv), fv.labels);
  }

  /** A cut at `k` puts the first `k` projected rows in train and the rest in test. */
  lemma SplitAtPartition(sorted: seq<Row>, k: nat, xcols: seq<string>, labels: seq<string>)
    requires k <= |sorted|
    ensures var s := SplitAt(sorted, k, xcols, labels);
      && s.xTrain.columns == xcols && s.xTest.columns == xcols
      && |s.xTrain.rows| == k && |s.xTest.rows| == |sorted| - k
      && s.xTrain.rows + s.xTest.rows == ProjectAll(sorted, xcols)
  {
    assert sorted == sorted[..k] + sorted[k..];
    ProjectAllAppend(sorted[..k], sorted[k..], xcols);
  }

  /** No training row is dated after a test row (the split is chronological). */
  lemma TrainTestSplitChronological(tables: map<string, Frame>, fv: FeatureView, testSize: real)
    requires TrainTestSplit(tables, fv, testSize).Ok?
    requires !IsEmpty(Read(tables, fv.group))
    ensures var s := TrainTestSplit(tables, fv, testSize).value;
      forall i, j :: 0 <= i < |s.xTrain.rows| && 0 <= j < |s.xTest.rows| ==>
        DateCellLe(s.xTrain.rows[i], s.xTest.rows[j])
  {
    var sorted := SortedRows(tables, fv);
    TrainTestSplitCut(tables, fv, testSize);
    assert "date" in XColumns(tables, fv);
    SplitAtChronological(sorted, SplitIndex(|sorted|, testSize), XColumns(tables, fv), fv.labels);
  }

  /** With the dates stored as dates, no training day comes after a test day. */
  lemma TrainTestSplitChronologicalDays(tables: map<string, Frame>, fv: FeatureView, testSize: real)
    requires TrainTestSplit(tables, fv, testSize).Ok?
    requires !IsEmpty(Read(tables, fv.group))
    requires DatesConvertible(Read(tables, fv.group).rows)
    ensures var s := TrainTestSplit(tables, fv, testSize).value;
      forall i, j :: 0 <= i < |s.xTrain.rows| && 0 <= j < |s.xTest.rows| ==>
        DateLe(s.xTrain.rows[i], s.xTest.rows[j])
  {
    var s := TrainTestSplit(tables, fv, testSize).value;
    TrainTestSplitPartition(tables, fv, testSize);
    TrainTestSplitChronological(tables, fv, testSize);
    ProjectedDates(Read(tables, fv.group).rows, SortedRows(tables, fv), XColumns(tables, fv));
    DayCutOrdered(s.xTrain.rows, s.xTest.rows);
  }

  /** Reordering and projecting rows whose dates are dates leaves only dates in the date column. */
  lemma ProjectedDates(rows: seq<Row>, sorted: seq<Row>, cols: seq<string>)
    requires multiset(sorted) == multiset(rows)
    requires DatesConvertible(rows)
    ensures DatesConvertible(ProjectAll(sorted, cols))
  {
    var xs: seq<Row> := ProjectAll(sorted, cols);
    forall m | 0 <= m < |xs| ensures "date" in xs[m] ==> xs[m]["date"].Day? {
      assert sorted[m] in multiset(rows);
    }
  }

  /** A cut ordered by raw date cells is ordered by day when every date cell is a date. */
  lemma DayCutOrdered(train: seq<Row>, test: seq<Row>)
    requires DatesConvertible(train + test)
    requires forall i, j :: 0 <= i < |train| && 0 <= j < |test| ==> DateCellLe(train[i], test[j])
    ensures forall i, j :: 0 <= i < |train| && 0 <= j < |test| ==> DateLe(train[i], test[j])
  {
    forall i, j | 0 <= i < |train| && 0 <= j < |test| ensures DateLe(train[i], test[j]) {
      assert (train + test)[i] == train[i];
      assert (train + test)[|train| + j] == test[j];
      DateCellLeOnDays(train[i], test[j]);
    }
  }

  /** Cutting date-sorted rows leaves no training row dated after a test row, as long as X keeps `date`. */
  lemma SplitAtChronological(sorted: seq<Row>, k: nat, xcols: seq<string>, labels: seq<string>)
    requires k <= |sorted|
    requires "date" in xcols
    requires Sorting.Sorted(sorted, DateCellLe)
    ensures var s := SplitAt(sorted, k, xcols, labels);
      forall i, j :: 0 <= i < |s.xTrain.rows| && 0 <= j < |s.xTest.rows| ==>
        DateCellLe(s.xTrain.rows[i], s.xTest.rows[j])
  {
    var s := SplitAt(sorted, k, xcols, labels);
    forall i, j | 0 <= i < |s.xTrain.rows| && 0 <= j < |s.xTest.rows|
      ensures DateCellLe(s.xTrain.rows[i], s.xTest.rows[j])
    {
      assert s.xTrain.rows[i] == Project(sorted[i], xcols);
      assert s.xTest.rows[j] == Project(sorted[k + j], xcols);
      ProjectKeepsDateCell(sorted[i], sorted[k + j], xcols);
      assert DateCellLe(sorted[i], sorted[k + j]);
    }
  }

  /** y is the first label column, row for row with X; no labels give empty targets. */
  lemma TrainTestSplitAligned(tables: map<string, Frame>, fv: FeatureView, testSize: real)
    requires TrainTestSplit(tables, fv, testSize).Ok?
    requires !IsEmpty(Read(tables, fv.group))
    ensures var s := TrainTestSplit(tables, fv, testSize).value;
      var sorted := SortedRows(tables, fv);
      var k := SplitIndex(|sorted|, testSize);
      && (fv.labels == [] ==> s.yTrain == [] && s.yTest == [])
      && (fv.labels != [] ==>
            && |s.yTrain| == k && |s.yTest| == |sorted| - k
            && (forall i :: 0 <= i < k ==>
                  s.xTrain.rows[i] == Project(sorted[i], XColumns(tables, fv)) &&
                  s.yTrain[i] == Cell(sorted[i], fv.labels[0]))
            && (forall i :: 0 <= i < |sorted| - k ==>
                  s.xTest.rows[i] == Project(sorted[k + i], XColumns(tables, fv)) &&
                  s.yTest[i] == Cell(sorted[k + i], fv.labels[0])))
  {
    var sorted := SortedRows(tables, fv);
    TrainTestSplitCut(tables, fv, testSize);
    SplitAtAligned(sorted, SplitIndex(|sorted|, testSize), XColumns(tables, fv), fv.labels);
  }

  /** A successful split of a non-empty table cuts the rows, ordered by date cell, at `SplitIndex`. */
  lemma TrainTestSplitCut(tables: map<string, Frame>, fv: FeatureView, testSize: real)
    requires TrainTestSplit(tables, fv, testSize).Ok?
    requires !IsEmpty(Read(tables, fv.group))
    ensures var sorted := SortedRows(tables, fv);
      TrainTestSplit(tables, fv, testSize).value ==
        SplitAt(sorted, SplitIndex(|sorted|, testSize), XColumns(tables, fv), fv.labels)
  {
  }

  /* ---------------- Feature store ---------------- */

  datatype FeatureStore = FeatureStore(basePath: string)

  /** `get_or_create_feature_group`: a handle only; no file is created. */
  function GetOrCreateFeatureGroup(store: FeatureStore, name: string, version: int): (fg: FeatureGroup)
    ensures fg.name == name && fg.version == version && fg.basePath == store.basePath
  {
    FeatureGroup(name, version, store.basePath)
  }

  /** `get_feature_group`: fails iff the group's file is absent. */
  function GetFeatureGroup(tables: map<string, Frame>, store: FeatureStore, name: string, version: int): (r: Result<FeatureGroup>)
    ensures r.Ok? <==> TableFile(FeatureGroup(name, version, store.basePath)) in tables
    ensures r.Ok? ==> r.value == GetOrCreateFeatureGroup(store, name, version)
  {
    var fg := FeatureGroup(name, version, store.basePath);
    if TableFile(fg) in tables then Ok(fg) else Err(NotFound(name))
  }

  /** `get_or_create_feature_view`: a ValueError when no query is given; absent labels are `[]`. */
  function GetOrCreateFeatureView(name: string, version: int, query: Option<FeatureGroup>, labels: Option<seq<string>>): (r: Result<FeatureView>)
    ensures r.Err? <==> query.None?
    ensures r.Ok? ==> r.value.group == query.value && r.value.name == name
    ensures r.Ok? ==> r.value.labels == if labels.Some? then labels.value else []
  {
    if query.None? then Err(InvalidValue("query (feature_group) is required"))
    else Ok(FeatureView(name, query.value, if labels.Some? then labels.value else []))
  }

  /* ---------------- Model registry ---------------- */

  datatype LocalModel = LocalModel(name: string, basePath: string, metrics: Option<map<string, Json>>,
                                   description: string, version: int)

  /** `{base_path}/{name}_v{version}`. */
  function ModelDir(m: LocalModel): string
  {
    PathJoin(m.basePath, m.name + "_v" + IntToString(m.version))
  }

  /** `create_model`: always version 1. */
  function CreateModel(registryBase: string, name: string, metrics: Option<map<string, Json>>, description: string): (m: LocalModel)
    ensures m.version == 1 && m.name == name && m.metrics == metrics && m.description == description
    ensures ModelDir(m) == PathJoin(registryBase, name + "_v1")
  {
    LocalModel(name, registryBase, metrics, description, 1)
  }

  /** `get_model`: a handle for an existing version, with no metrics or description. */
  function GetModel(registryBase: string, name: string, version: int): (m: LocalModel)
    ensures m.version == version && m.name == name && m.metrics.None? && m.description == ""
  {
    LocalModel(name, registryBase, None, "", version)
  }

  /** The `metadata.json` document a save writes; `savedAt` is the clock's ISO-8601 reading. */
  function Metadata(m: LocalModel, savedAt: string): (j: Json)
    ensures j.JObject? && j.fields.Keys == {"name", "version", "description", "metrics", "saved_at"}
    ensures j.fields["version"] == JInt(m.version) && j.fields["saved_at"] == JStr(savedAt)
    ensures j.fields["name"] == JStr(m.name) && j.fields["description"] == JStr(m.description)
    ensures j.fields["metrics"] == if m.metrics.Some? then JObject(m.metrics.value) else JNull
  {
    JObject(map[
      "name" := JStr(m.name),
      "version" := JInt(m.version),
      "description" := JStr(m.description),
      "metrics" := if m.metrics.Some? then JObject(m.metrics.value) else JNull,
      "saved_at" := JStr(savedAt)])
  }

  /** The directories after `LocalModel.save(src)`: remove the model directory, copy `src`, add metadata. */
  function DirsAfterSave(dirs: map<string, Directory>, m: LocalModel, src: string, savedAt: string): map<string, Directory>
  {
    var cleared := dirs - {ModelDir(m)};
    if src in cleared then cleared[ModelDir(m) := cleared[src][MetadataFile := JsonFile(Metadata(m, savedAt))]]
    else cleared
  }

  /** `LocalModel.save`: rmtree, then copytree (which fails when `src` is gone), then metadata. */
  method Save(fs: FileSystem, m: LocalModel, src: string, savedAt: string) returns (r: Result<()>)
    modifies fs
    ensures fs.dirs == DirsAfterSave(old(fs.dirs), m, src, savedAt)
    ensures fs.tables == old(fs.tables)
    ensures r.Ok? <==> src in old(fs.dirs) && src != ModelDir(m)
  {
    var dir := ModelDir(m);
    if dir in fs.dirs {
      fs.dirs := fs.dirs - {dir};
    }
    if src !in fs.dirs {
      return Err(NotFound(src));
    }
    fs.dirs := fs.dirs[dir := fs.dirs[src]];
    fs.dirs := fs.dirs[dir := fs.dirs[dir][MetadataFile := JsonFile(Metadata(m, savedAt))]];
    r := Ok(());
  }

  /**
   * After a successful save the model directory holds exactly the copied files
   * plus `metadata.json` (no file of an earlier save remains); every other
   * directory is unchanged.
   */
  lemma SaveReplacesDirectory(dirs: map<string, Directory>, m: LocalModel, src: string, savedAt: string)
    requires src in dirs && src != ModelDir(m)
    ensures var after := DirsAfterSave(dirs, m, src, savedAt);
      && ModelDir(m) in after
      && after[ModelDir(m)].Keys == dirs[src].Keys + {MetadataFile}
      && (forall f :: f in dirs[src] && f != MetadataFile ==> after[ModelDir(m)][f] == dirs[src][f])
      && after[ModelDir(m)][MetadataFile] == JsonFile(Metadata(m, savedAt))
      && (forall p :: p != ModelDir(m) ==> (p in after <==> p in dirs) && (p in after ==> after[p] == dirs[p]))
  {
  }

  /** Saving the same model twice leaves only what the second save wrote. */
  lemma SaveTwiceKeepsSecond(dirs: map<string, Directory>, m: LocalModel, src1: string, src2: string, t1: string, t2: string)
    requires src1 in dirs && src2 in dirs && src1 != ModelDir(m) && src2 != ModelDir(m)
    ensures DirsAfterSave(DirsAfterSave(dirs, m, src1, t1), m, src2, t2) == DirsAfterSave(dirs, m, src2, t2)
  {
    var dir := ModelDir(m);
    var once := DirsAfterSave(dirs, m, src1, t1);
    assert once - {dir} == dirs - {dir};
  }

  /** The save is not atomic: when the copy fails the previous model is already gone. */
  lemma FailedSaveLosesModel(dirs: map<string, Directory>, m: LocalModel, src: string, savedAt: string)
    requires src !in dirs || src == ModelDir(m)
    ensures DirsAfterSave(dirs, m, src, savedAt) == dirs - {ModelDir(m)}
  {
  }

  /** `download`: the model directory's path, or NotFound when it is absent. */
  function Download(dirs: map<string, Directory>, m: LocalModel): (r: Result<string>)
    ensures r.Ok? <==> ModelDir(m) in dirs
    ensures r.Ok? ==> r.value == ModelDir(m)
  {
    if ModelDir(m) in dirs then Ok(ModelDir(m)) else Err(NotFound(m.name))
  }
}
