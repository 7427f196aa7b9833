/**
 * The slice of a pandas DataFrame the pipelines rely on. A row maps column
 * names to values; a column absent from a row is a missing cell (NaN / NaT).
 * Date cells hold day numbers (see Calendar).
 */
module Frames {
  import opened Wrappers
  import Sorting

  datatype Value = Num(x: real) | Text(s: string) | Day(d: int)

  type Row = map<string, Value>

  /** Column order and rows; `pd.DataFrame()` is `Frame([], [])`. */
  datatype Frame = Frame(columns: seq<string>, rows: seq<Row>)

  function EmptyFrame(): Frame
  {
    Frame([], [])
  }

  /** `DataFrame.empty`: no rows or no columns. */
  predicate IsEmpty(f: Frame)
  {
    |f.columns| == 0 || |f.rows| == 0
  }

  function Cell(r: Row, c: string): Option<Value>
  {
    if c in r then Some(r[c]) else None
  }

  /** The values of one column, missing cells as None (`df[c]`). */
  function ColumnOf(rows: seq<Row>, c: string): (col: seq<Option<Value>>)
    ensures |col| == |rows|
    ensures forall i :: 0 <= i < |rows| ==> col[i] == Cell(rows[i], c)
  {
    seq(|rows|, i requires 0 <= i < |rows| => Cell(rows[i], c))
  }

  /** `[c for c in cols if c not in drop]`. */
  function Without(cols: seq<string>, drop: set<string>): (r: seq<string>)
    ensures forall c :: c in r <==> c in cols && c !in drop
  {
    if cols == [] then []
    else if cols[0] in drop then Without(cols[1..], drop)
    else [cols[0]] + Without(cols[1..], drop)
  }

  /** Column order of `pd.concat([a, b])`: `a`'s columns, then `b`'s new ones. */
  function UnionColumns(a: seq<string>, b: seq<string>): (r: seq<string>)
    ensures forall c :: c in r <==> c in a || c in b
    ensures |a| <= |r| && r[..|a|] == a
    decreases |b|
  {
    if b == [] then a
    else if b[0] in a then UnionColumns(a, b[1..])
    else
      var r := UnionColumns(a + [b[0]], b[1..]);
      assert r[..|a|] == (a + [b[0]])[..|a|];
      r
  }

  lemma {:induction false} UnionColumnsAbsorbs(a: seq<string>, b: seq<string>)
    requires forall c :: c in b ==> c in a
    ensures UnionColumns(a, b) == a
  {
    if b != [] {
      UnionColumnsAbsorbs(a, b[1..]);
    }
  }

  /** `pd.concat([a, b], ignore_index=True)`. */
  function Concat(a: Frame, b: Frame): (r: Frame)
    ensures r.rows == a.rows + b.rows
    ensures forall c :: c in r.columns <==> c in a.columns || c in b.columns
  {
    Frame(UnionColumns(a.columns, b.columns), a.rows + b.rows)
  }

  /** The cells of `r` in the columns `cols` (`df[cols]` on one row). */
  function Project(r: Row, cols: seq<string>): (p: Row)
    ensures forall c :: c in p <==> c in r && c in cols
    ensures forall c :: c in p ==> p[c] == r[c]
  {
    map c | c in r && c in cols :: r[c]
  }

  function ProjectAll(rows: seq<Row>, cols: seq<string>): (ps: seq<Row>)
    ensures |ps| == |rows|
    ensures forall i :: 0 <= i < |rows| ==> ps[i] == Project(rows[i], cols)
  {
    seq(|rows|, i requires 0 <= i < |rows| => Project(rows[i], cols))
  }

  lemma {:induction false} ProjectAllAppend(a: seq<Row>, b: seq<Row>, cols: seq<string>)
    ensures ProjectAll(a + b, cols) == ProjectAll(a, cols) + ProjectAll(b, cols)
  {
  }

  /** A date column pandas can convert: every present cell is a date. */
  predicate DatesConvertible(rows: seq<Row>)
  {
    forall i :: 0 <= i < |rows| ==> "date" in rows[i] ==> rows[i]["date"].Day?
  }

  function DateOf(r: Row): Option<int>
  {
    if "date" in r && r["date"].Day? then Some(r["date"].d) else None
  }

  /** Projecting onto columns that include `date` keeps the date. */
  lemma ProjectKeepsDate(r: Row, cols: seq<string>)
    requires "date" in cols
    ensures DateOf(Project(r, cols)) == DateOf(r)
  {
  }

  /** The order of `sort_values('date')`: by day, missing dates (NaT) last. */
  predicate DateLe(a: Row, b: Row)
  {
    var da, db := DateOf(a), DateOf(b);
    db.None? || (da.Some? && da.value <= db.value)
  }

  lemma DateLeIsTotalPreorder()
    ensures Sorting.TotalPreorder(DateLe)
  {
  }

  function SortByDate(rows: seq<Row>): (r: seq<Row>)
    ensures multiset(r) == multiset(rows)
    ensures |r| == |rows|
  {
    Sorting.SortBy(rows, DateLe)
  }

  /** The sorted rows are in date order, missing dates last. */
  lemma SortByDateSorted(rows: seq<Row>)
    ensures Sorting.Sorted(SortByDate(rows), DateLe)
  {
    DateLeIsTotalPreorder();
    Sorting.SortBySorted(rows, DateLe);
  }

  /** Sorting keeps exactly the rows it was given. */
  lemma SortByDateMembers(rows: seq<Row>)
    ensures forall x :: x in SortByDate(rows) <==> x in rows
  {
    forall x ensures x in SortByDate(rows) <==> x in rows {
      assert x in SortByDate(rows) <==> x in multiset(SortByDate(rows));
      assert x in rows <==> x in multiset(rows);
    }
  }

  /** Two cells Python can compare with `<`: both numbers, both strings or both dates. */
  predicate SameKind(a: Value, b: Value)
  {
    (a.Num? && b.Num?) || (a.Text? && b.Text?) || (a.Day? && b.Day?)
  }

  /** `sort_values('date')` can order the column: its present cells are all of one kind. */
  predicate DatesComparable(rows: seq<Row>)
  {
    forall i, j :: 0 <= i < |rows| && 0 <= j < |rows| && "date" in rows[i] && "date" in rows[j] ==>
      SameKind(rows[i]["date"], rows[j]["date"])
  }

  /** Python's order on `str`: lexicographic by code point. */
  predicate TextLe(a: string, b: string)
  {
    a == [] || (b != [] && (a[0] < b[0] || (a[0] == b[0] && TextLe(a[1..], b[1..]))))
  }

  lemma {:induction false} TextLeTotal(a: string, b: string)
    ensures TextLe(a, b) || TextLe(b, a)
  {
    if a != [] && b != [] && a[0] == b[0] {
      TextLeTotal(a[1..], b[1..]);
    }
  }

  lemma {:induction false} TextLeTransitive(a: string, b: string, c: string)
    requires TextLe(a, b) && TextLe(b, c)
    ensures TextLe(a, c)
  {
    if a != [] && a[0] == b[0] && b[0] == c[0] {
      TextLeTransitive(a[1..], b[1..], c[1..]);
    }
  }

  function KindRank(v: Value): nat
  {
    match v
    case Num(_) => 0
    case Text(_) => 1
    case Day(_) => 2
  }

  /**
   * The order of one date cell: numbers, strings and dates each by value.
   * Cells of different kinds are never compared by a sort that succeeds;
   * they are ranked by kind only to keep the order total.
   */
  predicate ValueLe(a: Value, b: Value)
  {
    if a.Num? && b.Num? then a.x <= b.x
    else if a.Text? && b.Text? then TextLe(a.s, b.s)
    else if a.Day? && b.Day? then a.d <= b.d
    else KindRank(a) < KindRank(b)
  }

  /** The order of `sort_values('date')` on raw cells: by `ValueLe`, missing cells (NaN) last. */
  predicate DateCellLe(a: Row, b: Row)
  {
    "date" !in b || ("date" in a && ValueLe(a["date"], b["date"]))
  }

  lemma DateCellLeIsTotalPreorder()
    ensures Sorting.TotalPreorder(DateCellLe)
  {
    forall a: Row, b: Row ensures DateCellLe(a, b) || DateCellLe(b, a) {
      if "date" in a && "date" in b && a["date"].Text? && b["date"].Text? {
        TextLeTotal(a["date"].s, b["date"].s);
      }
    }
    forall a: Row, b: Row, c: Row | DateCellLe(a, b) && DateCellLe(b, c) ensures DateCellLe(a, c) {
      if "date" in a && "date" in b && "date" in c && a["date"].Text? && b["date"].Text? && c["date"].Text? {
        TextLeTransitive(a["date"].s, b["date"].s, c["date"].s);
      }
    }
  }

  /** On date cells that are dates or missing, the raw order is the day order `DateLe`. */
  lemma DateCellLeOnDays(a: Row, b: Row)
    requires "date" in a ==> a["date"].Day?
    requires "date" in b ==> b["date"].Day?
    ensures DateCellLe(a, b) == DateLe(a, b)
  {
  }

  /** Projecting onto columns that include `date` keeps the date cell. */
  lemma ProjectKeepsDateCell(a: Row, b: Row, cols: seq<string>)
    requires "date" in cols
    ensures DateCellLe(Project(a, cols), Project(b, cols)) == DateCellLe(a, b)
  {
  }

  /** A row of a numeric daily frame: its date and its other numeric cells. */
  datatype DailyRow = DailyRow(date: int, vals: map<string, real>)

  /** A numeric daily frame; `columns` lists its columns other than `date`. */
  datatype DailyFrame = DailyFrame(columns: seq<string>, rows: seq<DailyRow>)

  function NumOf(r: DailyRow, c: string): Option<real>
  {
    if c in r.vals then Some(r.vals[c]) else None
  }

  predicate DailyLe(a: DailyRow, b: DailyRow)
  {
    a.date <= b.date
  }

  function SortDailyByDate(rows: seq<DailyRow>): (r: seq<DailyRow>)
    ensures multiset(r) == multiset(rows)
    ensures |r| == |rows|
  {
    Sorting.SortBy(rows, DailyLe)
  }

  lemma SortDailyByDateSorted(rows: seq<DailyRow>)
    ensures forall i, j :: 0 <= i < j < |rows| ==>
      SortDailyByDate(rows)[i].date <= SortDailyByDate(rows)[j].date
  {
    assert Sorting.TotalPreorder(DailyLe);
    Sorting.SortBySorted(rows, DailyLe);
  }
}
