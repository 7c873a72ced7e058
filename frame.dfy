/**
 * The part of a pandas DataFrame the system relies on: named columns with a dtype tag and
 * possibly-missing cells, column selection, column assignment, `head`, `drop`, `reindex`,
 * row concatenation and conversion to records.
 */
module Frame {
  import opened Wrappers
  import opened Seqs
  import opened Ordering

  /** A cell value: a number (integers included) or a string. A missing cell is `None`. */
  datatype Value = Num(x: real) | Str(s: string)

  /** The order `sorted` uses within one kind of value (numbers before strings across kinds). */
  predicate ValueLess(a: Value, b: Value)
  {
    match (a, b)
    case (Num(x), Num(y)) => x < y
    case (Str(s), Str(t)) => StrLess(s, t)
    case (Num(_), Str(_)) => true
    case (Str(_), Num(_)) => false
  }

  lemma ValueLessIsStrictTotalOrder()
    ensures StrictTotalOrder(ValueLess)
  {
    forall a | true ensures !ValueLess(a, a) {
      if a.Str? { StrLessIrreflexive(a.s); }
    }
    forall a, b, c | ValueLess(a, b) && ValueLess(b, c) ensures ValueLess(a, c) {
      if a.Str? && b.Str? && c.Str? { StrLessTransitive(a.s, b.s, c.s); }
    }
    forall a, b | a != b ensures ValueLess(a, b) || ValueLess(b, a) {
      if a.Str? && b.Str? { StrLessTotal(a.s, b.s); }
    }
  }

  /** The dtype tag of a column: int64, float64, object, or categorical with its levels. */
  datatype DType = IntT | FloatT | TextT | CategoricalT(categories: seq<Value>)

  /** pandas `is_numeric_dtype`: a categorical column is not numeric. */
  predicate IsNumeric(d: DType)
  {
    d.IntT? || d.FloatT?
  }

  /** pandas `is_object_dtype(d) or is_categorical_dtype(d)`. */
  predicate IsObjectOrCategorical(d: DType)
  {
    d.TextT? || d.CategoricalT?
  }

  datatype Column = Column(dtype: DType, cells: seq<Option<Value>>)

  /** `series.dropna()`: the present values in row order. */
  function NonMissing(cells: seq<Option<Value>>): (r: seq<Value>)
    ensures |r| <= |cells|
    ensures forall v :: v in r <==> Some(v) in cells
  {
    if cells == [] then []
    else
      var rest := NonMissing(cells[1..]);
      assert forall v :: Some(v) in cells <==> Some(v) == cells[0] || Some(v) in cells[1..];
      if cells[0].Some? then [cells[0].value] + rest else rest
  }

  /**
   * `dropna` keeps row order: appending a cell appends its value when it is present and
   * nothing when it is missing.
   */
  lemma {:induction false} NonMissingAppend(cells: seq<Option<Value>>, x: Option<Value>)
    ensures NonMissing(cells + [x]) == NonMissing(cells) + (if x.Some? then [x.value] else [])
  {
    if cells == [] {
      assert [] + [x] == [x];
    } else {
      assert (cells + [x])[1..] == cells[1..] + [x];
      NonMissingAppend(cells[1..], x);
    }
  }

  /** A column of `n` missing cells, as `reindex` creates for an absent column (float64 NaN). */
  function MissingColumn(n: nat): (c: Column)
    ensures |c.cells| == n && forall i :: 0 <= i < n ==> c.cells[i] == None
  {
    Column(FloatT, seq(n, _ => None))
  }

  /**
   * A table: the ordered column names (a name may repeat only after selecting a list with
   * repeats), the column of each name, and the number of rows.
   */
  datatype Table = Table(columns: seq<string>, data: map<string, Column>, rows: nat)

  ghost predicate Valid(t: Table)
  {
    && (forall c :: c in t.data <==> c in t.columns)
    && (forall c :: c in t.data ==> |t.data[c].cells| == t.rows)
  }

  /** `df[names]`: the listed columns in the listed order; a KeyError (None) if one is absent. */
  function Project(t: Table, names: seq<string>): (r: Option<Table>)
    requires Valid(t)
    ensures r.Some? <==> forall n :: n in names ==> n in t.columns
    ensures r.Some? ==> Valid(r.value) && r.value.columns == names && r.value.rows == t.rows
    ensures r.Some? ==> forall n :: n in names ==> r.value.data[n] == t.data[n]
  {
    if forall n :: n in names ==> n in t.data then
      Some(Table(names, map n | n in names :: t.data[n], t.rows))
    else None
  }

  /**
   * `df[name] = col`: replaces the column if the name is present, otherwise appends it
   * as the last column. No other column changes.
   */
  function SetColumn(t: Table, name: string, col: Column): (r: Table)
    requires Valid(t) && |col.cells| == t.rows
    ensures Valid(r) && r.rows == t.rows && name in r.data && r.data[name] == col
    ensures r.columns == if name in t.columns then t.columns else t.columns + [name]
    ensures forall c :: c in t.data && c != name ==> r.data[c] == t.data[c]
  {
    var cols := if name in t.columns then t.columns else t.columns + [name];
    Table(cols, t.data[name := col], t.rows)
  }

  /** `df.head(n)` for `n >= 0`: the first `min(n, rows)` rows, all columns kept. */
  function Head(t: Table, n: nat): (r: Table)
    requires Valid(t)
    ensures Valid(r) && r.columns == t.columns && r.data.Keys == t.data.Keys
    ensures r.rows == if n < t.rows then n else t.rows
    ensures forall c :: c in r.data ==> r.data[c] == Column(t.data[c].dtype, t.data[c].cells[..r.rows])
  {
    var m := if n < t.rows then n else t.rows;
    Table(t.columns, map c | c in t.data :: Column(t.data[c].dtype, t.data[c].cells[..m]), m)
  }

  /** `df.drop(columns=names)`: every column whose name is listed is removed. */
  function DropColumns(t: Table, names: seq<string>): (r: Table)
    requires Valid(t)
    ensures Valid(r) && r.rows == t.rows
    ensures r.columns == Filter(t.columns, c => c !in names)
    ensures forall c :: c in r.data ==> r.data[c] == t.data[c]
  {
    var cols := Filter(t.columns, c => c !in names);
    Table(cols, map c | c in t.data && c !in names :: t.data[c], t.rows)
  }

  /** `df.reindex(columns=cols)`: the listed columns, an absent one as all missing. */
  function Reindex(t: Table, cols: seq<string>): (r: Table)
    requires Valid(t)
    ensures Valid(r) && r.columns == cols && r.rows == t.rows
    ensures forall c :: c in cols && c in t.data ==> r.data[c] == t.data[c]
    ensures forall c :: c in cols && c !in t.data ==> r.data[c] == MissingColumn(t.rows)
  {
    Table(cols, map c | c in cols :: if c in t.data then t.data[c] else MissingColumn(t.rows), t.rows)
  }

  /** The dtype of a column built from two stacked columns (pandas' common type, simplified). */
  function CombineDType(d1: DType, d2: DType): DType
  {
    if d1 == d2 then d1
    else if IsNumeric(d1) && IsNumeric(d2) then FloatT
    else TextT
  }

  /** `pd.concat([t1, t2], ignore_index=True)` for tables with the same columns. */
  function ConcatRows(t1: Table, t2: Table): (r: Table)
    requires Valid(t1) && Valid(t2) && t1.columns == t2.columns
    ensures Valid(r) && r.columns == t1.columns && r.rows == t1.rows + t2.rows
    ensures forall c :: c in r.data ==> r.data[c].cells == t1.data[c].cells + t2.data[c].cells
  {
    Table(t1.columns,
          map c | c in t1.data :: Column(CombineDType(t1.data[c].dtype, t2.data[c].dtype),
                                         t1.data[c].cells + t2.data[c].cells),
          t1.rows + t2.rows)
  }

  /** One row as a record: column name to cell. */
  type Record = map<string, Option<Value>>

  /** `df.to_dict(orient="records")`: one record per row, keyed by the column names. */
  function Records(t: Table): (r: seq<Record>)
    requires Valid(t)
    ensures |r| == t.rows
    ensures forall i :: 0 <= i < |r| ==> r[i].Keys == t.data.Keys
    ensures forall i, c :: 0 <= i < |r| && c in t.data ==> r[i][c] == t.data[c].cells[i]
  {
    seq(t.rows, i requires 0 <= i < t.rows => map c | c in t.data :: t.data[c].cells[i])
  }
}
