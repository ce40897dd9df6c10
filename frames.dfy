/** The pandas values the labelling scripts work on: cells, rows, data frames
    (as values and as objects updated in place), Python equality and
    truthiness of cells, `astype(str)`, column assignment and `pd.concat`.
    Every frame carries the default positional index that `read_csv` gives
    it, so aligning two columns "by index" means aligning them by position. */
module Frames {
  import opened Common
  import opened Text

  /** One cell: a missing value (NaN), a string, an integer or a boolean. */
  datatype Cell = NA | Str(s: string) | Int(i: int) | Bool(b: bool)

  /** One row, from column name to cell. */
  type Row = map<string, Cell>

  /** A data frame as a value: its column names in order and its rows in order. */
  datatype Frame = Frame(columns: seq<string>, rows: seq<Row>)

  /** Every row holds exactly the frame's columns. */
  ghost predicate Shaped(f: Frame) {
    forall i :: 0 <= i < |f.rows| ==> forall c :: c in f.rows[i] <==> c in f.columns
  }

  /** `DataFrame.empty`: no rows or no columns. */
  predicate IsEmpty(f: Frame) {
    |f.rows| == 0 || |f.columns| == 0
  }

  /** Python's `a == b` on two cells: NaN equals nothing, not even NaN;
      True and False equal 1 and 0; a string never equals a number. */
  predicate PyEq(a: Cell, b: Cell) {
    match (a, b)
    case (Str(x), Str(y)) => x == y
    case (Int(x), Int(y)) => x == y
    case (Bool(x), Bool(y)) => x == y
    case (Bool(x), Int(y)) => (if x then 1 else 0) == y
    case (Int(x), Bool(y)) => x == (if y then 1 else 0)
    case _ => false
  }

  /** Two string cells are equal exactly when their strings are. */
  lemma PyEqStr(x: string, y: string)
    ensures PyEq(Str(x), Str(y)) <==> x == y
  {
  }

  /** Python equality on cells is symmetric, and NaN is equal to no cell. */
  lemma PyEqSymmetric(a: Cell, b: Cell)
    ensures PyEq(a, b) == PyEq(b, a)
    ensures !PyEq(NA, b) && !PyEq(a, NA)
  {
  }

  /** `str(c)`, as `Series.astype(str)` renders each cell. */
  function ToStr(c: Cell): (r: string)
    ensures c.Str? ==> r == c.s
    ensures c.NA? ==> r == "nan"
    ensures c.Int? ==> r == IntToString(c.i)
    ensures c.Bool? ==> r == (if c.b then "True" else "False")
  {
    match c
    case NA => "nan"
    case Str(s) => s
    case Int(i) => IntToString(i)
    case Bool(b) => if b then "True" else "False"
  }

  /** `row.get(col)`: the cell, or None when the row has no such column. */
  function Get(r: Row, col: string): (v: Option<Cell>)
    ensures v.Some? <==> col in r
    ensures v.Some? ==> v.value == r[col]
  {
    if col in r then Some(r[col]) else None
  }

  /** The truth value of `row.get(col)`: None, "", 0 and False are false,
      and a NaN cell is TRUE (a float NaN is truthy in Python). */
  predicate Truthy(v: Option<Cell>) {
    match v
    case None => false
    case Some(NA) => true
    case Some(Str(s)) => s != ""
    case Some(Int(i)) => i != 0
    case Some(Bool(b)) => b
  }

  /** `df[col]` as a sequence of cells (a row without the column gives NaN). */
  function Column(f: Frame, col: string): (vs: seq<Cell>)
    ensures |vs| == |f.rows|
    ensures forall i :: 0 <= i < |f.rows| && col in f.rows[i] ==> vs[i] == f.rows[i][col]
  {
    seq(|f.rows|, i requires 0 <= i < |f.rows| => if col in f.rows[i] then f.rows[i][col] else NA)
  }

  /** A row holding every one of `cols` as NaN. */
  function NARow(cols: seq<string>): (r: Row)
    ensures forall c :: c in r <==> c in cols
    ensures forall c :: c in r ==> r[c] == NA
  {
    map c | c in cols :: NA
  }

  /** The column list after assigning column `name`: a new name goes last. */
  function AddColumnName(cols: seq<string>, name: string): (r: seq<string>)
    ensures name in r
    ensures forall c :: c in r <==> c in cols || c == name
    ensures name in cols ==> r == cols
  {
    if name in cols then cols else cols + [name]
  }

  /** `df[name] = series`: row i receives `values[i]`, and rows past the end of
      `values` receive NaN (alignment on the positional index). As in pandas, a
      frame without rows that is assigned a non-empty series first takes that
      series' index, so it then has one row per value, every other column NaN. */
  function WithColumn(f: Frame, name: string, values: seq<Cell>): (g: Frame)
    ensures g.columns == AddColumnName(f.columns, name)
    ensures |f.rows| > 0 ==> |g.rows| == |f.rows|
    ensures |f.rows| == 0 ==> |g.rows| == |values|
    ensures forall i :: 0 <= i < |g.rows| ==>
      name in g.rows[i] && g.rows[i][name] == (if i < |values| then values[i] else NA)
    ensures |f.rows| > 0 ==> forall i, c :: 0 <= i < |f.rows| && c != name ==>
      (c in g.rows[i] <==> c in f.rows[i]) && (c in f.rows[i] ==> g.rows[i][c] == f.rows[i][c])
    ensures Shaped(f) ==> Shaped(g)
  {
    if |f.rows| == 0 && |values| > 0 then
      var g := Frame(AddColumnName(f.columns, name),
                     seq(|values|, i requires 0 <= i < |values| => NARow(f.columns)[name := values[i]]));
      assert Shaped(g) by {
        forall i | 0 <= i < |g.rows| ensures forall c :: c in g.rows[i] <==> c in g.columns {
          assert g.rows[i] == NARow(f.columns)[name := values[i]];
        }
      }
      g
    else
      Frame(AddColumnName(f.columns, name),
            seq(|f.rows|, i requires 0 <= i < |f.rows| =>
              f.rows[i][name := if i < |values| then values[i] else NA]))
  }

  /** `df[name] = scalar`: every row receives the same cell. */
  function WithConstant(f: Frame, name: string, v: Cell): (g: Frame)
    ensures g.columns == AddColumnName(f.columns, name)
    ensures |g.rows| == |f.rows|
    ensures forall i :: 0 <= i < |g.rows| ==> g.rows[i] == f.rows[i][name := v]
    ensures Shaped(f) ==> Shaped(g)
  {
    Frame(AddColumnName(f.columns, name),
          seq(|f.rows|, i requires 0 <= i < |f.rows| => f.rows[i][name := v]))
  }

  /** The columns of several frames, in order of first appearance. */
  function UnionColumns(fs: seq<Frame>): (cols: seq<string>)
    ensures forall c :: c in cols <==> exists k :: 0 <= k < |fs| && c in fs[k].columns
  {
    if fs == [] then []
    else
      var before := UnionColumns(fs[..|fs| - 1]);
      var last := fs[|fs| - 1].columns;
      var added := before + Unseen(last, before);
      assert forall k :: 0 <= k < |fs| - 1 ==> fs[..|fs| - 1][k] == fs[k];
      added
  }

  /** The names of `cols`, in order, that are not yet in `seen`. */
  function Unseen(cols: seq<string>, seen: seq<string>): (r: seq<string>)
    ensures forall c :: c in r <==> c in cols && c !in seen
  {
    if cols == [] then []
    else if cols[0] in seen || cols[0] in cols[1..] then Unseen(cols[1..], seen)
    else [cols[0]] + Unseen(cols[1..], seen)
  }

  /** The rows of several frames, one frame after the other. */
  function AllRows(fs: seq<Frame>): (rs: seq<Row>)
  {
    if fs == [] then [] else AllRows(fs[..|fs| - 1]) + fs[|fs| - 1].rows
  }

  /** A row widened to `cols`: a column it lacks becomes NaN. */
  function Pad(r: Row, cols: seq<string>): (p: Row)
    ensures forall c :: c in p <==> c in cols
    ensures forall c :: c in cols && c in r ==> p[c] == r[c]
    ensures forall c :: c in cols && c !in r ==> p[c] == NA
  {
    map c | c in cols :: if c in r then r[c] else NA
  }

  /** `pd.concat(fs, ignore_index=True)`: the rows one frame after the other,
      under the union of the columns, missing cells NaN. */
  function Concat(fs: seq<Frame>): (g: Frame)
    ensures g.columns == UnionColumns(fs)
    ensures |g.rows| == |AllRows(fs)|
    ensures forall i :: 0 <= i < |g.rows| ==> g.rows[i] == Pad(AllRows(fs)[i], g.columns)
    ensures Shaped(g)
  {
    var cols := UnionColumns(fs);
    var rs := AllRows(fs);
    Frame(cols, seq(|rs|, i requires 0 <= i < |rs| => Pad(rs[i], cols)))
  }

  /** A pandas data frame that functions update in place. */
  class Table {
    var columns: seq<string>
    var rows: seq<Row>

    /** The frame this table currently holds. */
    function Snapshot(): (f: Frame)
      reads this
      ensures f.columns == columns && f.rows == rows
    {
      Frame(columns, rows)
    }

    constructor (f: Frame)
      ensures Snapshot() == f
    {
      columns := f.columns;
      rows := f.rows;
    }

    /** `df[name] = series`, in place. */
    method Assign(name: string, values: seq<Cell>)
      modifies this
      ensures Snapshot() == WithColumn(old(Snapshot()), name, values)
    {
      var g := WithColumn(Snapshot(), name, values);
      columns, rows := g.columns, g.rows;
    }
  }
}
