/** LabelerV2/modules/matcher.py: matching the columns of a table against a
    reference table (`match_columns`) and labelling its rows by a criterion
    (`apply_labels`). Both change the table they are given in place. */
module Matcher {
  import opened Common
  import opened Frames
  import opened JsonValues

  /** The part of a labelling configuration `match_columns` reads; None is a
      key the configuration does not hold (`config.get` then gives an empty
      list or dict). */
  datatype MatchConfig = MatchConfig(
    columnsToLabel: Option<seq<string>>,
    columnsReference: Option<seq<string>>,
    columnMappings: Option<seq<(string, string)>>,
    columnsToCopy: Option<seq<string>>)

  /** The Python `repr` of a list of column names, as the messages show it. */
  function NamesRepr(cols: seq<string>): string {
    Repr(JArr(seq(|cols|, i requires 0 <= i < |cols| => JStr(cols[i]))))
  }

  /** The error raised when the table lacks a column to label. */
  function TargetError(cols: seq<string>): PyError {
    ValueError("El archivo a etiquetar no tiene las columnas esperadas: " + NamesRepr(cols))
  }

  /** The error raised when the reference lacks one of its columns. */
  function ReferenceError(cols: seq<string>): PyError {
    ValueError("El archivo de referencia no tiene las columnas esperadas: " + NamesRepr(cols))
  }

  /** `all(col in f.columns for col in cols)`. */
  predicate HasAll(f: Frame, cols: seq<string>) {
    forall k :: 0 <= k < |cols| ==> cols[k] in f.columns
  }

  /** `series.eq(x).any()`: some cell of the series equals `x`. */
  function AnyEq(col: seq<Cell>, x: Cell): (b: bool)
    ensures b <==> exists k :: 0 <= k < |col| && PyEq(col[k], x)
  {
    if col == [] then false
    else if PyEq(col[0], x) then true
    else
      assert forall k :: 1 <= k < |col| ==> col[k] == col[1..][k - 1];
      AnyEq(col[1..], x)
  }

  /** The new values of a mapped column: each cell becomes True exactly when
      its value occurs in the reference column. */
  function Marks(f: Frame, labelCol: string, refValues: seq<Cell>): (vs: seq<Cell>)
    ensures |vs| == |f.rows|
  {
    seq(|f.rows|, i requires 0 <= i < |f.rows| => Bool(AnyEq(refValues, Column(f, labelCol)[i])))
  }

  /** One round of the mapping loop: applied only when both columns exist. */
  function MapStep(f: Frame, reference: Frame, m: (string, string)): Frame {
    if m.0 in f.columns && m.1 in reference.columns
    then WithColumn(f, m.0, Marks(f, m.0, Column(reference, m.1)))
    else f
  }

  /** The mapping loop over `ms`, in order. */
  function MapAll(f: Frame, reference: Frame, ms: seq<(string, string)>): Frame
    decreases |ms|
  {
    if ms == [] then f else MapStep(MapAll(f, reference, ms[..|ms| - 1]), reference, ms[|ms| - 1])
  }

  /** One round of the copy loop: the reference column, aligned by row
      position, when the reference has it. */
  function CopyStep(f: Frame, reference: Frame, col: string): Frame {
    if col in reference.columns then WithColumn(f, col, Column(reference, col)) else f
  }

  /** The copy loop over `cols`, in order. */
  function CopyAll(f: Frame, reference: Frame, cols: seq<string>): Frame
    decreases |cols|
  {
    if cols == [] then f else CopyStep(CopyAll(f, reference, cols[..|cols| - 1]), reference, cols[|cols| - 1])
  }

  /** What `match_columns` makes of the table: the target check, then the
      reference check, then the mapped columns, then the copied columns. */
  function MatchOutcome(f: Frame, reference: Frame, config: MatchConfig): (r: Result<Frame, PyError>)
  {
    var toLabel := config.columnsToLabel.GetOr([]);
    var refCols := config.columnsReference.GetOr([]);
    if !HasAll(f, toLabel) then Failure(TargetError(toLabel))
    else if !HasAll(reference, refCols) then Failure(ReferenceError(refCols))
    else
      var mapped := MapAll(f, reference, config.columnMappings.GetOr([]));
      Success(CopyAll(mapped, reference, config.columnsToCopy.GetOr([])))
  }

  /** `match_columns`: the table is changed in place and, on success, it is
      also the result; on an error it is left as it was. */
  method MatchColumns(target: Table, reference: Frame, config: MatchConfig) returns (r: Result<Frame, PyError>)
    modifies target
    ensures r == MatchOutcome(old(target.Snapshot()), reference, config)
    ensures r.Success? ==> target.Snapshot() == r.value
    ensures r.Failure? ==> target.Snapshot() == old(target.Snapshot())
  {
    var toLabel := config.columnsToLabel.GetOr([]);
    var refCols := config.columnsReference.GetOr([]);
    if !HasAll(target.Snapshot(), toLabel) {
      return Failure(TargetError(toLabel));
    }
    if !HasAll(reference, refCols) {
      return Failure(ReferenceError(refCols));
    }
    ghost var start := target.Snapshot();
    var ms := config.columnMappings.GetOr([]);
    var i := 0;
    while i < |ms|
      invariant 0 <= i <= |ms|
      invariant target.Snapshot() == MapAll(start, reference, ms[..i])
    {
      var m := ms[i];
      assert ms[..i + 1][..i] == ms[..i];
      if m.0 in target.columns && m.1 in reference.columns {
        target.Assign(m.0, Marks(target.Snapshot(), m.0, Column(reference, m.1)));
      }
      i := i + 1;
    }
    assert ms[..i] == ms;
    ghost var mapped := target.Snapshot();
    var cs := config.columnsToCopy.GetOr([]);
    var j := 0;
    while j < |cs|
      invariant 0 <= j <= |cs|
      invariant target.Snapshot() == CopyAll(mapped, reference, cs[..j])
    {
      var col := cs[j];
      assert cs[..j + 1][..j] == cs[..j];
      if col in reference.columns {
        target.Assign(col, Column(reference, col));
      }
      j := j + 1;
    }
    assert cs[..j] == cs;
    r := Success(target.Snapshot());
  }

  /** The target is checked before the reference: two tables without columns
      give the target's error whenever some column is to be labelled. */
  lemma TargetCheckedFirst(f: Frame, reference: Frame, config: MatchConfig)
    requires config.columnsToLabel.Some? && config.columnsToLabel.value != [] && f.columns == []
    ensures MatchOutcome(f, reference, config) == Failure(TargetError(config.columnsToLabel.value))
  {
    assert !HasAll(f, config.columnsToLabel.value) by {
      assert config.columnsToLabel.value[0] !in f.columns;
    }
  }

  /** When the table has its columns, a missing reference column is
      reported. */
  lemma ReferenceCheckedSecond(f: Frame, reference: Frame, config: MatchConfig, k: int)
    requires HasAll(f, config.columnsToLabel.GetOr([]))
    requires config.columnsReference.Some? && 0 <= k < |config.columnsReference.value|
    requires config.columnsReference.value[k] !in reference.columns
    ensures MatchOutcome(f, reference, config) == Failure(ReferenceError(config.columnsReference.value))
  {
  }

  /** With nothing configured the table comes back unchanged. */
  lemma EmptyConfigUnchanged(f: Frame, reference: Frame)
    ensures MatchOutcome(f, reference, MatchConfig(None, None, None, None)) == Success(f)
  {
  }

  /** A mapping step whose columns are not both present changes nothing. */
  lemma MapStepSkips(f: Frame, reference: Frame, m: (string, string))
    requires m.0 !in f.columns || m.1 !in reference.columns
    ensures MapStep(f, reference, m) == f
  {
  }

  /** A mapping step makes each cell of the mapped column True exactly when
      its old value occurs in the reference column, and changes nothing else. */
  lemma MapStepMarks(f: Frame, reference: Frame, m: (string, string), i: int)
    requires m.0 in f.columns && m.1 in reference.columns && 0 <= i < |f.rows|
    ensures |MapStep(f, reference, m).rows| == |f.rows|
    ensures MapStep(f, reference, m).columns == f.columns
    ensures m.0 in MapStep(f, reference, m).rows[i]
    ensures MapStep(f, reference, m).rows[i][m.0]
         == Bool(exists k :: 0 <= k < |reference.rows| && PyEq(Column(reference, m.1)[k], Column(f, m.0)[i]))
    ensures forall c :: c != m.0 ==>
      (c in MapStep(f, reference, m).rows[i] <==> c in f.rows[i])
      && (c in f.rows[i] ==> MapStep(f, reference, m).rows[i][c] == f.rows[i][c])
  {
  }

  /** A copy step puts reference row i's cell into row i, and NaN into rows
      past the end of the reference; other cells do not change. */
  lemma CopyStepAligns(f: Frame, reference: Frame, col: string, i: int)
    requires col in reference.columns && 0 <= i < |f.rows|
    ensures |CopyStep(f, reference, col).rows| == |f.rows|
    ensures col in CopyStep(f, reference, col).columns
    ensures col in CopyStep(f, reference, col).rows[i]
    ensures i < |reference.rows| ==> CopyStep(f, reference, col).rows[i][col] == Column(reference, col)[i]
    ensures i >= |reference.rows| ==> CopyStep(f, reference, col).rows[i][col] == NA
    ensures forall c :: c != col ==>
      (c in CopyStep(f, reference, col).rows[i] <==> c in f.rows[i])
      && (c in f.rows[i] ==> CopyStep(f, reference, col).rows[i][c] == f.rows[i][c])
  {
  }

  /** A copy column the reference lacks is skipped. */
  lemma CopyStepSkips(f: Frame, reference: Frame, col: string)
    requires col !in reference.columns
    ensures CopyStep(f, reference, col) == f
  {
  }

  /** The mapping loop keeps the row count and the column list of a table
      that has rows. */
  lemma {:induction false} MapAllKeepsShape(f: Frame, reference: Frame, ms: seq<(string, string)>)
    requires |f.rows| > 0
    decreases |ms|
    ensures |MapAll(f, reference, ms).rows| == |f.rows|
    ensures MapAll(f, reference, ms).columns == f.columns
  {
    if ms != [] {
      MapAllKeepsShape(f, reference, ms[..|ms| - 1]);
    }
  }

  /** The copy loop keeps the row count of a table that has rows, and adds
      exactly the copied columns the reference has. */
  lemma {:induction false} CopyAllKeepsRows(f: Frame, reference: Frame, cols: seq<string>)
    requires |f.rows| > 0
    decreases |cols|
    ensures |CopyAll(f, reference, cols).rows| == |f.rows|
    ensures forall c :: c in CopyAll(f, reference, cols).columns <==>
      c in f.columns || (c in cols && c in reference.columns)
  {
    if cols != [] {
      CopyAllKeepsRows(f, reference, cols[..|cols| - 1]);
      assert forall c :: c in cols <==> c in cols[..|cols| - 1] || c == cols[|cols| - 1] by {
        assert cols == cols[..|cols| - 1] + [cols[|cols| - 1]];
      }
    }
  }

  /** `match_columns` keeps the number of rows of a table that has rows. */
  lemma MatchKeepsRowCount(f: Frame, reference: Frame, config: MatchConfig)
    requires |f.rows| > 0 && MatchOutcome(f, reference, config).Success?
    ensures |MatchOutcome(f, reference, config).value.rows| == |f.rows|
  {
    var mapped := MapAll(f, reference, config.columnMappings.GetOr([]));
    MapAllKeepsShape(f, reference, config.columnMappings.GetOr([]));
    CopyAllKeepsRows(mapped, reference, config.columnsToCopy.GetOr([]));
  }

  /** A table without rows that is given a copied column takes the
      reference's rows, as a pandas frame without an index does. */
  lemma EmptyTableTakesCopiedRows(f: Frame, reference: Frame, col: string)
    requires |f.rows| == 0 && |reference.rows| > 0 && col in reference.columns
    ensures |MatchOutcome(f, reference, MatchConfig(None, None, None, Some([col]))).value.rows| == |reference.rows|
  {
    var config := MatchConfig(None, None, None, Some([col]));
    assert [col][..0] == [];
    assert MapAll(f, reference, []) == f;
    assert CopyAll(f, reference, [col]) == CopyStep(f, reference, col);
    assert MatchOutcome(f, reference, config) == Success(CopyStep(f, reference, col));
  }

  // ----- apply_labels -----

  /** `protocol_mapping`: "TCP" and "UDP" stand for 43419 and 17; any other
      criterion value is used as it is. */
  function Translate(v: Json): (t: Json)
    ensures v == JStr("TCP") ==> t == JNum(43419)
    ensures v == JStr("UDP") ==> t == JNum(17)
    ensures v != JStr("TCP") && v != JStr("UDP") ==> t == v
  {
    if v == JStr("TCP") then JNum(43419)
    else if v == JStr("UDP") then JNum(17)
    else v
  }

  /** Python's `cell == value` between a table cell and a JSON value. */
  predicate CellEqJson(c: Cell, v: Json) {
    match (c, v)
    case (Str(x), JStr(y)) => x == y
    case (Int(x), JNum(y)) => x == y
    case (Bool(x), JBool(y)) => x == y
    case (Bool(x), JNum(y)) => (if x then 1 else 0) == y
    case (Int(x), JBool(y)) => x == (if y then 1 else 0)
    case _ => false
  }

  /** The label of one row. */
  function LabelFor(c: Cell, target: Json): (l: Cell)
    ensures l == Str("malicious") <==> CellEqJson(c, target)
    ensures l == Str("malicious") || l == Str("benign")
  {
    if CellEqJson(c, target) then Str("malicious") else Str("benign")
  }

  /** `df.apply(..., axis=1)`: the label of every row, in order. */
  function CriterionLabels(f: Frame, column: string, target: Json): (ls: seq<Cell>)
    ensures |ls| == |f.rows|
  {
    seq(|f.rows|, i requires 0 <= i < |f.rows| => LabelFor(Column(f, column)[i], target))
  }

  /** The message of the KeyError for a missing criterion column. */
  function MissingColumnMessage(column: Json): string {
    "La columna requerida '" + Render(column) + "' no está presente en el DataFrame."
  }

  /** `required_column in df.columns`: a string is looked up, a list or dict
      cannot be hashed, and any other value is no column name. */
  function ColumnIn(column: Json, f: Frame): (r: Result<bool, PyError>)
    ensures column.JStr? ==> r == Success(column.s in f.columns)
    ensures column.JArr? || column.JObj? ==> r.Failure? && r.error.TypeError?
  {
    match column
    case JStr(s) => Success(s in f.columns)
    case JArr(_) => Failure(TypeError("unhashable type: 'list'"))
    case JObj(_) => Failure(TypeError("unhashable type: 'dict'"))
    case _ => Success(false)
  }

  /** What `apply_labels` makes of the table: the criterion column, the
      criterion value, the column check, then the new label column (its name
      is read after the labels are computed). */
  function ApplyOutcome(f: Frame, config: Json): (r: Result<Frame, PyError>)
  {
    var criteria :- PyGetItem(config, "criteria");
    var column :- PyGetItem(criteria, "column");
    var value :- PyGetItem(criteria, "value");
    var present :- ColumnIn(column, f);
    if !present then Failure(KeyError(MissingColumnMessage(column)))
    else
      var labels := CriterionLabels(f, column.s, Translate(value));
      var name :- PyGetItem(config, "label_column");
      if !name.JStr? then Failure(TypeError("column names are strings"))
      else Success(WithColumn(f, name.s, labels))
  }

  /** `apply_labels`, in place. */
  method ApplyLabels(target: Table, config: Json) returns (r: Result<Frame, PyError>)
    modifies target
    ensures r == ApplyOutcome(old(target.Snapshot()), config)
    ensures r.Success? ==> target.Snapshot() == r.value
    ensures r.Failure? ==> target.Snapshot() == old(target.Snapshot())
  {
    var f := target.Snapshot();
    var criteria :- PyGetItem(config, "criteria");
    var column :- PyGetItem(criteria, "column");
    var value :- PyGetItem(criteria, "value");
    var present :- ColumnIn(column, f);
    if !present {
      return Failure(KeyError(MissingColumnMessage(column)));
    }
    var labels := CriterionLabels(f, column.s, Translate(value));
    var name :- PyGetItem(config, "label_column");
    if !name.JStr? {
      return Failure(TypeError("column names are strings"));
    }
    target.Assign(name.s, labels);
    r := Success(target.Snapshot());
  }

  /** A criterion column the table lacks raises KeyError. */
  lemma MissingCriterionColumn(f: Frame, config: Json, column: string, value: Json)
    requires PyGetItem(config, "criteria").Success?
    requires PyGetItem(PyGetItem(config, "criteria").value, "column") == Success(JStr(column))
    requires PyGetItem(PyGetItem(config, "criteria").value, "value") == Success(value)
    requires column !in f.columns
    ensures ApplyOutcome(f, config) == Failure(KeyError(MissingColumnMessage(JStr(column))))
  {
  }

  /** Each row is labelled "malicious" exactly when its criterion cell
      equals the (translated) criterion value, "benign" otherwise; no other
      cell changes. */
  lemma ApplyLabelsRow(f: Frame, config: Json, column: string, value: Json, name: string, i: int)
    requires PyGetItem(config, "criteria").Success?
    requires PyGetItem(PyGetItem(config, "criteria").value, "column") == Success(JStr(column))
    requires PyGetItem(PyGetItem(config, "criteria").value, "value") == Success(value)
    requires PyGetItem(config, "label_column") == Success(JStr(name))
    requires column in f.columns && 0 <= i < |f.rows|
    ensures ApplyOutcome(f, config).Success?
    ensures |ApplyOutcome(f, config).value.rows| == |f.rows|
    ensures name in ApplyOutcome(f, config).value.rows[i]
    ensures ApplyOutcome(f, config).value.rows[i][name] == Str("malicious") <==>
      CellEqJson(Column(f, column)[i], Translate(value))
    ensures ApplyOutcome(f, config).value.rows[i][name] != Str("malicious") ==>
      ApplyOutcome(f, config).value.rows[i][name] == Str("benign")
    ensures forall c :: c != name ==>
      (c in ApplyOutcome(f, config).value.rows[i] <==> c in f.rows[i])
      && (c in f.rows[i] ==> ApplyOutcome(f, config).value.rows[i][c] == f.rows[i][c])
  {
  }

  /** With the criterion "TCP", a row whose protocol is 43419 is malicious
      and one whose protocol is 17 is benign. */
  lemma TcpCriterion()
    ensures LabelFor(Int(43419), Translate(JStr("TCP"))) == Str("malicious")
    ensures LabelFor(Int(17), Translate(JStr("TCP"))) == Str("benign")
    ensures LabelFor(Str("TCP"), Translate(JStr("TCP"))) == Str("benign")
  {
  }
}
