/** single_labeler.py: labelling one data file from one label file. The label
    is chosen from the data file's name; every data row starts as "Unclear"
    and takes the attack, category and subcategory of the first label row
    with the same source and destination address. */
module SingleLabeler {
  import opened Common
  import opened Text
  import opened Frames

  /** The default label of every data row. */
  const Unclear: Cell := Str("Unclear")

  /** The test `determine_label` applies to one label: a plain, case-sensitive
      substring test. */
  function Contained(fileName: string): string -> bool {
    (l: string) => IsSubstring(l, fileName)
  }

  /** `x` is the first label of the list that occurs in the file name. */
  predicate IsFirstContained(labels: seq<string>, fileName: string, i: int) {
    0 <= i < |labels| && IsSubstring(labels[i], fileName)
    && forall j :: 0 <= j < i ==> !IsSubstring(labels[j], fileName)
  }

  /** `determine_label`: the first label, in list order, that occurs in the
      file name as it is written; None when no label does. */
  function DetermineLabel(fileName: string, labels: seq<string>): (r: Option<string>)
    ensures r.None? <==> forall i :: 0 <= i < |labels| ==> !IsSubstring(labels[i], fileName)
    ensures r.Some? ==> exists i :: IsFirstContained(labels, fileName, i) && r.value == labels[i]
  {
    FilterFirst(labels, Contained(fileName));
    var matching := Filter(labels, Contained(fileName));
    if matching == [] then None
    else
      var i :| 0 <= i < |labels| && Contained(fileName)(labels[i]) && matching[0] == labels[i]
        && forall j :: 0 <= j < i ==> !Contained(fileName)(labels[j]);
      assert IsFirstContained(labels, fileName, i);
      Some(matching[0])
  }

  /** One cell after `.astype(str).str.strip('"')`. */
  function CleanCell(c: Cell): (r: Cell)
    ensures r.Str? && r.s == Strip(ToStr(c), '"')
  {
    Str(Strip(ToStr(c), '"'))
  }

  /** `f[col].astype(str).str.strip('"')` as a column of cells. */
  function CleanColumn(f: Frame, col: string): (vs: seq<Cell>)
    ensures |vs| == |f.rows|
    ensures forall i :: 0 <= i < |f.rows| ==> vs[i] == CleanCell(Column(f, col)[i])
  {
    seq(|f.rows|, i requires 0 <= i < |f.rows| => CleanCell(Column(f, col)[i]))
  }

  /** `f[col] = f[col].astype(str).str.strip('"')`; None when `f[col]` raises
      KeyError. */
  function CleanIn(f: Frame, col: string): (g: Option<Frame>)
    ensures g.Some? <==> col in f.columns
    ensures g.Some? ==> g.value == WithColumn(f, col, CleanColumn(f, col))
  {
    if col !in f.columns then None else Some(WithColumn(f, col, CleanColumn(f, col)))
  }

  /** The three "Unclear" columns added to the data. */
  function WithDefaults(f: Frame): (g: Frame)
    ensures |g.rows| == |f.rows|
    ensures forall i :: 0 <= i < |f.rows| ==>
      g.rows[i] == f.rows[i]["attack" := Unclear]["category" := Unclear]["subcategory" := Unclear]
    ensures forall c :: c in g.columns <==> c in f.columns || c in {"attack", "category", "subcategory"}
  {
    WithConstant(WithConstant(WithConstant(f, "attack", Unclear), "category", Unclear), "subcategory", Unclear)
  }

  /** The data frame as the labelling loop sees it: defaults added, then the
      two address columns cleaned; None when either address column is missing. */
  function Prepared(data: Frame): (p: Option<Frame>)
  {
    var withSrc :- CleanIn(WithDefaults(data), "src_ip");
    CleanIn(withSrc, "dst_ip")
  }

  /** The label frame after the two in-place assignments, as far as they get:
      each assignment needs its column. */
  function LabelsAfter(lf: Frame): Frame {
    var l1 := CleanIn(lf, "saddr");
    if l1.None? then lf
    else
      var l2 := CleanIn(l1.value, "daddr");
      if l2.None? then l1.value else l2.value
  }

  /** Both assignments to the label frame succeed. */
  predicate LabelsReady(lf: Frame) {
    "saddr" in lf.columns && "daddr" in lf.columns
  }

  /** The comparison of the inner loop: equal source and destination. */
  predicate Matches(src: Cell, dst: Cell, lrow: Row) {
    "saddr" in lrow && "daddr" in lrow && PyEq(src, lrow["saddr"]) && PyEq(dst, lrow["daddr"])
  }

  /** The inner loop from label row `j` on: the first row that matches. */
  function FirstMatchFrom(src: Cell, dst: Cell, lrows: seq<Row>, j: nat): (k: Option<nat>)
    requires j <= |lrows|
    decreases |lrows| - j
    ensures k.Some? ==> (j <= k.value < |lrows| && Matches(src, dst, lrows[k.value])
                         && forall m :: j <= m < k.value ==> !Matches(src, dst, lrows[m]))
    ensures k.None? ==> forall m :: j <= m < |lrows| ==> !Matches(src, dst, lrows[m])
  {
    if j == |lrows| then None
    else if Matches(src, dst, lrows[j]) then Some(j)
    else FirstMatchFrom(src, dst, lrows, j + 1)
  }

  /** One pass of the outer loop over a data row: a row missing either
      address is left alone; otherwise the first matching label row's three
      labels are written into it. None when that label row lacks one of them
      (the KeyError ends the whole run). */
  function LabelOne(row: Row, lrows: seq<Row>): (r: Option<Row>)
  {
    var src := Get(row, "src_ip");
    var dst := Get(row, "dst_ip");
    if src.None? || dst.None? || src.value.NA? || dst.value.NA? then Some(row)
    else
      var k := FirstMatchFrom(src.value, dst.value, lrows, 0);
      if k.None? then Some(row)
      else
        var l := lrows[k.value];
        if "attack" !in l || "category" !in l || "subcategory" !in l then None
        else Some(row["attack" := l["attack"]]["category" := l["category"]]["subcategory" := l["subcategory"]])
  }

  /** The outer loop over all data rows. */
  function LabelAll(rows: seq<Row>, lrows: seq<Row>): (r: Option<seq<Row>>)
    ensures r.None? <==> exists i :: 0 <= i < |rows| && LabelOne(rows[i], lrows).None?
    ensures r.Some? ==> (|r.value| == |rows|
                         && forall i :: 0 <= i < |rows| ==> LabelOne(rows[i], lrows) == Some(r.value[i]))
  {
    if forall i | 0 <= i < |rows| :: LabelOne(rows[i], lrows).Some? then
      Some(seq(|rows|, i requires 0 <= i < |rows| => LabelOne(rows[i], lrows).value))
    else None
  }

  /** What `process_file` returns for a data frame that was read, given the
      label frame after its assignments: None when a column is missing or a
      matched label row lacks a label. */
  function Processed(data: Frame, lf: Frame): (r: Option<Frame>)
  {
    var p :- Prepared(data);
    var rows :- LabelAll(p.rows, lf.rows);
    Some(Frame(p.columns, rows))
  }

  /** `process_file`. `dataExists` says whether the data file exists and
      `data` is what reading it gave (None when the read raised). The label
      frame is the caller's object and is changed in place, before the data
      columns are checked, so it keeps its cleaned address columns even when
      the run fails later. */
  method ProcessFile(dataExists: bool, data: Option<Frame>, labels: Table) returns (r: Option<Frame>)
    modifies labels
    ensures !dataExists || data.None? ==> r.None? && labels.Snapshot() == old(labels.Snapshot())
    ensures dataExists && data.Some? ==> labels.Snapshot() == LabelsAfter(old(labels.Snapshot()))
    ensures dataExists && data.Some? ==>
      r == if LabelsReady(old(labels.Snapshot())) then Processed(data.value, labels.Snapshot()) else None
  {
    if !dataExists || data.None? {
      return None;
    }
    var df := WithDefaults(data.value);
    if "saddr" !in labels.columns {
      return None;
    }
    labels.Assign("saddr", CleanColumn(labels.Snapshot(), "saddr"));
    if "daddr" !in labels.columns {
      return None;
    }
    labels.Assign("daddr", CleanColumn(labels.Snapshot(), "daddr"));
    if "src_ip" !in df.columns {
      return None;
    }
    df := WithColumn(df, "src_ip", CleanColumn(df, "src_ip"));
    if "dst_ip" !in df.columns {
      return None;
    }
    df := WithColumn(df, "dst_ip", CleanColumn(df, "dst_ip"));
    assert Prepared(data.value) == Some(df);
    var rows := LabelRows(df.rows, labels.rows);
    if rows.None? {
      return None;
    }
    r := Some(Frame(df.columns, rows.value));
  }

  /** The inner loop of `process_file`: the index of the first label row
      whose addresses equal the row's, or `|lrows|` when none does. */
  method FindMatch(src: Cell, dst: Cell, lrows: seq<Row>) returns (j: nat)
    ensures j <= |lrows|
    ensures j < |lrows| <==> FirstMatchFrom(src, dst, lrows, 0).Some?
    ensures j < |lrows| ==> FirstMatchFrom(src, dst, lrows, 0) == Some(j)
  {
    j := 0;
    while j < |lrows|
      invariant 0 <= j <= |lrows|
      invariant FirstMatchFrom(src, dst, lrows, 0) == FirstMatchFrom(src, dst, lrows, j)
    {
      if Matches(src, dst, lrows[j]) {
        return;
      }
      j := j + 1;
    }
  }

  /** The outer loop of `process_file` over the prepared data rows. */
  method LabelRows(rows: seq<Row>, lrows: seq<Row>) returns (r: Option<seq<Row>>)
    ensures r == LabelAll(rows, lrows)
  {
    var out: seq<Row> := [];
    var i := 0;
    while i < |rows|
      invariant 0 <= i <= |rows|
      invariant |out| == i
      invariant forall k :: 0 <= k < i ==> LabelOne(rows[k], lrows) == Some(out[k])
    {
      var row := rows[i];
      var src := Get(row, "src_ip");
      var dst := Get(row, "dst_ip");
      if !(src.None? || dst.None? || src.value.NA? || dst.value.NA?) {
        var j := FindMatch(src.value, dst.value, lrows);
        if j < |lrows| {
          var l := lrows[j];
          if "attack" !in l || "category" !in l || "subcategory" !in l {
            assert LabelOne(rows[i], lrows).None?;
            return None;
          }
          row := row["attack" := l["attack"]]["category" := l["category"]]["subcategory" := l["subcategory"]];
        }
      }
      out := out + [row];
      i := i + 1;
    }
    assert forall k | 0 <= k < |rows| :: LabelOne(rows[k], lrows).Some?;
    assert out == seq(|rows|, k requires 0 <= k < |rows| => LabelOne(rows[k], lrows).value);
    r := Some(out);
  }

  /** The five columns the labelling writes. */
  predicate Written(c: string) {
    c == "attack" || c == "category" || c == "subcategory" || c == "src_ip" || c == "dst_ip"
  }

  /** The prepared data: one row per data row, the data's columns plus the
      three label columns, and both address columns present in the data. */
  lemma PreparedShape(data: Frame)
    requires Prepared(data).Some?
    ensures |Prepared(data).value.rows| == |data.rows|
    ensures "src_ip" in data.columns && "dst_ip" in data.columns
    ensures forall c :: c in Prepared(data).value.columns <==>
      c in data.columns || c in {"attack", "category", "subcategory"}
  {
  }

  /** Row i after one cleaning assignment: the cleaned cell in the column,
      every other cell as it was. */
  lemma CleanInRow(f: Frame, col: string, i: int)
    requires col in f.columns && 0 <= i < |f.rows|
    ensures |CleanIn(f, col).value.rows| == |f.rows|
    ensures Get(CleanIn(f, col).value.rows[i], col) == Some(CleanCell(Column(f, col)[i]))
    ensures forall c :: c != col ==>
      (c in CleanIn(f, col).value.rows[i] <==> c in f.rows[i])
      && (c in f.rows[i] ==> CleanIn(f, col).value.rows[i][c] == f.rows[i][c])
  {
  }

  /** Cleaning the address columns leaves every other cell of row i as the
      defaults left it. */
  lemma PreparedKeeps(data: Frame, i: int, c: string)
    requires Prepared(data).Some? && 0 <= i < |data.rows| && c != "src_ip" && c != "dst_ip"
    ensures |Prepared(data).value.rows| == |data.rows|
    ensures c in Prepared(data).value.rows[i] <==> c in WithDefaults(data).rows[i]
    ensures c in WithDefaults(data).rows[i] ==> Prepared(data).value.rows[i][c] == WithDefaults(data).rows[i][c]
  {
    var d0 := WithDefaults(data);
    CleanInRow(d0, "src_ip", i);
    var d1 := CleanIn(d0, "src_ip").value;
    CleanInRow(d1, "dst_ip", i);
    assert Prepared(data) == CleanIn(d1, "dst_ip");
  }

  /** The three labels of prepared row i are "Unclear". */
  lemma PreparedLabels(data: Frame, i: int)
    requires Prepared(data).Some? && 0 <= i < |data.rows|
    ensures |Prepared(data).value.rows| == |data.rows|
    ensures Get(Prepared(data).value.rows[i], "attack") == Some(Unclear)
    ensures Get(Prepared(data).value.rows[i], "category") == Some(Unclear)
    ensures Get(Prepared(data).value.rows[i], "subcategory") == Some(Unclear)
  {
    PreparedKeeps(data, i, "attack");
    PreparedKeeps(data, i, "category");
    PreparedKeeps(data, i, "subcategory");
  }

  /** The addresses of prepared row i are the cleaned addresses of data row
      i; in particular they are strings, never NaN. */
  lemma PreparedAddresses(data: Frame, i: int)
    requires Prepared(data).Some? && 0 <= i < |data.rows|
    ensures |Prepared(data).value.rows| == |data.rows|
    ensures Get(Prepared(data).value.rows[i], "src_ip") == Some(CleanCell(Column(data, "src_ip")[i]))
    ensures Get(Prepared(data).value.rows[i], "dst_ip") == Some(CleanCell(Column(data, "dst_ip")[i]))
  {
    var d0 := WithDefaults(data);
    CleanInRow(d0, "src_ip", i);
    var d1 := CleanIn(d0, "src_ip").value;
    CleanInRow(d1, "dst_ip", i);
    assert Prepared(data) == CleanIn(d1, "dst_ip");
    assert Column(d0, "src_ip")[i] == Column(data, "src_ip")[i];
    assert Column(d1, "dst_ip")[i] == Column(d0, "dst_ip")[i] == Column(data, "dst_ip")[i];
  }

  /** Every other cell of prepared row i is that of data row i. */
  lemma PreparedOthers(data: Frame, i: int, c: string)
    requires Prepared(data).Some? && 0 <= i < |data.rows| && !Written(c)
    ensures |Prepared(data).value.rows| == |data.rows|
    ensures c in Prepared(data).value.rows[i] <==> c in data.rows[i]
    ensures c in data.rows[i] ==> Prepared(data).value.rows[i][c] == data.rows[i][c]
  {
    PreparedKeeps(data, i, c);
  }

  /** Labelling a row changes none of its cells but the three labels. */
  lemma LabelOneKeeps(row: Row, lrows: seq<Row>, c: string)
    requires LabelOne(row, lrows).Some? && c != "attack" && c != "category" && c != "subcategory"
    ensures Get(LabelOne(row, lrows).value, c) == Get(row, c)
  {
  }

  /** A row whose addresses no label row matches is left as it is. */
  lemma LabelOneUnmatched(row: Row, lrows: seq<Row>, src: Cell, dst: Cell)
    requires Get(row, "src_ip") == Some(src) && Get(row, "dst_ip") == Some(dst)
    requires forall m :: 0 <= m < |lrows| ==> !Matches(src, dst, lrows[m])
    ensures LabelOne(row, lrows) == Some(row)
  {
    if !src.NA? && !dst.NA? {
      assert FirstMatchFrom(src, dst, lrows, 0).None?;
    }
  }

  /** A row with addresses takes the labels of the first label row that
      matches them. */
  lemma LabelOneFirstMatch(row: Row, lrows: seq<Row>, src: Cell, dst: Cell, j: int)
    requires Get(row, "src_ip") == Some(src) && Get(row, "dst_ip") == Some(dst) && !src.NA? && !dst.NA?
    requires 0 <= j < |lrows| && Matches(src, dst, lrows[j])
    requires forall m :: 0 <= m < j ==> !Matches(src, dst, lrows[m])
    requires LabelOne(row, lrows).Some?
    ensures "attack" in lrows[j] && "category" in lrows[j] && "subcategory" in lrows[j]
    ensures Get(LabelOne(row, lrows).value, "attack") == Get(lrows[j], "attack")
    ensures Get(LabelOne(row, lrows).value, "category") == Get(lrows[j], "category")
    ensures Get(LabelOne(row, lrows).value, "subcategory") == Get(lrows[j], "subcategory")
  {
    var k := FirstMatchFrom(src, dst, lrows, 0);
    assert k == Some(j);
  }

  /** Row i of a successful run is the labelling of prepared row i. */
  lemma ProcessedRow(data: Frame, lf: Frame, i: int)
    requires Processed(data, lf).Some? && 0 <= i < |data.rows|
    ensures Prepared(data).Some? && |Prepared(data).value.rows| == |data.rows|
    ensures |Processed(data, lf).value.rows| == |data.rows|
    ensures LabelOne(Prepared(data).value.rows[i], lf.rows) == Some(Processed(data, lf).value.rows[i])
  {
    PreparedShape(data);
  }

  /** A successful run keeps one row per data row and adds exactly the three
      label columns. */
  lemma ProcessedShape(data: Frame, lf: Frame)
    requires Processed(data, lf).Some?
    ensures |Processed(data, lf).value.rows| == |data.rows|
    ensures forall c :: c in Processed(data, lf).value.columns <==>
      c in data.columns || c in {"attack", "category", "subcategory"}
  {
    PreparedShape(data);
  }

  /** Preparing succeeds exactly when the data has both address columns. */
  lemma PreparedSome(data: Frame)
    ensures Prepared(data).Some? <==> "src_ip" in data.columns && "dst_ip" in data.columns
  {
    var d0 := WithDefaults(data);
    if "src_ip" in data.columns {
      var d1 := CleanIn(d0, "src_ip").value;
      assert Prepared(data) == CleanIn(d1, "dst_ip");
    }
  }

  /** Labelling a row cannot fail when every label row has the three labels. */
  lemma LabelOneSucceeds(row: Row, lrows: seq<Row>)
    requires forall j :: 0 <= j < |lrows| ==>
      "attack" in lrows[j] && "category" in lrows[j] && "subcategory" in lrows[j]
    ensures LabelOne(row, lrows).Some?
  {
  }

  /** When every label row carries the three labels, the run fails exactly
      when the data lacks an address column. */
  lemma ProcessedSucceeds(data: Frame, lf: Frame)
    requires forall j :: 0 <= j < |lf.rows| ==>
      "attack" in lf.rows[j] && "category" in lf.rows[j] && "subcategory" in lf.rows[j]
    ensures Processed(data, lf).Some? <==> "src_ip" in data.columns && "dst_ip" in data.columns
  {
    PreparedSome(data);
    if Prepared(data).Some? {
      var p := Prepared(data).value;
      forall k | 0 <= k < |p.rows| ensures LabelOne(p.rows[k], lf.rows).Some? {
        LabelOneSucceeds(p.rows[k], lf.rows);
      }
    }
  }

  /** A data row that no label row matches keeps "Unclear" in all three
      label columns. */
  lemma ProcessedUnmatched(data: Frame, lf: Frame, i: int, src: Cell, dst: Cell)
    requires 0 <= i < |data.rows|
    requires src == CleanCell(Column(data, "src_ip")[i]) && dst == CleanCell(Column(data, "dst_ip")[i])
    requires forall j :: 0 <= j < |lf.rows| ==> !Matches(src, dst, lf.rows[j])
    requires Processed(data, lf).Some?
    ensures |Processed(data, lf).value.rows| == |data.rows|
    ensures Get(Processed(data, lf).value.rows[i], "attack") == Some(Unclear)
    ensures Get(Processed(data, lf).value.rows[i], "category") == Some(Unclear)
    ensures Get(Processed(data, lf).value.rows[i], "subcategory") == Some(Unclear)
  {
    ProcessedRow(data, lf, i);
    PreparedAddresses(data, i);
    PreparedLabels(data, i);
    var row := Prepared(data).value.rows[i];
    LabelOneUnmatched(row, lf.rows, src, dst);
    assert Processed(data, lf).value.rows[i] == row;
  }

  /** A data row takes the three labels of the FIRST label row whose
      cleaned addresses equal its own. */
  lemma ProcessedMatched(data: Frame, lf: Frame, i: int, src: Cell, dst: Cell, j: int)
    requires 0 <= i < |data.rows|
    requires src == CleanCell(Column(data, "src_ip")[i]) && dst == CleanCell(Column(data, "dst_ip")[i])
    requires 0 <= j < |lf.rows| && Matches(src, dst, lf.rows[j])
    requires forall m :: 0 <= m < j ==> !Matches(src, dst, lf.rows[m])
    requires Processed(data, lf).Some?
    ensures |Processed(data, lf).value.rows| == |data.rows|
    ensures "attack" in lf.rows[j] && "category" in lf.rows[j] && "subcategory" in lf.rows[j]
    ensures Get(Processed(data, lf).value.rows[i], "attack") == Get(lf.rows[j], "attack")
    ensures Get(Processed(data, lf).value.rows[i], "category") == Get(lf.rows[j], "category")
    ensures Get(Processed(data, lf).value.rows[i], "subcategory") == Get(lf.rows[j], "subcategory")
  {
    ProcessedRow(data, lf, i);
    PreparedAddresses(data, i);
    LabelOneFirstMatch(Prepared(data).value.rows[i], lf.rows, src, dst, j);
  }

  /** The address columns of a successful run hold the cleaned addresses. */
  lemma ProcessedAddresses(data: Frame, lf: Frame, i: int)
    requires Processed(data, lf).Some? && 0 <= i < |data.rows|
    ensures |Processed(data, lf).value.rows| == |data.rows|
    ensures Get(Processed(data, lf).value.rows[i], "src_ip") == Some(CleanCell(Column(data, "src_ip")[i]))
    ensures Get(Processed(data, lf).value.rows[i], "dst_ip") == Some(CleanCell(Column(data, "dst_ip")[i]))
  {
    ProcessedRow(data, lf, i);
    PreparedAddresses(data, i);
    var row := Prepared(data).value.rows[i];
    LabelOneKeeps(row, lf.rows, "src_ip");
    LabelOneKeeps(row, lf.rows, "dst_ip");
  }

  /** Every cell outside the five written columns is kept, row by row. */
  lemma ProcessedOthers(data: Frame, lf: Frame, i: int, c: string)
    requires Processed(data, lf).Some? && 0 <= i < |data.rows| && !Written(c)
    ensures |Processed(data, lf).value.rows| == |data.rows|
    ensures c in Processed(data, lf).value.rows[i] <==> c in data.rows[i]
    ensures c in data.rows[i] ==> Processed(data, lf).value.rows[i][c] == data.rows[i][c]
  {
    ProcessedRow(data, lf, i);
    PreparedOthers(data, i, c);
    LabelOneKeeps(Prepared(data).value.rows[i], lf.rows, c);
  }

  /** Label row j after the assignments: cleaned addresses, all else kept. */
  lemma LabelsAfterRow(lf: Frame, j: int)
    requires LabelsReady(lf) && 0 <= j < |lf.rows|
    ensures |LabelsAfter(lf).rows| == |lf.rows|
    ensures Get(LabelsAfter(lf).rows[j], "saddr") == Some(CleanCell(Column(lf, "saddr")[j]))
    ensures Get(LabelsAfter(lf).rows[j], "daddr") == Some(CleanCell(Column(lf, "daddr")[j]))
    ensures forall c :: c != "saddr" && c != "daddr" ==>
      (c in LabelsAfter(lf).rows[j] <==> c in lf.rows[j])
      && (c in lf.rows[j] ==> LabelsAfter(lf).rows[j][c] == lf.rows[j][c])
  {
    CleanInRow(lf, "saddr", j);
    var l1 := CleanIn(lf, "saddr").value;
    CleanInRow(l1, "daddr", j);
    assert Column(l1, "daddr")[j] == Column(lf, "daddr")[j];
  }

  /** After cleaning, a data row matches a label row exactly when their
      addresses agree as quote-stripped strings. */
  lemma CleanedMatch(src: Cell, dst: Cell, saddr: Cell, daddr: Cell, lrow: Row)
    requires Get(lrow, "saddr") == Some(CleanCell(saddr)) && Get(lrow, "daddr") == Some(CleanCell(daddr))
    ensures Matches(CleanCell(src), CleanCell(dst), lrow) <==>
      Strip(ToStr(src), '"') == Strip(ToStr(saddr), '"') && Strip(ToStr(dst), '"') == Strip(ToStr(daddr), '"')
  {
    assert lrow["saddr"] == Str(Strip(ToStr(saddr), '"'));
    assert lrow["daddr"] == Str(Strip(ToStr(daddr), '"'));
    PyEqStr(Strip(ToStr(src), '"'), Strip(ToStr(saddr), '"'));
    PyEqStr(Strip(ToStr(dst), '"'), Strip(ToStr(daddr), '"'));
  }

  /** A quoted address and the same address unquoted compare equal. */
  lemma QuotesIgnored(a: string)
    ensures CleanCell(Str(['"'] + a + ['"'])) == CleanCell(Str(a))
  {
    StripWrapped(a, '"');
  }

  /** NaN never equals NaN, but once cleaned a missing address is the string
      "nan": a row with missing addresses is not skipped by the NaN test and
      matches a label row whose addresses are missing too. */
  lemma MissingAddressesMatch(lrow: Row)
    requires Get(lrow, "saddr") == Some(CleanCell(NA)) && Get(lrow, "daddr") == Some(CleanCell(NA))
    ensures !PyEq(NA, NA)
    ensures CleanCell(NA) == Str("nan")
    ensures Matches(CleanCell(NA), CleanCell(NA), lrow)
  {
    StripUnchanged("nan", '"');
  }
}
