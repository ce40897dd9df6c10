/** labeler.py: labelling every CSV file of a directory from a matrix of
    label tables. A file's label is the first label name found in its base
    name; each of its rows with both addresses set takes the labels of the
    first row of that label's table with the same `saddr` and `daddr`. */
module Labeler {
  import opened Common
  import opened Text
  import opened Frames
  import SingleLabeler

  /** One entry of the label matrix: the table's path relative to the
      labels directory, its label name (the file name without extension)
      and its rows. */
  datatype LabelEntry = LabelEntry(path: string, name: string, table: Frame)

  /** The label names of the matrix, in matrix order. */
  function LabelNames(matrix: seq<LabelEntry>): (ns: seq<string>)
    ensures |ns| == |matrix|
    ensures forall i :: 0 <= i < |matrix| ==> ns[i] == matrix[i].name
  {
    seq(|matrix|, i requires 0 <= i < |matrix| => matrix[i].name)
  }

  /** Entry i holds the first label name, in matrix order, that occurs in
      the file name. */
  predicate IsFirstLabelIn(matrix: seq<LabelEntry>, fileName: string, i: int) {
    0 <= i < |matrix| && IsSubstring(matrix[i].name, fileName)
    && forall j :: 0 <= j < i ==> !IsSubstring(matrix[j].name, fileName)
  }

  /** The label chosen for a file: the first matching name, compared case
      by case; None when no name occurs in the file name. */
  function ChooseLabel(fileName: string, matrix: seq<LabelEntry>): (r: Option<string>)
    ensures r.None? <==> forall i :: 0 <= i < |matrix| ==> !IsSubstring(matrix[i].name, fileName)
    ensures r.Some? ==> exists i :: IsFirstLabelIn(matrix, fileName, i) && r.value == matrix[i].name
  {
    var r := SingleLabeler.DetermineLabel(fileName, LabelNames(matrix));
    if r.Some? then
      var i :| SingleLabeler.IsFirstContained(LabelNames(matrix), fileName, i) && r.value == LabelNames(matrix)[i];
      assert IsFirstLabelIn(matrix, fileName, i);
      r
    else r
  }

  /** Entry i is the first entry called `name`. */
  predicate IsFirstNamed(matrix: seq<LabelEntry>, name: string, i: int) {
    0 <= i < |matrix| && matrix[i].name == name
    && forall j :: 0 <= j < i ==> matrix[j].name != name
  }

  /** The table of the first entry called `name`; None when there is none. */
  function TableOf(matrix: seq<LabelEntry>, name: string): (t: Option<Frame>)
    ensures t.None? <==> forall i :: 0 <= i < |matrix| ==> matrix[i].name != name
    ensures t.Some? ==> exists i :: IsFirstNamed(matrix, name, i) && t.value == matrix[i].table
  {
    if matrix == [] then None
    else if matrix[0].name == name then
      assert IsFirstNamed(matrix, name, 0);
      Some(matrix[0].table)
    else
      var t := TableOf(matrix[1..], name);
      assert forall i :: 1 <= i < |matrix| ==> matrix[i] == matrix[1..][i - 1];
      if t.Some? then
        var i :| IsFirstNamed(matrix[1..], name, i) && t.value == matrix[1..][i].table;
        assert IsFirstNamed(matrix, name, i + 1);
        t
      else t
  }

  /** The table `process_csv_file` labels a file from: that of the first
      matrix entry whose name is the chosen label. A chosen label always has
      one, since the name was taken from the matrix. */
  function ChosenTable(fileName: string, matrix: seq<LabelEntry>): (t: Option<Frame>)
    ensures t.Some? <==> ChooseLabel(fileName, matrix).Some?
    ensures t.Some? ==>
      exists i :: IsFirstNamed(matrix, ChooseLabel(fileName, matrix).value, i) && t.value == matrix[i].table
  {
    var chosen := ChooseLabel(fileName, matrix);
    if chosen.None? then None
    else
      var i :| IsFirstLabelIn(matrix, fileName, i) && chosen.value == matrix[i].name;
      TableOf(matrix, chosen.value)
  }

  /** The comparison of the inner loop for one label row. `label_row['saddr']`
      is looked up first and raises KeyError (None here) when the table has no
      such column; `and` looks at `daddr` only when the sources are equal. No
      quote is stripped. */
  function RowMatch(src: Cell, dst: Cell, lrow: Row): (r: Option<bool>)
    ensures r == Some(true) <==> "saddr" in lrow && "daddr" in lrow && PyEq(src, lrow["saddr"]) && PyEq(dst, lrow["daddr"])
    ensures r.None? <==> "saddr" !in lrow || (PyEq(src, lrow["saddr"]) && "daddr" !in lrow)
  {
    if "saddr" !in lrow then None
    else if !PyEq(src, lrow["saddr"]) then Some(false)
    else if "daddr" !in lrow then None
    else Some(PyEq(dst, lrow["daddr"]))
  }

  /** The inner loop from label row `j` on: Some(Some(k)) for the first
      matching row k, Some(None) when none matches, None when a comparison
      raises first. */
  function ScanFrom(src: Cell, dst: Cell, lrows: seq<Row>, j: nat): (r: Option<Option<nat>>)
    requires j <= |lrows|
    decreases |lrows| - j
    ensures r.Some? && r.value.Some? ==>
      (j <= r.value.value < |lrows| && RowMatch(src, dst, lrows[r.value.value]) == Some(true)
       && forall m :: j <= m < r.value.value ==> RowMatch(src, dst, lrows[m]) == Some(false))
    ensures r == Some(None) <==> forall m :: j <= m < |lrows| ==> RowMatch(src, dst, lrows[m]) == Some(false)
  {
    if j == |lrows| then Some(None)
    else
      var m := RowMatch(src, dst, lrows[j]);
      if m.None? then None
      else if m.value then Some(Some(j))
      else ScanFrom(src, dst, lrows, j + 1)
  }

  /** One pass of the outer loop: a row with a falsy address is skipped; a
      matched row takes the matched label row's three labels. None when a
      lookup raises KeyError. */
  function LabelRow(row: Row, lrows: seq<Row>): (r: Option<Row>)
  {
    var src := Get(row, "src_ip");
    var dst := Get(row, "dst_ip");
    if !Truthy(src) || !Truthy(dst) then Some(row)
    else
      var k :- ScanFrom(src.value, dst.value, lrows, 0);
      if k.None? then Some(row)
      else
        var l := lrows[k.value];
        if "attack" !in l || "category" !in l || "subcategory" !in l then None
        else Some(row["attack" := l["attack"]]["category" := l["category"]]["subcategory" := l["subcategory"]])
  }

  /** The outer loop over all rows: None when any row raises. */
  function LabelRows(rows: seq<Row>, lrows: seq<Row>): (r: Option<seq<Row>>)
    ensures r.None? <==> exists i :: 0 <= i < |rows| && LabelRow(rows[i], lrows).None?
    ensures r.Some? ==> (|r.value| == |rows|
                         && forall i :: 0 <= i < |rows| ==> LabelRow(rows[i], lrows) == Some(r.value[i]))
  {
    if forall i | 0 <= i < |rows| :: LabelRow(rows[i], lrows).Some? then
      Some(seq(|rows|, i requires 0 <= i < |rows| => LabelRow(rows[i], lrows).value))
    else None
  }

  /** What `process_csv_file` returns: None when the file does not exist, no
      label matches its name, it cannot be read, or a lookup raises; otherwise
      the labelled rows. */
  function ProcessedCsv(fileExists: bool, fileName: string, matrix: seq<LabelEntry>, read: Option<Frame>)
    : (r: Option<Frame>)
  {
    if !fileExists then None
    else
      var table :- ChosenTable(fileName, matrix);
      var data :- read;
      var df := SingleLabeler.WithDefaults(data);
      var rows :- LabelRows(df.rows, table.rows);
      Some(Frame(df.columns, rows))
  }

  /** The inner loop of `process_csv_file`. */
  method Scan(src: Cell, dst: Cell, lrows: seq<Row>) returns (r: Option<Option<nat>>)
    ensures r == ScanFrom(src, dst, lrows, 0)
  {
    var j := 0;
    while j < |lrows|
      invariant 0 <= j <= |lrows|
      invariant ScanFrom(src, dst, lrows, 0) == ScanFrom(src, dst, lrows, j)
    {
      var m := RowMatch(src, dst, lrows[j]);
      if m.None? {
        return None;
      }
      if m.value {
        return Some(Some(j));
      }
      j := j + 1;
    }
    return Some(None);
  }

  /** `process_csv_file`. `fileExists` says whether the file exists and
      `read` is what reading it gave (None when the read raised); the labels
      are written into the rows one cell at a time. */
  method ProcessCsvFile(fileExists: bool, fileName: string, matrix: seq<LabelEntry>, read: Option<Frame>)
    returns (r: Option<Frame>)
    ensures r == ProcessedCsv(fileExists, fileName, matrix, read)
  {
    if !fileExists {
      return None;
    }
    var table := ChosenTable(fileName, matrix);
    if table.None? {
      return None;
    }
    if read.None? {
      return None;
    }
    var df := SingleLabeler.WithDefaults(read.value);
    var rows := LabelInPlace(df.rows, table.value.rows);
    if rows.None? {
      return None;
    }
    r := Some(Frame(df.columns, rows.value));
  }

  /** The nested loops of `process_csv_file`: each row is overwritten in
      place, one row after the other, until a lookup raises. */
  method LabelInPlace(data: seq<Row>, lrows: seq<Row>) returns (r: Option<seq<Row>>)
    ensures r == LabelRows(data, lrows)
  {
    var rows := data;
    var i := 0;
    while i < |rows|
      invariant 0 <= i <= |rows| == |data|
      invariant forall k :: 0 <= k < i ==> LabelRow(data[k], lrows) == Some(rows[k])
      invariant rows[i..] == data[i..]
    {
      var row := rows[i];
      assert row == data[i];
      var src := Get(row, "src_ip");
      var dst := Get(row, "dst_ip");
      if Truthy(src) && Truthy(dst) {
        var k := Scan(src.value, dst.value, lrows);
        if k.None? {
          assert LabelRow(data[i], lrows).None?;
          return None;
        }
        if k.value.Some? {
          var l := lrows[k.value.value];
          if "attack" !in l || "category" !in l || "subcategory" !in l {
            assert LabelRow(data[i], lrows).None?;
            return None;
          }
          rows := rows[i := row["attack" := l["attack"]]["category" := l["category"]]["subcategory" := l["subcategory"]]];
        }
      }
      assert rows[i + 1..] == data[i + 1..] by {
        assert rows[i + 1..] == rows[i..][1..];
      }
      i := i + 1;
    }
    assert forall k | 0 <= k < |data| :: LabelRow(data[k], lrows).Some?;
    assert rows == seq(|data|, k requires 0 <= k < |data| => LabelRow(data[k], lrows).value);
    r := Some(rows);
  }

  /** A row with a falsy address is left as it is. */
  lemma LabelRowSkips(row: Row, lrows: seq<Row>)
    requires !Truthy(Get(row, "src_ip")) || !Truthy(Get(row, "dst_ip"))
    ensures LabelRow(row, lrows) == Some(row)
  {
  }

  /** A row that no label row matches is left as it is. */
  lemma LabelRowUnmatched(row: Row, lrows: seq<Row>, src: Cell, dst: Cell)
    requires Get(row, "src_ip") == Some(src) && Get(row, "dst_ip") == Some(dst)
    requires forall m :: 0 <= m < |lrows| ==> RowMatch(src, dst, lrows[m]) == Some(false)
    ensures LabelRow(row, lrows) == Some(row)
  {
    assert ScanFrom(src, dst, lrows, 0) == Some(None);
  }

  /** A row with both addresses set takes the labels of the first label row
      that matches them. */
  lemma LabelRowFirstMatch(row: Row, lrows: seq<Row>, src: Cell, dst: Cell, j: int)
    requires Get(row, "src_ip") == Some(src) && Get(row, "dst_ip") == Some(dst)
    requires Truthy(Some(src)) && Truthy(Some(dst))
    requires 0 <= j < |lrows| && RowMatch(src, dst, lrows[j]) == Some(true)
    requires forall m :: 0 <= m < j ==> RowMatch(src, dst, lrows[m]) == Some(false)
    requires LabelRow(row, lrows).Some?
    ensures Get(LabelRow(row, lrows).value, "attack") == Get(lrows[j], "attack")
    ensures Get(LabelRow(row, lrows).value, "category") == Get(lrows[j], "category")
    ensures Get(LabelRow(row, lrows).value, "subcategory") == Get(lrows[j], "subcategory")
  {
    assert ScanFrom(src, dst, lrows, 0) == Some(Some(j));
  }

  /** Labelling a row changes none of its cells but the three labels. */
  lemma LabelRowKeeps(row: Row, lrows: seq<Row>, c: string)
    requires LabelRow(row, lrows).Some? && c != "attack" && c != "category" && c != "subcategory"
    ensures Get(LabelRow(row, lrows).value, c) == Get(row, c)
  {
  }

  /** Adding the defaults changes no other cell of a row. */
  lemma DefaultsKeep(data: Frame, i: int, c: string)
    requires 0 <= i < |data.rows| && c != "attack" && c != "category" && c != "subcategory"
    ensures |SingleLabeler.WithDefaults(data).rows| == |data.rows|
    ensures Get(SingleLabeler.WithDefaults(data).rows[i], c) == Get(data.rows[i], c)
  {
  }

  /** Row i of a labelled file is the labelling of row i of the data with
      its defaults added. */
  lemma ProcessedCsvRow(fileName: string, matrix: seq<LabelEntry>, data: Frame, i: int)
    requires ProcessedCsv(true, fileName, matrix, Some(data)).Some? && 0 <= i < |data.rows|
    ensures ChosenTable(fileName, matrix).Some?
    ensures |ProcessedCsv(true, fileName, matrix, Some(data)).value.rows| == |data.rows|
    ensures LabelRow(SingleLabeler.WithDefaults(data).rows[i], ChosenTable(fileName, matrix).value.rows)
         == Some(ProcessedCsv(true, fileName, matrix, Some(data)).value.rows[i])
  {
  }

  /** A labelled file keeps one row per data row and adds exactly the three
      label columns. */
  lemma ProcessedCsvShape(fileName: string, matrix: seq<LabelEntry>, data: Frame)
    requires ProcessedCsv(true, fileName, matrix, Some(data)).Some?
    ensures |ProcessedCsv(true, fileName, matrix, Some(data)).value.rows| == |data.rows|
    ensures forall c :: c in ProcessedCsv(true, fileName, matrix, Some(data)).value.columns <==>
      c in data.columns || c in {"attack", "category", "subcategory"}
  {
  }

  /** A file is labelled whenever it exists, a label name occurs in its name,
      it can be read and every row of the chosen table holds the two address
      columns and the three label columns. */
  lemma ProcessedCsvSucceeds(fileName: string, matrix: seq<LabelEntry>, data: Frame)
    requires ChosenTable(fileName, matrix).Some?
    requires forall j :: 0 <= j < |ChosenTable(fileName, matrix).value.rows| ==>
      var l := ChosenTable(fileName, matrix).value.rows[j];
      "saddr" in l && "daddr" in l && "attack" in l && "category" in l && "subcategory" in l
    ensures ProcessedCsv(true, fileName, matrix, Some(data)).Some?
  {
    var lrows := ChosenTable(fileName, matrix).value.rows;
    var rows := SingleLabeler.WithDefaults(data).rows;
    forall k | 0 <= k < |rows| ensures LabelRow(rows[k], lrows).Some? {
      var src := Get(rows[k], "src_ip");
      var dst := Get(rows[k], "dst_ip");
      if Truthy(src) && Truthy(dst) {
        assert ScanFrom(src.value, dst.value, lrows, 0).Some? by {
          NoLookupFails(src.value, dst.value, lrows, 0);
        }
      }
    }
  }

  /** With both address columns in every label row, the scan never raises. */
  lemma {:induction false} NoLookupFails(src: Cell, dst: Cell, lrows: seq<Row>, j: nat)
    requires j <= |lrows|
    requires forall m :: 0 <= m < |lrows| ==> "saddr" in lrows[m] && "daddr" in lrows[m]
    decreases |lrows| - j
    ensures ScanFrom(src, dst, lrows, j).Some?
  {
    if j < |lrows| {
      NoLookupFails(src, dst, lrows, j + 1);
    }
  }

  /** A data row whose source or destination is falsy (absent, empty, 0 or
      False) keeps "Unclear" in all three label columns. */
  lemma ProcessedCsvSkipsFalsy(fileName: string, matrix: seq<LabelEntry>, data: Frame, i: int)
    requires 0 <= i < |data.rows|
    requires !Truthy(Get(data.rows[i], "src_ip")) || !Truthy(Get(data.rows[i], "dst_ip"))
    requires ProcessedCsv(true, fileName, matrix, Some(data)).Some?
    ensures |ProcessedCsv(true, fileName, matrix, Some(data)).value.rows| == |data.rows|
    ensures ProcessedCsv(true, fileName, matrix, Some(data)).value.rows[i]
         == data.rows[i]["attack" := SingleLabeler.Unclear]["category" := SingleLabeler.Unclear]
                        ["subcategory" := SingleLabeler.Unclear]
  {
    ProcessedCsvRow(fileName, matrix, data, i);
    DefaultsKeep(data, i, "src_ip");
    DefaultsKeep(data, i, "dst_ip");
    LabelRowSkips(SingleLabeler.WithDefaults(data).rows[i], ChosenTable(fileName, matrix).value.rows);
  }

  /** A data row that no row of the chosen table matches keeps "Unclear". */
  lemma ProcessedCsvUnmatched(fileName: string, matrix: seq<LabelEntry>, data: Frame, i: int, src: Cell, dst: Cell)
    requires 0 <= i < |data.rows|
    requires Get(data.rows[i], "src_ip") == Some(src) && Get(data.rows[i], "dst_ip") == Some(dst)
    requires ChosenTable(fileName, matrix).Some?
    requires forall m :: 0 <= m < |ChosenTable(fileName, matrix).value.rows| ==>
      RowMatch(src, dst, ChosenTable(fileName, matrix).value.rows[m]) == Some(false)
    requires ProcessedCsv(true, fileName, matrix, Some(data)).Some?
    ensures |ProcessedCsv(true, fileName, matrix, Some(data)).value.rows| == |data.rows|
    ensures ProcessedCsv(true, fileName, matrix, Some(data)).value.rows[i]
         == data.rows[i]["attack" := SingleLabeler.Unclear]["category" := SingleLabeler.Unclear]
                        ["subcategory" := SingleLabeler.Unclear]
  {
    ProcessedCsvRow(fileName, matrix, data, i);
    DefaultsKeep(data, i, "src_ip");
    DefaultsKeep(data, i, "dst_ip");
    LabelRowUnmatched(SingleLabeler.WithDefaults(data).rows[i], ChosenTable(fileName, matrix).value.rows, src, dst);
  }

  /** A data row with both addresses set takes the three labels of the
      FIRST row of the chosen table with equal `saddr` and `daddr`, compared
      as they are. */
  lemma ProcessedCsvMatched(fileName: string, matrix: seq<LabelEntry>, data: Frame, i: int,
                            src: Cell, dst: Cell, j: int)
    requires 0 <= i < |data.rows|
    requires Get(data.rows[i], "src_ip") == Some(src) && Get(data.rows[i], "dst_ip") == Some(dst)
    requires Truthy(Some(src)) && Truthy(Some(dst))
    requires ChosenTable(fileName, matrix).Some?
    requires 0 <= j < |ChosenTable(fileName, matrix).value.rows|
    requires RowMatch(src, dst, ChosenTable(fileName, matrix).value.rows[j]) == Some(true)
    requires forall m :: 0 <= m < j ==> RowMatch(src, dst, ChosenTable(fileName, matrix).value.rows[m]) == Some(false)
    requires ProcessedCsv(true, fileName, matrix, Some(data)).Some?
    ensures |ProcessedCsv(true, fileName, matrix, Some(data)).value.rows| == |data.rows|
    ensures Get(ProcessedCsv(true, fileName, matrix, Some(data)).value.rows[i], "attack")
         == Get(ChosenTable(fileName, matrix).value.rows[j], "attack")
    ensures Get(ProcessedCsv(true, fileName, matrix, Some(data)).value.rows[i], "category")
         == Get(ChosenTable(fileName, matrix).value.rows[j], "category")
    ensures Get(ProcessedCsv(true, fileName, matrix, Some(data)).value.rows[i], "subcategory")
         == Get(ChosenTable(fileName, matrix).value.rows[j], "subcategory")
  {
    ProcessedCsvRow(fileName, matrix, data, i);
    DefaultsKeep(data, i, "src_ip");
    DefaultsKeep(data, i, "dst_ip");
    LabelRowFirstMatch(SingleLabeler.WithDefaults(data).rows[i], ChosenTable(fileName, matrix).value.rows, src, dst, j);
  }

  /** No cell outside the three label columns changes; in particular the
      addresses are written back exactly as they were read. */
  lemma ProcessedCsvOthers(fileName: string, matrix: seq<LabelEntry>, data: Frame, i: int, c: string)
    requires 0 <= i < |data.rows| && c != "attack" && c != "category" && c != "subcategory"
    requires ProcessedCsv(true, fileName, matrix, Some(data)).Some?
    ensures |ProcessedCsv(true, fileName, matrix, Some(data)).value.rows| == |data.rows|
    ensures Get(ProcessedCsv(true, fileName, matrix, Some(data)).value.rows[i], c) == Get(data.rows[i], c)
  {
    ProcessedCsvRow(fileName, matrix, data, i);
    DefaultsKeep(data, i, c);
    LabelRowKeeps(SingleLabeler.WithDefaults(data).rows[i], ChosenTable(fileName, matrix).value.rows, c);
  }

  /** A missing address is truthy, so its row is not skipped, but it equals
      no address and the row keeps its defaults. */
  lemma MissingAddressNeverMatches(dst: Cell, lrow: Row)
    ensures Truthy(Some(NA))
    ensures RowMatch(NA, dst, lrow) != Some(true)
    ensures RowMatch(dst, NA, lrow) != Some(true)
  {
  }

  /** Addresses are compared as read: a quoted address does not equal the
      same address unquoted. */
  lemma QuotedAddressDiffers(a: string, dst: Cell, lrow: Row)
    requires Get(lrow, "saddr") == Some(Str(a))
    ensures RowMatch(Str(['"'] + a + ['"']), dst, lrow) == Some(false)
  {
    assert |['"'] + a + ['"']| != |a|;
  }

  /** The name of the file a labelled file is written to. */
  function OutputName(fileName: string): (r: string)
    ensures |r| == |fileName| + 10 && r[..10] == "processed_" && r[10..] == fileName
  {
    "processed_" + fileName
  }

  /** The test that picks the files `process_files` labels. */
  function IsCsv(): string -> bool {
    (f: string) => EndsWith(f, ".csv")
  }

  /** The listed files `process_files` labels, in listing order. */
  function CsvFiles(listing: seq<string>): (fs: seq<string>)
    ensures forall f :: f in fs <==> f in listing && EndsWith(f, ".csv")
  {
    Filter(listing, IsCsv())
  }

  /** The files written for `files`, in order: each file that
      `process_csv_file` labels under its output name, the others nowhere. */
  function Outputs(files: seq<string>, present: string -> bool, read: string -> Option<Frame>,
                   matrix: seq<LabelEntry>): (ws: seq<(string, Frame)>)
    ensures |ws| <= |files|
  {
    if files == [] then []
    else
      var f := files[|files| - 1];
      var before := Outputs(files[..|files| - 1], present, read, matrix);
      var r := ProcessedCsv(present(f), f, matrix, read(f));
      if r.Some? then before + [(OutputName(f), r.value)] else before
  }

  /** `process_files` over the names `os.listdir` gave. `present` and `read`
      stand for the file system; the result is the list of files written, or
      the FileNotFoundError of a missing directory. Only a file's base name
      matters to `process_csv_file`, so each file is passed by name. */
  method ProcessFiles(targetExists: bool, targetDir: string, listing: seq<string>,
                      present: string -> bool, read: string -> Option<Frame>, matrix: seq<LabelEntry>)
    returns (r: Result<seq<(string, Frame)>, PyError>)
    ensures !targetExists ==> r == Failure(FileNotFoundError("El directorio objetivo " + targetDir + " no existe"))
    ensures targetExists ==> r == Success(Outputs(CsvFiles(listing), present, read, matrix))
  {
    if !targetExists {
      return Failure(FileNotFoundError("El directorio objetivo " + targetDir + " no existe"));
    }
    var files := CsvFiles(listing);
    var written: seq<(string, Frame)> := [];
    var i := 0;
    while i < |files|
      invariant 0 <= i <= |files|
      invariant written == Outputs(files[..i], present, read, matrix)
    {
      var fileName := files[i];
      var processed := ProcessCsvFile(present(fileName), fileName, matrix, read(fileName));
      assert files[..i + 1][..i] == files[..i];
      if processed.Some? {
        written := written + [(OutputName(fileName), processed.value)];
      }
      i := i + 1;
    }
    assert files[..i] == files;
    r := Success(written);
  }

  /** Every file written is a listed file that was labelled, under its
      output name. */
  lemma {:induction false} OutputsSound(files: seq<string>, present: string -> bool,
                                         read: string -> Option<Frame>, matrix: seq<LabelEntry>, k: int)
    requires 0 <= k < |Outputs(files, present, read, matrix)|
    ensures exists f ::
              f in files && Outputs(files, present, read, matrix)[k].0 == OutputName(f)
              && ProcessedCsv(present(f), f, matrix, read(f)) == Some(Outputs(files, present, read, matrix)[k].1)
  {
    var before := Outputs(files[..|files| - 1], present, read, matrix);
    var f := files[|files| - 1];
    if k < |before| {
      OutputsSound(files[..|files| - 1], present, read, matrix, k);
      var g :| g in files[..|files| - 1] && before[k].0 == OutputName(g)
        && ProcessedCsv(present(g), g, matrix, read(g)) == Some(before[k].1);
      assert g in files;
    } else {
      assert Outputs(files, present, read, matrix)[k] == (OutputName(f), ProcessedCsv(present(f), f, matrix, read(f)).value);
    }
  }

  /** Every listed file that is labelled is written, under its output name. */
  lemma {:induction false} OutputsComplete(files: seq<string>, present: string -> bool,
                                            read: string -> Option<Frame>, matrix: seq<LabelEntry>, f: string)
    requires f in files && ProcessedCsv(present(f), f, matrix, read(f)).Some?
    ensures (OutputName(f), ProcessedCsv(present(f), f, matrix, read(f)).value) in Outputs(files, present, read, matrix)
  {
    if f != files[|files| - 1] {
      InFront(files, f);
      OutputsComplete(files[..|files| - 1], present, read, matrix, f);
    }
  }

  /** An element of a list that is not its last one is in the list's front. */
  lemma InFront(files: seq<string>, f: string)
    requires f in files && f != files[|files| - 1]
    ensures f in files[..|files| - 1]
  {
    var k :| 0 <= k < |files| && files[k] == f;
    assert files[..|files| - 1][k] == f;
  }
}
