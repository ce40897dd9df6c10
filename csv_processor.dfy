/** Labeler/processor/csv_processor.py: the `CSVProcessor` class. It picks a
    label for the data file from its name, builds a dictionary from
    (source ip, destination ip) to a label record out of the label file read
    in chunks, and gathers the processed data chunks into one frame. */
module CsvProcessor {
  import opened Common
  import opened Text
  import opened Frames

  /** A key of the label dictionary: (source ip, destination ip). */
  type FlowKey = (string, string)

  /** A value of the label dictionary: output column name to label cell. */
  type LabelRecord = map<string, Cell>

  /** The labels directory used when the configuration names none. */
  const DefaultLabelsDir: string := "/data/labels/"

  /** The hard-coded exception table: file-name fragment, then label, in the
      order the loop tries them. */
  const LabelExceptions: seq<(string, string)> :=
    [("data_theft", "Data_exfiltration"), ("keylog", "Keylogging")]

  /** The loop of `_check_label_exceptions` over what is left of the table:
      the label of the first entry whose lower-cased fragment occurs in the
      file name. */
  function FirstException(fileName: string, table: seq<(string, string)>): Option<string>
  {
    if table == [] then None
    else if IsSubstring(ToLower(table[0].0), fileName) then Some(table[0].1)
    else FirstException(fileName, table[1..])
  }

  /** `_check_label_exceptions`: "data_theft" is tried before "keylog"; the
      first one found in the file name decides the label, else None. */
  function CheckLabelExceptions(fileName: string): (r: Option<string>)
    ensures r.Some? <==> IsSubstring("data_theft", fileName) || IsSubstring("keylog", fileName)
    ensures IsSubstring("data_theft", fileName) ==> r == Some("Data_exfiltration")
    ensures !IsSubstring("data_theft", fileName) && IsSubstring("keylog", fileName) ==>
      r == Some("Keylogging")
  {
    if IsSubstring("data_theft", fileName) then Some("Data_exfiltration")
    else if IsSubstring("keylog", fileName) then Some("Keylogging")
    else None
  }

  /** The loop over a two-entry table whose fragments are lower case. */
  lemma FirstExceptionOfTwo(fileName: string, table: seq<(string, string)>)
    requires |table| == 2
    requires ToLower(table[0].0) == table[0].0 && ToLower(table[1].0) == table[1].0
    ensures FirstException(fileName, table)
         == if IsSubstring(table[0].0, fileName) then Some(table[0].1)
            else if IsSubstring(table[1].0, fileName) then Some(table[1].1)
            else None
  {
    var rest := table[1..];
    assert rest[0] == table[1] && rest[1..] == [];
    assert FirstException(fileName, rest[1..]) == None;
    assert FirstException(fileName, rest)
        == if IsSubstring(table[1].0, fileName) then Some(table[1].1) else None;
  }

  /** The first fragment of the exception table is already lower case. */
  lemma DataTheftIsLower()
    ensures ToLower("data_theft") == "data_theft"
  {
    ToLowerOfLower("data_theft");
  }

  /** The second fragment of the exception table is already lower case. */
  lemma KeylogIsLower()
    ensures ToLower("keylog") == "keylog"
  {
    ToLowerOfLower("keylog");
  }

  /** `CheckLabelExceptions` is the loop over the exception table: the
      fragments are already lower case, so `.lower()` leaves them alone, and
      the entries are tried in table order. */
  lemma CheckLabelExceptionsIsLoop(fileName: string)
    ensures CheckLabelExceptions(fileName) == FirstException(fileName, LabelExceptions)
  {
    DataTheftIsLower();
    KeylogIsLower();
    FirstExceptionOfTwo(fileName, LabelExceptions);
  }

  /** The test `_find_matching_labels` applies to one label. */
  function MatchesName(fileName: string): string -> bool {
    (l: string) => IsSubstring(ToLower(l), fileName)
  }

  /** Some label of the list, lower-cased, occurs in the file name. */
  predicate AnyMatch(labels: seq<string>, fileName: string) {
    exists i :: 0 <= i < |labels| && IsSubstring(ToLower(labels[i]), fileName)
  }

  /** `x` is the first label of the list whose lower-cased form occurs in the
      file name. */
  predicate IsFirstMatch(labels: seq<string>, fileName: string, x: string) {
    exists i :: 0 <= i < |labels| && IsSubstring(ToLower(labels[i]), fileName) && labels[i] == x
      && forall j :: 0 <= j < i ==> !IsSubstring(ToLower(labels[j]), fileName)
  }

  /** `_find_matching_labels`: the labels, in list order, whose lower-cased
      form occurs in the (already lower-cased) file name. The list is empty
      exactly when no label matches, and its head is the first label that does. */
  function FindMatchingLabels(fileName: string, labels: seq<string>): (r: seq<string>)
    ensures forall x :: x in r <==> x in labels && IsSubstring(ToLower(x), fileName)
    ensures r == [] <==> !AnyMatch(labels, fileName)
    ensures r != [] ==> IsFirstMatch(labels, fileName, r[0])
  {
    FilterFirst(labels, MatchesName(fileName));
    Filter(labels, MatchesName(fileName))
  }

  /** The matching labels of two lists put end to end are those of the first
      list followed by those of the second: list order is kept. */
  lemma FindMatchingLabelsKeepsOrder(fileName: string, a: seq<string>, b: seq<string>)
    ensures FindMatchingLabels(fileName, a + b)
         == FindMatchingLabels(fileName, a) + FindMatchingLabels(fileName, b)
  {
    FilterAppend(a, b, MatchesName(fileName));
  }

  /** The name `_determine_label` matches against: the file name, lower-cased. */
  function FileKey(dataPath: string): string {
    ToLower(BaseName(dataPath))
  }

  /** `str(x).strip('"').strip("'")` for a cell that is not NaN. */
  function CleanAddress(c: Cell): (r: string)
    ensures r == [] || (r[0] != '\'' && r[|r| - 1] != '\'')
  {
    Strip(Strip(ToStr(c), '"'), '\'')
  }

  /** `_build_label_key`: the pair of cleaned addresses when both cells are
      present and neither is empty after cleaning; None otherwise. A row that
      lacks either column raises KeyError. */
  function BuildLabelKey(row: Row, srcCol: string, dstCol: string): (r: Result<Option<FlowKey>, PyError>)
    ensures r.Failure? <==> srcCol !in row || dstCol !in row
    ensures r.Success? ==>
      (r.value.Some? <==> row[srcCol] != NA && row[dstCol] != NA
                          && CleanAddress(row[srcCol]) != [] && CleanAddress(row[dstCol]) != [])
    ensures r.Success? && r.value.Some? ==>
      r.value.value == (CleanAddress(row[srcCol]), CleanAddress(row[dstCol]))
  {
    if srcCol !in row then Failure(KeyError(srcCol))
    else if dstCol !in row then Failure(KeyError(dstCol))
    else
      var src := if row[srcCol].NA? then None else Some(CleanAddress(row[srcCol]));
      var dst := if row[dstCol].NA? then None else Some(CleanAddress(row[dstCol]));
      if src.Some? && src.value != [] && dst.Some? && dst.value != [] then
        Success(Some((src.value, dst.value)))
      else
        Success(None)
  }

  /** The output names of `label_columns` (output name, source column). */
  function OutNames(labelColumns: seq<(string, string)>): set<string> {
    set p | p in labelColumns :: p.0
  }

  /** The dict comprehension `{name: row[col] for name, col in label_columns}`;
      KeyError for the first source column the row lacks. */
  function RecordOf(row: Row, labelColumns: seq<(string, string)>): (r: Result<LabelRecord, PyError>)
    ensures r.Success? <==> forall p :: p in labelColumns ==> p.1 in row
    ensures r.Success? ==> r.value.Keys == OutNames(labelColumns)
  {
    if labelColumns == [] then Success(map[])
    else
      var init := labelColumns[..|labelColumns| - 1];
      var last := labelColumns[|labelColumns| - 1];
      assert labelColumns == init + [last];
      var prefix := RecordOf(row, init);
      if prefix.Failure? then prefix
      else if last.1 !in row then Failure(KeyError(last.1))
      else
        assert OutNames(labelColumns) == OutNames(init) + {last.0};
        Success(prefix.value[last.0 := row[last.1]])
  }

  /** Each output name holds the cell of the last pair that names it. */
  lemma {:induction false} RecordOfLastWins(row: Row, labelColumns: seq<(string, string)>, i: nat)
    requires RecordOf(row, labelColumns).Success?
    requires i < |labelColumns|
    requires forall j :: i < j < |labelColumns| ==> labelColumns[j].0 != labelColumns[i].0
    ensures labelColumns[i].0 in RecordOf(row, labelColumns).value
    ensures RecordOf(row, labelColumns).value[labelColumns[i].0] == row[labelColumns[i].1]
  {
    var init := labelColumns[..|labelColumns| - 1];
    assert labelColumns == init + [labelColumns[|labelColumns| - 1]];
    if i < |labelColumns| - 1 {
      RecordOfLastWins(row, init, i);
    }
  }

  /** Every record of the dictionary holds exactly the output names. */
  predicate Uniform(d: map<FlowKey, LabelRecord>, labelColumns: seq<(string, string)>) {
    forall k :: k in d ==> d[k].Keys == OutNames(labelColumns)
  }

  /** One row of `_build_label_dictionary`: a keyed row (over)writes its key. */
  function Absorb(d: map<FlowKey, LabelRecord>, row: Row, srcCol: string, dstCol: string,
                  labelColumns: seq<(string, string)>): (r: Result<map<FlowKey, LabelRecord>, PyError>)
    ensures var key := BuildLabelKey(row, srcCol, dstCol);
      && (r.Success? <==> key.Success? && (key.value.Some? ==> RecordOf(row, labelColumns).Success?))
      && (r.Success? && key.value.None? ==> r.value == d)
      && (r.Success? && key.value.Some? ==> r.value == d[key.value.value := RecordOf(row, labelColumns).value])
  {
    var key :- BuildLabelKey(row, srcCol, dstCol);
    if key.None? then Success(d)
    else
      var rec :- RecordOf(row, labelColumns);
      Success(d[key.value := rec])
  }

  /** Absorbing a row keeps every record holding exactly the output names. */
  lemma AbsorbUniform(d: map<FlowKey, LabelRecord>, row: Row, srcCol: string, dstCol: string,
                      labelColumns: seq<(string, string)>)
    requires Uniform(d, labelColumns)
    requires Absorb(d, row, srcCol, dstCol, labelColumns).Success?
    ensures Uniform(Absorb(d, row, srcCol, dstCol, labelColumns).value, labelColumns)
  {
    var key := BuildLabelKey(row, srcCol, dstCol);
    if key.value.Some? {
      var rec := RecordOf(row, labelColumns).value;
      assert rec.Keys == OutNames(labelColumns);
    }
  }

  /** The label dictionary of a sequence of rows taken in order; the first
      KeyError aborts it. Every value holds exactly the output names. */
  function IndexRows(rows: seq<Row>, srcCol: string, dstCol: string,
                     labelColumns: seq<(string, string)>): (r: Result<map<FlowKey, LabelRecord>, PyError>)
    ensures r.Success? ==> Uniform(r.value, labelColumns)
  {
    if rows == [] then Success(map[])
    else
      var d :- IndexRows(rows[..|rows| - 1], srcCol, dstCol, labelColumns);
      var r := Absorb(d, rows[|rows| - 1], srcCol, dstCol, labelColumns);
      if r.Success? then AbsorbUniform(d, rows[|rows| - 1], srcCol, dstCol, labelColumns); r else r
  }

  /** `row` carries key `k`. */
  predicate HasKey(row: Row, srcCol: string, dstCol: string, k: FlowKey) {
    BuildLabelKey(row, srcCol, dstCol) == Success(Some(k))
  }

  /** Once a KeyError is raised, later rows change nothing. */
  lemma {:induction false} IndexRowsFailureSticks(rows: seq<Row>, more: seq<Row>, srcCol: string,
                                                  dstCol: string, labelColumns: seq<(string, string)>)
    requires IndexRows(rows, srcCol, dstCol, labelColumns).Failure?
    ensures IndexRows(rows + more, srcCol, dstCol, labelColumns) == IndexRows(rows, srcCol, dstCol, labelColumns)
  {
    if more != [] {
      var init := more[..|more| - 1];
      assert (rows + more)[..|rows + more| - 1] == rows + init;
      IndexRowsFailureSticks(rows, init, srcCol, dstCol, labelColumns);
    } else {
      assert rows + more == rows;
    }
  }

  /** One more row: the dictionary so far absorbs it, unless a KeyError
      was already raised. */
  lemma IndexRowsSnoc(rows: seq<Row>, row: Row, srcCol: string, dstCol: string,
                      labelColumns: seq<(string, string)>)
    ensures var prev := IndexRows(rows, srcCol, dstCol, labelColumns);
      IndexRows(rows + [row], srcCol, dstCol, labelColumns)
      == if prev.Failure? then prev else Absorb(prev.value, row, srcCol, dstCol, labelColumns)
  {
    assert (rows + [row])[..|rows + [row]| - 1] == rows;
  }

  /** Absorbing a row that carries key `k` sets `k` to the row's record. */
  lemma AbsorbHit(d: map<FlowKey, LabelRecord>, row: Row, srcCol: string, dstCol: string,
                  labelColumns: seq<(string, string)>, k: FlowKey)
    requires Absorb(d, row, srcCol, dstCol, labelColumns).Success?
    requires HasKey(row, srcCol, dstCol, k)
    ensures RecordOf(row, labelColumns).Success?
    ensures k in Absorb(d, row, srcCol, dstCol, labelColumns).value
    ensures Absorb(d, row, srcCol, dstCol, labelColumns).value[k] == RecordOf(row, labelColumns).value
  {
  }

  /** Absorbing a row that does not carry key `k` leaves `k` alone. */
  lemma AbsorbMiss(d: map<FlowKey, LabelRecord>, row: Row, srcCol: string, dstCol: string,
                   labelColumns: seq<(string, string)>, k: FlowKey)
    requires Absorb(d, row, srcCol, dstCol, labelColumns).Success?
    requires !HasKey(row, srcCol, dstCol, k)
    ensures k in Absorb(d, row, srcCol, dstCol, labelColumns).value <==> k in d
    ensures k in d ==> Absorb(d, row, srcCol, dstCol, labelColumns).value[k] == d[k]
  {
  }

  /** The last row of a successful build was absorbed into the dictionary of
      the rows before it. */
  lemma IndexRowsStep(rows: seq<Row>, srcCol: string, dstCol: string, labelColumns: seq<(string, string)>)
    requires rows != [] && IndexRows(rows, srcCol, dstCol, labelColumns).Success?
    ensures IndexRows(rows[..|rows| - 1], srcCol, dstCol, labelColumns).Success?
    ensures var prev := IndexRows(rows[..|rows| - 1], srcCol, dstCol, labelColumns).value;
      Absorb(prev, rows[|rows| - 1], srcCol, dstCol, labelColumns)
      == IndexRows(rows, srcCol, dstCol, labelColumns)
  {
  }

  /** A key is in the dictionary exactly when some row carries it. */
  lemma IndexRowsKeys(rows: seq<Row>, srcCol: string, dstCol: string,
                      labelColumns: seq<(string, string)>, k: FlowKey)
    requires IndexRows(rows, srcCol, dstCol, labelColumns).Success?
    ensures k in IndexRows(rows, srcCol, dstCol, labelColumns).value
        <==> exists i :: 0 <= i < |rows| && HasKey(rows[i], srcCol, dstCol, k)
  {
    if k in IndexRows(rows, srcCol, dstCol, labelColumns).value {
      var i := IndexRowsKeysSound(rows, srcCol, dstCol, labelColumns, k);
    }
    forall i | 0 <= i < |rows| && HasKey(rows[i], srcCol, dstCol, k)
      ensures k in IndexRows(rows, srcCol, dstCol, labelColumns).value
    {
      IndexRowsKeysComplete(rows, srcCol, dstCol, labelColumns, k, i);
    }
  }

  /** A key in the dictionary comes from a row that carries it. */
  lemma {:induction false} IndexRowsKeysSound(rows: seq<Row>, srcCol: string, dstCol: string,
                                              labelColumns: seq<(string, string)>, k: FlowKey)
    returns (i: nat)
    requires IndexRows(rows, srcCol, dstCol, labelColumns).Success?
    requires k in IndexRows(rows, srcCol, dstCol, labelColumns).value
    ensures i < |rows| && HasKey(rows[i], srcCol, dstCol, k)
  {
    var init := rows[..|rows| - 1];
    var last := rows[|rows| - 1];
    IndexRowsStep(rows, srcCol, dstCol, labelColumns);
    var prev := IndexRows(init, srcCol, dstCol, labelColumns).value;
    if HasKey(last, srcCol, dstCol, k) {
      i := |rows| - 1;
    } else {
      AbsorbMiss(prev, last, srcCol, dstCol, labelColumns, k);
      i := IndexRowsKeysSound(init, srcCol, dstCol, labelColumns, k);
      assert init[i] == rows[i];
    }
  }

  /** A row that carries a key puts it in the dictionary. */
  lemma {:induction false} IndexRowsKeysComplete(rows: seq<Row>, srcCol: string, dstCol: string,
                                                 labelColumns: seq<(string, string)>, k: FlowKey, i: nat)
    requires IndexRows(rows, srcCol, dstCol, labelColumns).Success?
    requires i < |rows| && HasKey(rows[i], srcCol, dstCol, k)
    ensures k in IndexRows(rows, srcCol, dstCol, labelColumns).value
  {
    var init := rows[..|rows| - 1];
    var last := rows[|rows| - 1];
    IndexRowsStep(rows, srcCol, dstCol, labelColumns);
    var prev := IndexRows(init, srcCol, dstCol, labelColumns).value;
    if i == |rows| - 1 || HasKey(last, srcCol, dstCol, k) {
      AbsorbHit(prev, last, srcCol, dstCol, labelColumns, k);
    } else {
      assert init[i] == rows[i];
      IndexRowsKeysComplete(init, srcCol, dstCol, labelColumns, k, i);
      AbsorbMiss(prev, last, srcCol, dstCol, labelColumns, k);
    }
  }

  /** Last write wins: a key maps to the record of the LAST row carrying it. */
  lemma {:induction false} IndexRowsLastWriteWins(rows: seq<Row>, srcCol: string, dstCol: string,
                                                  labelColumns: seq<(string, string)>, k: FlowKey, i: nat)
    requires IndexRows(rows, srcCol, dstCol, labelColumns).Success?
    requires i < |rows| && HasKey(rows[i], srcCol, dstCol, k)
    requires forall j :: i < j < |rows| ==> !HasKey(rows[j], srcCol, dstCol, k)
    ensures RecordOf(rows[i], labelColumns).Success?
    ensures var d := IndexRows(rows, srcCol, dstCol, labelColumns).value;
      k in d && d[k] == RecordOf(rows[i], labelColumns).value
  {
    var init := rows[..|rows| - 1];
    var last := rows[|rows| - 1];
    IndexRowsStep(rows, srcCol, dstCol, labelColumns);
    var prev := IndexRows(init, srcCol, dstCol, labelColumns).value;
    if i == |rows| - 1 {
      AbsorbHit(prev, last, srcCol, dstCol, labelColumns, k);
    } else {
      AbsorbMiss(prev, last, srcCol, dstCol, labelColumns, k);
      assert forall j :: 0 <= j < |init| ==> init[j] == rows[j];
      IndexRowsLastWriteWins(init, srcCol, dstCol, labelColumns, k, i);
    }
  }

  /** The rows of several chunks, one chunk after the other. */
  function Flatten(chunks: seq<seq<Row>>): seq<Row> {
    if chunks == [] then [] else Flatten(chunks[..|chunks| - 1]) + chunks[|chunks| - 1]
  }

  /** `_build_label_dictionary`: a loop over chunks and, inside it, over the
      rows of each chunk. The result depends only on the rows in order, not on
      how they were cut into chunks. */
  method BuildLabelDictionary(chunks: seq<seq<Row>>, srcCol: string, dstCol: string,
                              labelColumns: seq<(string, string)>)
    returns (r: Result<map<FlowKey, LabelRecord>, PyError>)
    ensures r == IndexRows(Flatten(chunks), srcCol, dstCol, labelColumns)
  {
    var d: map<FlowKey, LabelRecord> := map[];
    var i := 0;
    while i < |chunks|
      invariant 0 <= i <= |chunks|
      invariant IndexRows(Flatten(chunks[..i]), srcCol, dstCol, labelColumns) == Success(d)
    {
      var next := IndexChunk(d, Flatten(chunks[..i]), chunks[i], srcCol, dstCol, labelColumns);
      assert chunks[..i + 1][..i] == chunks[..i];
      assert Flatten(chunks[..i + 1]) == Flatten(chunks[..i]) + chunks[i];
      if next.Failure? {
        r := next;
        var k := |chunks[i]| - 1;
        assert chunks[i][..k + 1] == chunks[i];
        FailureSticksToEnd(chunks, i, k, srcCol, dstCol, labelColumns);
        return;
      }
      d := next.value;
      i := i + 1;
    }
    assert chunks[..i] == chunks;
    r := Success(d);
  }

  /** The inner loop of `_build_label_dictionary` over the rows of one chunk,
      starting from the dictionary `d0` built from the rows `done` before it. */
  method IndexChunk(d0: map<FlowKey, LabelRecord>, ghost done: seq<Row>, chunk: seq<Row>,
                    srcCol: string, dstCol: string, labelColumns: seq<(string, string)>)
    returns (r: Result<map<FlowKey, LabelRecord>, PyError>)
    requires IndexRows(done, srcCol, dstCol, labelColumns) == Success(d0)
    ensures r == IndexRows(done + chunk, srcCol, dstCol, labelColumns)
    ensures chunk == [] ==> r == Success(d0)
  {
    var d := d0;
    var k := 0;
    ghost var seen := done;
    assert done + chunk[..0] == done;
    while k < |chunk|
      invariant 0 <= k <= |chunk|
      invariant seen == done + chunk[..k]
      invariant IndexRows(seen, srcCol, dstCol, labelColumns) == Success(d)
    {
      var row := chunk[k];
      IndexRowsSnoc(seen, row, srcCol, dstCol, labelColumns);
      seen := seen + [row];
      assert seen == done + chunk[..k + 1];
      var next := Absorb(d, row, srcCol, dstCol, labelColumns);
      if next.Failure? {
        r := next;
        RestOfChunk(done, chunk, k, srcCol, dstCol, labelColumns);
        return;
      }
      d := next.value;
      k := k + 1;
    }
    assert chunk[..k] == chunk;
    r := Success(d);
  }

  /** A KeyError at row `k` of a chunk is the outcome of the whole chunk. */
  lemma RestOfChunk(done: seq<Row>, chunk: seq<Row>, k: nat, srcCol: string, dstCol: string,
                    labelColumns: seq<(string, string)>)
    requires k < |chunk|
    requires IndexRows(done + chunk[..k + 1], srcCol, dstCol, labelColumns).Failure?
    ensures IndexRows(done + chunk, srcCol, dstCol, labelColumns)
         == IndexRows(done + chunk[..k + 1], srcCol, dstCol, labelColumns)
  {
    assert done + chunk == (done + chunk[..k + 1]) + chunk[k + 1..];
    IndexRowsFailureSticks(done + chunk[..k + 1], chunk[k + 1..], srcCol, dstCol, labelColumns);
  }

  /** The rows up to and including row `k` of chunk `i` are a prefix of all rows. */
  lemma {:induction false} FlattenSplits(chunks: seq<seq<Row>>, i: nat, k: nat)
    requires i < |chunks| && k < |chunks[i]|
    ensures var done := Flatten(chunks[..i]) + chunks[i][..k + 1];
      |done| <= |Flatten(chunks)| && Flatten(chunks)[..|done|] == done
  {
    var done := Flatten(chunks[..i]) + chunks[i][..k + 1];
    if i == |chunks| - 1 {
      assert chunks[..|chunks| - 1] == chunks[..i];
      assert chunks[i] == chunks[i][..k + 1] + chunks[i][k + 1..];
      assert Flatten(chunks) == done + chunks[i][k + 1..];
    } else {
      var init := chunks[..|chunks| - 1];
      assert init[..i] == chunks[..i] && init[i] == chunks[i];
      FlattenSplits(init, i, k);
      assert Flatten(chunks) == Flatten(init) + chunks[|chunks| - 1];
    }
  }

  /** A KeyError at row `k` of chunk `i` is the outcome for all the chunks. */
  lemma FailureSticksToEnd(chunks: seq<seq<Row>>, i: nat, k: nat, srcCol: string, dstCol: string,
                           labelColumns: seq<(string, string)>)
    requires i < |chunks| && k < |chunks[i]|
    requires IndexRows(Flatten(chunks[..i]) + chunks[i][..k + 1], srcCol, dstCol, labelColumns).Failure?
    ensures IndexRows(Flatten(chunks), srcCol, dstCol, labelColumns)
         == IndexRows(Flatten(chunks[..i]) + chunks[i][..k + 1], srcCol, dstCol, labelColumns)
  {
    FlattenSplits(chunks, i, k);
    var done := Flatten(chunks[..i]) + chunks[i][..k + 1];
    var all := Flatten(chunks);
    assert all == done + all[|done|..];
    IndexRowsFailureSticks(done, all[|done|..], srcCol, dstCol, labelColumns);
  }

  /** The processed chunks `_process_file` keeps: the non-empty ones, in order. */
  function NonEmptyChunks(chunks: seq<Frame>): (kept: seq<Frame>)
    ensures forall c :: c in kept <==> c in chunks && !IsEmpty(c)
  {
    if chunks == [] then []
    else
      var init := chunks[..|chunks| - 1];
      var last := chunks[|chunks| - 1];
      assert chunks == init + [last];
      NonEmptyChunks(init) + (if IsEmpty(last) then [] else [last])
  }

  /** Keeping the non-empty chunks of two runs of chunks put end to end keeps
      those of the first run, in order, followed by those of the second: the
      kept chunks are the input's non-empty chunks, each as often as it
      occurs, in input order. */
  lemma {:induction false} NonEmptyChunksAppend(a: seq<Frame>, b: seq<Frame>)
    ensures NonEmptyChunks(a + b) == NonEmptyChunks(a) + NonEmptyChunks(b)
    decreases |b|
  {
    if b == [] {
      assert a + b == a;
    } else {
      var init := b[..|b| - 1];
      var last := b[|b| - 1];
      var tail := if IsEmpty(last) then [] else [last];
      assert b == init + [last];
      assert a + b == (a + init) + [last];
      NonEmptyChunksAppend(a, init);
      NonEmptyChunksSnoc(a + init, last);
      NonEmptyChunksSnoc(init, last);
      SeqAssoc(NonEmptyChunks(a), NonEmptyChunks(init), tail);
    }
  }

  /** Concatenation of chunk lists is associative. */
  lemma SeqAssoc(x: seq<Frame>, y: seq<Frame>, z: seq<Frame>)
    ensures (x + y) + z == x + (y + z)
  {
  }

  /** One more chunk at the end is kept after the others when it is not
      empty. */
  lemma NonEmptyChunksSnoc(chunks: seq<Frame>, c: Frame)
    ensures NonEmptyChunks(chunks + [c]) == NonEmptyChunks(chunks) + if IsEmpty(c) then [] else [c]
  {
    assert (chunks + [c])[..|chunks|] == chunks;
  }

  /** A single chunk is kept exactly when it is not empty. */
  lemma NonEmptyChunksOne(c: Frame)
    ensures NonEmptyChunks([c]) == if IsEmpty(c) then [] else [c]
  {
    assert [c][..0] == [];
  }

  /** The label `_determine_label` picks for a (lower-cased) file name: an
      exception hit wins outright; failing that, the first label in list order
      whose lower-cased form occurs in the name; None when nothing matches. */
  function LabelFor(fileName: string, labels: seq<string>): (r: Option<string>)
    ensures CheckLabelExceptions(fileName).Some? ==> r == CheckLabelExceptions(fileName)
    ensures CheckLabelExceptions(fileName).None? ==> (r.None? <==> !AnyMatch(labels, fileName))
    ensures CheckLabelExceptions(fileName).None? && r.Some? ==> IsFirstMatch(labels, fileName, r.value)
  {
    var exception := CheckLabelExceptions(fileName);
    if exception.Some? then exception
    else
      var matching := FindMatchingLabels(fileName, labels);
      if matching == [] then None else Some(matching[0])
  }

  /** The part of `CSVProcessor` the labelling functions read and `__init__` sets. */
  class Processor {
    /** `config.data_path`, None when the configuration has no such attribute. */
    var dataPath: Option<string>
    var labelsDir: string
    var labelPath: string

    /** `__init__`: a missing `labels_dir` becomes "/data/labels/", and
        `label_path` is always `labels_dir / "Keylogging.csv"`. `Path` would
        drop the default's trailing '/'; the model keeps it, which leaves
        `label_path` the same, since the join adds no second '/'. */
    constructor (dataPath: Option<string>, labelsDir: Option<string>)
      ensures this.dataPath == dataPath
      ensures this.labelsDir == labelsDir.GetOr(DefaultLabelsDir)
      ensures this.labelPath == PathJoin(this.labelsDir, "Keylogging.csv")
    {
      this.dataPath := dataPath;
      var dir := if labelsDir.Some? then labelsDir.value else DefaultLabelsDir;
      this.labelsDir := dir;
      this.labelPath := PathJoin(dir, "Keylogging.csv");
    }

    /** `_determine_label`: None without a data path, otherwise the label
        `LabelFor` picks for the lower-cased file name. */
    function DetermineLabel(labels: seq<string>): (r: Option<string>)
      reads this
      ensures dataPath.None? ==> r.None?
      ensures dataPath.Some? ==> r == LabelFor(FileKey(dataPath.value), labels)
    {
      if dataPath.None? then None else LabelFor(FileKey(dataPath.value), labels)
    }

    /** The chunk-collection loop of `_process_file`, given the processed
        chunks, or None when creating the chunk iterator, reading a chunk or
        processing one raised (the `except Exception` path): None when the
        data file is missing or something raised; otherwise the non-empty
        chunks in input order, concatenated, or None if there are none. */
    method ProcessFile(dataExists: bool, processed: Option<seq<Frame>>) returns (r: Option<Frame>)
      ensures r.None? <==> dataPath.None? || !dataExists || processed.None?
                           || NonEmptyChunks(processed.value) == []
      ensures r.Some? ==> r.value == Concat(NonEmptyChunks(processed.value))
    {
      if dataPath.None? || !dataExists {
        return None;
      }
      if processed.None? {
        return None;
      }
      var frames := processed.value;
      var chunks: seq<Frame> := [];
      var i := 0;
      while i < |frames|
        invariant 0 <= i <= |frames|
        invariant chunks == NonEmptyChunks(frames[..i])
      {
        var chunk := frames[i];
        assert frames[..i + 1][..i] == frames[..i];
        if !IsEmpty(chunk) {
          chunks := chunks + [chunk];
        }
        i := i + 1;
      }
      assert frames[..i] == frames;
      if chunks == [] {
        return None;
      }
      r := Some(Concat(chunks));
    }
  }
}
