/** verificator.py: counting how often each label occurs in the `attack`,
    `category` and `subcategory` columns of a folder of labelled CSV files,
    and listing the counts from the most to the least frequent. */
module Verificator {
  import opened Common
  import opened Text
  import opened Frames

  /** A `defaultdict(int)` from label to count: its items in insertion order. */
  type Counter = seq<(Cell, nat)>

  /** `label_counts`: the column names with their counters, in insertion order. */
  type Counts = seq<(string, Counter)>

  /** The only columns that are counted, in the order they are counted. */
  const LabelColumns: seq<string> := ["attack", "category", "subcategory"]

  /** The labels a counter holds. */
  function Labels(c: Counter): set<Cell> {
    if c == [] then {} else {c[0].0} + Labels(c[1..])
  }

  /** No label appears twice in a counter, as in a dict. */
  predicate UniqueKeys(c: Counter) {
    c == [] || (c[0].0 !in Labels(c[1..]) && UniqueKeys(c[1..]))
  }

  /** `counter[label]`, 0 for a label it does not hold. */
  function CountOf(c: Counter, lbl: Cell): nat {
    if c == [] then 0 else (if c[0].0 == lbl then c[0].1 else 0) + CountOf(c[1..], lbl)
  }

  /** The sum of all the counts of a counter. */
  function Total(c: Counter): nat {
    if c == [] then 0 else c[0].1 + Total(c[1..])
  }

  /** `counter[label] += n`: an existing label keeps its place, a new one
      goes last. */
  function Add(c: Counter, lbl: Cell, n: nat): (r: Counter)
    ensures CountOf(r, lbl) == CountOf(c, lbl) + n
    ensures forall l :: l != lbl ==> CountOf(r, l) == CountOf(c, l)
    ensures Total(r) == Total(c) + n
    ensures Labels(r) == Labels(c) + {lbl}
    ensures UniqueKeys(c) ==> UniqueKeys(r)
  {
    if c == [] then [(lbl, n)]
    else if c[0].0 == lbl then
      var r := [(lbl, c[0].1 + n)] + c[1..];
      assert r[1..] == c[1..];
      r
    else
      var rest := Add(c[1..], lbl, n);
      var r := [c[0]] + rest;
      assert r[1..] == rest;
      r
  }

  /** The occurrences of `label` among the cells. A missing value is a label
      like any other: NaN is counted with NaN. */
  function Occurrences(cells: seq<Cell>, lbl: Cell): nat
    decreases |cells|
  {
    if cells == [] then 0
    else Occurrences(cells[..|cells| - 1], lbl) + (if cells[|cells| - 1] == lbl then 1 else 0)
  }

  /** The labels of the cells with their number of occurrences, in order of
      first appearance. */
  function Tally(cells: seq<Cell>): (r: Counter)
    decreases |cells|
    ensures forall l :: CountOf(r, l) == Occurrences(cells, l)
    ensures Total(r) == |cells|
    ensures UniqueKeys(r)
  {
    if cells == [] then []
    else Add(Tally(cells[..|cells| - 1]), cells[|cells| - 1], 1)
  }

  /** The items are in non-increasing count order. */
  predicate SortedDesc(c: Counter) {
    forall i, j :: 0 <= i < j < |c| ==> c[i].1 >= c[j].1
  }

  /** The items with count `n`, in order. */
  function WithCount(c: Counter, n: nat): Counter {
    if c == [] then [] else (if c[0].1 == n then [c[0]] else []) + WithCount(c[1..], n)
  }

  /** Puts `x` before the first item whose count is not larger. */
  function Insert(x: (Cell, nat), s: Counter): (r: Counter)
    ensures |r| == |s| + 1
    ensures multiset(r) == multiset(s) + multiset{x}
  {
    if s == [] || x.1 >= s[0].1 then [x] + s
    else
      assert s == [s[0]] + s[1..];
      [s[0]] + Insert(x, s[1..])
  }

  /** Inserting into a sorted counter keeps it sorted. */
  lemma {:induction false} InsertSorted(x: (Cell, nat), s: Counter)
    requires SortedDesc(s)
    ensures SortedDesc(Insert(x, s))
  {
    if s != [] && x.1 < s[0].1 {
      InsertSorted(x, s[1..]);
      var rest := Insert(x, s[1..]);
      assert Insert(x, s) == [s[0]] + rest;
      forall k | 0 <= k < |rest| ensures rest[k].1 <= s[0].1 {
        assert rest[k] in multiset(rest);
        if rest[k] != x {
          assert rest[k] in multiset(s[1..]);
          var j :| 0 <= j < |s[1..]| && s[1..][j] == rest[k];
          assert s[j + 1] == rest[k];
        }
      }
    }
  }

  /** Inserting `x` adds its count to its label and to the total. */
  lemma {:induction false} InsertCounts(x: (Cell, nat), s: Counter, lbl: Cell)
    ensures CountOf(Insert(x, s), lbl) == CountOf(s, lbl) + (if x.0 == lbl then x.1 else 0)
    ensures Total(Insert(x, s)) == Total(s) + x.1
    ensures Labels(Insert(x, s)) == Labels(s) + {x.0}
    ensures UniqueKeys(s) && x.0 !in Labels(s) ==> UniqueKeys(Insert(x, s))
  {
    if s == [] || x.1 >= s[0].1 {
      assert ([x] + s)[1..] == s;
    } else {
      InsertCounts(x, s[1..], lbl);
      assert ([s[0]] + Insert(x, s[1..]))[1..] == Insert(x, s[1..]);
    }
  }

  /** `sorted(items, key=count, reverse=True)`: a stable sort on the counts,
      largest first. */
  function SortByCount(c: Counter): (r: Counter)
    ensures |r| == |c|
    ensures multiset(r) == multiset(c)
    ensures SortedDesc(r)
  {
    if c == [] then []
    else
      assert c == [c[0]] + c[1..];
      InsertSorted(c[0], SortByCount(c[1..]));
      Insert(c[0], SortByCount(c[1..]))
  }

  /** Sorting counts every label as before. */
  lemma {:induction false} SortCounts(c: Counter, lbl: Cell)
    ensures CountOf(SortByCount(c), lbl) == CountOf(c, lbl)
    ensures Total(SortByCount(c)) == Total(c)
  {
    if c != [] {
      var rest := SortByCount(c[1..]);
      SortCounts(c[1..], lbl);
      InsertCounts(c[0], rest, lbl);
      assert SortByCount(c) == Insert(c[0], rest);
    }
  }

  /** Sorting keeps the labels, each still once. */
  lemma {:induction false} SortLabels(c: Counter)
    ensures Labels(SortByCount(c)) == Labels(c)
    ensures UniqueKeys(c) ==> UniqueKeys(SortByCount(c))
  {
    if c != [] {
      var rest := SortByCount(c[1..]);
      SortLabels(c[1..]);
      InsertCounts(c[0], rest, NA);
      assert SortByCount(c) == Insert(c[0], rest);
    }
  }

  /** Inserting keeps, for every count, the order of the items with that
      count, `x` first. */
  lemma {:induction false} InsertStable(x: (Cell, nat), s: Counter, n: nat)
    ensures WithCount(Insert(x, s), n) == (if x.1 == n then [x] else []) + WithCount(s, n)
  {
    if s == [] || x.1 >= s[0].1 {
      assert ([x] + s)[1..] == s;
    } else {
      InsertStable(x, s[1..], n);
      assert ([s[0]] + Insert(x, s[1..]))[1..] == Insert(x, s[1..]);
    }
  }

  /** The sort is stable: the items of every count keep their order. */
  lemma {:induction false} SortStable(c: Counter, n: nat)
    ensures WithCount(SortByCount(c), n) == WithCount(c, n)
  {
    if c != [] {
      SortStable(c[1..], n);
      InsertStable(c[0], SortByCount(c[1..]), n);
    }
  }

  /** `value_counts(dropna=False).to_dict()`: every label with its number of
      occurrences, missing values included, most frequent first, each label
      once. */
  function ValueCounts(cells: seq<Cell>): (r: Counter)
    ensures forall l :: CountOf(r, l) == Occurrences(cells, l)
    ensures Total(r) == |cells|
    ensures SortedDesc(r)
    ensures UniqueKeys(r)
  {
    var t := Tally(cells);
    var r := SortByCount(t);
    forall l ensures CountOf(r, l) == Occurrences(cells, l) {
      SortCounts(t, l);
    }
    SortCounts(t, NA);
    SortLabels(t);
    r
  }

  /** The loop over the items of one file's counts: each count is added to
      the running counter. */
  function Merge(acc: Counter, counts: Counter): (r: Counter)
    decreases |counts|
    ensures UniqueKeys(acc) ==> UniqueKeys(r)
  {
    if counts == [] then acc
    else Add(Merge(acc, counts[..|counts| - 1]), counts[|counts| - 1].0, counts[|counts| - 1].1)
  }

  /** Merging adds each label's counts, and the totals. */
  lemma {:induction false} MergeCounts(acc: Counter, counts: Counter, lbl: Cell)
    decreases |counts|
    ensures CountOf(Merge(acc, counts), lbl) == CountOf(acc, lbl) + CountOf(counts, lbl)
    ensures Total(Merge(acc, counts)) == Total(acc) + Total(counts)
  {
    if counts != [] {
      var prev := counts[..|counts| - 1];
      var last := counts[|counts| - 1];
      MergeCounts(acc, prev, lbl);
      assert counts == prev + [last];
      CountOfSnoc(prev, last, lbl);
    }
  }

  /** The sums over a counter with one more item at the end. */
  lemma {:induction false} CountOfSnoc(c: Counter, x: (Cell, nat), lbl: Cell)
    ensures CountOf(c + [x], lbl) == CountOf(c, lbl) + (if x.0 == lbl then x.1 else 0)
    ensures Total(c + [x]) == Total(c) + x.1
  {
    if c != [] {
      assert (c + [x])[1..] == c[1..] + [x];
      CountOfSnoc(c[1..], x, lbl);
    }
  }

  /** The three empty counters `analyze_labels_in_csvs` starts from. */
  function EmptyCounts(): (r: Counts)
    ensures |r| == 3
    ensures forall k :: 0 <= k < 3 ==> r[k] == (LabelColumns[k], [])
  {
    [("attack", []), ("category", []), ("subcategory", [])]
  }

  /** One round of the column loop, for column k of the file. */
  function ColumnStep(counts: Counts, df: Frame, k: nat): (r: Counts)
    requires |counts| == 3 && k < 3
  {
    var column := LabelColumns[k];
    if column in df.columns
    then counts[k := (counts[k].0, Merge(counts[k].1, ValueCounts(Column(df, column))))]
    else counts
  }

  /** The column loop over the first `upto` columns of the file. */
  function ColumnSteps(counts: Counts, df: Frame, upto: nat): (r: Counts)
    requires |counts| == 3 && upto <= 3
    ensures |r| == 3
    ensures forall k :: 0 <= k < 3 ==> r[k].0 == counts[k].0
    ensures forall k :: 0 <= k < 3 ==> (
      r[k].1 ==
        if k < upto && LabelColumns[k] in df.columns
        then Merge(counts[k].1, ValueCounts(Column(df, LabelColumns[k])))
        else counts[k].1)
  {
    if upto == 0 then counts else ColumnStep(ColumnSteps(counts, df, upto - 1), df, upto - 1)
  }

  /** The file loop over the files read so far: a file that failed to read
      (None) is skipped. */
  function Analyze(files: seq<Option<Frame>>): (r: Counts)
    decreases |files|
    ensures |r| == 3
  {
    if files == [] then EmptyCounts()
    else
      FileStep(Analyze(files[..|files| - 1]), files[|files| - 1])
  }

  /** Whether reading the file with `usecols` set to the three label columns
      succeeds: the read did not raise (Some) and the frame read has every one
      of the three columns; `read_csv` raises on a `usecols` name the file
      lacks. */
  predicate ReadOk(file: Option<Frame>) {
    file.Some? && forall k :: 0 <= k < |LabelColumns| ==> LabelColumns[k] in file.value.columns
  }

  /** One round of the file loop: a file whose read raised (None, or a
      frame missing one of the three columns) is skipped. */
  function FileStep(counts: Counts, file: Option<Frame>): (r: Counts)
    requires |counts| == 3
    ensures |r| == 3
    ensures !ReadOk(file) ==> r == counts
  {
    if !ReadOk(file) then counts else ColumnSteps(counts, file.value, |LabelColumns|)
  }

  /** `analyze_labels_in_csvs`: `folderValid` says whether the folder exists
      and is a directory, `files` holds the outcome of reading each of its
      `*.csv` files (None when the read raised; a frame lacking one of
      the three label columns is a read the `usecols` argument makes raise). */
  function AnalyzeLabels(folderValid: bool, files: seq<Option<Frame>>): (r: Counts)
    ensures |r| == 3
  {
    if !folderValid || files == [] then EmptyCounts() else Analyze(files)
  }

  /** The occurrences of `label` in `column` of one file, if its read
      succeeded and it has that column. */
  function FileOcc(file: Option<Frame>, column: string, lbl: Cell): nat {
    if ReadOk(file) && column in file.value.columns then Occurrences(Column(file.value, column), lbl) else 0
  }

  /** The rows of one file, if its read succeeded and it has `column`. */
  function FileRowCount(file: Option<Frame>, column: string): nat {
    if ReadOk(file) && column in file.value.columns then |file.value.rows| else 0
  }

  /** The occurrences of `label` in `column` over the files that were read. */
  function FileOccurrences(files: seq<Option<Frame>>, column: string, lbl: Cell): nat
    decreases |files|
  {
    if files == [] then 0
    else FileOccurrences(files[..|files| - 1], column, lbl) + FileOcc(files[|files| - 1], column, lbl)
  }

  /** The rows of the files that were read and have `column`. */
  function FileRows(files: seq<Option<Frame>>, column: string): nat
    decreases |files|
  {
    if files == [] then 0
    else FileRows(files[..|files| - 1], column) + FileRowCount(files[|files| - 1], column)
  }

  /** The counters stay the three label columns, in order; each one counts a
      label as often as it occurs in that column over all the files that were
      read, its counts add up to their number of rows, and it holds each
      label once. */
  lemma {:induction false} AnalyzeCounts(files: seq<Option<Frame>>, k: int, lbl: Cell)
    requires 0 <= k < 3
    decreases |files|
    ensures Analyze(files)[k].0 == LabelColumns[k]
    ensures CountOf(Analyze(files)[k].1, lbl) == FileOccurrences(files, LabelColumns[k], lbl)
    ensures Total(Analyze(files)[k].1) == FileRows(files, LabelColumns[k])
    ensures UniqueKeys(Analyze(files)[k].1)
  {
    if files != [] {
      var prev := files[..|files| - 1];
      AnalyzeCounts(prev, k, lbl);
      FileStepCounts(Analyze(prev), files[|files| - 1], k, lbl);
    }
  }

  /** One round of the file loop adds the file's counts to counter `k`. */
  lemma FileStepCounts(counts: Counts, file: Option<Frame>, k: int, lbl: Cell)
    requires |counts| == 3 && 0 <= k < 3
    requires counts[k].0 == LabelColumns[k] && UniqueKeys(counts[k].1)
    ensures FileStep(counts, file)[k].0 == LabelColumns[k]
    ensures CountOf(FileStep(counts, file)[k].1, lbl) == CountOf(counts[k].1, lbl) + FileOcc(file, LabelColumns[k], lbl)
    ensures Total(FileStep(counts, file)[k].1) == Total(counts[k].1) + FileRowCount(file, LabelColumns[k])
    ensures UniqueKeys(FileStep(counts, file)[k].1)
  {
    if ReadOk(file) {
      var column := LabelColumns[k];
      var r := ColumnSteps(counts, file.value, |LabelColumns|);
      if column in file.value.columns {
        var vc := ValueCounts(Column(file.value, column));
        assert r[k].1 == Merge(counts[k].1, vc);
        MergeCounts(counts[k].1, vc, lbl);
      }
    }
  }

  /** The file loop with one more file at the end. */
  lemma AnalyzeSnoc(files: seq<Option<Frame>>, file: Option<Frame>)
    ensures Analyze(files + [file]) == FileStep(Analyze(files), file)
  {
    assert (files + [file])[..|files|] == files;
  }

  /** A file whose read raised changes nothing, wherever it comes: one the
      read could not open or parse (None), and one lacking any of the three
      label columns, which the `usecols` read rejects. */
  lemma {:induction false} FailedReadIgnored(before: seq<Option<Frame>>, file: Option<Frame>,
                                             after: seq<Option<Frame>>)
    requires !ReadOk(file)
    decreases |after|
    ensures Analyze(before + [file] + after) == Analyze(before + after)
  {
    if after == [] {
      AnalyzeSnoc(before, file);
      var counts := Analyze(before);
      assert FileStep(counts, file) == counts;
      assert before + [file] + after == before + [file];
      assert before + after == before;
    } else {
      var a' := after[..|after| - 1];
      var last := after[|after| - 1];
      var withFile := before + [file] + a';
      var without := before + a';
      assert before + [file] + after == withFile + [last];
      assert before + after == without + [last];
      FailedReadIgnored(before, file, a');
      AnalyzeExtend(withFile, without, last);
    }
  }

  /** Two runs of files that give the same counters still do after the same
      file is appended to both. */
  lemma AnalyzeExtend(x: seq<Option<Frame>>, y: seq<Option<Frame>>, file: Option<Frame>)
    requires Analyze(x) == Analyze(y)
    ensures Analyze(x + [file]) == Analyze(y + [file])
  {
    AnalyzeSnoc(x, file);
    AnalyzeSnoc(y, file);
  }

  /** A file that lacks one of the three label columns counts for nothing,
      not even in the columns it has. */
  lemma MissingColumnIgnored(counts: Counts, df: Frame, k: nat)
    requires |counts| == 3 && k < |LabelColumns| && LabelColumns[k] !in df.columns
    ensures FileStep(counts, Some(df)) == counts
    ensures forall j, lbl :: 0 <= j < |LabelColumns| ==>
      FileOcc(Some(df), LabelColumns[j], lbl) == 0 && FileRowCount(Some(df), LabelColumns[j]) == 0
  {
    assert !ReadOk(Some(df));
  }

  /** An invalid folder, or one without CSV files, gives three empty
      counters. */
  lemma NothingToCount(folderValid: bool, files: seq<Option<Frame>>)
    requires !folderValid || files == []
    ensures AnalyzeLabels(folderValid, files) == EmptyCounts()
    ensures forall k, l :: 0 <= k < 3 ==> CountOf(AnalyzeLabels(folderValid, files)[k].1, l) == 0
  {
  }

  /** The innermost loop: `label_counts[column][label] += count` for each
      item of one file's counts. */
  method Accumulate(acc: Counter, counts: Counter) returns (r: Counter)
    ensures r == Merge(acc, counts)
  {
    r := acc;
    var i := 0;
    while i < |counts|
      invariant 0 <= i <= |counts|
      invariant r == Merge(acc, counts[..i])
    {
      assert counts[..i + 1][..i] == counts[..i];
      r := Add(r, counts[i].0, counts[i].1);
      i := i + 1;
    }
    assert counts[..i] == counts;
  }

  /** `analyze_labels_in_csvs`, with its loops over the files and over the
      three columns. */
  method AnalyzeLabelsInCsvs(folderValid: bool, files: seq<Option<Frame>>) returns (counts: Counts)
    ensures counts == AnalyzeLabels(folderValid, files)
  {
    counts := EmptyCounts();
    if !folderValid || files == [] {
      return;
    }
    var i := 0;
    while i < |files|
      invariant 0 <= i <= |files|
      invariant counts == Analyze(files[..i])
    {
      assert files[..i + 1][..i] == files[..i];
      var file := files[i];
      assert Analyze(files[..i + 1]) == FileStep(counts, file);
      if ReadOk(file) {
        var df := file.value;
        ghost var start := counts;
        var k := 0;
        while k < |LabelColumns|
          invariant 0 <= k <= |LabelColumns| && |counts| == 3
          invariant counts == ColumnSteps(start, df, k)
        {
          var column := LabelColumns[k];
          if column in df.columns {
            var merged := Accumulate(counts[k].1, ValueCounts(Column(df, column)));
            counts := counts[k := (counts[k].0, merged)];
          }
          k := k + 1;
        }
      }
      i := i + 1;
    }
    assert files[..i] == files;
  }

  /** The lines `display_label_counts` prints for one counter. */
  function CounterLines(c: Counter): (ls: seq<string>)
    ensures |ls| == |c|
  {
    if c == [] then []
    else ["  - " + ToStr(c[0].0) + ": " + NatToString(c[0].1)] + CounterLines(c[1..])
  }

  /** The lines `display_label_counts` prints: per column a heading, then
      its labels sorted by count. */
  function DisplayLines(counts: Counts): seq<string>
    decreases |counts|
  {
    if counts == [] then []
    else
      var last := counts[|counts| - 1];
      DisplayLines(counts[..|counts| - 1])
      + ["\nEtiquetas en la columna '" + last.0 + "':"] + CounterLines(SortByCount(last.1))
  }

  /** The inner loop of `display_label_counts`: one line per item. */
  method CounterLinesOf(items: Counter) returns (lines: seq<string>)
    ensures lines == CounterLines(items)
  {
    lines := [];
    var j := 0;
    while j < |items|
      invariant 0 <= j <= |items|
      invariant lines == CounterLines(items[..j])
    {
      CounterLinesSnoc(items[..j], items[j]);
      assert items[..j + 1] == items[..j] + [items[j]];
      lines := lines + ["  - " + ToStr(items[j].0) + ": " + NatToString(items[j].1)];
      j := j + 1;
    }
    assert items[..j] == items;
  }

  /** `display_label_counts`: per column, in order, its heading and then its
      labels from the most to the least frequent. The printed lines are
      returned instead of printed. */
  method DisplayLabelCounts(counts: Counts) returns (lines: seq<string>)
    ensures lines == DisplayLines(counts)
  {
    lines := [];
    var i := 0;
    while i < |counts|
      invariant 0 <= i <= |counts|
      invariant lines == DisplayLines(counts[..i])
    {
      assert counts[..i + 1][..i] == counts[..i];
      var heading := "\nEtiquetas en la columna '" + counts[i].0 + "':";
      var items := CounterLinesOf(SortByCount(counts[i].1));
      lines := lines + [heading] + items;
      i := i + 1;
    }
    assert counts[..i] == counts;
  }

  /** The lines of a counter with one more item at the end. */
  lemma {:induction false} CounterLinesSnoc(c: Counter, x: (Cell, nat))
    ensures CounterLines(c + [x]) == CounterLines(c) + ["  - " + ToStr(x.0) + ": " + NatToString(x.1)]
  {
    if c != [] {
      assert (c + [x])[1..] == c[1..] + [x];
      CounterLinesSnoc(c[1..], x);
    }
  }
}
