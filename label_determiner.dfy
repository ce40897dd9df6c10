/** LabelerV2/modules/label_determiner.py: choosing the reference label file
    for a target CSV file from the `labeling_files` table of its dataset
    configuration, by looking for a table key inside the file's name. */
module LabelDeterminer {
  import opened Common
  import opened Text
  import opened JsonValues

  /** What the file system says about the labels directory: it does not
      exist, it can be listed, or it exists but listing it fails (a regular
      file, or a directory that may not be read). */
  datatype DirState = Missing | Listable | Unlistable

  /** The message of the RuntimeError every unexpected failure becomes. */
  const UnexpectedMessage: string := "Ocurrió un error inesperado al determinar el archivo de etiquetado."

  /** The message of the ValueError raised when no key matches. */
  const NoMatchMessage: string := "No se encontró un archivo de referencia adecuado para el archivo objetivo."

  /** The name the keys are looked for in: the file's base name without its
      extension, lower-cased. */
  function TargetName(csvPath: string): (name: string)
    ensures '/' !in name
    ensures forall i :: 0 <= i < |name| ==> !IsUpper(name[i])
  {
    var base := BaseName(csvPath);
    var stem := StripExtension(base);
    PrefixAbsent(base, |stem|, '/');
    ToLowerAbsent(stem, '/');
    ToLower(stem)
  }

  /** `config_dictionary["labeling_files"]` when that is a dict, as its
      members; None when the subscript or the `.items()` call would raise. */
  function LabelingFiles(config: Json): (m: Option<seq<(string, Json)>>)
    ensures m.Some? <==> config.JObj? && "labeling_files" in Names(config.members)
                         && PyGetItem(config, "labeling_files").value.JObj?
    ensures m.Some? ==> JObj(m.value) == PyGetItem(config, "labeling_files").value
  {
    var v := PyGetItem(config, "labeling_files");
    if v.Success? && v.value.JObj? then Some(v.value.members) else None
  }

  /** `k` is the first key of the table that occurs in the target name. */
  predicate IsFirstKeyIn(members: seq<(string, Json)>, name: string, i: int) {
    0 <= i < |members| && IsSubstring(members[i].0, name)
    && forall j :: 0 <= j < i ==> !IsSubstring(members[j].0, name)
  }

  /** The loop over the table's items: the value of the first key, in table
      order, that occurs in the target name. */
  function FirstLabelingFile(name: string, members: seq<(string, Json)>): (r: Option<Json>)
    ensures r.None? <==> forall i :: 0 <= i < |members| ==> !IsSubstring(members[i].0, name)
    ensures r.Some? ==> exists i :: IsFirstKeyIn(members, name, i) && members[i].1 == r.value
  {
    if members == [] then None
    else if IsSubstring(members[0].0, name) then
      assert IsFirstKeyIn(members, name, 0);
      Some(members[0].1)
    else
      var r := FirstLabelingFile(name, members[1..]);
      assert forall i :: 1 <= i < |members| ==> members[i] == members[1..][i - 1];
      if r.Some? then
        var i :| IsFirstKeyIn(members[1..], name, i) && members[1..][i].1 == r.value;
        assert IsFirstKeyIn(members, name, i + 1);
        r
      else r
  }

  /** `determine_labeling_file`. A missing directory re-raises its
      FileNotFoundError and no match its ValueError; any other failure (the
      directory cannot be listed, the configuration has no `labeling_files`
      dict) becomes RuntimeError. A match gives the labels directory joined
      with the matched value and ".csv". */
  function DetermineLabelingFile(csvPath: string, labelsDir: string, dir: DirState, config: Json)
    : (r: Result<string, PyError>)
    ensures dir.Missing? ==>
      r == Failure(FileNotFoundError("No se encontró el directorio de etiquetas: " + labelsDir))
    ensures dir.Unlistable? || (dir.Listable? && LabelingFiles(config).None?) ==>
      r == Failure(RuntimeError(UnexpectedMessage))
    ensures r == Failure(ValueError(NoMatchMessage)) <==>
      dir.Listable? && LabelingFiles(config).Some?
      && forall i :: 0 <= i < |LabelingFiles(config).value| ==>
           !IsSubstring(LabelingFiles(config).value[i].0, TargetName(csvPath))
    ensures r.Success? <==>
      (dir.Listable? && LabelingFiles(config).Some?
       && exists i :: 0 <= i < |LabelingFiles(config).value|
            && IsSubstring(LabelingFiles(config).value[i].0, TargetName(csvPath)))
    ensures r.Success? ==>
      exists i :: IsFirstKeyIn(LabelingFiles(config).value, TargetName(csvPath), i)
        && r.value == PathJoin(labelsDir, Render(LabelingFiles(config).value[i].1) + ".csv")
    ensures r.Success? ==> EndsWith(r.value, ".csv")
  {
    var name := TargetName(csvPath);
    if dir.Missing? then
      Failure(FileNotFoundError("No se encontró el directorio de etiquetas: " + labelsDir))
    else if dir.Unlistable? then
      Failure(RuntimeError(UnexpectedMessage))
    else
      var table := LabelingFiles(config);
      if table.None? then Failure(RuntimeError(UnexpectedMessage))
      else
        var value := FirstLabelingFile(name, table.value);
        if value.None? then Failure(ValueError(NoMatchMessage))
        else
          var file := Render(value.value) + ".csv";
          var path := PathJoin(labelsDir, file);
          EndsWithAppend(Render(value.value), ".csv");
          EndsWithTrans(path, file, ".csv");
          Success(path)
  }

  /** A key holding an upper-case letter never matches: the target name is
      lower-cased and the keys are not. */
  lemma UpperCaseKeyNeverMatches(csvPath: string, key: string, p: nat)
    requires p < |key| && IsUpper(key[p])
    ensures !IsSubstring(key, TargetName(csvPath))
  {
    var base := BaseName(csvPath);
    UpperNeverInLowered(key, StripExtension(base), p);
  }

  /** Only the file's own name matters: the directories in front of it
      never change which file is chosen. */
  lemma DirectoryIgnored(dirPart: string, fileName: string)
    requires '/' !in fileName
    ensures TargetName(dirPart + "/" + fileName) == TargetName(fileName)
  {
    var p := dirPart + "/" + fileName;
    RFindAfterLast(dirPart + "/", fileName, '/');
    assert p[|dirPart| + 1..] == fileName;
  }

  /** The last `c` of `a + b`, when `a` ends with `c` and `b` has none, is the
      end of `a`. */
  lemma {:induction false} RFindAfterLast(a: string, b: string, c: char)
    requires a != [] && a[|a| - 1] == c && c !in b
    ensures RFind(a + b, c) == |a| - 1
    decreases |b|
  {
    if b == [] {
      assert a + b == a;
    } else {
      var s := a + b;
      assert s[|s| - 1] == b[|b| - 1];
      assert s[..|s| - 1] == a + b[..|b| - 1];
      RFindAfterLast(a, b[..|b| - 1], c);
    }
  }
}
