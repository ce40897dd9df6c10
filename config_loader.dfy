/** LabelerV2/modules/config_loader.py: picking one dataset's entry out of a
    parsed configuration file and checking that it holds the keys the
    labelling pipeline needs, with the right kinds of values. */
module ConfigLoader {
  import opened Common
  import opened Text
  import opened JsonValues

  /** The keys every dataset entry must hold, in the order they are checked. */
  const RequiredKeys: seq<string> :=
    ["columns_to_tag", "reference_columns", "column_mapping", "columns_to_copy", "labeling_files"]

  /** The required keys whose value must be a list. */
  const ListKeys: seq<string> := ["columns_to_tag", "reference_columns", "columns_to_copy"]

  /** The value of member `key` of an object. */
  function Field(cfg: Json, key: string): (v: Option<Json>)
    ensures v.Some? <==> cfg.JObj? && key in Names(cfg.members)
  {
    if cfg.JObj? then Lookup(cfg.members, key) else None
  }

  /** `key` is present in the object and its value has the kind the loop
      demands of that key. */
  predicate KeyOk(cfg: Json, key: string) {
    Field(cfg, key).Some?
    && (key in ListKeys ==> Field(cfg, key).value.JArr?)
    && (key == "column_mapping" ==> Field(cfg, key).value.JObj?)
  }

  /** A dataset entry the validation accepts: an object holding the five
      required keys, the three list keys bound to lists and `column_mapping`
      bound to a dict. Other keys may be present too. */
  predicate Accepted(cfg: Json) {
    forall k :: 0 <= k < |RequiredKeys| ==> KeyOk(cfg, RequiredKeys[k])
  }

  /** One round of the loop of `validate_dataset_config`, for `key`. */
  function CheckKey(cfg: Json, key: string): (r: Result<(), PyError>)
    ensures cfg.JObj? ==> (r.Success? <==> KeyOk(cfg, key))
    ensures !cfg.JObj? && (key in ListKeys || key == "column_mapping") ==> r.Failure?
  {
    var present :- PyIn(key, cfg);
    if !present then Failure(ValueError("Falta la clave requerida: " + key))
    else if key in ListKeys then
      var v :- PyGetItem(cfg, key);
      if !v.JArr? then Failure(ValueError("La clave '" + key + "' debe ser una lista.")) else Success(())
    else if key == "column_mapping" then
      var v :- PyGetItem(cfg, key);
      if !v.JObj? then Failure(ValueError("La clave '" + key + "' debe ser un diccionario.")) else Success(())
    else Success(())
  }

  /** The message each failing check of an object raises. */
  lemma CheckKeyMessages(cfg: Json, key: string)
    requires cfg.JObj?
    ensures key !in Names(cfg.members) ==>
      CheckKey(cfg, key) == Failure(ValueError("Falta la clave requerida: " + key))
    ensures key in Names(cfg.members) && key in ListKeys && !Field(cfg, key).value.JArr? ==>
      CheckKey(cfg, key) == Failure(ValueError("La clave '" + key + "' debe ser una lista."))
    ensures key in Names(cfg.members) && key == "column_mapping" && !Field(cfg, key).value.JObj? ==>
      CheckKey(cfg, key) == Failure(ValueError("La clave '" + key + "' debe ser un diccionario."))
  {
  }

  /** The loop of `validate_dataset_config` over `keys`: the first failing
      check raises. */
  function CheckKeys(cfg: Json, keys: seq<string>): (r: Result<(), PyError>)
  {
    if keys == [] then Success(())
    else
      var _ :- CheckKey(cfg, keys[0]);
      CheckKeys(cfg, keys[1..])
  }

  /** `validate_dataset_config`. */
  function ValidateDatasetConfig(cfg: Json): (r: Result<(), PyError>)
    ensures r.Success? <==> Accepted(cfg)
  {
    CheckKeysSucceeds(cfg, RequiredKeys);
    assert RequiredKeys[0] in ListKeys;
    CheckKeys(cfg, RequiredKeys)
  }

  /** The loop passes exactly when every key passes its check. */
  lemma {:induction false} CheckKeysSucceeds(cfg: Json, keys: seq<string>)
    ensures CheckKeys(cfg, keys).Success? <==> forall k :: 0 <= k < |keys| ==> CheckKey(cfg, keys[k]).Success?
  {
    if keys != [] {
      CheckKeysSucceeds(cfg, keys[1..]);
      assert forall k :: 1 <= k < |keys| ==> keys[k] == keys[1..][k - 1];
    }
  }

  /** The loop reports the first key that fails its check. */
  lemma {:induction false} CheckKeysFirstFailure(cfg: Json, keys: seq<string>, i: nat)
    requires i < |keys| && CheckKey(cfg, keys[i]).Failure?
    requires forall k :: 0 <= k < i ==> CheckKey(cfg, keys[k]).Success?
    ensures CheckKeys(cfg, keys) == CheckKey(cfg, keys[i]).PropagateFailure()
  {
    if i > 0 {
      assert forall k :: 0 <= k < i - 1 ==> keys[1..][k] == keys[k + 1];
      CheckKeysFirstFailure(cfg, keys[1..], i - 1);
    }
  }

  /** The checks the loop makes of an object, key by key: what it accepts and
      which message it raises for the first key that is missing. */
  lemma ValidateReportsFirstMissingKey(cfg: Json, i: nat)
    requires cfg.JObj? && i < |RequiredKeys|
    requires RequiredKeys[i] !in Names(cfg.members)
    requires forall k :: 0 <= k < i ==> KeyOk(cfg, RequiredKeys[k])
    ensures ValidateDatasetConfig(cfg) == Failure(ValueError("Falta la clave requerida: " + RequiredKeys[i]))
  {
    CheckKeysFirstFailure(cfg, RequiredKeys, i);
    CheckKeyMessages(cfg, RequiredKeys[i]);
  }

  /** Members whose names are not required ones, added after the others,
      change nothing: validation looks at the required keys only. */
  lemma ExtraKeysIgnored(members: seq<(string, Json)>, extra: seq<(string, Json)>)
    requires forall m :: m in extra ==> m.0 !in RequiredKeys
    ensures ValidateDatasetConfig(JObj(members + extra)).Success?
         == ValidateDatasetConfig(JObj(members)).Success?
  {
    forall k | 0 <= k < |RequiredKeys|
      ensures KeyOk(JObj(members + extra), RequiredKeys[k]) == KeyOk(JObj(members), RequiredKeys[k])
    {
      var key := RequiredKeys[k];
      forall i | 0 <= i < |extra|
        ensures Names(extra)[i] != key
      {
        assert extra[i] in extra;
      }
      FieldExtra(members, extra, key);
    }
  }

  /** A name that none of the added members carries is looked up among the
      first members. */
  lemma FieldExtra(members: seq<(string, Json)>, extra: seq<(string, Json)>, key: string)
    requires key !in Names(extra)
    ensures Field(JObj(members + extra), key) == Field(JObj(members), key)
  {
    NamesAppend(members, extra);
    if key in Names(members) {
      LookupPrefix(members, extra, key);
    }
  }

  /** The names of two member lists put end to end. */
  lemma {:induction false} NamesAppend(a: seq<(string, Json)>, b: seq<(string, Json)>)
    ensures Names(a + b) == Names(a) + Names(b)
  {
    if a != [] {
      assert (a + b)[1..] == a[1..] + b;
      NamesAppend(a[1..], b);
    }
  }

  /** A name found among the first members is found there, whatever follows. */
  lemma {:induction false} LookupPrefix(members: seq<(string, Json)>, extra: seq<(string, Json)>, key: string)
    requires key in Names(members)
    ensures Lookup(members + extra, key) == Lookup(members, key)
  {
    if members[0].0 != key {
      assert (members + extra)[1..] == members[1..] + extra;
      LookupPrefix(members[1..], extra, key);
    }
  }

  /** The entry for `datasetType` in the `datasets` object of a configuration. */
  function DatasetEntry(config: Json, datasetType: string): (e: Option<Json>)
  {
    var datasets := Field(config, "datasets");
    if datasets.Some? && datasets.value.JObj? then Field(datasets.value, datasetType) else None
  }

  /** `load_config`, given whether the file exists and the outcome of reading
      and parsing it (`load_json` turns every read or parse error into
      ValueError). */
  function LoadConfig(fileExists: bool, path: string, read: Result<Json, PyError>,
                      datasetType: string): (r: Result<Json, PyError>)
    ensures !fileExists ==> r == Failure(FileNotFoundError("El archivo JSON no existe: " + path))
    ensures fileExists && read.Failure? ==> r == read
    ensures r.Success? <==> fileExists && read.Success? && DatasetEntry(read.value, datasetType).Some?
                            && Accepted(DatasetEntry(read.value, datasetType).value)
    ensures r.Success? ==> r.value == DatasetEntry(read.value, datasetType).value
    ensures fileExists && read.Success? && read.value.JObj? && "datasets" !in Names(read.value.members) ==>
      r == Failure(ValueError("El archivo de configuración debe contener una clave 'datasets'."))
    ensures fileExists && read.Success? && read.value.JObj? && "datasets" in Names(read.value.members)
            && PyGetItem(read.value, "datasets").value.JObj?
            && datasetType !in Names(PyGetItem(read.value, "datasets").value.members) ==>
      r == Failure(ValueError("No se encontró configuración para el dataset '" + datasetType + "'."))
  {
    if !fileExists then Failure(FileNotFoundError("El archivo JSON no existe: " + path))
    else
      var config :- read;
      var hasDatasets :- PyIn("datasets", config);
      if !hasDatasets then Failure(ValueError("El archivo de configuración debe contener una clave 'datasets'."))
      else
        var datasets :- PyGetItem(config, "datasets");
        var known :- PyIn(datasetType, datasets);
        if !known then Failure(ValueError("No se encontró configuración para el dataset '" + datasetType + "'."))
        else
          var entry :- PyGetItem(datasets, datasetType);
          var _ :- ValidateDatasetConfig(entry);
          Success(entry)
  }
}
