/** Parsed JSON values as `json.load` hands them to Python, and the three
    Python operations the configuration code applies to them: `key in x`,
    `x[key]` and `str(x)`. */
module JsonValues {
  import opened Common
  import opened Text

  /** A JSON value. An object is a Python dict: its members in insertion
      order, each name at most once. Numbers are integers. */
  datatype Json =
    | JNull
    | JBool(b: bool)
    | JNum(n: int)
    | JStr(s: string)
    | JArr(items: seq<Json>)
    | JObj(members: seq<(string, Json)>)

  /** The member names of an object, in order. */
  function Names(members: seq<(string, Json)>): (ns: seq<string>)
    ensures |ns| == |members|
    ensures forall i :: 0 <= i < |members| ==> ns[i] == members[i].0
  {
    if members == [] then [] else [members[0].0] + Names(members[1..])
  }

  /** The value of the first member called `key`. */
  function Lookup(members: seq<(string, Json)>, key: string): (v: Option<Json>)
    ensures v.Some? <==> key in Names(members)
    ensures v.Some? ==> exists i :: 0 <= i < |members| && members[i] == (key, v.value)
  {
    if members == [] then None
    else if members[0].0 == key then Some(members[0].1)
    else
      var v := Lookup(members[1..], key);
      if v.Some? then
        var i :| 0 <= i < |members[1..]| && members[1..][i] == (key, v.value);
        assert members[i + 1] == (key, v.value);
        v
      else v
  }

  /** Python's `key in x` for a string key: a dict tests its keys, a list its
      items, a string its substrings; `in` on None, a bool or a number raises
      TypeError. */
  function PyIn(key: string, x: Json): (r: Result<bool, PyError>)
    ensures r.Failure? <==> x.JNull? || x.JBool? || x.JNum?
    ensures r.Failure? ==> r.error.TypeError?
    ensures x.JObj? ==> r == Success(key in Names(x.members))
    ensures x.JArr? ==> r == Success(JStr(key) in x.items)
    ensures x.JStr? ==> r == Success(IsSubstring(key, x.s))
  {
    match x
    case JObj(members) => Success(key in Names(members))
    case JArr(items) => Success(JStr(key) in items)
    case JStr(s) => Success(IsSubstring(key, s))
    case _ => Failure(TypeError("argument is not iterable"))
  }

  /** Python's `x[key]` for a string key: a dict gives the member or raises
      KeyError; a list, a string, None, a bool or a number raises TypeError. */
  function PyGetItem(x: Json, key: string): (r: Result<Json, PyError>)
    ensures r.Success? <==> x.JObj? && key in Names(x.members)
    ensures x.JObj? && key !in Names(x.members) ==> r == Failure(KeyError(key))
    ensures !x.JObj? ==> r.Failure? && r.error.TypeError?
    ensures r.Success? ==> exists i :: 0 <= i < |x.members| && x.members[i] == (key, r.value)
  {
    match x
    case JObj(members) =>
      var v := Lookup(members, key);
      if v.Some? then Success(v.value) else Failure(KeyError(key))
    case JArr(_) => Failure(TypeError("list indices must be integers or slices, not str"))
    case JStr(_) => Failure(TypeError("string indices must be integers"))
    case _ => Failure(TypeError("object is not subscriptable"))
  }

  /** `", ".join(parts)`. */
  function JoinComma(parts: seq<string>): string {
    if parts == [] then ""
    else if |parts| == 1 then parts[0]
    else parts[0] + ", " + JoinComma(parts[1..])
  }

  /** `str(x)` as an f-string renders a JSON value: a string as itself, a
      number in decimal, booleans and null as Python spells them, containers
      as their `repr`. */
  function Render(x: Json): (r: string)
    ensures x.JStr? ==> r == x.s
    ensures x.JNum? ==> r == IntToString(x.n)
    ensures x.JNull? ==> r == "None"
  {
    match x
    case JStr(s) => s
    case _ => Repr(x)
  }

  /** `repr(x)`: strings in single quotes (escapes are not modelled). */
  function Repr(x: Json): (r: string)
    decreases x, 1
  {
    match x
    case JNull => "None"
    case JBool(b) => if b then "True" else "False"
    case JNum(n) => IntToString(n)
    case JStr(s) => "'" + s + "'"
    case JArr(items) => "[" + JoinComma(ReprItems(x, items)) + "]"
    case JObj(members) => "{" + JoinComma(ReprMembers(x, members)) + "}"
  }

  /** The `repr` of each item of the list `whole`. */
  function ReprItems(whole: Json, items: seq<Json>): (rs: seq<string>)
    requires forall y :: y in items ==> y < whole
    decreases whole, 0, |items|
    ensures |rs| == |items|
  {
    if items == [] then []
    else
      assert items[0] in items;
      assert forall y :: y in items[1..] ==> y in items;
      [Repr(items[0])] + ReprItems(whole, items[1..])
  }

  /** `'name': repr(value)` for each member of the dict `whole`. */
  function ReprMembers(whole: Json, members: seq<(string, Json)>): (rs: seq<string>)
    requires forall m :: m in members ==> m.1 < whole
    decreases whole, 0, |members|
    ensures |rs| == |members|
  {
    if members == [] then []
    else
      assert members[0] in members;
      assert forall m :: m in members[1..] ==> m in members;
      ["'" + members[0].0 + "': " + Repr(members[0].1)] + ReprMembers(whole, members[1..])
  }
}
