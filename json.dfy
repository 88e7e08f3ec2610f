/** Parsed JSON values as Python sees them after `json.loads`: `None`, `bool`,
    `int`, `float`, `str`, `list` and `dict`. */
module JsonValue {
  import opened Common

  /** A float is kept as its Python `repr` (`"1.5"`, `"0.0"`): the modelled code
      never computes with one, it only tests truthiness and calls `str()`. */
  datatype Json =
    | JNull
    | JBool(b: bool)
    | JInt(i: int)
    | JFloat(repr: string)
    | JString(s: string)
    | JArray(items: seq<Json>)
    | JObject(members: seq<Member>)

  /** One key/value pair of a JSON object, in document order. The type does
      not rule out a repeated key; on one, `Get` finds the first occurrence. */
  datatype Member = Member(key: string, value: Json)

  /** `d.get(k)` on a dict: the value under `k`, if present. */
  function Get(ms: seq<Member>, k: string): (r: Option<Json>)
    ensures r.None? <==> forall i :: 0 <= i < |ms| ==> ms[i].key != k
    ensures r.Some? ==> exists i :: 0 <= i < |ms| && ms[i] == Member(k, r.value)
  {
    if ms == [] then None
    else if ms[0].key == k then Some(ms[0].value)
    else
      var r := Get(ms[1..], k);
      assert forall i :: 0 <= i < |ms| - 1 ==> ms[1..][i] == ms[i + 1];
      r
  }

  /** The first member with a given key is the one `get` finds. */
  lemma {:induction false} GetAt(ms: seq<Member>, i: int)
    requires 0 <= i < |ms| && forall j :: 0 <= j < i ==> ms[j].key != ms[i].key
    ensures Get(ms, ms[i].key) == Some(ms[i].value)
  {
    if i > 0 {
      assert forall j :: 0 <= j < i - 1 ==> ms[1..][j] == ms[j + 1];
      GetAt(ms[1..], i - 1);
    }
  }

  /** `d.get(k, default)`; `d.get(k)` is `GetOr(ms, k, JNull)`. */
  function GetOr(ms: seq<Member>, k: string, default: Json): Json {
    match Get(ms, k)
    case Some(v) => v
    case None => default
  }

  /** Python truthiness: `None`, `False`, `0`, `0.0`, `""`, `[]` and `{}` are false. */
  predicate Truthy(j: Json) {
    match j
    case JNull => false
    case JBool(b) => b
    case JInt(i) => i != 0
    case JFloat(r) => r != "0.0" && r != "-0.0"
    case JString(s) => s != ""
    case JArray(items) => items != []
    case JObject(ms) => ms != []
  }

  /** Python's `a or b`. */
  function Or(a: Json, b: Json): Json {
    if Truthy(a) then a else b
  }

  /** `v.strip()` when `v` is a string that is not blank, else `None`: the
      `isinstance(v, str) and v.strip()` test that guards every text field. */
  function TrimmedText(j: Json): (r: Option<string>)
    ensures r.Some? <==> j.JString? && Strip(j.s) != []
    ensures r.Some? ==> r.value == Strip(j.s) && Strip(r.value) == r.value
  {
    if j.JString? && Strip(j.s) != [] then
      StripIdempotent(j.s);
      Some(Strip(j.s))
    else None
  }

  /** `isinstance(v, int)`, which also holds for `True` and `False`. */
  predicate IsPyInt(j: Json) {
    j.JInt? || j.JBool?
  }

  function PyIntValue(j: Json): int
    requires IsPyInt(j)
  {
    if j.JInt? then j.i else if j.b then 1 else 0
  }

  /** `type(v).__name__`, as it appears in Python's error messages. */
  function TypeName(j: Json): string {
    match j
    case JNull => "NoneType"
    case JBool(_) => "bool"
    case JInt(_) => "int"
    case JFloat(_) => "float"
    case JString(_) => "str"
    case JArray(_) => "list"
    case JObject(_) => "dict"
  }

  /** `str(v)`. */
  function PyStr(j: Json): string {
    if j.JString? then j.s else Repr(j)
  }

  /** `repr(v)`; strings are written as `StrRepr` writes them. */
  function Repr(j: Json): string
    decreases j, 1
  {
    match j
    case JNull => "None"
    case JBool(b) => if b then "True" else "False"
    case JInt(i) => IntToString(i)
    case JFloat(r) => r
    case JString(s) => StrRepr(s)
    case JArray(items) => "[" + ReprItems(items) + "]"
    case JObject(ms) => "{" + ReprMembers(ms) + "}"
  }

  function ReprItems(items: seq<Json>): string
    decreases items, 0
  {
    if items == [] then ""
    else if |items| == 1 then Repr(items[0])
    else Repr(items[0]) + ", " + ReprItems(items[1..])
  }

  function ReprMembers(ms: seq<Member>): string
    decreases ms, 0
  {
    if ms == [] then ""
    else
      var m := StrRepr(ms[0].key) + ": " + Repr(ms[0].value);
      if |ms| == 1 then m else m + ", " + ReprMembers(ms[1..])
  }

  /** The `AttributeError` raised by calling `.get` on a value that is not a dict. */
  function NoGet(j: Json): Exc {
    Exc(AttributeError, "'" + TypeName(j) + "' object has no attribute 'get'")
  }

  /** The members of `j`, or the error `j.get(...)` raises when `j` is not a dict. */
  function AsObject(j: Json): (r: Result<seq<Member>>)
    ensures r.Ok? <==> j.JObject?
    ensures r.Ok? ==> r.value == j.members
    ensures r.Err? ==> r.error.kind == AttributeError
  {
    if j.JObject? then Ok(j.members) else Err(NoGet(j))
  }

  /** What `for x in v` visits: list items, dict keys, or the characters of a
      string; any other value raises `TypeError`. */
  function Iterate(j: Json): (r: Result<seq<Json>>)
    ensures r.Ok? <==> (j.JArray? || j.JObject? || j.JString?)
    ensures j.JArray? ==> r == Ok(j.items)
    ensures j.JObject? ==> (r.Ok? && |r.value| == |j.members|
      && forall i :: 0 <= i < |j.members| ==> r.value[i] == JString(j.members[i].key))
    ensures j.JString? ==> (r.Ok? && |r.value| == |j.s|
      && forall i :: 0 <= i < |j.s| ==> r.value[i] == JString([j.s[i]]))
  {
    match j
    case JArray(items) => Ok(items)
    case JObject(ms) => Ok(seq(|ms|, i requires 0 <= i < |ms| => JString(ms[i].key)))
    case JString(s) => Ok(seq(|s|, i requires 0 <= i < |s| => JString([s[i]])))
    case _ => Err(Exc(TypeError, "'" + TypeName(j) + "' object is not iterable"))
  }
}
