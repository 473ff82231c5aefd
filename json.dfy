/** JSON values as the Python code sees them after `json.loads`, with the two
    pieces of Python semantics the handlers rely on: `dict.get(key, default)`
    and the truthiness test `if not node`. */
module Json {

  import opened Wrappers

  /** A parsed JSON value. Numbers are kept as exact reals (Python floats and
      ints alike); objects are maps (key order plays no part in this core). */
  datatype Json =
    | JNull
    | JBool(b: bool)
    | JNum(x: real)
    | JStr(s: string)
    | JArr(items: seq<Json>)
    | JObj(fields: map<string, Json>)

  /** `obj.get(key, default)`. Calling `.get` on anything but a dict raises
      AttributeError in Python; that is the `None` result here. A present key
      yields its value even when that value is null: the default is used only
      for an absent key. */
  function Get(obj: Json, key: string, default: Json): (r: Option<Json>)
    ensures r.Some? <==> obj.JObj?
    ensures obj.JObj? && key in obj.fields ==> r == Some(obj.fields[key])
    ensures obj.JObj? && key !in obj.fields ==> r == Some(default)
  {
    match obj
    case JObj(m) => Some(if key in m then m[key] else default)
    case _ => None
  }

  /** Python truthiness of a JSON value: `None`, `False`, zero, the empty
      string, the empty list and the empty dict are false. */
  predicate Truthy(v: Json)
  {
    match v
    case JNull => false
    case JBool(b) => b
    case JNum(x) => x != 0.0
    case JStr(s) => |s| > 0
    case JArr(a) => |a| > 0
    case JObj(m) => |m| > 0
  }

  /** The falsy JSON values, listed one by one (Python's documented list of
      false objects, restricted to what JSON can produce). */
  predicate IsFalsyConstant(v: Json)
  {
    v == JNull || v == JBool(false) || v == JNum(0.0) || v == JStr("")
    || v == JArr([]) || v == JObj(map[])
  }

  /** Truthiness is exactly "not one of the listed falsy constants". */
  lemma TruthyIffNotFalsyConstant(v: Json)
    ensures Truthy(v) <==> !IsFalsyConstant(v)
  {
    match v
    case JStr(s) =>
      assert |s| == 0 ==> s == "";
    case JArr(a) =>
      assert |a| == 0 ==> a == [];
    case JObj(m) =>
      assert |m| == 0 ==> m == map[];
    case _ =>
  }
}
