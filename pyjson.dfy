/**
 * Values produced by `json.loads`, with the Python operations the HTTP
 * handler applies to them: `in`, `dict.get`, truthiness (`or` chains) and
 * `str()`.
 */
module PyJson {
  import opened Wrappers
  import PyStr

  /**
   * A decoded JSON value. An object keeps its keys in insertion order; a
   * float carries both its value and the text `str()` gives for it.
   */
  datatype Json =
    | JNull
    | JBool(b: bool)
    | JInt(i: int)
    | JFloat(value: real, text: string)
    | JStr(s: string)
    | JList(items: seq<Json>)
    | JObj(entries: seq<(string, Json)>)

  type Object = seq<(string, Json)>

  /** `key in obj` for a dict. */
  predicate HasKey(obj: Object, key: string) {
    exists i :: 0 <= i < |obj| && obj[i].0 == key
  }

  /** `obj.get(key)`: the value stored under `key`, if any. */
  function Lookup(obj: Object, key: string): (r: Option<Json>)
    ensures r.Some? <==> HasKey(obj, key)
  {
    if obj == [] then None
    else if obj[0].0 == key then Some(obj[0].1)
    else Lookup(obj[1..], key)
  }

  /** `obj.get(key, default)`. */
  function GetOr(obj: Object, key: string, default: Json): Json {
    match Lookup(obj, key)
    case Some(v) => v
    case None => default
  }

  /** `obj.get(key)`: `None` when the key is absent. */
  function Get(obj: Object, key: string): Json {
    GetOr(obj, key, JNull)
  }

  /** Python truthiness (`bool(v)`). */
  predicate Truthy(v: Json) {
    match v
    case JNull => false
    case JBool(b) => b
    case JInt(i) => i != 0
    case JFloat(x, _) => x != 0.0
    case JStr(s) => s != []
    case JList(items) => items != []
    case JObj(entries) => entries != []
  }

  /** `a or b`: the first operand if it is truthy, else the second. */
  function Or(a: Json, b: Json): (r: Json)
    ensures r == a || r == b
    ensures Truthy(r) <==> Truthy(a) || Truthy(b)
  {
    if Truthy(a) then a else b
  }

  /** `str(v)`. */
  function Str(v: Json): string {
    match v
    case JStr(s) => s
    case _ => Repr(v)
  }

  /** `str(v)` of a value that is neither a string nor a container. */
  function ScalarStr(v: Json): string {
    match v
    case JNull => "None"
    case JBool(b) => if b then "True" else "False"
    case JInt(i) => PyStr.IntToString(i)
    case JFloat(_, text) => text
    case JStr(s) => s
    case _ => ""
  }

  /** `repr(v)`, as `str` of a container shows its elements. */
  function Repr(v: Json): string
    decreases v, 1
  {
    match v
    case JStr(s) => "'" + s + "'"
    case JList(items) => "[" + ReprItems(items) + "]"
    case JObj(entries) => "{" + ReprEntries(v, entries) + "}"
    case _ => ScalarStr(v)
  }

  function ReprItems(items: seq<Json>): string
    decreases items, 0
  {
    if items == [] then []
    else Repr(items[0]) + (if |items| == 1 then "" else ", " + ReprItems(items[1..]))
  }

  /** The `'key': value` pairs of `owner`, an object whose entries include `entries`. */
  function ReprEntries(ghost owner: Json, entries: seq<(string, Json)>): string
    requires forall e :: e in entries ==> e.1 < owner
    decreases owner, 0, |entries|
  {
    if entries == [] then []
    else
      assert entries[0] in entries;
      var head := "'" + entries[0].0 + "': " + Repr(entries[0].1);
      head + (if |entries| == 1 then "" else ", " + ReprEntries(owner, entries[1..]))
  }
}
