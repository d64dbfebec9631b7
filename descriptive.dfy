/**
 * `get_descriptive_value`: turns a catalogue id into its human-readable name
 * using one of the reference dictionaries, falling back to the id's string
 * form.
 */
module DescriptiveLookup {
  import opened Wrappers
  import opened PyJson

  /** The `dictionary` argument: a list of records, or a name -> id dict. */
  datatype Dictionary = ListDict(items: seq<Json>) | MapDict(entries: Object)

  /**
   * The catalogue-specific id keys, each with the key of the name it maps
   * to, in the order the lookup tries them.
   */
  const KeyedSchemas: seq<(string, string)> := [
    ("ID_Tipo_Habitacion", "Tipo_Habitacion_nombre"),
    ("ID_canal", "CANAL"),
    ("ID_Segmento_Comp", "SEGMENTO ALTERNO"),
    ("ID_Agencia", "NOMBRE")
  ]

  /** The generic id keys and, in order, the generic name keys. */
  const GenericIdKeys: seq<string> := ["id", "ID", "Id"]
  const GenericNameKeys: seq<string> := ["name", "Name", "NOMBRE", "DESCRIPCION"]

  /**
   * What testing one list item yields: `Some(v)` when the lookup returns `v`
   * at this item, `None` when it moves on to the next one. Written as the
   * source's if/elif chain.
   */
  function ItemResult(item: Json, idStr: string): (r: Option<Json>)
    ensures r.Some? <==> item.JObj? && TestedId(item.entries).Some? && Str(TestedId(item.entries).value) == idStr
    ensures r.Some? ==> r.value == NameOf(item.entries, idStr)
  {
    match item
    case JObj(o) =>
      if HasKey(o, "ID_Tipo_Habitacion") then
        if Str(Get(o, "ID_Tipo_Habitacion")) == idStr then Some(GetOr(o, "Tipo_Habitacion_nombre", JStr(idStr))) else None
      else if HasKey(o, "ID_canal") then
        if Str(Get(o, "ID_canal")) == idStr then Some(GetOr(o, "CANAL", JStr(idStr))) else None
      else if HasKey(o, "ID_Segmento_Comp") then
        if Str(Get(o, "ID_Segmento_Comp")) == idStr then Some(GetOr(o, "SEGMENTO ALTERNO", JStr(idStr))) else None
      else if HasKey(o, "ID_Agencia") then
        if Str(Get(o, "ID_Agencia")) == idStr then Some(GetOr(o, "NOMBRE", JStr(idStr))) else None
      else if HasKey(o, "id") || HasKey(o, "ID") || HasKey(o, "Id") then
        var itemId := Or(Or(Get(o, "id"), Get(o, "ID")), Get(o, "Id"));
        assert GenericIdKeys[..2] == ["id", "ID"] && TestedId(o) == Some(itemId) by {
          assert HasKey(o, GenericIdKeys[0]) || HasKey(o, GenericIdKeys[1]) || HasKey(o, GenericIdKeys[2]);
          assert !HasKey(o, KeyedSchemas[0].0) && !HasKey(o, KeyedSchemas[1].0);
          assert !HasKey(o, KeyedSchemas[2].0) && !HasKey(o, KeyedSchemas[3].0);
          assert SchemaIndex(o, 0) == |KeyedSchemas|;
          var ids := GenericIdKeys[..2];
          assert FirstTruthy(o, ids, Get(o, "Id")) == Or(Get(o, "id"), FirstTruthy(o, ids[1..], Get(o, "Id")));
          assert ids[1..][1..] == [] && ids[1..][0] == "ID" && ids[0] == "id";
          assert FirstTruthy(o, ids[1..], Get(o, "Id")) == Or(Get(o, "ID"), Get(o, "Id"));
          assert FirstTruthy(o, ids, Get(o, "Id")) == itemId;
          assert exists j :: 0 <= j < |GenericIdKeys| && HasKey(o, GenericIdKeys[j]);
        }
        if Str(itemId) == idStr then
          Some(Or(Or(Or(Or(Get(o, "name"), Get(o, "Name")), Get(o, "NOMBRE")), Get(o, "DESCRIPCION")), JStr(idStr)))
        else None
      else None
    case _ => None
  }

  /** Index in `KeyedSchemas` of the first id key `o` has, or `|KeyedSchemas|` if none. */
  function SchemaIndex(o: Object, from: nat): (k: nat)
    requires from <= |KeyedSchemas|
    ensures from <= k <= |KeyedSchemas|
    ensures k < |KeyedSchemas| ==> HasKey(o, KeyedSchemas[k].0)
    ensures forall j :: from <= j < k ==> !HasKey(o, KeyedSchemas[j].0)
    decreases |KeyedSchemas| - from
  {
    if from == |KeyedSchemas| || HasKey(o, KeyedSchemas[from].0) then from else SchemaIndex(o, from + 1)
  }

  /** The first truthy value among `o`'s `keys`, else the value of the last key (Python's `or` chain). */
  function FirstTruthy(o: Object, keys: seq<string>, fallback: Json): Json
    decreases |keys|
  {
    if keys == [] then fallback else Or(Get(o, keys[0]), FirstTruthy(o, keys[1..], fallback))
  }

  /**
   * Reference statement of which id an item is compared on: the value of
   * its first catalogue id key, or for a generic record the first truthy
   * of `id`, `ID`, `Id`; nothing when it has no id key at all.
   */
  function TestedId(o: Object): Option<Json> {
    var k := SchemaIndex(o, 0);
    if k < |KeyedSchemas| then Some(Get(o, KeyedSchemas[k].0))
    else if exists j :: 0 <= j < |GenericIdKeys| && HasKey(o, GenericIdKeys[j]) then
      Some(FirstTruthy(o, GenericIdKeys[..2], Get(o, GenericIdKeys[2])))
    else None
  }

  /** Reference statement of the name returned for a matching item; the id string when no name key is set. */
  function NameOf(o: Object, idStr: string): Json {
    var k := SchemaIndex(o, 0);
    if k < |KeyedSchemas| then GetOr(o, KeyedSchemas[k].1, JStr(idStr))
    else FirstTruthy(o, GenericNameKeys, JStr(idStr))
  }

  /** The value the list branch returns: the result at the first matching item. */
  function FirstResult(items: seq<Json>, idStr: string): Option<Json> {
    if items == [] then None
    else if ItemResult(items[0], idStr).Some? then ItemResult(items[0], idStr)
    else FirstResult(items[1..], idStr)
  }

  /** The key the dict branch returns: the first whose value prints as `idStr`. */
  function FirstKeyFor(entries: Object, idStr: string): Option<string> {
    if entries == [] then None
    else if Str(entries[0].1) == idStr then Some(entries[0].0)
    else FirstKeyFor(entries[1..], idStr)
  }

  /** `get_descriptive_value(dictionary, id_value)`. */
  function DescriptiveValue(d: Dictionary, id: Json): Json {
    var idStr := Str(id);
    var found := match d
      case ListDict(items) => FirstResult(items, idStr)
      case MapDict(entries) => (match FirstKeyFor(entries, idStr) case Some(k) => Some(JStr(k)) case None => None);
    match found
    case Some(v) => v
    case None => JStr(idStr)
  }

  /**
   * The list branch returns at the first item whose tested id prints as the
   * looked-up id; non-records and records without an id key are skipped.
   */
  lemma {:induction false} FirstResultIsFirstMatch(items: seq<Json>, idStr: string)
    ensures FirstResult(items, idStr).None? <==> forall i :: 0 <= i < |items| ==> ItemResult(items[i], idStr).None?
    ensures FirstResult(items, idStr).Some? ==>
      exists i :: 0 <= i < |items| && ItemResult(items[i], idStr) == FirstResult(items, idStr)
        && forall j :: 0 <= j < i ==> ItemResult(items[j], idStr).None?
  {
    FirstResultNone(items, idStr);
    if FirstResult(items, idStr).Some? {
      var i := FirstResultIndex(items, idStr);
    }
  }

  lemma {:induction false} FirstResultNone(items: seq<Json>, idStr: string)
    ensures FirstResult(items, idStr).None? <==> forall i :: 0 <= i < |items| ==> ItemResult(items[i], idStr).None?
  {
    if items != [] {
      var tail := items[1..];
      FirstResultNone(tail, idStr);
      if ItemResult(items[0], idStr).None? {
        assert FirstResult(items, idStr) == FirstResult(tail, idStr);
        assert forall i :: 1 <= i < |items| ==> items[i] == tail[i - 1];
      }
    }
  }

  /** The position of the item the list branch answers from. */
  lemma {:induction false} FirstResultIndex(items: seq<Json>, idStr: string) returns (i: nat)
    requires FirstResult(items, idStr).Some?
    ensures i < |items| && ItemResult(items[i], idStr) == FirstResult(items, idStr)
    ensures forall j :: 0 <= j < i ==> ItemResult(items[j], idStr).None?
  {
    if ItemResult(items[0], idStr).Some? {
      i := 0;
    } else {
      var tail := items[1..];
      assert FirstResult(items, idStr) == FirstResult(tail, idStr);
      var k := FirstResultIndex(tail, idStr);
      i := k + 1;
      assert items[i] == tail[k];
      forall j | 0 <= j < i ensures ItemResult(items[j], idStr).None? {
        if j > 0 { assert items[j] == tail[j - 1]; }
      }
    }
  }

  /** The dict branch returns the first key, in insertion order, whose value prints as the looked-up id. */
  lemma {:induction false} FirstKeyIsFirstMatch(entries: Object, idStr: string)
    ensures FirstKeyFor(entries, idStr).None? <==> forall i :: 0 <= i < |entries| ==> Str(entries[i].1) != idStr
    ensures FirstKeyFor(entries, idStr).Some? ==>
      exists i :: 0 <= i < |entries| && entries[i].0 == FirstKeyFor(entries, idStr).value && Str(entries[i].1) == idStr
        && forall j :: 0 <= j < i ==> Str(entries[j].1) != idStr
  {
    if entries != [] {
      FirstKeyIsFirstMatch(entries[1..], idStr);
      if Str(entries[0].1) != idStr {
        forall i | 0 <= i < |entries| - 1 ensures entries[1..][i] == entries[i + 1] { }
        if FirstKeyFor(entries, idStr).Some? {
          var i :| 0 <= i < |entries| - 1 && entries[1..][i].0 == FirstKeyFor(entries, idStr).value
            && Str(entries[1..][i].1) == idStr && forall j :: 0 <= j < i ==> Str(entries[1..][j].1) != idStr;
          assert forall j :: 0 <= j < i + 1 ==> Str(entries[j].1) != idStr by {
            forall j | 0 <= j < i + 1 ensures Str(entries[j].1) != idStr {
              if j > 0 { assert entries[j] == entries[1..][j - 1]; }
            }
          }
        }
      }
    }
  }

  /** When nothing matches, the lookup falls back to `str(id_value)`. */
  lemma DescriptiveValueFallback(d: Dictionary, id: Json)
    requires d.ListDict? ==> forall i :: 0 <= i < |d.items| ==> ItemResult(d.items[i], Str(id)).None?
    requires d.MapDict? ==> forall i :: 0 <= i < |d.entries| ==> Str(d.entries[i].1) != Str(id)
    ensures DescriptiveValue(d, id) == JStr(Str(id))
  {
    match d
    case ListDict(items) => FirstResultIsFirstMatch(items, Str(id));
    case MapDict(entries) => FirstKeyIsFirstMatch(entries, Str(id));
  }

  /**
   * `get_descriptive_value` as the source runs it: a scan of the list (or
   * of the dict's items) that returns at the first match.
   */
  method GetDescriptiveValue(d: Dictionary, id: Json) returns (r: Json)
    ensures r == DescriptiveValue(d, id)
  {
    var idStr := Str(id);
    match d {
      case ListDict(items) =>
        var i := 0;
        while i < |items|
          invariant 0 <= i <= |items|
          invariant FirstResult(items, idStr) == FirstResult(items[i..], idStr)
        {
          assert items[i..][1..] == items[i + 1..];
          var res := ItemResult(items[i], idStr);
          if res.Some? {
            return res.value;
          }
          i := i + 1;
        }
      case MapDict(entries) =>
        var i := 0;
        while i < |entries|
          invariant 0 <= i <= |entries|
          invariant FirstKeyFor(entries, idStr) == FirstKeyFor(entries[i..], idStr)
        {
          assert entries[i..][1..] == entries[i + 1..];
          var (key, value) := entries[i];
          if Str(value) == idStr {
            return JStr(key);
          }
          i := i + 1;
        }
    }
    r := JStr(idStr);
  }
}
