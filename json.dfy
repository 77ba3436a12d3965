/**
  JSON values as `JSON.parse` and `request.json()` produce them, with the
  two JavaScript operations the upload code applies to them: reading a
  named property and testing truthiness.
 */
module JsonValues {
  import opened Wrappers

  /** Numbers are finite in JSON; a `real` stands for the parsed double. */
  datatype Json =
    | JNull
    | JBool(b: bool)
    | JNumber(n: real)
    | JString(s: string)
    | JArray(items: seq<Json>)
    | JObject(fields: map<string, Json>)

  /**
    `v.name` for a property name that `Object.prototype` does not define
    (`teammateId`, `passcode`, `datasets`, `instruction`, `input`,
    `output`): an object's own field, `undefined` (None) for every other
    value. Reading a property of `null` throws; callers deal with that first.
   */
  function Property(v: Json, name: string): (r: Option<Json>)
    ensures r.Some? <==> v.JObject? && name in v.fields
    ensures r.Some? ==> r.value == v.fields[name]
  {
    match v
    case JObject(fields) => if name in fields then Some(fields[name]) else None
    case _ => None
  }

  /** JavaScript truthiness: `undefined`, `null`, `false`, `0` and `""` are falsy. */
  predicate Truthy(v: Option<Json>)
    ensures !Truthy(v) <==> v in {None, Some(JNull), Some(JBool(false)), Some(JNumber(0.0)), Some(JString(""))}
  {
    match v
    case None => false
    case Some(JNull) => false
    case Some(JBool(b)) => b
    case Some(JNumber(n)) => n != 0.0
    case Some(JString(s)) => s != ""
    case Some(JArray(_)) => true
    case Some(JObject(_)) => true
  }

  /** A JSON object with the given fields, as an object literal builds it. */
  function Object3(k1: string, v1: Json, k2: string, v2: Json, k3: string, v3: Json): (r: Json)
    requires k1 != k2 && k1 != k3 && k2 != k3
    ensures Property(r, k1) == Some(v1) && Property(r, k2) == Some(v2) && Property(r, k3) == Some(v3)
    ensures r.JObject? && r.fields.Keys == {k1, k2, k3}
  {
    JObject(map[k1 := v1, k2 := v2, k3 := v3])
  }
}
