/** The values `JSON.parse` produces, and the two JavaScript operations the
    insight normaliser applies to them: property access and `||`. */
module JsonValues {
  import opened Results

  datatype Json =
    | JNull
    | JBool(b: bool)
    | JNumber(n: real)
    | JString(s: string)
    | JArray(items: seq<Json>)
    | JObject(fields: map<string, Json>)

  /** JavaScript truthiness: null, false, 0 and the empty string are falsy;
      arrays and objects are truthy even when empty. */
  predicate Truthy(j: Json) {
    match j
    case JNull => false
    case JBool(b) => b
    case JNumber(n) => n != 0.0
    case JString(s) => s != []
    case JArray(_) => true
    case JObject(_) => true
  }

  /** `j.key` on a value that is not null (on null it throws): an object's own
      field, or undefined (None) for a missing field and for any other value. */
  function Property(j: Json, key: string): (r: Option<Json>)
    requires !j.JNull?
    ensures r.Some? <==> j.JObject? && key in j.fields
    ensures r.Some? ==> r.value == j.fields[key]
  {
    if j.JObject? && key in j.fields then Some(j.fields[key]) else None
  }

  /** `v || fallback`, where undefined is falsy. */
  function OrElse(v: Option<Json>, fallback: Json): (r: Json)
    ensures v.Some? && Truthy(v.value) ==> r == v.value
    ensures !(v.Some? && Truthy(v.value)) ==> r == fallback
    ensures Truthy(fallback) ==> Truthy(r)
  {
    if v.Some? && Truthy(v.value) then v.value else fallback
  }
}
