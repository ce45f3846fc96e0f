/** Values `json.loads` returns, as far as the scripts look at them. */
module Json {

  import opened Wrappers

  /** A decoded JSON document. An object keeps its members in insertion order,
      as a Python `dict` does, with each key once. */
  datatype Json =
    | JNull
    | JBool(b: bool)
    | JInt(i: int)
    | JFloat(f: real)
    | JString(s: string)
    | JArray(items: seq<Json>)
    | JObject(members: seq<(string, Json)>)

  /** A JSON number: `json.loads` gives an `int` for a literal without a
      fraction or exponent and a `float` otherwise. */
  predicate IsNumber(v: Json) {
    v.JInt? || v.JFloat?
  }

  /** The numeric value of a JSON number. */
  function NumberValue(v: Json): real
    requires IsNumber(v)
  {
    if v.JInt? then v.i as real else v.f
  }

  /** `d.get(key)` on a decoded object: the value stored under `key`, or
      `None` when the key is absent. */
  function Get(members: seq<(string, Json)>, key: string): (r: Option<Json>)
    ensures r.None? <==> forall i :: 0 <= i < |members| ==> members[i].0 != key
    ensures r.Some? ==> exists i :: 0 <= i < |members| && members[i] == (key, r.value)
  {
    if |members| == 0 then None
    else if members[0].0 == key then Some(members[0].1)
    else
      var r := Get(members[1..], key);
      assert forall i :: 0 <= i < |members| - 1 ==> members[1..][i] == members[i + 1];
      r
  }
}
