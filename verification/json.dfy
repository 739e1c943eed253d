/** Parsed JSON values, and the pieces of JavaScript's value semantics the
    collector relies on: truthiness, property access that yields
    `undefined` (`None`) on anything but an object, optional chaining and
    `||` chains. */
module Json {
  import opened Wrappers

  /** A JSON value as `JSON.parse` returns it. Numbers are reals (IEEE
      rounding is not modelled); an object is its key/value pairs in
      `Object.keys` order, with keys unique as `JSON.parse` leaves them. */
  datatype Json =
    | JNull
    | JBool(b: bool)
    | JNum(n: real)
    | JStr(s: string)
    | JArr(items: seq<Json>)
    | JObj(fields: seq<(string, Json)>)

  /** JavaScript truthiness of a value that may be `undefined` (`None`). */
  predicate Truthy(v: Option<Json>) {
    match v
    case None => false
    case Some(JNull) => false
    case Some(JBool(b)) => b
    case Some(JNum(n)) => n != 0.0
    case Some(JStr(s)) => s != ""
    case Some(JArr(_)) => true
    case Some(JObj(_)) => true
  }

  /** The value bound to `key` among `fields` (the first binding). */
  function Lookup(fields: seq<(string, Json)>, key: string): (r: Option<Json>)
    ensures r.Some? ==> (key, r.value) in fields
    ensures r.None? ==> forall i :: 0 <= i < |fields| ==> fields[i].0 != key
  {
    if |fields| == 0 then None
    else if fields[0].0 == key then Some(fields[0].1)
    else Lookup(fields[1..], key)
  }

  /** `v.key` / `v?.key` for the plain field names the collector reads: a
      property of an object; `undefined` on `undefined`, `null`, primitives
      and arrays (none of which carry such a property). */
  function Member(v: Option<Json>, key: string): Option<Json> {
    match v
    case Some(JObj(fields)) => Lookup(fields, key)
    case _ => None
  }

  /** `v?.[0]`: the first element of an array, the property `"0"` of an
      object, the first character of a string; `undefined` otherwise. */
  function At0(v: Option<Json>): Option<Json> {
    match v
    case Some(JArr(items)) => if |items| > 0 then Some(items[0]) else None
    case Some(JObj(fields)) => Lookup(fields, "0")
    case Some(JStr(s)) => if |s| > 0 then Some(JStr([s[0]])) else None
    case _ => None
  }

  /** `c0 || c1 || ... || last`: the first truthy candidate, or `last` when
      every candidate is falsy. */
  function OrChain(cands: seq<Option<Json>>, last: Option<Json>): (r: Option<Json>)
    ensures forall i ::
              (0 <= i < |cands| && Truthy(cands[i]) && forall j :: 0 <= j < i ==> !Truthy(cands[j]))
              ==> r == cands[i]
    ensures (forall i :: 0 <= i < |cands| ==> !Truthy(cands[i])) ==> r == last
  {
    if |cands| == 0 then last
    else if Truthy(cands[0]) then cands[0]
    else OrChain(cands[1..], last)
  }
}
