/**
 * Plain JavaScript objects as maps from property names to values, and the
 * object spread `{ ...base, ...over }` that the views use to build payloads.
 */
module Records {

  datatype JsValue =
    | JsNull
    | JsBool(b: bool)
    | JsNumber(n: int)
    | JsString(s: string)
    | JsObject(fields: map<string, JsValue>)

  type JsRecord = map<string, JsValue>

  /**
   * `{ ...base, ...over }`: every property of either object, the later
   * spread winning where both have one.
   */
  function Spread(base: JsRecord, over: JsRecord): (r: JsRecord)
    ensures r.Keys == base.Keys + over.Keys
    ensures forall k :: k in over ==> r[k] == over[k]
    ensures forall k :: k in base && k !in over ==> r[k] == base[k]
  {
    base + over
  }
}
