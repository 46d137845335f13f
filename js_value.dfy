/** Dynamically typed JavaScript values, as the request bodies and the `zod` object schemas of the
    application see them. */
module JsValues {
  import opened Wrappers
  import opened JsNumber

  datatype JsValue =
    | JUndefined
    | JNull
    | JBool(b: bool)
    | JNum(n: Number)
    | JStr(s: string)
    | JArr(items: seq<JsValue>)
    | JObj(fields: map<string, JsValue>)

  /** `v[key]` for an object `v`: a missing key reads `undefined`. A value that is not an object
      gives `undefined` here too. That is JavaScript's answer for booleans, numbers, strings and
      arrays and every key this model reads (none names a member of their prototypes), but not
      for `null` and `undefined`, where JavaScript throws: `ReadProperty` is that read. */
  function Get(v: JsValue, key: string): JsValue {
    if v.JObj? && key in v.fields then v.fields[key] else JUndefined
  }

  /** `null` and `undefined`, the values whose properties cannot be read. */
  predicate Nullish(v: JsValue) {
    v.JNull? || v.JUndefined?
  }

  /** The message this model gives every `TypeError` the application can throw. */
  const TypeErrorText := "TypeError"

  /** `v.key` as JavaScript evaluates it: a `TypeError` on `null` and `undefined`, the value
      `Get` gives on anything else. */
  function ReadProperty(v: JsValue, key: string): (r: Result<JsValue, string>)
    ensures r.Failure? <==> Nullish(v)
    ensures r.Failure? ==> r.error == TypeErrorText
    ensures r.Success? && v.JObj? && key in v.fields ==> r.value == v.fields[key]
    ensures r.Success? && v.JObj? && key !in v.fields ==> r.value == JUndefined
    ensures r.Success? && !v.JObj? ==> r.value == JUndefined
  {
    if Nullish(v) then Failure(TypeErrorText) else Success(Get(v, key))
  }

  /** JavaScript truthiness: `undefined`, `null`, `false`, 0, NaN and "" are falsy. */
  predicate Truthy(v: JsValue) {
    match v
    case JUndefined => false
    case JNull => false
    case JBool(b) => b
    case JNum(n) => n.Finite? && n.value != 0.0
    case JStr(s) => s != ""
    case JArr(_) => true
    case JObj(_) => true
  }
}
