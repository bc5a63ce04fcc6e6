/**
 * Untyped request payloads and the zod schema combinators the validators use.
 * An object member that is missing reads as `undefined`; members a schema does
 * not name are dropped from its output. Numbers are integers here.
 */
module Zod {
  import opened Wrappers

  datatype Json =
    | JNull
    | JBool(b: bool)
    | JNumber(n: int)
    | JString(str: string)
    | JArray(items: seq<Json>)
    | JObject(fields: map<string, Json>)

  /** The member `key` of `j` when `j` is an object holding it; `undefined` otherwise. */
  function Member(j: Json, key: string): (v: Option<Json>)
    ensures v.Some? <==> j.JObject? && key in j.fields
    ensures v.Some? ==> v.value == j.fields[key]
  {
    if j.JObject? && key in j.fields then Some(j.fields[key]) else None
  }

  /** The member `key` of `j` is the string `s`. */
  ghost predicate StringAt(j: Json, key: string, s: string)
  {
    Member(j, key) == Some(JString(s))
  }

  /** `z.string()` applied to a member: accepts exactly a string. */
  function ZString(v: Option<Json>): (r: Option<string>)
    ensures r.Some? <==> v.Some? && v.value.JString?
    ensures r.Some? ==> v.value == JString(r.value)
  {
    match v
    case Some(JString(s)) => Some(s)
    case _ => None
  }

  /**
   * `z.string().nullish()`: accepts a string, `null` or `undefined`; the outer
   * option is acceptance, the inner one is the string when one was given.
   */
  function ZNullishString(v: Option<Json>): (r: Option<Option<string>>)
    ensures r.Some? <==> v.None? || v.value.JNull? || v.value.JString?
    ensures r.Some? && r.value.Some? <==> v.Some? && v.value.JString?
    ensures r.Some? && r.value.Some? ==> v.value == JString(r.value.value)
  {
    match v
    case None => Some(None)
    case Some(JNull) => Some(None)
    case Some(JString(s)) => Some(Some(s))
    case _ => None
  }

  /** `z.number()`: accepts exactly a number. */
  function ZNumber(v: Option<Json>): (r: Option<int>)
    ensures r.Some? <==> v.Some? && v.value.JNumber?
    ensures r.Some? ==> v.value == JNumber(r.value)
  {
    match v
    case Some(JNumber(n)) => Some(n)
    case _ => None
  }

  /** `z.boolean().default(d)`: `undefined` becomes `d`; `null` is not a boolean. */
  function ZBooleanDefault(v: Option<Json>, d: bool): (r: Option<bool>)
    ensures v.None? ==> r == Some(d)
    ensures v.Some? ==> (r.Some? <==> v.value.JBool?)
    ensures v.Some? && r.Some? ==> v.value == JBool(r.value)
  {
    match v
    case None => Some(d)
    case Some(JBool(b)) => Some(b)
    case _ => None
  }

  /** `z.enum([...])`: accepts a string equal to one of `values`. */
  function ZEnum(v: Option<Json>, values: set<string>): (r: Option<string>)
    ensures r.Some? <==> v.Some? && v.value.JString? && v.value.str in values
    ensures r.Some? ==> v.value == JString(r.value)
  {
    match v
    case Some(JString(s)) => if s in values then Some(s) else None
    case _ => None
  }
}
