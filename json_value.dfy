/**
 * A parsed JSON document as Python holds it after `r.json()` or
 * `json.loads`, and the dynamically typed operations the collector and the
 * recommender apply to it: `dict.get`, `in`, truthiness, `int()`, `str()`
 * and `clean_text` on a value that may not be a string. Each operation that
 * Python would abort with an exception yields `Err` here.
 */
module JsonValue {
  import opened Wrappers
  import opened Strings
  import Text

  /** JSON numbers are integers in this model. */
  datatype Json =
    | JNull
    | JBool(b: bool)
    | JInt(i: int)
    | JStr(s: string)
    | JArr(items: seq<Json>)
    | JObj(fields: map<string, Json>)

  /** The Python exception an operation would raise. */
  datatype Fault = AttributeError | TypeError | ValueError

  const EmptyObject: Json := JObj(map[])

  /** Python truthiness of a JSON value. */
  predicate Truthy(j: Json) {
    match j
    case JNull => false
    case JBool(b) => b
    case JInt(i) => i != 0
    case JStr(s) => s != ""
    case JArr(xs) => xs != []
    case JObj(m) => m != map[]
  }

  /** `j.get(key, default)`: only a dict has `get`. */
  function Get(j: Json, key: string, default: Json): Result<Json, Fault> {
    match j
    case JObj(m) => Ok(if key in m then m[key] else default)
    case _ => Err(AttributeError)
  }

  /** `j.get(key, {}).get('label', default)`, the feed's `{"label": ...}` wrapper. */
  function Label(j: Json, key: string, default: Json): Result<Json, Fault> {
    var inner :- Get(j, key, EmptyObject);
    Get(inner, "label", default)
  }

  /** `key in j`: a key of a dict, a substring of a str, an element of a list. */
  function HasKey(j: Json, key: string): Result<bool, Fault> {
    match j
    case JObj(m) => Ok(key in m)
    case JStr(s) => Ok(Contains(s, key))
    case JArr(xs) => Ok(JStr(key) in xs)
    case _ => Err(TypeError)
  }

  /** `int(j)`; `parseInt` stands for Python's parsing of the text of a str. */
  function IntOf(j: Json, parseInt: string -> Option<int>): Result<int, Fault> {
    match j
    case JInt(i) => Ok(i)
    case JBool(b) => Ok(if b then 1 else 0)
    case JStr(s) => (match parseInt(s) case Some(i) => Ok(i) case None => Err(ValueError))
    case _ => Err(TypeError)
  }

  /** `str(j)`; `render` stands for Python's printing of a list or a dict. */
  function StrOf(j: Json, render: Json -> string): (r: string)
    ensures j.JStr? ==> r == j.s
    ensures j.JInt? ==> IntValue(r) == j.i
  {
    match j
    case JNull => "None"
    case JBool(b) => if b then "True" else "False"
    case JInt(i) => IntToDecimalRoundTrip(i); IntToDecimal(i)
    case JStr(s) => s
    case _ => render(j)
  }

  /**
   * `clean_text(j)`: a falsy value gives "" through the `if not s` guard, a
   * str is normalised, and any other value has no `replace` method.
   */
  function CleanValue(j: Json): (r: Result<string, Fault>)
    ensures r.Ok? ==> Text.IsClean(r.value)
    ensures r.Ok? <==> !Truthy(j) || j.JStr?
  {
    if !Truthy(j) then Ok("")
    else if j.JStr? then Ok(Text.CleanText(j.s))
    else Err(AttributeError)
  }

  /** Only a dict has `get`; on a dict it gives the value under the key, or the default when the key is missing. */
  lemma GetOnDict(j: Json, key: string, default: Json)
    ensures Get(j, key, default).Ok? <==> j.JObj?
    ensures j.JObj? && key in j.fields ==> Get(j, key, default) == Ok(j.fields[key])
    ensures j.JObj? && key !in j.fields ==> Get(j, key, default) == Ok(default)
  {
  }

  /** `in` raises only on None, a bool or a number; on a dict it tests the keys. */
  lemma HasKeyCases(j: Json, key: string)
    ensures HasKey(j, key).Err? <==> j.JNull? || j.JBool? || j.JInt?
    ensures j.JObj? ==> HasKey(j, key) == Ok(key in j.fields)
  {
  }

  /** `int()` raises TypeError on None, a list or a dict, and ValueError on a str that does not parse; an int is returned as it is. */
  lemma IntOfCases(j: Json, parseInt: string -> Option<int>)
    ensures IntOf(j, parseInt) == Err(TypeError) <==> j.JNull? || j.JArr? || j.JObj?
    ensures IntOf(j, parseInt) == Err(ValueError) <==> j.JStr? && parseInt(j.s).None?
    ensures j.JInt? ==> IntOf(j, parseInt) == Ok(j.i)
  {
  }
}
