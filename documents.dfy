/** The JSON values handlers read from requests and write into meeting records. */
module Documents {

  /** A JSON value as the handlers see it: `null` or a string. */
  datatype Value = Null | Str(s: string)

  /** A JSON object (a request body or socket payload). */
  type Document = map<string, Value>

  /** `d.get(key, default)`. */
  function Get(d: Document, key: string, default: Value): Value
  {
    if key in d then d[key] else default
  }

  /** Python truthiness of the value: a non-empty string. */
  predicate Truthy(v: Value)
  {
    v.Str? && v.s != ""
  }

  /** The value as an f-string prints it (`None` for null). */
  function Show(v: Value): string
  {
    match v
    case Null => "None"
    case Str(s) => s
  }
}
