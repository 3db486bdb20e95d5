/**
 * Optional string-valued fields of the JSON records the program handles
 * (articles from the news provider, interactions in the preferences file).
 * A key can be absent, present with `null`, or present with a string; the
 * three behave differently under Python's `dict.get(key, default)`,
 * truthiness and f-string rendering, so the model keeps them apart.
 */
module Json {
  import opened Wrappers

  datatype OptStr = Missing | Null | Str(s: string)

  /** `record.get(key, dflt)`: `None` stands for Python's `None`. */
  function FieldOr(v: OptStr, dflt: string): (r: Option<string>)
    ensures v.Missing? ==> r == Some(dflt)
    ensures v.Null? <==> r.None?
    ensures v.Str? ==> r == Some(v.s)
  {
    match v
    case Missing => Some(dflt)
    case Null => None
    case Str(s) => Some(s)
  }

  /** Truthiness of a Python value that is `None` or a string. */
  predicate Truthy(o: Option<string>) {
    o.Some? && o.value != ""
  }

  /** Truthiness of `record.get(key)` (no default, so a missing key reads as `None`). */
  predicate FieldTruthy(v: OptStr) {
    v.Str? && v.s != ""
  }

  /** How an f-string renders `None` or a string. */
  function Format(o: Option<string>): (r: string)
    ensures o.Some? ==> r == o.value
    ensures o.None? ==> r == "None"
  {
    match o
    case None => "None"
    case Some(s) => s
  }
}
