/**
 * Request-body fields as the handlers see them after JSON decoding:
 * missing (`undefined`), `null`, or a value taken by its text form.
 */
module JsValue {
  import opened Wrappers

  datatype Field = Undefined | Null | Str(text: string)

  /** JavaScript truthiness of a field. */
  predicate Truthy(f: Field) {
    f.Str? && f.text != ""
  }

  /** The text form of a value: "undefined" and "null" for the two missing values. */
  function ToText(f: Field): string {
    match f
    case Undefined => "undefined"
    case Null => "null"
    case Str(s) => s
  }

  /** The text of a value, with a falsy one read as "". */
  function TextOrEmpty(f: Field): string {
    if Truthy(f) then f.text else ""
  }

  /** Nullish coalescing: `a` unless it is missing or null, else `b`. */
  function Coalesce(a: Field, b: Field): Field {
    if a.Str? then a else b
  }

  /** How a field bound as a query parameter reaches a nullable column. */
  function Nullable(f: Field): Option<string> {
    if f.Str? then Some(f.text) else None
  }
}
