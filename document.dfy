/**
 * The schema-free document the transform works on: what Go's encoding/json
 * produces when it unmarshals into `map[string]interface{}`.
 */
module Document {
  /** One JSON value: nil, bool, float64, string, []interface{} or map[string]interface{}. */
  datatype Value =
    | Null
    | Bool(b: bool)
    | Num(n: real)
    | Str(s: string)
    | Arr(elems: seq<Value>)
    | Obj(fields: Object)

  /** A mapping object, such as a Secret or a SecretList (Go type `secret`). */
  type Object = map<string, Value>

  /** Why a transform failed (the wording and wrapping of Go's messages are not modelled). */
  datatype Error =
    | ItemsNotList          // top-level `items` is not a sequence
    | ItemNotMap            // an element of `items` is not a mapping
    | NotAString(key: string)  // a `data` entry whose value is not a string

  /** The format the input was detected to be in; the output is written in the same one. */
  datatype Format = Json | Yaml

  /** Go's map index: a missing key reads as nil. */
  function Get(s: Object, key: string): Value {
    if key in s then s[key] else Null
  }
}
