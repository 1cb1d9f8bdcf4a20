/**
 * Parsed JSON values as `json.loads` produces them, and the product records
 * the extraction step yields: one JSON object per product.
 */
module Json {
  datatype JsonValue =
    | Null
    | Bool(b: bool)
    | Num(n: int)
    | Str(s: string)
    | Arr(items: seq<JsonValue>)
    | Obj(fields: map<string, JsonValue>)

  /** One extracted product: a Python `dict` from field name to JSON value. */
  type Record = map<string, JsonValue>
}
