/** The decoded JSON event payload: what `encoding/json` puts in an `any`.
    `Null` also stands for Go's `nil`, which a lookup of a missing key and
    a JSON `null` both give. */
module JsonValues {

  datatype Json =
    | Null
    | Bool(b: bool)
    | Num(n: real)
    | Str(s: string)
    | Arr(items: seq<Json>)
    | Obj(fields: map<string, Json>)

  /** `m[k]` on a `map[string]any`: the value, or `nil` when absent. */
  function Lookup(fields: map<string, Json>, k: string): (v: Json)
    ensures k !in fields ==> v == Null
    ensures k in fields ==> v == fields[k]
  {
    if k in fields then fields[k] else Null
  }
}
