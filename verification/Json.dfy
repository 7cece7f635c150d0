/** JSON values as `serde_json` presents them, with the accessors the models use. */
module JsonValues {
  import opened Prelude

  datatype Json =
    | Null
    | Bool(b: bool)
    | Integer(n: int)
    | Float(literal: string)
    | String(s: string)
    | Array(items: seq<Json>)
    | Object(fields: map<string, Json>)

  /** Compact serialisation of a value, left abstract. */
  type Serializer = Json -> string

  function Get(v: Json, key: string): Option<Json> {
    if v.Object? && key in v.fields then Some(v.fields[key]) else None
  }

  /** `as_str().unwrap_or("")`. */
  function StringOr(v: Option<Json>): string {
    if v.Some? && v.value.String? then v.value.s else ""
  }

  function ArrayOr(v: Option<Json>): Option<seq<Json>> {
    if v.Some? && v.value.Array? then Some(v.value.items) else None
  }

  const I64_MIN: int := -0x8000_0000_0000_0000
  const I64_MAX: int := 0x7fff_ffff_ffff_ffff

  type i64 = n: int | I64_MIN <= n <= I64_MAX

  /** `as_i64().unwrap_or(0)`. */
  function I64Or(v: Option<Json>): i64 {
    if v.Some? && v.value.Integer? && I64_MIN <= v.value.n <= I64_MAX then v.value.n else 0
  }
}
