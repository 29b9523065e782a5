/** JSON values as the source reads them back from jsonb columns and payloads. */
module JsonValues {
  datatype Json = Null | Bool(b: bool) | Num(n: real) | Str(s: string) | Arr(items: seq<Json>) | Obj(fields: map<string, Json>)

  /** A field of a record; anything missing reads like null. */
  function Field(j: Json, name: string): Json {
    if j.Obj? && name in j.fields then j.fields[name] else Null
  }
}
