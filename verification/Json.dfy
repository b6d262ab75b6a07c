/** JSON documents as trees, as far as the decoders of the platform tell them apart. */
module Json {
  datatype Json =
    Null | Bool(b: bool) | Num(n: real) | Str(s: string) | Arr(items: seq<Json>) | Obj(fields: map<string, Json>)
}
