/** JSON values as the scanner sees them after parsing: mappings have string keys,
    and the order of a mapping's members carries no meaning. */
module JsonValues {

  datatype Json =
    | Null
    | Bool(b: bool)
    | Num(n: real)
    | Str(s: string)
    | Arr(items: seq<Json>)
    | Obj(fields: map<string, Json>)

  /** The empty mapping. */
  const EMPTY: Json := Obj(map[])

  datatype Option<+T> = None | Some(value: T)
}
