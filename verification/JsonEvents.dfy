/** SAX events of the JSON reader and writer. */
module JsonEvents {
  import opened Bytes

  datatype Event =
    | Null
    | Bool(b: bool)
    | Int(i: int)
    | Uint(u: nat)
    | Int64(i64: int)
    | Uint64(u64: nat)
    | Double(literal: Text)
    | String(str: Text)
    | Key(key: Text)
    | StartObject
    | EndObject(members: nat)
    | StartArray
    | EndArray(elements: nat)
}
