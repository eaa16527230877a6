/** JSON documents as trees, and the raw parameter blobs a node carries. */
module JsonTree {
  datatype Json =
    | Null
    | Bool(b: bool)
    | Num(n: real)
    | Str(s: string)
    | Arr(items: seq<Json>)
    | Obj(fields: map<string, Json>)

  /** A `json.RawMessage`: no bytes at all, the text of one document, or bytes that are no JSON. */
  datatype Raw = NoBytes | Text(doc: Json) | Broken(bytes: string)
}
