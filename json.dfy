/**
 * The values a parsed JSON document (and the Python dicts built from it) can hold.
 * Numbers are modelled as integers only.
 */
module Json {

  datatype Json =
    | Null
    | Bool(b: bool)
    | Number(n: int)
    | Str(s: string)
    | Array(elems: seq<Json>)
    | Object(members: seq<(string, Json)>)
}
