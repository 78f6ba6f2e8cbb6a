/**
 Parsed JSON documents as the loaders see them, and the outcome of reading a
 knowledge-base file. Rendering a value back to text (`json.dumps` and
 Python's `str` on non-string values) is not modelled: the loaders receive
 those renderings as function parameters.
 */
module JsonValue {
  import opened Wrappers

  /** A value produced by `json.load`; an object lists its keys in insertion order. */
  datatype Json =
    | JNull
    | JBool(b: bool)
    | JNumber(literal: string)
    | JString(str: string)
    | JArray(items: seq<Json>)
    | JObject(fields: seq<(string, Json)>)

  /** `json.dumps(v, ensure_ascii=False)` and `str(v)`, supplied by the caller. */
  datatype Printers = Printers(dumps: Json -> string, repr: Json -> string)

  /** Python's `str(v)`: a string is itself, anything else is rendered. */
  function PyStr(v: Json, pr: Printers): string {
    if v.JString? then v.str else pr.repr(v)
  }

  /**
   The value the Python dict built by `json.load` holds for `key`: when a key
   is repeated in the file, the last occurrence wins.
   */
  function Lookup(fields: seq<(string, Json)>, key: string): (r: Option<Json>)
    ensures r.None? <==> forall i :: 0 <= i < |fields| ==> fields[i].0 != key
    ensures r.Some? ==> exists i :: 0 <= i < |fields| && fields[i] == (key, r.value)
                                    && forall j :: i < j < |fields| ==> fields[j].0 != key
    decreases |fields|
  {
    if |fields| == 0 then None
    else if fields[|fields| - 1].0 == key then Some(fields[|fields| - 1].1)
    else Lookup(fields[..|fields| - 1], key)
  }

  /** What reading one knowledge-base file produced. */
  datatype FileContent =
    | Undecodable          // not UTF-8: the loaders skip the file
    | Unparsable(raw: string) // UTF-8 text that is not JSON
    | Parsed(value: Json)

  /** `isinstance(data, dict) and "text" in data`, with the value found. */
  function TextField(v: Json): Option<Json> {
    if v.JObject? then Lookup(v.fields, "text") else None
  }
}
