/** A decoded JSON document, as Python's json module hands it to the handler:
    integers and floats stay apart, objects are dictionaries keyed by strings. */
module Json {

  datatype Value =
    | JNull
    | JBool(b: bool)
    | JInt(i: int)
    | JFloat(r: real)
    | JString(s: string)
    | JArray(items: seq<Value>)
    | JObject(fields: map<string, Value>)
}
