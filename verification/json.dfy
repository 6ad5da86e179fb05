/**
  A parsed JSON document as a value tree. Both the Python `json` module and
  ArduinoJson are treated as parsers into this tree; the text form and
  non-integer numbers are not modelled.
 */
module JsonTree {

  datatype Json =
    | JNull
    | JBool(b: bool)
    | JNum(n: int)
    | JStr(s: string)
    | JArr(items: seq<Json>)
    | JObj(fields: map<string, Json>)

  /** ArduinoJson's `containsKey`: the value is an object holding `key`. */
  predicate ContainsKey(j: Json, key: string) {
    j.JObj? && key in j.fields
  }
}
