/** JSON values with one constructor per kind: `1`, `1.0` and `true` are different values here. */
module JsonValues {

  /**
   JFloat is a finite float, given by its repr.  JStr is a string of Unicode scalar values.
   JIllFormed stands for a string holding an unpaired surrogate escape: Python keeps it as text
   but cannot encode it as UTF-8.
   */
  datatype Json =
    | JNull
    | JBool(value: bool)
    | JInt(number: int)
    | JFloat(literal: string)
    | JNaN
    | JInfinity(negative: bool)
    | JStr(text: string)
    | JIllFormed(escaped: string)
    | JArr(items: seq<Json>)
    | JObj(fields: map<string, Json>)

  /** What json.loads does with a text: Malformed is an exception its caller catches, Escapes any other. */
  datatype Loaded = Value(json: Json) | Malformed | Escapes

  /** Python's dict.get: None where the key is missing. */
  function Get(fields: map<string, Json>, key: string): (v: Json) {
    if key in fields then fields[key] else JNull
  }
}
