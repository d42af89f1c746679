/** A JSON document once it has been decoded: objects are maps, numbers keep their source text. */
module JsonValues {
  datatype Json =
    | Null
    | Bool(flag: bool)
    | Number(numeral: string)
    | Text(text: string)
    | Array(items: seq<Json>)
    | Object(fields: map<string, Json>)
}
