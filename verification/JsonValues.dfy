/** JSON values as the application handles them; a number is kept as its text. */
module JsonValues {
  datatype Json =
    | JNull | JBool(on: bool) | JNumber(text: string) | JString(s: string)
    | JArray(items: seq<Json>) | JObject(fields: map<string, Json>)
}
