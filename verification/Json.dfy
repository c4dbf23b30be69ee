/** JSON values as the interpreters see them; numbers are exact reals. */
module Json {
  import opened Ids

  type Text = seq<CodeUnit>

  datatype Json =
    | Null
    | Bool(flag: bool)
    | Num(number: real)
    | Str(text: Text)
    | Arr(items: seq<Json>)
    | Obj(fields: map<Text, Json>)
}
