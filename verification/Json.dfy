/** Decoded JSON. Numbers stay the text they print as. */
module Json {
  import opened Text

  datatype Value =
    | Null
    | Bool(b: bool)
    | Number(text: string)
    | Str(s: string)
    | Array(items: seq<Value>)
    | Object(fields: seq<Field>)

  datatype Field = Field(name: string, value: Value)

  /** A field of an object, or None. */
  function Get(v: Value, key: string): Option<Value> {
    if v.Object? then Find(v.fields, key) else None
  }

  function Find(fields: seq<Field>, key: string): Option<Value> {
    if fields == [] then None
    else if fields[0].name == key then Some(fields[0].value)
    else Find(fields[1..], key)
  }
}
