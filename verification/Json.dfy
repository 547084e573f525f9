/** JSON values. An object keeps its fields in document order and may repeat a name. */
module Json {
  import opened Common
  import opened Text

  datatype Json =
    | Null
    | Bool(b: bool)
    | Number(text: string)
    | Str(s: string)
    | Array(elems: seq<Json>)
    | Object(fields: seq<Field>)

  datatype Field = Field(name: string, value: Json)

  /** A decoded object: the last of several fields with one name is the one that counts. */
  type Payload = map<string, Json>

  function AsMap(fields: seq<Field>): Payload {
    if fields == [] then map[]
    else
      var n := |fields| - 1;
      AsMap(fields[..n])[fields[n].name := fields[n].value]
  }

  /** A field that is a string with something in it, trimmed. */
  function StringField(p: Payload, key: string): Option<string> {
    if key in p && p[key].Str? && Trim(p[key].s) != "" then Some(Trim(p[key].s)) else None
  }

  /** The first of the keys that has such a string. */
  function FirstString(p: Payload, keys: seq<string>): Option<string> {
    if keys == [] then None
    else if StringField(p, keys[0]).Some? then StringField(p, keys[0])
    else FirstString(p, keys[1..])
  }

  function StringOr(o: Option<string>, fallback: string): string {
    if o.Some? then o.value else fallback
  }

  function ObjectField(p: Payload, key: string): Option<Payload> {
    if key in p && p[key].Object? then Some(AsMap(p[key].fields)) else None
  }
}
