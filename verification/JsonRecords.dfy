/** What the fromJson functions of include/VMConfiguration.h read: records whose fields come in any
    order, with optional commas, and whose unknown keys leave their value unread. */
module JsonRecords {
  import opened Results
  import opened JsonText

  /** The type that a key's value must have, and the keys of a nested record. */
  datatype Kind =
    | TextKind
    | NumberKind
    | FlagKind
    | RecordKind(schema: map<string, Kind>)
    | ListKind(schema: map<string, Kind>)

  type Schema = map<string, Kind>

  datatype Value =
    | Text(text: string)
    | Number(n: int)
    | Flag(b: bool)
    | Record(fields: seq<Field>)
    | List(items: seq<Value>)
    | Unread                       // after an unknown key no value is consumed

  datatype Field = Field(key: string, value: Value)

  function ParseKey(s: string): (r: Parsed<string>)
    ensures r.Ok? ==> |r.rest| < |s|
  {
    var (key, t) :- ParseString(s);
    var (_, u) :- Expect(t, ':');
    Ok(key, u)
  }

  function ParseValue(kind: Kind, s: string): (r: Parsed<Value>)
    ensures r.Ok? ==> |r.rest| < |s|
    decreases |s|, 3
  {
    match kind
    case TextKind => var (text, t) :- ParseString(s); Ok(Text(text), t)
    case NumberKind => var (n, t) :- ParseNumber(s); Ok(Number(n), t)
    case FlagKind => var (b, t) :- ParseBool(s); Ok(Flag(b), t)
    case RecordKind(schema) => var (fields, t) :- ParseObject(schema, s); Ok(Record(fields), t)
    case ListKind(schema) =>
      var (_, t) :- Expect(s, '[');
      var (items, u) :- ParseItems(schema, t);
      Ok(List(items), u)
  }

  function ParseObject(schema: Schema, s: string): (r: Parsed<seq<Field>>)
    ensures r.Ok? ==> |r.rest| < |s|
    decreases |s|, 2
  {
    var (_, t) :- Expect(s, '{');
    ParseFields(schema, t)
  }

  /** The object loop, up to and with the closing brace. */
  function ParseFields(schema: Schema, s: string): (r: Parsed<seq<Field>>)
    ensures r.Ok? ==> |r.rest| < |s|
    decreases |s|, 1
  {
    if Peek(s) == '}' then
      var (_, t) :- Expect(s, '}');
      Ok([], t)
    else
      var (field, t) :- ParseField(schema, s);
      var (fields, u) :- ParseFields(schema, t);
      Ok([field] + fields, u)
  }

  /** One turn of the object loop. It consumes at least the two quotes of the key and the colon. */
  function ParseField(schema: Schema, s: string): (r: Parsed<Field>)
    ensures r.Ok? ==> |r.rest| + 3 <= |s|
    decreases |s|, 0
  {
    var (key, t) :- ParseKey(s);
    var (value, u) :- ParseFieldValue(schema, key, t);
    Ok(Field(key, value), SkipComma(u))
  }

  /** The chain of key comparisons: no value is read after a key that matches none. */
  function ParseFieldValue(schema: Schema, key: string, s: string): (r: Parsed<Value>)
    ensures r.Ok? ==> |r.rest| <= |s|
    decreases |s|, 5
  {
    if key in schema then ParseValue(schema[key], s) else Ok(Unread, s)
  }

  /** The array loop, up to and with the closing bracket. */
  function ParseItems(schema: Schema, s: string): (r: Parsed<seq<Value>>)
    ensures r.Ok? ==> |r.rest| < |s|
    decreases |s|, 3
  {
    if Peek(s) == ']' then
      var (_, t) :- Expect(s, ']');
      Ok([], t)
    else
      var (fields, t) :- ParseObject(schema, s);
      var (items, u) :- ParseItems(schema, SkipComma(t));
      Ok([Record(fields)] + items, u)
  }
}
