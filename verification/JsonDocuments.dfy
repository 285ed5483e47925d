/** JSON texts as trees that keep every character: the strings as they are spelled, the white space
    in every gap, and whether a comma stands after a member. */
module JsonDocuments {
  import opened Results
  import opened Sequences
  import opened JsonText
  import opened JsonRecords

  datatype Document =
    | Quoted(body: string)                               // "body", escapes not resolved
    | Literal(digits: string)
    | Word(b: bool)
    | Object(members: seq<Member>, close: string)        // { members close }
    | Array(elements: seq<Element>, close: string)       // [ elements close ]
    | Absent                                             // no value at all

  /** pre "key" mid : gap value post [,] */
  datatype Member =
    Member(pre: string, key: string, mid: string, gap: string, value: Document, post: string, comma: bool)

  /** pre value post [,] */
  datatype Element = Element(pre: string, value: Document, post: string, comma: bool)

  function Comma(comma: bool): string {
    if comma then "," else ""
  }

  // ---------- the text of a document, followed by tail ----------

  function Render(d: Document, tail: string): string
    decreases d, 0
  {
    match d
    case Quoted(body) => "\"" + (body + ("\"" + tail))
    case Literal(digits) => digits + tail
    case Word(b) => (if b then "true" else "false") + tail
    case Object(members, close) => "{" + RenderMembers(members, close + ("}" + tail))
    case Array(elements, close) => "[" + RenderElements(elements, close + ("]" + tail))
    case Absent => tail
  }

  function RenderMembers(ms: seq<Member>, tail: string): string
    decreases ms, 0
  {
    if ms == [] then tail else RenderMember(ms[0], RenderMembers(ms[1..], tail))
  }

  function RenderMember(m: Member, tail: string): string
    decreases m, 1
  {
    m.pre + ("\"" + (m.key + ("\"" + (m.mid + (":" + AfterColon(m, tail))))))
  }

  function AfterColon(m: Member, tail: string): string
    decreases m, 0
  {
    m.gap + Render(m.value, m.post + (Comma(m.comma) + tail))
  }

  function RenderElements(es: seq<Element>, tail: string): string
    decreases es, 0
  {
    if es == [] then tail
    else es[0].pre + Render(es[0].value, es[0].post + (Comma(es[0].comma) + RenderElements(es[1..], tail)))
  }

  // ---------- the text that precedes the tail ----------

  lemma {:induction false} RenderThenTail(d: Document, tail: string)
    ensures Render(d, tail) == Render(d, "") + tail
    decreases d, 0
  {
    match d
    case Quoted(body) => EndThenTail("\"", body, "\"", tail);
    case Object(ms, close) =>
      MembersThenTail(ms, close + ("}" + tail));
      MembersThenTail(ms, close + ("}" + ""));
      BodyThenTail("{", RenderMembers(ms, ""), close, "}", tail);
    case Array(es, close) =>
      ElementsThenTail(es, close + ("]" + tail));
      ElementsThenTail(es, close + ("]" + ""));
      BodyThenTail("[", RenderElements(es, ""), close, "]", tail);
    case Literal(digits) => WithNothing(digits);
    case Word(b) => WithNothing(if b then "true" else "false");
    case Absent => WithNothing(tail);
  }

  lemma EndThenTail(open: string, body: string, end: string, tail: string)
    ensures open + (body + (end + tail)) == open + (body + (end + "")) + tail
  {
    WithNothing(end);
    Associate(body, end, tail);
    Associate(open, body + end, tail);
  }

  lemma BodyThenTail(open: string, body: string, close: string, end: string, tail: string)
    ensures open + (body + (close + (end + tail))) == open + (body + (close + (end + ""))) + tail
  {
    EndThenTail(body, close, end, tail);
    Associate(open, body + (close + (end + "")), tail);
  }

  lemma {:induction false} MembersThenTail(ms: seq<Member>, tail: string)
    ensures RenderMembers(ms, tail) == RenderMembers(ms, "") + tail
    decreases ms, 0
  {
    if ms != [] {
      MembersThenTail(ms[1..], tail);
      MemberThenTail(ms[0], RenderMembers(ms[1..], tail));
      MemberThenTail(ms[0], RenderMembers(ms[1..], ""));
    }
  }

  lemma {:induction false} MemberThenTail(m: Member, tail: string)
    ensures RenderMember(m, tail) == RenderMember(m, "") + tail
    decreases m
  {
    RenderThenTail(m.value, m.post + (Comma(m.comma) + tail));
    RenderThenTail(m.value, m.post + (Comma(m.comma) + ""));
    assert AfterColon(m, tail) == AfterColon(m, "") + tail;
  }

  lemma {:induction false} ElementsThenTail(es: seq<Element>, tail: string)
    ensures RenderElements(es, tail) == RenderElements(es, "") + tail
    decreases es, 0
  {
    if es != [] {
      ElementsThenTail(es[1..], tail);
      RenderThenTail(es[0].value, es[0].post + (Comma(es[0].comma) + RenderElements(es[1..], tail)));
      RenderThenTail(es[0].value, es[0].post + (Comma(es[0].comma) + RenderElements(es[1..], "")));
      var body, rest := Render(es[0].value, ""), RenderElements(es[1..], "");
      FourThenTail(es[0].pre, body, es[0].post, Comma(es[0].comma), rest, tail);
    }
  }

  lemma FourThenTail(a: string, b: string, c: string, d: string, rest: string, tail: string)
    ensures a + (b + (c + (d + (rest + tail)))) == a + (b + (c + (d + rest))) + tail
  {
    Associate(d, rest, tail);
    Associate(c, d + rest, tail);
    Associate(b, c + (d + rest), tail);
    Associate(a, b + (c + (d + rest)), tail);
  }

  // ---------- which documents the record reader walks through ----------

  /** A string spelling that the reader leaves at its closing quote or at an invalid escape. */
  predicate Closed(body: string) {
    var p := StringBody(body + "\"");
    p == Err(InvalidEscape) || (p.Ok? && p.rest == "")
  }

  function ReadBody(body: string): Result<string> {
    StringBody(body + "\"").Outcome()
  }

  predicate Fits(kind: Kind, d: Document)
    decreases d, 0
  {
    match kind
    case TextKind => d.Quoted? && Closed(d.body)
    case NumberKind => d.Literal? && IsLiteral(d.digits) && d.digits != ""
    case FlagKind => d.Word?
    case RecordKind(schema) => d.Object? && AllSpace(d.close) && MembersFit(schema, d.members)
    case ListKind(schema) => d.Array? && AllSpace(d.close) && ElementsFit(schema, d.elements)
  }

  predicate MembersFit(schema: Schema, ms: seq<Member>)
    decreases ms, 0
  {
    ms == [] || (MemberFits(schema, ms[0]) && MembersFit(schema, ms[1..]))
  }

  /** An unknown key must have no value; past a broken key anything may stand. */
  predicate MemberFits(schema: Schema, m: Member)
    decreases m
  {
    && AllSpace(m.pre) && AllSpace(m.mid) && AllSpace(m.gap) && AllSpace(m.post) && Closed(m.key)
    && match ReadBody(m.key)
       case Success(key) => if key in schema then Fits(schema[key], m.value) else m.value.Absent?
       case Failure(_) => true
  }

  predicate ElementsFit(schema: Schema, es: seq<Element>)
    decreases es, 0
  {
    es == [] ||
    (&& AllSpace(es[0].pre) && AllSpace(es[0].post)
     && Fits(RecordKind(schema), es[0].value)
     && ElementsFit(schema, es[1..]))
  }

  // ---------- what the reader makes of a document ----------

  function Read(kind: Kind, d: Document): Result<Value>
    requires Fits(kind, d)
    decreases d, 0
  {
    match kind
    case TextKind => var text :- ReadBody(d.body); Success(Text(text))
    case NumberKind => var n :- Stoull(d.digits); Success(Number(n))
    case FlagKind => Success(Flag(d.b))
    case RecordKind(schema) => var fields :- ReadMembers(schema, d.members); Success(Record(fields))
    case ListKind(schema) => var items :- ReadElements(schema, d.elements); Success(List(items))
  }

  function ReadMembers(schema: Schema, ms: seq<Member>): Result<seq<Field>>
    requires MembersFit(schema, ms)
    decreases ms, 0
  {
    if ms == [] then Success([])
    else
      var field :- ReadMember(schema, ms[0]);
      var fields :- ReadMembers(schema, ms[1..]);
      Success([field] + fields)
  }

  function ReadMember(schema: Schema, m: Member): Result<Field>
    requires MemberFits(schema, m)
    decreases m
  {
    var key :- ReadBody(m.key);
    if key in schema then
      var value :- Read(schema[key], m.value);
      Success(Field(key, value))
    else Success(Field(key, Unread))
  }

  function ReadElements(schema: Schema, es: seq<Element>): Result<seq<Value>>
    requires ElementsFit(schema, es)
    decreases es, 0
  {
    if es == [] then Success([])
    else
      var item :- Read(RecordKind(schema), es[0].value);
      var items :- ReadElements(schema, es[1..]);
      Success([item] + items)
  }
}
