/** The one layout that JsonBuilder writes: a member a line, two spaces a level, commas exactly
    between members. */
module PrettyDocuments {
  import opened Results
  import opened Sequences
  import opened Words
  import opened JsonText
  import opened JsonRecords
  import opened JsonDocuments

  function Indent(level: int): (blanks: string)
    ensures |blanks| == (if level <= 0 then 0 else 2 * level) && forall i | 0 <= i < |blanks| :: blanks[i] == ' '
    decreases level
  {
    if level <= 0 then "" else "  " + Indent(level - 1)
  }

  function NewLine(level: int): string {
    "\n" + Indent(level)
  }

  /** The value, written when `level` containers are open. */
  function Pretty(v: Value, level: int): Document
    decreases v, 0
  {
    match v
    case Text(text) => Quoted(EscapeString(text))
    case Number(n) => Literal(SignedDecimal(n))
    case Flag(b) => Word(b)
    case Record(fields) => Object(PrettyMembers(fields, level + 1), NewLine(level))
    case List(items) => Array(PrettyElements(items, level + 1), NewLine(level))
    case Unread => Absent
  }

  function PrettyMember(f: Field, level: int, comma: bool): Member
    decreases f
  {
    Member(NewLine(level), EscapeString(f.key), "", " ", Pretty(f.value, level), "", comma)
  }

  function PrettyMembers(fields: seq<Field>, level: int): (ms: seq<Member>)
    ensures |ms| == |fields|
    decreases fields, 0
  {
    if fields == [] then []
    else [PrettyMember(fields[0], level, |fields| > 1)] + PrettyMembers(fields[1..], level)
  }

  function PrettyElement(item: Value, level: int, comma: bool): Element
    decreases item, 1
  {
    Element(NewLine(level), Pretty(item, level), "", comma)
  }

  function PrettyElements(items: seq<Value>, level: int): (es: seq<Element>)
    ensures |es| == |items|
    decreases items, 0
  {
    if items == [] then []
    else [PrettyElement(items[0], level, |items| > 1)] + PrettyElements(items[1..], level)
  }

  // ---------- growing at the end, as the builder does ----------

  function MembersText(fields: seq<Field>, level: int): string {
    RenderMembers(PrettyMembers(fields, level), "")
  }

  function ElementsText(items: seq<Value>, level: int): string {
    RenderElements(PrettyElements(items, level), "")
  }

  lemma MemberHead(fields: seq<Field>, level: int)
    requires fields != []
    ensures MembersText(fields, level) ==
            RenderMember(PrettyMember(fields[0], level, false), "") + Comma(|fields| > 1) +
            MembersText(fields[1..], level)
  {
    var f, comma, tail := fields[0], |fields| > 1, MembersText(fields[1..], level);
    DropFirst(PrettyMember(f, level, comma), PrettyMembers(fields[1..], level));
    assert MembersText(fields, level) == RenderMember(PrettyMember(f, level, comma), tail);
    hide PrettyMembers, RenderMembers, Pretty;
    CommaBehind(f, level, comma, tail);
    MemberThenTail(PrettyMember(f, level, false), Comma(comma) + tail);
    hide PrettyMember, RenderMember;
    Associate(RenderMember(PrettyMember(f, level, false), ""), Comma(comma), tail);
  }

  lemma CommaBehind(f: Field, level: int, comma: bool, tail: string)
    ensures RenderMember(PrettyMember(f, level, comma), tail) ==
            RenderMember(PrettyMember(f, level, false), Comma(comma) + tail)
  {
    hide Pretty, Render;
    WithNothing(Comma(comma) + tail);
  }

  /** One more text after a comma-separated list of texts, of which more than one are known. */
  lemma Regroup(first: string, rest: string, more: bool, last: string)
    requires !more ==> rest == ""
    ensures first + "," + (rest + Comma(more) + last) == first + Comma(more) + rest + "," + last
  {
  }

  lemma {:induction false} OneMoreMember(fields: seq<Field>, f: Field, level: int)
    ensures MembersText(fields + [f], level) ==
            MembersText(fields, level) + Comma(fields != []) + RenderMember(PrettyMember(f, level, false), "")
  {
    MemberHead(fields + [f], level);
    if fields == [] {
      assert fields + [f] == [f];
    } else {
      assert (fields + [f])[1..] == fields[1..] + [f];
      OneMoreMember(fields[1..], f, level);
      MemberHead(fields, level);
      Regroup(RenderMember(PrettyMember(fields[0], level, false), ""), MembersText(fields[1..], level),
              fields[1..] != [], RenderMember(PrettyMember(f, level, false), ""));
    }
  }

  lemma ElementHead(items: seq<Value>, level: int)
    requires items != []
    ensures ElementsText(items, level) ==
            NewLine(level) + Render(Pretty(items[0], level), "") + Comma(|items| > 1) + ElementsText(items[1..], level)
  {
    var text, rest := Render(Pretty(items[0], level), ""), ElementsText(items[1..], level);
    var comma := Comma(|items| > 1);
    var e, more := PrettyElement(items[0], level, |items| > 1), PrettyElements(items[1..], level);
    DropFirst(e, more);
    assert ElementsText(items, level) == NewLine(level) + Render(Pretty(items[0], level), "" + (comma + rest)) by {
      assert PrettyElements(items, level) == [e] + more;
      RenderElementsUnfold(e, more);
    }
    RenderThenTail(Pretty(items[0], level), "" + (comma + rest));
    Ungroup(NewLine(level), text, comma, rest);
  }

  lemma RenderElementsUnfold(e: Element, more: seq<Element>)
    ensures RenderElements([e] + more, "") ==
            e.pre + Render(e.value, e.post + (Comma(e.comma) + RenderElements(more, "")))
  {
    DropFirst(e, more);
  }

  lemma Ungroup(a: string, b: string, c: string, d: string)
    ensures a + (b + ("" + (c + d))) == a + b + c + d
  {
  }

  lemma {:induction false} OneMoreElement(items: seq<Value>, item: Value, level: int)
    ensures ElementsText(items + [item], level) ==
            ElementsText(items, level) + Comma(items != []) + (NewLine(level) + Render(Pretty(item, level), ""))
  {
    ElementHead(items + [item], level);
    assert ElementsText([], level) == "";
    if items == [] {
      assert items + [item] == [item];
    } else {
      hide ElementsText, NewLine, Pretty, Render;
      assert (items + [item])[1..] == items[1..] + [item];
      OneMoreElement(items[1..], item, level);
      ElementHead(items, level);
      Regroup(NewLine(level) + Render(Pretty(items[0], level), ""), ElementsText(items[1..], level),
              items[1..] != [], NewLine(level) + Render(Pretty(item, level), ""));
    }
  }

  // ---------- what the record reader makes of it ----------

  /** The value has the type that the kind asks for; every key is known. */
  predicate Conforms(kind: Kind, v: Value)
    decreases v, 0
  {
    match kind
    case TextKind => v.Text?
    case NumberKind => v.Number? && 0 <= v.n < TWO_TO_THE_64
    case FlagKind => v.Flag?
    case RecordKind(schema) => v.Record? && FieldsConform(schema, v.fields)
    case ListKind(schema) => v.List? && ItemsConform(schema, v.items)
  }

  predicate FieldsConform(schema: Schema, fields: seq<Field>)
    decreases fields, 0
  {
    fields == [] || (FieldConforms(schema, fields[0]) && FieldsConform(schema, fields[1..]))
  }

  predicate FieldConforms(schema: Schema, f: Field)
    decreases f
  {
    f.key in schema && Readable(f.key) && Conforms(schema[f.key], f.value)
  }

  predicate ItemsConform(schema: Schema, items: seq<Value>)
    decreases items, 0
  {
    items == [] || (Conforms(RecordKind(schema), items[0]) && ItemsConform(schema, items[1..]))
  }

  /** Every string value consists of characters that survive escaping. */
  predicate Printable(v: Value)
    decreases v, 0
  {
    match v
    case Text(text) => Readable(text)
    case Record(fields) => FieldsPrintable(fields)
    case List(items) => ItemsPrintable(items)
    case _ => true
  }

  predicate FieldsPrintable(fields: seq<Field>)
    decreases fields, 0
  {
    fields == [] || (Printable(fields[0].value) && FieldsPrintable(fields[1..]))
  }

  predicate ItemsPrintable(items: seq<Value>)
    decreases items, 0
  {
    items == [] || (Printable(items[0]) && ItemsPrintable(items[1..]))
  }

  lemma {:induction false} SpaceInLayout(level: int)
    ensures AllSpace(Indent(level)) && AllSpace(NewLine(level))
    decreases level
  {
    if level > 0 {
      SpaceInLayout(level - 1);
    }
  }

  lemma ReadEscaped(s: string)
    ensures Closed(EscapeString(s))
    ensures ReadBody(EscapeString(s)) == if Readable(s) then Success(s) else Failure(InvalidEscape)
  {
    EscapeThenParse(s, "");
    assert EscapeString(s) + ("\"" + "") == EscapeString(s) + "\"";
  }

  /** Reading what was printed gives the value back if it is printable, and fails if it is not. */
  lemma {:induction false} ReadPretty(kind: Kind, v: Value, level: int)
    requires Conforms(kind, v)
    ensures Fits(kind, Pretty(v, level))
    ensures Read(kind, Pretty(v, level)) == if Printable(v) then Success(v) else Failure(InvalidEscape)
    decreases v, 0
  {
    SpaceInLayout(level);
    match v
    case Text(text) => ReadEscaped(text);
    case Number(n) => StoullOfDecimal(n);
    case Flag(_) =>
    case Record(fields) => ReadPrettyMembers(kind.schema, fields, level + 1);
    case List(items) => ReadPrettyElements(kind.schema, items, level + 1);
  }

  lemma {:induction false} ReadPrettyMembers(schema: Schema, fields: seq<Field>, level: int)
    requires FieldsConform(schema, fields)
    ensures MembersFit(schema, PrettyMembers(fields, level))
    ensures ReadMembers(schema, PrettyMembers(fields, level)) ==
            if FieldsPrintable(fields) then Success(fields) else Failure(InvalidEscape)
    decreases fields, 0
  {
    if fields != [] {
      var m := PrettyMember(fields[0], level, |fields| > 1);
      SpaceInLayout(level);
      ReadEscaped(fields[0].key);
      ReadPretty(schema[fields[0].key], fields[0].value, level);
      assert MemberFits(schema, m);
      ReadPrettyMembers(schema, fields[1..], level);
      assert PrettyMembers(fields, level)[1..] == PrettyMembers(fields[1..], level);
      assert fields == [fields[0]] + fields[1..];
    }
  }

  lemma {:induction false} ReadPrettyElements(schema: Schema, items: seq<Value>, level: int)
    requires ItemsConform(schema, items)
    ensures ElementsFit(schema, PrettyElements(items, level))
    ensures ReadElements(schema, PrettyElements(items, level)) ==
            if ItemsPrintable(items) then Success(items) else Failure(InvalidEscape)
    decreases items, 0
  {
    if items != [] {
      SpaceInLayout(level);
      ReadPretty(RecordKind(schema), items[0], level);
      ReadPrettyElements(schema, items[1..], level);
      assert PrettyElements(items, level)[1..] == PrettyElements(items[1..], level);
      assert items == [items[0]] + items[1..];
    }
  }
}
