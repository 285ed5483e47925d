/** Every text that the record reader accepts is a document, so the accepted language is known
    exactly; and changing white space or commas changes nothing. */
module AcceptedDocuments {
  import opened Results
  import opened Sequences
  import opened JsonText
  import opened JsonRecords
  import opened JsonDocuments
  import opened ReadingDocuments

  // ---------- from an accepted text back to its document ----------

  lemma {:induction false} ScanBody(s: string) returns (body: string)
    requires StringBody(s).Ok?
    ensures s == body + ("\"" + StringBody(s).rest)
    ensures StringBody(body + "\"") == Ok(StringBody(s).value, "")
  {
    if s[0] == '"' {
      body := "";
      WithNothing("\"");
    } else {
      var k := if s[0] == '\\' then 2 else 1;
      var more := ScanBody(s[k..]);
      body := s[..k] + more;
      BodyGrows(s, k, more);
    }
  }

  /** One more character, or escape, in front of a string body. */
  lemma BodyGrows(s: string, k: nat, more: string)
    requires StringBody(s).Ok? && s[0] != '"' && k == (if s[0] == '\\' then 2 else 1)
    requires StringBody(s[k..]).Ok? && s[k..] == more + ("\"" + StringBody(s[k..]).rest)
    requires StringBody(more + "\"") == Ok(StringBody(s[k..]).value, "")
    ensures s == s[..k] + more + ("\"" + StringBody(s).rest)
    ensures StringBody(s[..k] + more + "\"") == Ok(StringBody(s).value, "")
  {
    Associate(s[..k], more, "\"" + StringBody(s).rest);
    Associate(s[..k], more, "\"");
    StringBodyUnfolds(s[..k], s[k..]);
    StringBodyUnfolds(s[..k], more + "\"");
    assert s == s[..k] + s[k..];
  }

  lemma ScanExpected(s: string, c: char) returns (w: string)
    requires Expect(s, c).Ok?
    ensures AllSpace(w) && s == w + ([c] + Expect(s, c).rest)
  {
    hide AllSpace, SkipSpace;
    w := SkippedSpace(s);
    FirstAndRest(SkipSpace(s));
  }

  lemma ScanString(s: string) returns (w: string, body: string)
    requires ParseString(s).Ok?
    ensures AllSpace(w) && Closed(body) && ReadBody(body) == Success(ParseString(s).value)
    ensures s == w + ("\"" + (body + ("\"" + ParseString(s).rest)))
  {
    w := ScanExpected(s, '"');
    body := ScanBody(Expect(s, '"').rest);
  }

  lemma ScanNumber(s: string) returns (w: string, digits: string)
    requires ParseNumber(s).Ok?
    ensures AllSpace(w) && IsLiteral(digits) && digits != "" && Stoull(digits) == Success(ParseNumber(s).value)
    ensures s == w + (digits + ParseNumber(s).rest) && EndsLiteral(ParseNumber(s).rest)
  {
    w := SkippedSpace(s);
    var t := SkipSpace(s);
    digits := t[..LiteralLength(t)];
    assert t == digits + t[LiteralLength(t)..];
  }

  lemma ScanComma(s: string) returns (post: string, comma: bool)
    ensures AllSpace(post) && s == post + (Comma(comma) + SkipComma(s))
  {
    post := SkippedSpace(s);
    comma := SkipSpace(s) != "" && SkipSpace(s)[0] == ',';
  }

  lemma {:induction false} ScanValue(kind: Kind, s: string) returns (w: string, d: Document)
    requires ParseValue(kind, s).Ok?
    ensures AllSpace(w) && Fits(kind, d) && Read(kind, d) == Success(ParseValue(kind, s).value)
    ensures s == w + Render(d, ParseValue(kind, s).rest)
    decreases |s|, 4
  {
    hide ParseValue, Fits, Read, Render;
    match kind
    case RecordKind(schema) =>
      ValueOfObject(schema, s);
      w, d := ScanObject(schema, s);
    case ListKind(schema) =>
      w, d := ScanList(schema, s);
    case _ =>
      w, d := ScanScalar(kind, s);
  }

  lemma ScanScalar(kind: Kind, s: string) returns (w: string, d: Document)
    requires ParseValue(kind, s).Ok? && (kind.TextKind? || kind.NumberKind? || kind.FlagKind?)
    ensures AllSpace(w) && Fits(kind, d) && Read(kind, d) == Success(ParseValue(kind, s).value)
    ensures s == w + Render(d, ParseValue(kind, s).rest)
  {
    hide ParseString, ParseNumber, ParseBool, StringBody, Stoull, IsLiteral;
    match kind
    case TextKind =>
      var body;
      w, body := ScanString(s);
      d := Quoted(body);
    case NumberKind =>
      var digits;
      w, digits := ScanNumber(s);
      d := Literal(digits);
    case FlagKind =>
      w := ScanWord(s);
      d := Word(ParseBool(s).value);
  }

  lemma ScanWord(s: string) returns (w: string)
    requires ParseBool(s).Ok?
    ensures AllSpace(w) && s == w + ((if ParseBool(s).value then "true" else "false") + ParseBool(s).rest)
  {
    w := SkippedSpace(s);
    var t, word := SkipSpace(s), if ParseBool(s).value then "true" else "false";
    assert word <= t && t == word + t[|word|..];
  }

  lemma {:induction false} ScanList(schema: Schema, s: string) returns (w: string, d: Document)
    requires ParseValue(ListKind(schema), s).Ok?
    ensures AllSpace(w) && Fits(ListKind(schema), d)
    ensures Read(ListKind(schema), d) == Success(ParseValue(ListKind(schema), s).value)
    ensures s == w + Render(d, ParseValue(ListKind(schema), s).rest)
    decreases |s|, 3
  {
    w := ScanExpected(s, '[');
    var es, close := ScanItems(schema, Expect(s, '[').rest);
    d := Array(es, close);
  }

  lemma {:induction false} ScanObject(schema: Schema, s: string) returns (w: string, d: Document)
    requires ParseObject(schema, s).Ok?
    ensures AllSpace(w) && Fits(RecordKind(schema), d)
    ensures Read(RecordKind(schema), d) == Success(Record(ParseObject(schema, s).value))
    ensures s == w + Render(d, ParseObject(schema, s).rest)
    decreases |s|, 2
  {
    w := ScanExpected(s, '{');
    var ms, close := ScanFields(schema, Expect(s, '{').rest);
    d := Object(ms, close);
  }

  lemma {:induction false} ScanFields(schema: Schema, s: string) returns (ms: seq<Member>, close: string)
    requires ParseFields(schema, s).Ok?
    ensures AllSpace(close) && MembersFit(schema, ms)
    ensures ReadMembers(schema, ms) == Success(ParseFields(schema, s).value)
    ensures s == RenderMembers(ms, close + ("}" + ParseFields(schema, s).rest))
    decreases |s|, 1
  {
    if Peek(s) == '}' {
      ms := [];
      close := ScanExpected(s, '}');
    } else {
      var m := ScanField(schema, s);
      var more;
      more, close := ScanFields(schema, ParseField(schema, s).rest);
      ms := [m] + more;
      assert ms[1..] == more;
    }
  }

  lemma {:induction false} ScanField(schema: Schema, s: string) returns (m: Member)
    requires ParseField(schema, s).Ok?
    ensures MemberFits(schema, m) && ReadMember(schema, m) == Success(ParseField(schema, s).value)
    ensures s == RenderMember(m, ParseField(schema, s).rest)
    decreases |s|, 0
  {
    var pre, key := ScanString(s);
    var t := ParseString(s).rest;
    var mid := ScanExpected(t, ':');
    var u := Expect(t, ':').rest;
    if ParseString(s).value in schema {
      var kind := schema[ParseString(s).value];
      var gap, value := ScanValue(kind, u);
      var post, comma := ScanComma(ParseValue(kind, u).rest);
      m := Member(pre, key, mid, gap, value, post, comma);
      assert u == AfterColon(m, ParseField(schema, s).rest);
    } else {
      var post, comma := ScanComma(u);
      m := Member(pre, key, mid, "", Absent, post, comma);
      assert u == AfterColon(m, ParseField(schema, s).rest);
    }
  }

  lemma {:induction false} ScanItems(schema: Schema, s: string) returns (es: seq<Element>, close: string)
    requires ParseItems(schema, s).Ok?
    ensures AllSpace(close) && ElementsFit(schema, es)
    ensures ReadElements(schema, es) == Success(ParseItems(schema, s).value)
    ensures s == RenderElements(es, close + ("]" + ParseItems(schema, s).rest))
    decreases |s|, 3
  {
    if Peek(s) == ']' {
      es := [];
      close := ScanExpected(s, ']');
    } else {
      var pre, value := ScanObject(schema, s);
      var t := ParseObject(schema, s).rest;
      var post, comma := ScanComma(t);
      var more;
      more, close := ScanItems(schema, SkipComma(t));
      es := [Element(pre, value, post, comma)] + more;
      assert es[1..] == more;
    }
  }

  // ---------- the accepted language ----------

  /** s is the document d, spelled after the white space w and before tail. */
  ghost predicate Spells(schema: Schema, s: string, w: string, d: Document, tail: string) {
    && AllSpace(w)
    && Fits(RecordKind(schema), d)
    && s == w + Render(d, tail)
  }

  /** A text is accepted if and only if it starts with a document that fits the schema and that
      reads without error; the fields and the unread rest are those of the document. */
  lemma AcceptsExactlyDocuments(schema: Schema, s: string, fields: seq<Field>, tail: string)
    ensures ParseObject(schema, s) == Ok(fields, tail) <==>
            exists w, d :: Spells(schema, s, w, d, tail) && Read(RecordKind(schema), d) == Success(Record(fields))
  {
    if ParseObject(schema, s) == Ok(fields, tail) {
      var w, d := ScanObject(schema, s);
      assert Spells(schema, s, w, d, tail);
    }
    forall w, d | Spells(schema, s, w, d, tail) && Read(RecordKind(schema), d) == Success(Record(fields))
      ensures ParseObject(schema, s) == Ok(fields, tail)
    {
      ReadValue(RecordKind(schema), w, d, tail);
      assert ParseValue(RecordKind(schema), s) == Ok(Record(fields), tail);
    }
  }

  // ---------- layout ----------

  /** b has the tokens of a, in any layout: other white space, commas put in or left out. */
  predicate Relaid(a: Document, b: Document)
    decreases a, 0
  {
    match a
    case Quoted(_) => a == b
    case Literal(_) => a == b
    case Word(_) => a == b
    case Absent => a == b
    case Object(ms, _) => b.Object? && AllSpace(b.close) && MembersRelaid(ms, b.members)
    case Array(es, _) => b.Array? && AllSpace(b.close) && ElementsRelaid(es, b.elements)
  }

  predicate MembersRelaid(a: seq<Member>, b: seq<Member>)
    decreases a, 0
  {
    if a == [] || b == [] then a == b
    else
      && a[0].key == b[0].key
      && AllSpace(b[0].pre) && AllSpace(b[0].mid) && AllSpace(b[0].gap) && AllSpace(b[0].post)
      && Relaid(a[0].value, b[0].value)
      && MembersRelaid(a[1..], b[1..])
  }

  predicate ElementsRelaid(a: seq<Element>, b: seq<Element>)
    decreases a, 0
  {
    if a == [] || b == [] then a == b
    else
      && AllSpace(b[0].pre) && AllSpace(b[0].post)
      && Relaid(a[0].value, b[0].value)
      && ElementsRelaid(a[1..], b[1..])
  }

  lemma {:induction false} RelaidReadsTheSame(kind: Kind, a: Document, b: Document)
    requires Fits(kind, a) && Relaid(a, b)
    ensures Fits(kind, b) && Read(kind, b) == Read(kind, a)
    decreases a, 0
  {
    match kind
    case TextKind =>
    case NumberKind =>
    case FlagKind =>
    case RecordKind(schema) => RelaidMembers(schema, a.members, b.members);
    case ListKind(schema) => RelaidElements(schema, a.elements, b.elements);
  }

  lemma {:induction false} RelaidMembers(schema: Schema, a: seq<Member>, b: seq<Member>)
    requires MembersFit(schema, a) && MembersRelaid(a, b)
    ensures MembersFit(schema, b) && ReadMembers(schema, b) == ReadMembers(schema, a)
    decreases a, 0
  {
    if a != [] {
      RelaidMembers(schema, a[1..], b[1..]);
      if ReadBody(a[0].key).Success? && ReadBody(a[0].key).value in schema {
        RelaidReadsTheSame(schema[ReadBody(a[0].key).value], a[0].value, b[0].value);
      }
    }
  }

  lemma {:induction false} RelaidElements(schema: Schema, a: seq<Element>, b: seq<Element>)
    requires ElementsFit(schema, a) && ElementsRelaid(a, b)
    ensures ElementsFit(schema, b) && ReadElements(schema, b) == ReadElements(schema, a)
    decreases a, 0
  {
    if a != [] {
      RelaidReadsTheSame(RecordKind(schema), a[0].value, b[0].value);
      RelaidElements(schema, a[1..], b[1..]);
    }
  }

  /** Laying a document out anew changes neither the fields that are read nor the error. */
  lemma LayoutIndependence(schema: Schema, v: string, a: Document, s: string, w: string, b: Document, t: string)
    requires AllSpace(v) && AllSpace(w) && Fits(RecordKind(schema), a) && Relaid(a, b)
    ensures ParseObject(schema, v + Render(a, s)).Outcome() == ParseObject(schema, w + Render(b, t)).Outcome()
  {
    RelaidReadsTheSame(RecordKind(schema), a, b);
    ReadValue(RecordKind(schema), v, a, s);
    ReadValue(RecordKind(schema), w, b, t);
    ValueOfObject(schema, v + Render(a, s));
    ValueOfObject(schema, w + Render(b, t));
  }

  lemma ValueOfObject(schema: Schema, s: string)
    ensures ParseValue(RecordKind(schema), s) ==
            match ParseObject(schema, s)
            case Ok(fields, rest) => Ok(Record(fields), rest)
            case Err(e) => Err(e)
  {
  }
}
