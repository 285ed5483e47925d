/** The record reader accepts exactly the documents that fit its schema, and makes of each what Read
    says: white space and commas play no part. */
module ReadingDocuments {
  import opened Results
  import opened JsonText
  import opened JsonRecords
  import opened JsonDocuments

  // ---------- single tokens ----------

  lemma ExpectOver(w: string, c: char, tail: string)
    requires AllSpace(w) && !IsSpace(c)
    ensures Expect(w + ([c] + tail), c) == Ok((), tail)
    ensures Peek(w + ([c] + tail)) == c
    ensures SkipComma(w + ([c] + tail)) == if c == ',' then tail else [c] + tail
  {
    SkipSpaceOver(w, [c] + tail);
    assert ([c] + tail)[1..] == tail;
  }

  lemma ReadClosed(body: string, tail: string)
    requires Closed(body)
    ensures StringBody(body + ("\"" + tail)) == Leaving(ReadBody(body), tail)
  {
    StringBodyIsLocal(body + "\"", tail);
    assert body + ("\"" + tail) == (body + "\"") + tail;
    assert "" + tail == tail;
  }

  lemma ParseQuoted(w: string, body: string, tail: string)
    requires AllSpace(w) && Closed(body)
    ensures ParseString(w + ("\"" + (body + ("\"" + tail)))) == Leaving(ReadBody(body), tail)
  {
    ExpectOver(w, '"', body + ("\"" + tail));
    ReadClosed(body, tail);
  }

  predicate EndsLiteral(s: string) {
    s == "" || !IsDigit(s[0])
  }

  lemma ParseNumberOver(w: string, digits: string, tail: string)
    requires AllSpace(w) && IsLiteral(digits) && digits != "" && EndsLiteral(tail)
    ensures ParseNumber(w + (digits + tail)) == Leaving(Stoull(digits), tail)
  {
    SkipSpaceOver(w, digits + tail);
    assert !IsSpace((digits + tail)[0]);
    ParseLiteral(digits, tail);
  }

  lemma ParseWord(w: string, b: bool, tail: string)
    requires AllSpace(w)
    ensures ParseBool(w + ((if b then "true" else "false") + tail)) == Ok(b, tail)
  {
    var word := if b then "true" else "false";
    SkipSpaceOver(w, word + tail);
    assert word <= word + tail && (word + tail)[|word|..] == tail;
    assert (word + tail)[0] == word[0];
  }

  // ---------- the reader follows the document ----------

  lemma {:induction false} ReadValue(kind: Kind, w: string, d: Document, tail: string)
    requires AllSpace(w) && Fits(kind, d) && (d.Literal? ==> EndsLiteral(tail))
    ensures ParseValue(kind, w + Render(d, tail)) == Leaving(Read(kind, d), tail)
    decreases d, 0
  {
    match kind
    case TextKind => ParseQuoted(w, d.body, tail);
    case NumberKind => ParseNumberOver(w, d.digits, tail);
    case FlagKind => ParseWord(w, d.b, tail);
    case RecordKind(schema) =>
      ExpectOver(w, '{', RenderMembers(d.members, d.close + ("}" + tail)));
      ReadFields(schema, d.members, d.close, tail);
    case ListKind(schema) =>
      ExpectOver(w, '[', RenderElements(d.elements, d.close + ("]" + tail)));
      ReadItems(schema, d.elements, d.close, tail);
  }

  lemma MembersPeek(schema: Schema, ms: seq<Member>, close: string, tail: string)
    requires AllSpace(close) && MembersFit(schema, ms)
    ensures Peek(RenderMembers(ms, close + ("}" + tail))) == if ms == [] then '}' else '"'
  {
    if ms == [] {
      ExpectOver(close, '}', tail);
    } else {
      var m, rest := ms[0], RenderMembers(ms[1..], close + ("}" + tail));
      ExpectOver(m.pre, '"', m.key + ("\"" + (m.mid + (":" + AfterColon(m, rest)))));
    }
  }

  lemma {:induction false} ReadFields(schema: Schema, ms: seq<Member>, close: string, tail: string)
    requires AllSpace(close) && MembersFit(schema, ms)
    ensures ParseFields(schema, RenderMembers(ms, close + ("}" + tail))) == Leaving(ReadMembers(schema, ms), tail)
    decreases ms, 0
  {
    MembersPeek(schema, ms, close, tail);
    if ms == [] {
      ExpectOver(close, '}', tail);
    } else {
      var rest := RenderMembers(ms[1..], close + ("}" + tail));
      MembersPeek(schema, ms[1..], close, tail);
      ReadField(schema, ms[0], rest);
      ReadFields(schema, ms[1..], close, tail);
      assert ParseFields(schema, SkipSpace(rest)) == ParseFields(schema, rest) by {
        FieldsAfterSpace(schema, rest);
      }
    }
  }

  lemma FieldsAfterSpace(schema: Schema, s: string)
    ensures ParseFields(schema, SkipSpace(s)) == ParseFields(schema, s)
  {
    assert ParseField(schema, SkipSpace(s)) == ParseField(schema, s);
  }

  lemma ReadKey(m: Member, tail: string)
    requires AllSpace(m.pre) && AllSpace(m.mid) && Closed(m.key)
    ensures ParseKey(RenderMember(m, tail)) == Leaving(ReadBody(m.key), AfterColon(m, tail))
  {
    ParseQuoted(m.pre, m.key, m.mid + (":" + AfterColon(m, tail)));
    ExpectOver(m.mid, ':', AfterColon(m, tail));
  }

  lemma CommaAfter(post: string, comma: bool, tail: string)
    requires AllSpace(post) && Peek(tail) != ','
    ensures SkipComma(post + (Comma(comma) + tail)) == if comma then tail else SkipSpace(tail)
    ensures !IsDigit(Peek(tail)) ==> EndsLiteral(post + (Comma(comma) + tail))
  {
    if comma {
      ExpectOver(post, ',', tail);
    } else {
      assert Comma(comma) + tail == tail;
      SkipSpaceOver(post, tail);
    }
  }

  lemma {:induction false} ReadField(schema: Schema, m: Member, tail: string)
    requires MemberFits(schema, m) && Peek(tail) != ',' && !IsDigit(Peek(tail))
    ensures ParseField(schema, RenderMember(m, tail)) ==
            Leaving(ReadMember(schema, m), Remainder(m, tail))
    decreases m, 1
  {
    ReadKey(m, tail);
    if ReadBody(m.key).Success? {
      ReadFieldValue(schema, ReadBody(m.key).value, m, tail);
    }
  }

  /** The same from the value on: the gap, the value if the key is known, and the comma. */
  lemma {:induction false} ReadFieldValue(schema: Schema, key: string, m: Member, tail: string)
    requires MemberFits(schema, m) && Peek(tail) != ',' && !IsDigit(Peek(tail))
    requires ReadBody(m.key) == Success(key)
    ensures key in schema ==>
              match Read(schema[key], m.value)
              case Success(v) =>
                && ParseValue(schema[key], AfterColon(m, tail)).Ok?
                && ParseValue(schema[key], AfterColon(m, tail)).value == v
                && SkipComma(ParseValue(schema[key], AfterColon(m, tail)).rest) == Remainder(m, tail)
              case Failure(e) => ParseValue(schema[key], AfterColon(m, tail)) == Err(e)
    ensures key !in schema ==> SkipComma(AfterColon(m, tail)) == Remainder(m, tail)
    decreases m, 0
  {
    var after := m.post + (Comma(m.comma) + tail);
    CommaAfter(m.post, m.comma, tail);
    if key in schema {
      ReadValue(schema[key], m.gap, m.value, after);
    } else {
      SkipSpaceOver(m.gap, after);
    }
  }

  /** Where the reader stands after a member: past its comma if it has one. */
  function Remainder(m: Member, tail: string): string {
    if m.comma then tail else SkipSpace(tail)
  }

  lemma ElementsPeek(schema: Schema, es: seq<Element>, close: string, tail: string)
    requires AllSpace(close) && ElementsFit(schema, es)
    ensures Peek(RenderElements(es, close + ("]" + tail))) == if es == [] then ']' else '{'
  {
    if es == [] {
      ExpectOver(close, ']', tail);
    } else {
      var d := es[0].value;
      var after := es[0].post + (Comma(es[0].comma) + RenderElements(es[1..], close + ("]" + tail)));
      ExpectOver(es[0].pre, '{', RenderMembers(d.members, d.close + ("}" + after)));
    }
  }

  lemma {:induction false} ReadItems(schema: Schema, es: seq<Element>, close: string, tail: string)
    requires AllSpace(close) && ElementsFit(schema, es)
    ensures ParseItems(schema, RenderElements(es, close + ("]" + tail))) == Leaving(ReadElements(schema, es), tail)
    decreases es, 0
  {
    ElementsPeek(schema, es, close, tail);
    if es == [] {
      ExpectOver(close, ']', tail);
    } else {
      var rest := RenderElements(es[1..], close + ("]" + tail));
      var after := es[0].post + (Comma(es[0].comma) + rest);
      var text := es[0].pre + Render(es[0].value, after);
      assert RenderElements(es, close + ("]" + tail)) == text;
      ReadElementsUnfold(schema, es);
      ItemsUnfold(schema, text);
      hide ParseItems, ParseValue, Render, RenderElements, Read, ReadElements, Fits;
      ElementsPeek(schema, es[1..], close, tail);
      CommaAfter(es[0].post, es[0].comma, rest);
      ReadValue(RecordKind(schema), es[0].pre, es[0].value, after);
      ReadItems(schema, es[1..], close, tail);
      ItemsAfterSpace(schema, rest);
    }
  }

  lemma ReadElementsUnfold(schema: Schema, es: seq<Element>)
    requires ElementsFit(schema, es) && es != []
    ensures var first, more := Read(RecordKind(schema), es[0].value), ReadElements(schema, es[1..]);
            ReadElements(schema, es) ==
            if first.Failure? then Failure(first.error)
            else if more.Failure? then Failure(more.error)
            else Success([first.value] + more.value)
  {
  }

  lemma ItemsUnfold(schema: Schema, s: string)
    requires Peek(s) != ']'
    ensures var p := ParseValue(RecordKind(schema), s);
            && (p.Err? ==> ParseItems(schema, s) == Err(p.error))
            && (p.Ok? ==>
                  var q := ParseItems(schema, SkipComma(p.rest));
                  ParseItems(schema, s) == if q.Ok? then Ok([p.value] + q.value, q.rest) else Err(q.error))
  {
  }

  lemma ItemsAfterSpace(schema: Schema, s: string)
    ensures ParseItems(schema, SkipSpace(s)) == ParseItems(schema, s)
  {
    assert ParseObject(schema, SkipSpace(s)) == ParseObject(schema, s);
  }
}
