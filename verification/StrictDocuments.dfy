/** The documents that are JSON texts in the strict sense of RFC 8259, and what they denote. */
module StrictDocuments {
  import opened Results
  import opened JsonText
  import opened JsonDocuments
  import opened Rfc8259

  predicate Whole<T>(r: Option<(T, string)>) {
    r.Some? && r.value.1 == ""
  }

  /** Commas stand exactly between members, gaps hold white space, leaves are values by themselves. */
  predicate Strict(d: Document)
    decreases d, 0
  {
    match d
    case Object(ms, close) => AllSpace(close) && StrictMembers(ms)
    case Array(es, close) => AllSpace(close) && StrictElements(es)
    case Absent => false
    case _ => Whole(Value(Render(d, "")))
  }

  predicate StrictMembers(ms: seq<Member>)
    decreases ms, 0
  {
    ms == [] || (StrictMember(ms[0]) && ms[0].comma == (|ms| > 1) && StrictMembers(ms[1..]))
  }

  predicate StrictMember(m: Member)
    decreases m
  {
    && AllSpace(m.pre) && AllSpace(m.mid) && AllSpace(m.gap) && AllSpace(m.post)
    && Whole(Chars(m.key + "\""))
    && Strict(m.value)
  }

  predicate StrictElements(es: seq<Element>)
    decreases es, 0
  {
    es == [] ||
    (&& AllSpace(es[0].pre) && AllSpace(es[0].post) && Strict(es[0].value)
     && es[0].comma == (|es| > 1) && StrictElements(es[1..]))
  }

  function Denoted(d: Document): Json
    requires Strict(d)
    decreases d, 0
  {
    match d
    case Object(ms, _) => Obj(DenotedMembers(ms))
    case Array(es, _) => Arr(DenotedElements(es))
    case _ => Value(Render(d, "")).value.0
  }

  function DenotedMember(m: Member): Pair
    requires StrictMember(m)
    decreases m
  {
    Pair(Chars(m.key + "\"").value.0, Denoted(m.value))
  }

  function DenotedMembers(ms: seq<Member>): (pairs: seq<Pair>)
    requires StrictMembers(ms)
    ensures |pairs| == |ms|
    decreases ms, 0
  {
    if ms == [] then [] else [DenotedMember(ms[0])] + DenotedMembers(ms[1..])
  }

  function DenotedElements(es: seq<Element>): (items: seq<Json>)
    requires StrictElements(es)
    ensures |items| == |es|
    decreases es, 0
  {
    if es == [] then [] else [Denoted(es[0].value)] + DenotedElements(es[1..])
  }

  // ---------- the decoder reads strict documents ----------

  /** What a strict document begins with: no white space. */
  lemma FirstIsNoSpace(d: Document, tail: string)
    requires Strict(d)
    ensures Render(d, tail) != "" && !IsSpace(Render(d, tail)[0])
    ensures Render(d, tail)[0] !in {']', '}', ',', ':'}
  {
    if !d.Object? && !d.Array? {
      assert Value(Render(d, "")).Some?;
      assert Render(d, "")[0] == Render(d, tail)[0] by {
        match d
        case Quoted(body) =>
        case Literal(digits) => assert Render(d, "") == digits;
        case Word(b) =>
      }
      assert LiteralName(Render(d, "")).Some? ==> Render(d, "")[0] in {'n', 't', 'f'};
    }
  }

  lemma {:induction false} DecodeStrict(d: Document, tail: string)
    requires Strict(d) && EndsNumber(tail)
    ensures Value(Render(d, tail)) == Some((Denoted(d), tail))
    decreases d, 0
  {
    match d
    case Object(ms, close) => DecodeBraces(ms, close, tail);
    case Array(es, close) => DecodeBrackets(es, close, tail);
    case _ => DecodeLeaf(d, tail);
  }

  lemma DecodeLeaf(d: Document, tail: string)
    requires Strict(d) && !d.Object? && !d.Array? && EndsNumber(tail)
    ensures Value(Render(d, tail)) == Some((Denoted(d), tail))
  {
    assert Render(d, "") + tail == Render(d, tail) by { RenderThenTail(d, tail); }
    ValueIsLocal(Render(d, ""), tail);
    assert "" + tail == tail;
  }

  lemma {:induction false} DecodeBraces(ms: seq<Member>, close: string, tail: string)
    requires StrictMembers(ms) && AllSpace(close)
    ensures Value("{" + RenderMembers(ms, close + ("}" + tail))) == Some((Obj(DenotedMembers(ms)), tail))
    decreases ms, 1
  {
    var text := RenderMembers(ms, close + ("}" + tail));
    assert ("{" + text)[1..] == text;
    if ms == [] {
      SpaceThen(close, '}', tail);
    } else {
      DecodeMembers(ms, close, tail);
    }
  }

  lemma {:induction false} DecodeBrackets(es: seq<Element>, close: string, tail: string)
    requires StrictElements(es) && AllSpace(close)
    ensures Value("[" + RenderElements(es, close + ("]" + tail))) == Some((Arr(DenotedElements(es)), tail))
    decreases es, 1
  {
    var text := RenderElements(es, close + ("]" + tail));
    assert ("[" + text)[1..] == text;
    if es == [] {
      SpaceThen(close, ']', tail);
    } else {
      DecodeElements(es, close, tail);
    }
  }

  lemma SpaceThen(w: string, c: char, tail: string)
    requires AllSpace(w) && !IsSpace(c)
    ensures SkipSpace(w + ([c] + tail)) == [c] + tail
    ensures ([c] + tail)[1..] == tail
    ensures EndsNumber(w + ([c] + tail)) <== EndsNumber([c])
  {
    SkipSpaceOver(w, [c] + tail);
  }

  /** What stands after a member or an element: the gap, then a comma or the closing bracket. */
  lemma AfterValue(post: string, comma: bool, rest: string, close: string, bracket: char, tail: string)
    requires AllSpace(post) && AllSpace(close) && bracket in {']', '}'}
    requires !comma ==> rest == close + ([bracket] + tail)
    ensures SkipSpace(post + (Comma(comma) + rest)) == if comma then "," + rest else [bracket] + tail
    ensures ("," + rest)[1..] == rest && ([bracket] + tail)[1..] == tail
    ensures EndsNumber(post + (Comma(comma) + rest))
  {
    if comma {
      SpaceThen(post, ',', rest);
    } else {
      assert post + (Comma(comma) + rest) == (post + close) + ([bracket] + tail);
      SpaceThen(post + close, bracket, tail);
    }
  }

  lemma {:induction false} DecodeMembers(ms: seq<Member>, close: string, tail: string)
    requires StrictMembers(ms) && AllSpace(close) && ms != []
    ensures var s := SkipSpace(RenderMembers(ms, close + ("}" + tail)));
            s != "" && s[0] == '"' && Pairs(s) == Some((DenotedMembers(ms), tail))
    decreases ms, 0
  {
    var m, rest := ms[0], RenderMembers(ms[1..], close + ("}" + tail));
    SpaceThen(m.pre, '"', m.key + ("\"" + (m.mid + (":" + AfterColon(m, rest)))));
    AfterValue(m.post, m.comma, rest, close, '}', tail);
    DecodeMember(m, rest);
    if m.comma {
      DecodeMembers(ms[1..], close, tail);
    } else {
      assert [DenotedMember(m)] + [] == [DenotedMember(m)];
    }
  }

  lemma {:induction false} DecodeMember(m: Member, rest: string)
    requires StrictMember(m) && EndsNumber(m.post + (Comma(m.comma) + rest))
    ensures OnePair("\"" + (m.key + ("\"" + (m.mid + (":" + AfterColon(m, rest)))))) ==
            Some((DenotedMember(m), m.post + (Comma(m.comma) + rest)))
    decreases m
  {
    var more := m.mid + (":" + AfterColon(m, rest));
    var after := m.post + (Comma(m.comma) + rest);
    DecodeName(m.key, more);
    SpaceThen(m.mid, ':', AfterColon(m, rest));
    assert Value(SkipSpace(AfterColon(m, rest))) == Some((Denoted(m.value), after)) by {
      SkipSpaceOver(m.gap, Render(m.value, after));
      FirstIsNoSpace(m.value, after);
      DecodeStrict(m.value, after);
    }
  }

  lemma DecodeName(key: string, more: string)
    requires Whole(Chars(key + "\""))
    ensures String("\"" + (key + ("\"" + more))) == Some((Chars(key + "\"").value.0, more))
  {
    CharsIsLocal(key + "\"", more);
    assert (key + "\"") + more == key + ("\"" + more) && "" + more == more;
    assert ("\"" + (key + ("\"" + more)))[1..] == key + ("\"" + more);
  }

  lemma {:induction false} DecodeElements(es: seq<Element>, close: string, tail: string)
    requires StrictElements(es) && AllSpace(close) && es != []
    ensures var s := SkipSpace(RenderElements(es, close + ("]" + tail)));
            s != "" && s[0] != ']' && Items(s) == Some((DenotedElements(es), tail))
    decreases es, 0
  {
    var e, rest := es[0], RenderElements(es[1..], close + ("]" + tail));
    var after := e.post + (Comma(e.comma) + rest);
    SkipSpaceOver(e.pre, Render(e.value, after));
    FirstIsNoSpace(e.value, after);
    AfterValue(e.post, e.comma, rest, close, ']', tail);
    DecodeStrict(e.value, after);
    if e.comma {
      DecodeElements(es[1..], close, tail);
    } else {
      assert [Denoted(e.value)] + [] == [Denoted(e.value)];
    }
  }

  /** A strict document is a JSON text, with white space around it allowed. */
  lemma StrictIsJsonText(w: string, d: Document, v: string)
    requires Strict(d) && AllSpace(w) && AllSpace(v)
    ensures Decode(w + Render(d, v)) == Some(Denoted(d))
  {
    SkipSpaceOver(w, Render(d, v));
    FirstIsNoSpace(d, v);
    DecodeStrict(d, v);
    SkipSpaceOver(v, "");
    assert v + "" == v;
  }
}
