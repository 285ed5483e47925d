/** The layout of the builder's texts, said of the texts alone: a re-indenter that knows only brackets,
    quotes, commas and colons leaves them as they are. */
module Reindenting {
  import opened Results
  import opened Sequences
  import opened JsonText
  import opened JsonRecords
  import opened JsonDocuments
  import opened PrettyDocuments
  import opened JsonUtils
  import opened BuilderRuns
  import opened BuilderTexts

  // ---------- the re-indenter ----------

  /** A line break and two blanks for every open container. */
  function FreshLine(open: int): (line: string)
    ensures |line| == 1 + (if open < 0 then 0 else 2 * open)
    ensures line[0] == '\n' && forall i | 1 <= i < |line| :: line[i] == ' '
  {
    ['\n'] + seq(if open < 0 then 0 else 2 * open, _ => ' ')
  }

  /** The length of a string after its opening quote, with the closing one. */
  function QuotedLength(s: string): (n: nat)
    ensures n <= |s|
  {
    if s == "" then 0
    else if s[0] == '"' then 1
    else if s[0] == '\\' && |s| > 1 then 2 + QuotedLength(s[2..])
    else 1 + QuotedLength(s[1..])
  }

  predicate ClosesNext(s: string) {
    var t := SkipSpace(s);
    t != "" && (t[0] == '}' || t[0] == ']')
  }

  /** The text with its white space outside strings taken out and put in anew: a line for everything
      behind an opening bracket or a comma and for every closing bracket, and a blank behind a colon.
      `open` containers are open at its start. */
  function Relaid(open: int, s: string): string
    decreases |s|
  {
    if s == "" then ""
    else if IsSpace(s[0]) then Relaid(open, s[1..])
    else match s[0]
      case '"' =>
        var n := 1 + QuotedLength(s[1..]);
        s[..n] + Relaid(open, s[n..])
      case '{' => "{" + (BehindBracket(open + 1, s[1..]) + Relaid(open + 1, s[1..]))
      case '[' => "[" + (BehindBracket(open + 1, s[1..]) + Relaid(open + 1, s[1..]))
      case '}' => FreshLine(open - 1) + ("}" + Relaid(open - 1, s[1..]))
      case ']' => FreshLine(open - 1) + ("]" + Relaid(open - 1, s[1..]))
      case ',' => "," + (FreshLine(open) + Relaid(open, s[1..]))
      case ':' => ":" + (" " + Relaid(open, s[1..]))
      case _ => [s[0]] + Relaid(open, s[1..])
  }

  function BehindBracket(open: int, s: string): string {
    if ClosesNext(s) then "" else FreshLine(open)
  }

  // ---------- one token in front of a text ----------

  lemma {:induction false} RelaidOverSpace(open: int, w: string, s: string)
    requires AllSpace(w)
    ensures Relaid(open, w + s) == Relaid(open, s)
  {
    if w == "" {
      WithNothing(s);
    } else {
      assert (w + s)[1..] == w[1..] + s;
      RelaidOverSpace(open, w[1..], s);
    }
  }

  lemma RelaidNothing(open: int)
    ensures Relaid(open, "") == ""
  {
  }

  lemma RelaidBracket(open: int, s: string)
    ensures Relaid(open, "{" + s) == "{" + (BehindBracket(open + 1, s) + Relaid(open + 1, s))
    ensures Relaid(open, "[" + s) == "[" + (BehindBracket(open + 1, s) + Relaid(open + 1, s))
    ensures Relaid(open, "}" + s) == FreshLine(open - 1) + ("}" + Relaid(open - 1, s))
    ensures Relaid(open, "]" + s) == FreshLine(open - 1) + ("]" + Relaid(open - 1, s))
  {
    DropFirst('{', s);
    DropFirst('[', s);
    DropFirst('}', s);
    DropFirst(']', s);
  }

  lemma RelaidSeparator(open: int, s: string)
    ensures Relaid(open, "," + s) == "," + (FreshLine(open) + Relaid(open, s))
    ensures Relaid(open, ":" + s) == ":" + (" " + Relaid(open, s))
  {
    DropFirst(',', s);
    DropFirst(':', s);
  }

  /** Characters that mean nothing to the re-indenter outside strings. */
  predicate Inert(c: char) {
    !IsSpace(c) && c !in {'"', '{', '[', '}', ']', ',', ':'}
  }

  lemma {:induction false} RelaidInert(open: int, word: string, s: string)
    requires forall i | 0 <= i < |word| :: Inert(word[i])
    ensures Relaid(open, word + s) == word + Relaid(open, s)
  {
    if word == "" {
      WithNothing(s);
      WithNothing(Relaid(open, s));
    } else {
      assert (word + s)[0] == word[0] && (word + s)[1..] == word[1..] + s;
      RelaidInert(open, word[1..], s);
      FirstAndRest(word);
      Associate([word[0]], word[1..], Relaid(open, s));
    }
  }

  lemma {:induction false} LengthOfEscaped(text: string, s: string)
    ensures QuotedLength(EscapeString(text) + ("\"" + s)) == |EscapeString(text)| + 1
  {
    if text == "" {
      WithNothing("\"" + s);
    } else {
      var more := EscapeString(text[1..]) + ("\"" + s);
      Associate(EscapeChar(text[0]), EscapeString(text[1..]), "\"" + s);
      LengthOfEscaped(text[1..], s);
      LengthOfPiece(text[0], more);
    }
  }

  predicate Unquoted(h: string) {
    forall i | 0 <= i < |h| :: h[i] != '"' && h[i] != '\\'
  }

  lemma LengthOfPiece(c: char, more: string)
    ensures QuotedLength(EscapeChar(c) + more) == |EscapeChar(c)| + QuotedLength(more)
  {
    hide HexOfChar, QuotedLength;
    if ShortEscape(c).Some? {
      LengthOfEscape(ShortEscape(c).value, more);
    } else if BelowSpace(c) {
      var h := HexOfChar(c);
      Associate("\\u", h, more);
      LengthOfEscape('u', h + more);
      LengthOfHex(h, more);
    } else {
      LengthOfHex([c], more);
    }
  }

  lemma LengthOfEscape(letter: char, more: string)
    ensures QuotedLength(['\\', letter] + more) == 2 + QuotedLength(more)
  {
    assert (['\\', letter] + more)[2..] == more;
  }

  lemma {:induction false} LengthOfHex(h: string, more: string)
    requires Unquoted(h)
    ensures QuotedLength(h + more) == |h| + QuotedLength(more)
  {
    if h == "" {
      WithNothing(more);
    } else {
      assert (h + more)[1..] == h[1..] + more;
      LengthOfHex(h[1..], more);
    }
  }

  lemma RelaidString(open: int, text: string, s: string)
    ensures Relaid(open, "\"" + (EscapeString(text) + ("\"" + s))) ==
            "\"" + (EscapeString(text) + ("\"" + Relaid(open, s)))
  {
    var body := EscapeString(text);
    var all := "\"" + (body + ("\"" + s));
    LengthOfEscaped(text, s);
    hide EscapeString, QuotedLength;
    DropFirst('"', body + ("\"" + s));
    var n := 1 + QuotedLength(all[1..]);
    assert all[..n] == "\"" + (body + "\"") && all[n..] == s;
    assert Relaid(open, all) == all[..n] + Relaid(open, all[n..]);
    hide Relaid;
    Associate("\"", body + "\"", Relaid(open, s));
    Associate(body, "\"", Relaid(open, s));
  }

  // ---------- the builder's documents ----------

  lemma IndentIsBlanks(level: int)
    ensures NewLine(level) == FreshLine(level)
  {
  }

  lemma DecimalIsInert(n: int)
    ensures forall i | 0 <= i < |SignedDecimal(n)| :: Inert(SignedDecimal(n)[i])
  {
    hide Decimal;
  }

  /** The text of a value stays as it is, whatever follows it. */
  lemma {:induction false} RelaidValue(v: Value, level: int, tail: string)
    requires Complete(v)
    ensures Relaid(level, Render(Pretty(v, level), tail)) == Render(Pretty(v, level), Relaid(level, tail))
    decreases v, 0
  {
    match v
    case Text(text) => RelaidString(level, text, tail);
    case Number(n) =>
      DecimalIsInert(n);
      RelaidInert(level, SignedDecimal(n), tail);
    case Flag(b) => RelaidInert(level, if b then "true" else "false", tail);
    case Record(fields) => RelaidRecord(fields, level, tail);
    case List(items) => RelaidList(items, level, tail);
  }

  /** The closing bracket on its line. */
  lemma RelaidEnd(level: int, tail: string)
    ensures Relaid(level + 1, NewLine(level) + ("}" + tail)) == NewLine(level) + ("}" + Relaid(level, tail))
    ensures Relaid(level + 1, NewLine(level) + ("]" + tail)) == NewLine(level) + ("]" + Relaid(level, tail))
    ensures ClosesNext(NewLine(level) + ("}" + tail)) && ClosesNext(NewLine(level) + ("]" + tail))
  {
    SpaceInLayout(level);
    IndentIsBlanks(level);
    hide NewLine, FreshLine, Relaid;
    RelaidOverSpace(level + 1, NewLine(level), "}" + tail);
    RelaidOverSpace(level + 1, NewLine(level), "]" + tail);
    RelaidBracket(level + 1, tail);
    SkipSpaceOver(NewLine(level), "}" + tail);
    SkipSpaceOver(NewLine(level), "]" + tail);
  }

  lemma {:induction false} RelaidRecord(fields: seq<Field>, level: int, tail: string)
    requires FieldsComplete(fields)
    ensures Relaid(level, Render(Pretty(Record(fields), level), tail)) ==
            Render(Pretty(Record(fields), level), Relaid(level, tail))
    decreases fields, 1
  {
    var end := NewLine(level) + ("}" + tail);
    var text := RenderMembers(PrettyMembers(fields, level + 1), end);
    RelaidEnd(level, tail);
    RelaidBracket(level, text);
    if fields == [] {
      WithNothing(Relaid(level + 1, text));
    } else {
      RelaidMembers(fields, level + 1, end);
    }
  }

  lemma {:induction false} RelaidMembers(fields: seq<Field>, level: int, tail: string)
    requires fields != [] && FieldsComplete(fields)
    ensures BehindBracket(level, RenderMembers(PrettyMembers(fields, level), tail)) == FreshLine(level)
    ensures FreshLine(level) + Relaid(level, RenderMembers(PrettyMembers(fields, level), tail)) ==
            RenderMembers(PrettyMembers(fields, level), Relaid(level, tail))
    decreases fields, 0
  {
    var f, rest, comma := fields[0], fields[1..], |fields| > 1;
    var m, ms := PrettyMember(f, level, comma), PrettyMembers(rest, level);
    var more := RenderMembers(ms, tail);
    DropFirst(m, ms);
    RelaidMember(f, level, comma, more);
    if comma {
      RelaidMembers(rest, level, tail);
    } else {
      WithNothing(Relaid(level, tail));
    }
  }

  /** A line of text that starts with neither white space nor a closing bracket. */
  lemma BehindLine(level: int, text: string)
    requires text != "" && !IsSpace(text[0]) && text[0] != '}' && text[0] != ']'
    ensures BehindBracket(level, NewLine(level) + text) == FreshLine(level)
    ensures Relaid(level, NewLine(level) + text) == Relaid(level, text)
  {
    SpaceInLayout(level);
    hide NewLine, FreshLine, Relaid;
    SkipSpaceOver(NewLine(level), text);
    RelaidOverSpace(level, NewLine(level), text);
  }

  lemma RelaidComma(level: int, comma: bool, tail: string)
    ensures Relaid(level, Comma(comma) + tail) ==
            Comma(comma) + ((if comma then FreshLine(level) else "") + Relaid(level, tail))
  {
    if comma {
      RelaidSeparator(level, tail);
    } else {
      WithNothing(tail);
      WithNothing(Relaid(level, tail));
    }
  }

  lemma MemberSpelled(f: Field, level: int, comma: bool, tail: string)
    ensures RenderMember(PrettyMember(f, level, comma), tail) ==
            NewLine(level) + ("\"" + (EscapeString(f.key) + ("\"" + (":" + (" " +
              Render(Pretty(f.value, level), Comma(comma) + tail))))))
  {
    hide NewLine, Pretty, Render, EscapeString;
    WithNothing(Comma(comma) + tail);
    WithNothing(":" + (" " + Render(Pretty(f.value, level), Comma(comma) + tail)));
  }

  lemma {:induction false} RelaidMember(f: Field, level: int, comma: bool, tail: string)
    requires Complete(f.value)
    ensures BehindBracket(level, RenderMember(PrettyMember(f, level, comma), tail)) == FreshLine(level)
    ensures FreshLine(level) + Relaid(level, RenderMember(PrettyMember(f, level, comma), tail)) ==
            RenderMember(PrettyMember(f, level, comma), (if comma then FreshLine(level) else "") + Relaid(level, tail))
    decreases f
  {
    var next := (if comma then FreshLine(level) else "") + Relaid(level, tail);
    var value := Render(Pretty(f.value, level), Comma(comma) + tail);
    var text := "\"" + (EscapeString(f.key) + ("\"" + (":" + (" " + value))));
    MemberSpelled(f, level, comma, tail);
    MemberSpelled(f, level, comma, next);
    RelaidValue(f.value, level, Comma(comma) + tail);
    RelaidComma(level, comma, tail);
    IndentIsBlanks(level);
    hide Relaid, FreshLine, NewLine, BehindBracket, Render, Pretty, EscapeString, RenderMember, PrettyMember;
    BehindLine(level, text);
    RelaidString(level, f.key, ":" + (" " + value));
    RelaidSeparator(level, " " + value);
    RelaidOverSpace(level, " ", value);
  }

  lemma {:induction false} RelaidList(items: seq<Value>, level: int, tail: string)
    requires ItemsComplete(items)
    ensures Relaid(level, Render(Pretty(List(items), level), tail)) ==
            Render(Pretty(List(items), level), Relaid(level, tail))
    decreases items, 1
  {
    var end := NewLine(level) + ("]" + tail);
    var text := RenderElements(PrettyElements(items, level + 1), end);
    RelaidEnd(level, tail);
    RelaidBracket(level, text);
    if items == [] {
      WithNothing(Relaid(level + 1, text));
    } else {
      RelaidElements(items, level + 1, end);
    }
  }

  /** The text of an element and what follows it. */
  function ElementText(item: Value, level: int, comma: bool, tail: string): string {
    NewLine(level) + Render(Pretty(item, level), Comma(comma) + tail)
  }

  lemma ElementSpelled(item: Value, level: int, comma: bool, tail: string)
    ensures var e := PrettyElement(item, level, comma);
            e.pre + Render(e.value, e.post + (Comma(e.comma) + tail)) == ElementText(item, level, comma, tail)
  {
    hide NewLine, Pretty, Render;
    WithNothing(Comma(comma) + tail);
  }

  lemma ValueStarts(v: Value, level: int, tail: string)
    requires Complete(v)
    ensures var s := Render(Pretty(v, level), tail);
            s != "" && !IsSpace(s[0]) && s[0] != '}' && s[0] != ']'
  {
    if v.Number? {
      DecimalIsInert(v.n);
      assert SignedDecimal(v.n) != "" && Inert(SignedDecimal(v.n)[0]);
    }
  }

  lemma {:induction false} RelaidElement(item: Value, level: int, comma: bool, tail: string)
    requires Complete(item)
    ensures BehindBracket(level, ElementText(item, level, comma, tail)) == FreshLine(level)
    ensures FreshLine(level) + Relaid(level, ElementText(item, level, comma, tail)) ==
            ElementText(item, level, comma, (if comma then FreshLine(level) else "") + Relaid(level, tail))
    decreases item, 1
  {
    var value := Render(Pretty(item, level), Comma(comma) + tail);
    RelaidValue(item, level, Comma(comma) + tail);
    RelaidComma(level, comma, tail);
    ValueStarts(item, level, Comma(comma) + tail);
    IndentIsBlanks(level);
    hide Relaid, FreshLine, NewLine, BehindBracket, Render, Pretty;
    BehindLine(level, value);
  }

  lemma {:induction false} RelaidElements(items: seq<Value>, level: int, tail: string)
    requires items != [] && ItemsComplete(items)
    ensures BehindBracket(level, RenderElements(PrettyElements(items, level), tail)) == FreshLine(level)
    ensures FreshLine(level) + Relaid(level, RenderElements(PrettyElements(items, level), tail)) ==
            RenderElements(PrettyElements(items, level), Relaid(level, tail))
    decreases items, 0
  {
    var item, rest, comma := items[0], items[1..], |items| > 1;
    var e, es := PrettyElement(item, level, comma), PrettyElements(rest, level);
    var more := RenderElements(es, tail);
    DropFirst(e, es);
    RelaidElement(item, level, comma, more);
    ElementSpelled(item, level, comma, more);
    ElementSpelled(item, level, comma, RenderElements(es, Relaid(level, tail)));
    if comma {
      RelaidElements(rest, level, tail);
    } else {
      WithNothing(Relaid(level, tail));
    }
  }

  /** Every properly nested run of the builder writes a text that the re-indenter leaves as it is. */
  lemma RunsAreLaidOut(calls: seq<Call>, v: Value)
    requires ValueOf(calls) == Some((v, []))
    ensures Relaid(0, Run(FreshPrinter, calls).buffer) == Run(FreshPrinter, calls).buffer
  {
    CallsSpellComplete(calls);
    WholeRun(calls, v);
    RelaidValue(v, 0, "");
  }
}
