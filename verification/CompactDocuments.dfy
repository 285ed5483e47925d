/** JSON texts without white space, whose commas a loop or a chain of insertions puts in by hand. */
module CompactDocuments {
  import opened Results
  import opened JsonText
  import opened JsonDocuments
  import opened StrictDocuments
  import opened BuilderTexts
  import opened JsonEscaping
  import Rfc = Rfc8259

  // ---------- documents without white space ----------

  datatype Entry = Entry(name: string, value: Document)

  function CompactElements(ds: seq<Document>): seq<Element> {
    if ds == [] then [] else [Element("", ds[0], "", |ds| > 1)] + CompactElements(ds[1..])
  }

  /** The names are escaped already. */
  function CompactMembers(entries: seq<Entry>): seq<Member> {
    if entries == [] then []
    else [Member("", entries[0].name, "", "", entries[0].value, "", |entries| > 1)] + CompactMembers(entries[1..])
  }

  function ArrayOf(ds: seq<Document>): Document {
    Array(CompactElements(ds), "")
  }

  function ObjectOf(entries: seq<Entry>): Document {
    Object(CompactMembers(entries), "")
  }

  function StringOf(s: string): Document {
    Quoted(EscapeJson(s))
  }

  function NumberOf(n: int): Document {
    Literal(SignedDecimal(n))
  }

  // ---------- the texts, as the loops put them together ----------

  /** Texts with a comma between one and the next. */
  function Joined(texts: seq<string>): string {
    if texts == [] then ""
    else if |texts| == 1 then texts[0]
    else Joined(texts[..|texts| - 1]) + "," + texts[|texts| - 1]
  }

  lemma {:induction false} JoinedFromTheFront(texts: seq<string>)
    requires |texts| > 1
    ensures Joined(texts) == texts[0] + "," + Joined(texts[1..])
  {
    var n := |texts| - 1;
    if n > 1 {
      JoinedFromTheFront(texts[..n]);
      assert texts[1..][..n - 1] == texts[..n][1..];
    }
  }

  function TextsOf(ds: seq<Document>): (texts: seq<string>)
    ensures |texts| == |ds| && forall i | 0 <= i < |ds| :: texts[i] == Render(ds[i], "")
  {
    seq(|ds|, i requires 0 <= i < |ds| => Render(ds[i], ""))
  }

  function Label(name: string): string {
    "\"" + name + "\":"
  }

  function EntryText(e: Entry): string {
    Label(e.name) + Render(e.value, "")
  }

  function EntryTexts(entries: seq<Entry>): (texts: seq<string>)
    ensures |texts| == |entries| && forall i | 0 <= i < |entries| :: texts[i] == EntryText(entries[i])
  {
    seq(|entries|, i requires 0 <= i < |entries| => EntryText(entries[i]))
  }

  lemma {:induction false} ElementsAreJoined(ds: seq<Document>)
    ensures RenderElements(CompactElements(ds), "") == Joined(TextsOf(ds))
  {
    if ds != [] {
      var rest := RenderElements(CompactElements(ds[1..]), "");
      ElementsAreJoined(ds[1..]);
      assert CompactElements(ds)[1..] == CompactElements(ds[1..]);
      assert TextsOf(ds)[1..] == TextsOf(ds[1..]);
      RenderThenTail(ds[0], "" + (Comma(|ds| > 1) + rest));
      if |ds| > 1 {
        JoinedFromTheFront(TextsOf(ds));
      }
    }
  }

  lemma {:induction false} MembersAreJoined(entries: seq<Entry>)
    ensures RenderMembers(CompactMembers(entries), "") == Joined(EntryTexts(entries))
  {
    if entries != [] {
      var rest := RenderMembers(CompactMembers(entries[1..]), "");
      MembersAreJoined(entries[1..]);
      assert CompactMembers(entries)[1..] == CompactMembers(entries[1..]);
      assert EntryTexts(entries)[1..] == EntryTexts(entries[1..]);
      CompactMember(entries[0], |entries| > 1, rest);
      if |entries| > 1 {
        JoinedFromTheFront(EntryTexts(entries));
      }
    }
  }

  lemma CompactMember(e: Entry, comma: bool, rest: string)
    ensures RenderMember(Member("", e.name, "", "", e.value, "", comma), rest) == EntryText(e) + Comma(comma) + rest
  {
    var m := Member("", e.name, "", "", e.value, "", comma);
    RenderThenTail(e.value, "" + (Comma(comma) + rest));
    assert AfterColon(m, rest) == Render(e.value, "") + (Comma(comma) + rest);
  }

  /** The text of a compact object: the joined members between braces. */
  lemma ObjectText(entries: seq<Entry>)
    ensures Render(ObjectOf(entries), "") == "{" + Joined(EntryTexts(entries)) + "}"
  {
    MembersAreJoined(entries);
    MembersThenTail(CompactMembers(entries), "" + ("}" + ""));
  }

  lemma ArrayText(ds: seq<Document>)
    ensures Render(ArrayOf(ds), "") == "[" + Joined(TextsOf(ds)) + "]"
  {
    ElementsAreJoined(ds);
    ElementsThenTail(CompactElements(ds), "" + ("]" + ""));
  }

  // ---------- what the documents denote ----------

  lemma StringDenotes(s: string)
    ensures Strict(StringOf(s)) && Denoted(StringOf(s)) == Rfc.Str(Codes(s))
    ensures Render(StringOf(s), "") == "\"" + EscapeJson(s) + "\""
  {
    EscapeJsonDecodes(s, "");
    assert Render(StringOf(s), "")[1..] == EscapeJson(s) + ("\"" + "");
  }

  lemma NumberDenotes(n: int)
    ensures Strict(NumberOf(n)) && Denoted(NumberOf(n)) == Rfc.Num(n, 0)
    ensures Render(NumberOf(n), "") == SignedDecimal(n)
  {
    SignedDecimalIsNumber(n);
    assert SignedDecimal(n) + "" == SignedDecimal(n);
  }

  /** The entry is a member of a strict document and denotes the pair. */
  predicate EntryIs(e: Entry, pair: Rfc.Pair) {
    && Rfc.Chars(e.name + "\"") == Some((pair.name, ""))
    && Strict(e.value)
    && Denoted(e.value) == pair.value
  }

  lemma {:induction false} ObjectDenotes(entries: seq<Entry>, pairs: seq<Rfc.Pair>)
    requires |entries| == |pairs|
    requires forall i | 0 <= i < |entries| :: EntryIs(entries[i], pairs[i])
    ensures StrictMembers(CompactMembers(entries)) && DenotedMembers(CompactMembers(entries)) == pairs
  {
    if entries != [] {
      ObjectDenotes(entries[1..], pairs[1..]);
      assert CompactMembers(entries)[1..] == CompactMembers(entries[1..]);
      assert |CompactMembers(entries)| > 1 <==> |entries| > 1;
      assert pairs == [pairs[0]] + pairs[1..];
    }
  }

  lemma {:induction false} ArrayDenotes(ds: seq<Document>, items: seq<Rfc.Json>)
    requires |ds| == |items|
    requires forall i | 0 <= i < |ds| :: Strict(ds[i]) && Denoted(ds[i]) == items[i]
    ensures StrictElements(CompactElements(ds)) && DenotedElements(CompactElements(ds)) == items
  {
    if ds != [] {
      ArrayDenotes(ds[1..], items[1..]);
      assert CompactElements(ds)[1..] == CompactElements(ds[1..]);
      assert |CompactElements(ds)| > 1 <==> |ds| > 1;
      assert items == [items[0]] + items[1..];
    }
  }

  /** A name of letters, digits and underscores stands for itself. */
  lemma PlainName(name: string)
    requires Plain(name)
    ensures Rfc.Chars(name + "\"") == Some((Codes(name), ""))
  {
    PlainCharsDecode(name, "\"");
    assert Codes(name) + [] == Codes(name);
  }

  // ---------- members, as the serializers spell them ----------

  function StringMember(name: string, escaped: string): string {
    Label(name) + ("\"" + escaped + "\"")
  }

  function NumberMember(name: string, n: int): string {
    Label(name) + SignedDecimal(n)
  }

  lemma StringEntry(name: string, s: string)
    requires Plain(name)
    ensures EntryText(Entry(name, StringOf(s))) == StringMember(name, EscapeJson(s))
    ensures EntryIs(Entry(name, StringOf(s)), Rfc.Pair(Codes(name), Rfc.Str(Codes(s))))
  {
    PlainName(name);
    StringDenotes(s);
  }

  lemma NumberEntry(name: string, n: int)
    requires Plain(name)
    ensures EntryText(Entry(name, NumberOf(n))) == NumberMember(name, n)
    ensures EntryIs(Entry(name, NumberOf(n)), Rfc.Pair(Codes(name), Rfc.Num(n, 0)))
  {
    PlainName(name);
    NumberDenotes(n);
  }

  lemma DocumentEntry(name: string, d: Document, j: Rfc.Json)
    requires Plain(name) && Strict(d) && Denoted(d) == j
    ensures EntryIs(Entry(name, d), Rfc.Pair(Codes(name), j))
  {
    PlainName(name);
  }

  lemma JoinedOneMore(texts: seq<string>, t: string)
    ensures Joined(texts + [t]) == if texts == [] then t else Joined(texts) + "," + t
  {
    assert (texts + [t])[..|texts|] == texts;
  }

  /** The text that a strict document has is decoded to what the document denotes. */
  lemma TextDecodes(d: Document, text: string, j: Rfc.Json)
    requires Strict(d) && Denoted(d) == j && text == Render(d, "")
    ensures Rfc.Decode(text) == Some(j)
  {
    StrictIsJsonText("", d, "");
    assert "" + text == text;
  }

  lemma ObjectIs(entries: seq<Entry>, pairs: seq<Rfc.Pair>)
    requires |entries| == |pairs|
    requires forall i | 0 <= i < |entries| :: EntryIs(entries[i], pairs[i])
    ensures Strict(ObjectOf(entries)) && Denoted(ObjectOf(entries)) == Rfc.Obj(pairs)
  {
    ObjectDenotes(entries, pairs);
  }

  /** One more text in the array that the loop writes. */
  lemma TextsGrow(ds: seq<Document>, i: nat)
    requires i < |ds|
    ensures Joined(TextsOf(ds[..i + 1])) == Joined(TextsOf(ds[..i])) + Comma(i > 0) + Render(ds[i], "")
    ensures Joined(TextsOf(ds[..0])) == ""
  {
    hide Render;
    JoinedOneMore(TextsOf(ds[..i]), Render(ds[i], ""));
    assert TextsOf(ds[..i + 1]) == TextsOf(ds[..i]) + [Render(ds[i], "")];
  }

  lemma EntriesGrow(entries: seq<Entry>, i: nat)
    requires i < |entries|
    ensures Joined(EntryTexts(entries[..i + 1])) ==
            Joined(EntryTexts(entries[..i])) + Comma(i > 0) + EntryText(entries[i])
  {
    hide Joined, EntryText;
    EntryTextsGrow(entries, i);
    hide EntryTexts;
    JoinedOneMore(EntryTexts(entries[..i]), EntryText(entries[i]));
  }

  lemma EntryTextsGrow(entries: seq<Entry>, i: nat)
    requires i < |entries|
    ensures EntryTexts(entries[..i + 1]) == EntryTexts(entries[..i]) + [EntryText(entries[i])]
    ensures |EntryTexts(entries[..i])| == i && (i == 0 ==> Joined(EntryTexts(entries[..i])) == "")
  {
    hide EntryText;
  }

  lemma NoTexts()
    ensures Joined(TextsOf([])) == "" && Joined(EntryTexts([])) == ""
    ensures forall a: string :: a + "" == a
  {
  }

  /** Eight members one after the other, the most that a serializer writes. */
  lemma JoinedEight(a: string, b: string, c: string, d: string, e: string, f: string, g: string, h: string)
    ensures Joined([a, b]) == a + "," + b
    ensures Joined([a, b, c, d]) == a + "," + b + "," + c + "," + d
    ensures Joined([a, b, c, d, e]) == a + "," + b + "," + c + "," + d + "," + e
    ensures Joined([a, b, c, d, e, f, g, h]) ==
            a + "," + b + "," + c + "," + d + "," + e + "," + f + "," + g + "," + h
  {
    hide Joined;
    JoinedTwo(a, b);
    JoinedOneMore([a, b], c);
    assert [a, b] + [c] == [a, b, c];
    JoinedOneMore([a, b, c], d);
    assert [a, b, c] + [d] == [a, b, c, d];
    JoinedOneMore([a, b, c, d], e);
    assert [a, b, c, d] + [e] == [a, b, c, d, e];
    JoinedOneMore([a, b, c, d, e], f);
    assert [a, b, c, d, e] + [f] == [a, b, c, d, e, f];
    JoinedOneMore([a, b, c, d, e, f], g);
    assert [a, b, c, d, e, f] + [g] == [a, b, c, d, e, f, g];
    JoinedOneMore([a, b, c, d, e, f, g], h);
    assert [a, b, c, d, e, f, g] + [h] == [a, b, c, d, e, f, g, h];
  }

  lemma JoinedTwo(a: string, b: string)
    ensures Joined([a, b]) == a + "," + b
  {
    hide Joined;
    JoinedOneMore([], a);
    JoinedOneMore([a], b);
    assert [] + [a] == [a] && [a] + [b] == [a, b];
  }
}
