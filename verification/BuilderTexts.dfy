/** What a whole run of JsonBuilder writes is a JSON text of RFC 8259 that denotes the value spelled
    out by the calls. The exception is a string with a byte from 0x80: its text is well-formed but
    denotes another string. */
module BuilderTexts {
  import opened Results
  import opened Sequences
  import opened JsonText
  import opened JsonRecords
  import opened JsonDocuments
  import opened PrettyDocuments
  import opened JsonUtils
  import opened BuilderRuns
  import opened StrictDocuments
  import Rfc = Rfc8259

  // ---------- numbers ----------

  lemma DecimalIsInt(n: nat)
    ensures Rfc.Unsigned(Decimal(n)) == Some((n, 0, ""))
  {
    var s := Decimal(n);
    DigitCountOver(s, "");
    assert s + "" == s && s[..|s|] == s;
    assert Rfc.IntLength(s) == |s|;
    DecimalRoundTrip(n);
  }

  lemma SignedDecimalIsNumber(n: int)
    ensures Rfc.Value(SignedDecimal(n)) == Some((Rfc.Num(n, 0), ""))
  {
    DecimalIsInt(if n < 0 then -n else n);
    if n < 0 {
      assert ("-" + Decimal(-n))[1..] == Decimal(-n);
    } else {
      assert IsDigit(Decimal(n)[0]);
    }
  }

  // ---------- strings ----------

  function Codes(s: string): (units: seq<nat>)
    ensures |units| == |s| && forall i | 0 <= i < |s| :: units[i] == s[i] as nat
  {
    seq(|s|, i requires 0 <= i < |s| => s[i] as nat)
  }

  lemma CodesAreInjective(s: string, t: string)
    requires Codes(s) == Codes(t)
    ensures s == t
  {
    assert |s| == |Codes(s)| == |Codes(t)| == |t|;
    forall i | 0 <= i < |s| ensures s[i] == t[i] {
      assert Codes(s)[i] == Codes(t)[i];
    }
  }

  lemma ConsCodes(c: char, s: string)
    ensures Codes([c] + s) == [c as nat] + Codes(s)
  {
  }

  lemma LowerHexQuad(h: string)
    requires |h| >= 4 && forall i | 0 <= i < |h| :: IsLowerHex(h[i])
    ensures Rfc.IsHexQuad(h)
  {
  }

  /** The code units that escapeString leaves in the text for one character. */
  function UnitsOfChar(c: char): seq<nat> {
    if c <= DELETE then [c as nat]
    else
      LowerHexQuad(HexOfChar(c));
      [Rfc.HexQuadValue(HexOfChar(c))] + Codes(HexOfChar(c)[4..])
  }

  function UnitsOfEscaped(s: string): seq<nat> {
    if s == "" then [] else UnitsOfChar(s[0]) + UnitsOfEscaped(s[1..])
  }

  lemma ControlHex(c: char)
    requires c < ' '
    ensures HexOfChar(c) == ['0', '0', HexDigit(c as nat / 16), HexDigit(c as nat % 16)]
    ensures Rfc.HexQuadValue(HexOfChar(c)) == c as nat
  {
    var n := c as nat;
    var two := [HexDigit(n / 16), HexDigit(n % 16)];
    if n < 16 {
      PadOne([HexDigit(n)]);
      assert "0" + [HexDigit(n)] == two && Hex(n) == [HexDigit(n)];
    } else {
      HexGrows(n);
      assert Hex(n) == two;
    }
    assert HexOfChar(c) == PadToFour(two);
    PadOne(two);
    PadOne("0" + two);
    assert "0" + ("0" + two) == ['0', '0'] + two;
    hide Hex, PadToFour, Rfc.HexQuadValue;
    ShortQuadValue(n / 16, n % 16);
  }

  lemma ShortQuadValue(high: nat, low: nat)
    requires high < 16 && low < 16
    ensures Rfc.IsHexQuad(['0', '0', HexDigit(high), HexDigit(low)])
    ensures Rfc.HexQuadValue(['0', '0', HexDigit(high), HexDigit(low)]) == 16 * high + low
  {
  }

  lemma PadOne(h: string)
    requires 0 < |h| < 4 && forall i | 0 <= i < |h| :: IsLowerHex(h[i])
    ensures PadToFour(h) == PadToFour("0" + h)
    ensures |h| == 3 ==> PadToFour(h) == "0" + h
  {
  }

  /** The units in front of what is decoded. */
  function Before(units: seq<nat>, r: Option<(seq<nat>, string)>): Option<(seq<nat>, string)> {
    match r
    case Some((more, rest)) => Some((units + more, rest))
    case None => None
  }

  /** No control character, no quote and no backslash. */
  predicate Plain(h: string) {
    forall i | 0 <= i < |h| :: ' ' <= h[i] && h[i] != '"' && h[i] != '\\'
  }

  lemma {:induction false} PlainCharsDecode(h: string, more: string)
    requires Plain(h)
    ensures Rfc.Chars(h + more) == Before(Codes(h), Rfc.Chars(more))
  {
    if h == "" {
      assert h + more == more;
      assert Rfc.Chars(more).Some? ==> Codes(h) + Rfc.Chars(more).value.0 == Rfc.Chars(more).value.0;
    } else {
      assert (h + more)[1..] == h[1..] + more;
      PlainCharsDecode(h[1..], more);
      assert Codes(h) == [h[0] as nat] + Codes(h[1..]);
      Twice([h[0] as nat], Codes(h[1..]), Rfc.Chars(more));
    }
  }

  lemma Twice(a: seq<nat>, b: seq<nat>, r: Option<(seq<nat>, string)>)
    ensures Before(a, Before(b, r)) == Before(a + b, r)
    ensures forall u: nat :: a == [u] ==> Rfc.PrependUnit(u, r) == Before(a, r)
  {
    if r.Some? {
      assert a + (b + r.value.0) == (a + b) + r.value.0;
    }
  }

  lemma QuadIsInFront(h: string, more: string)
    requires Rfc.IsHexQuad(h)
    ensures Rfc.IsHexQuad(h + more) && Rfc.HexQuadValue(h + more) == Rfc.HexQuadValue(h)
  {
  }

  lemma QuadDecodes(h: string, more: string)
    requires |h| >= 4 && forall i | 0 <= i < |h| :: IsLowerHex(h[i])
    ensures Rfc.IsHexQuad(h)
    ensures Rfc.Chars("\\u" + h + more) == Before([Rfc.HexQuadValue(h)] + Codes(h[4..]), Rfc.Chars(more))
  {
    hide Rfc.HexQuadValue;
    var s := "\\u" + h + more;
    assert s[2..] == h + more && s[6..] == h[4..] + more;
    LowerHexQuad(h);
    QuadIsInFront(h, more);
    PlainCharsDecode(h[4..], more);
    Twice([Rfc.HexQuadValue(h)], Codes(h[4..]), Rfc.Chars(more));
    Twice([Rfc.HexQuadValue(h)], [], Rfc.Chars(h[4..] + more));
  }

  lemma ShortDecodes(letter: char, more: string)
    requires Unescape(letter).Some?
    ensures Rfc.Chars(['\\', letter] + more) == Before([Unescape(letter).value as nat], Rfc.Chars(more))
  {
    assert (['\\', letter] + more)[2..] == more;
  }

  lemma PlainDecodes(c: char, more: string)
    requires ' ' <= c && c != '"' && c != '\\'
    ensures Rfc.Chars([c] + more) == Before([c as nat], Rfc.Chars(more))
  {
    assert ([c] + more)[1..] == more;
  }

  lemma EscapedCharDecodes(c: char, more: string)
    ensures Rfc.Chars(EscapeChar(c) + more) == Before(UnitsOfChar(c), Rfc.Chars(more))
  {
    if ShortEscape(c).Some? {
      ShortDecodes(ShortEscape(c).value, more);
    } else if BelowSpace(c) {
      QuadDecodes(HexOfChar(c), more);
      if c < ' ' {
        ControlHex(c);
        assert [Rfc.HexQuadValue(HexOfChar(c))] + Codes(HexOfChar(c)[4..]) == [c as nat];
      }
    } else {
      PlainDecodes(c, more);
    }
  }

  /** The escaped string is a JSON string whatever its bytes are. */
  lemma {:induction false} EscapedDecodes(s: string)
    ensures Rfc.Chars(EscapeString(s) + "\"") == Some((UnitsOfEscaped(s), ""))
  {
    if s == "" {
      assert EscapeString(s) + "\"" == "\"";
    } else {
      EscapedDecodes(s[1..]);
      EscapedCharDecodes(s[0], EscapeString(s[1..]) + "\"");
      assert EscapeString(s) + "\"" == EscapeChar(s[0]) + (EscapeString(s[1..]) + "\"");
    }
  }

  predicate Bytes(s: string) {
    forall i | 0 <= i < |s| :: s[i] <= '\U{00FF}'
  }

  predicate Ascii(s: string) {
    forall i | 0 <= i < |s| :: s[i] <= DELETE
  }

  lemma HighByteIs(c: char)
    requires DELETE < c <= '\U{00FF}'
    ensures HexOfChar(c) == "ffffff" + [HexDigit(c as nat / 16), HexDigit(c as nat % 16)]
  {
    var n := 0xFFFF_FF00 + c as nat;
    assert n / 16 / 16 == 0xFF_FFFF && n / 16 % 16 == c as nat / 16 && n % 16 == c as nat % 16;
    HexGrows(n);
    HexGrows(n / 16);
    AllOnes();
    hide Hex, PadToFour, HexOfChar;
    LongHexIsKept(n, c);
  }

  lemma HighByteHex(c: char)
    requires DELETE < c <= '\U{00FF}'
    ensures Rfc.IsHexQuad(HexOfChar(c)) && Rfc.HexQuadValue(HexOfChar(c)) == 0xFFFF
  {
    HighByteIs(c);
    hide HexDigit, HexOfChar;
    var h := HexOfChar(c);
    assert h[0] == h[1] == h[2] == h[3] == 'f';
  }

  lemma HexGrows(n: nat)
    requires n >= 16
    ensures Hex(n) == Hex(n / 16) + [HexDigit(n % 16)]
  {
  }

  lemma AllOnes()
    ensures Hex(0xFF_FFFF) == "ffffff"
  {
    HexGrows(0xFF_FFFF);
    HexGrows(0xF_FFFF);
    HexGrows(0xFFFF);
    HexGrows(0xFFF);
    HexGrows(0xFF);
    assert Hex(0xF) == "f";
    hide Hex;
  }

  lemma LongHexIsKept(n: nat, c: char)
    requires DELETE < c <= '\U{00FF}' && n == 0xFFFF_FF00 + c as nat && |Hex(n)| >= 4
    ensures HexOfChar(c) == Hex(n)
  {
  }

  const HEX_DIGITS := "0123456789abcdef"

  lemma DigitOfHex(n: nat)
    requires n < 16
    ensures HexDigit(n) == HEX_DIGITS[n]
  {
  }

  /** The escape of every byte, letter by letter: the seven short ones, two lower-case digits behind
      zeros for the other control characters, and eight digits for a byte from 0x80. */
  lemma EscapeCharIs(c: char)
    requires c <= '\U{00FF}'
    ensures EscapeChar(c) ==
            if c == '"' then "\\\""
            else if c == '\\' then "\\\\"
            else if c == '\U{0008}' then "\\b"
            else if c == '\U{000C}' then "\\f"
            else if c == '\n' then "\\n"
            else if c == '\r' then "\\r"
            else if c == '\t' then "\\t"
            else if c < ' ' then "\\u00" + [HEX_DIGITS[c as nat / 16], HEX_DIGITS[c as nat % 16]]
            else if c < '\U{0080}' then [c]
            else "\\uffffff" + [HEX_DIGITS[c as nat / 16], HEX_DIGITS[c as nat % 16]]
  {
    hide HexOfChar, HexDigit;
    if c < ' ' || c > DELETE {
      DigitOfHex(c as nat / 16);
      DigitOfHex(c as nat % 16);
      var two := [HEX_DIGITS[c as nat / 16], HEX_DIGITS[c as nat % 16]];
      if c < ' ' {
        ControlHex(c);
        assert HexOfChar(c) == "00" + two;
        Associate("\\u", "00", two);
      } else {
        HighByteIs(c);
        Associate("\\u", "ffffff", two);
      }
      hide HEX_DIGITS;
    }
  }

  lemma UnitsKeepAscii(c: char)
    requires c <= '\U{00FF}'
    ensures c <= DELETE ==> UnitsOfChar(c) == [c as nat]
    ensures c > DELETE ==> |UnitsOfChar(c)| > 0 && UnitsOfChar(c)[0] != c as nat
  {
    if c > DELETE {
      HighByteHex(c);
    }
    hide HexOfChar, Rfc.HexQuadValue;
  }

  lemma HeadsDecide(head: seq<nat>, more: seq<nat>, first: nat, rest: seq<nat>)
    requires head == [first] || (|head| > 0 && head[0] != first)
    ensures head + more == [first] + rest <==> head == [first] && more == rest
  {
    if head == [first] {
      assert (head + more)[1..] == more && ([first] + rest)[1..] == rest;
    } else {
      assert (head + more)[0] == head[0];
    }
  }

  lemma FirstAndOthers(s: string)
    requires s != ""
    ensures Codes(s) == [s[0] as nat] + Codes(s[1..])
    ensures Ascii(s) <==> s[0] <= DELETE && Ascii(s[1..])
  {
    assert s == [s[0]] + s[1..];
  }

  /** The decoder finds the string again exactly when all its bytes are ASCII. */
  lemma {:induction false} EscapedKeepsAscii(s: string)
    requires Bytes(s)
    ensures UnitsOfEscaped(s) == Codes(s) <==> Ascii(s)
  {
    if s != "" {
      hide UnitsOfChar, Ascii, Codes;
      EscapedKeepsAscii(s[1..]);
      FirstAndOthers(s);
      UnitsKeepAscii(s[0]);
      HeadsDecide(UnitsOfChar(s[0]), UnitsOfEscaped(s[1..]), s[0] as nat, Codes(s[1..]));
    }
  }

  // ---------- whole texts ----------

  /** No value is missing after a key. */
  predicate Complete(v: Value)
    decreases v, 0
  {
    match v
    case Record(fields) => FieldsComplete(fields)
    case List(items) => ItemsComplete(items)
    case Unread => false
    case _ => true
  }

  predicate FieldsComplete(fields: seq<Field>)
    decreases fields, 0
  {
    fields == [] || (Complete(fields[0].value) && FieldsComplete(fields[1..]))
  }

  predicate ItemsComplete(items: seq<Value>)
    decreases items, 0
  {
    items == [] || (Complete(items[0]) && ItemsComplete(items[1..]))
  }

  /** The JSON value that a builder value stands for. */
  function Denotation(v: Value): Rfc.Json
    requires Complete(v)
    decreases v, 0
  {
    match v
    case Text(text) => Rfc.Str(UnitsOfEscaped(text))
    case Number(n) => Rfc.Num(n, 0)
    case Flag(b) => Rfc.Bool(b)
    case Record(fields) => Rfc.Obj(FieldsDenotation(fields))
    case List(items) => Rfc.Arr(ItemsDenotation(items))
  }

  function FieldsDenotation(fields: seq<Field>): seq<Rfc.Pair>
    requires FieldsComplete(fields)
    decreases fields, 0
  {
    if fields == [] then []
    else [Rfc.Pair(UnitsOfEscaped(fields[0].key), Denotation(fields[0].value))] + FieldsDenotation(fields[1..])
  }

  function ItemsDenotation(items: seq<Value>): seq<Rfc.Json>
    requires ItemsComplete(items)
    decreases items, 0
  {
    if items == [] then [] else [Denotation(items[0])] + ItemsDenotation(items[1..])
  }

  lemma PrettyTextIsStrict(text: string)
    ensures Strict(Quoted(EscapeString(text)))
    ensures Denoted(Quoted(EscapeString(text))) == Rfc.Str(UnitsOfEscaped(text))
  {
    hide EscapeString, UnitsOfEscaped;
    EscapedDecodes(text);
    assert ("\"" + (EscapeString(text) + ("\"" + "")))[1..] == EscapeString(text) + "\"";
  }

  lemma PrettyNumberIsStrict(n: int)
    ensures Strict(Literal(SignedDecimal(n)))
    ensures Denoted(Literal(SignedDecimal(n))) == Rfc.Num(n, 0)
  {
    hide SignedDecimal;
    SignedDecimalIsNumber(n);
    assert SignedDecimal(n) + "" == SignedDecimal(n);
  }

  lemma {:induction false} PrettyIsStrict(v: Value, level: int)
    requires Complete(v)
    ensures Strict(Pretty(v, level)) && Denoted(Pretty(v, level)) == Denotation(v)
    decreases v, 0
  {
    hide EscapeString, SignedDecimal, UnitsOfEscaped;
    SpaceInLayout(level);
    match v
    case Text(text) => PrettyTextIsStrict(text);
    case Number(n) => PrettyNumberIsStrict(n);
    case Flag(b) =>
    case Record(fields) => PrettyMembersAreStrict(fields, level + 1);
    case List(items) => PrettyElementsAreStrict(items, level + 1);
  }

  lemma {:induction false} PrettyMembersAreStrict(fields: seq<Field>, level: int)
    requires FieldsComplete(fields)
    ensures StrictMembers(PrettyMembers(fields, level))
    ensures DenotedMembers(PrettyMembers(fields, level)) == FieldsDenotation(fields)
    decreases fields, 0
  {
    if fields != [] {
      SpaceInLayout(level);
      EscapedDecodes(fields[0].key);
      PrettyIsStrict(fields[0].value, level);
      PrettyMembersAreStrict(fields[1..], level);
      assert PrettyMembers(fields, level)[1..] == PrettyMembers(fields[1..], level);
    }
  }

  lemma {:induction false} PrettyElementsAreStrict(items: seq<Value>, level: int)
    requires ItemsComplete(items)
    ensures StrictElements(PrettyElements(items, level))
    ensures DenotedElements(PrettyElements(items, level)) == ItemsDenotation(items)
    decreases items, 0
  {
    if items != [] {
      SpaceInLayout(level);
      PrettyIsStrict(items[0], level);
      PrettyElementsAreStrict(items[1..], level);
      assert PrettyElements(items, level)[1..] == PrettyElements(items[1..], level);
    }
  }

  lemma {:induction false} CallsSpellComplete(calls: seq<Call>)
    ensures ValueOf(calls).Some? ==> Complete(ValueOf(calls).value.0)
    ensures FieldsOf(calls).Some? ==> FieldsComplete(FieldsOf(calls).value.0)
    ensures ItemsOf(calls).Some? ==> ItemsComplete(ItemsOf(calls).value.0)
    decreases |calls|
  {
    if calls != [] {
      CallsSpellComplete(calls[1..]);
      if FieldsOf(calls).Some? && calls[0] != EndObject {
        CallsSpellComplete(FieldOf(calls).value.1);
      }
      if ItemsOf(calls).Some? && calls[0] != EndArray {
        CallsSpellComplete(ValueOf(calls[1..]).value.1);
      }
    }
  }

  /** Every properly nested run, with any keys, any strings and any integers, writes a JSON text that
      denotes the value spelled out by the calls. */
  lemma RunsWriteJson(calls: seq<Call>, v: Value)
    requires ValueOf(calls) == Some((v, []))
    ensures Complete(v)
    ensures Rfc.Decode(Run(FreshPrinter, calls).buffer) == Some(Denotation(v))
  {
    CallsSpellComplete(calls);
    WholeRun(calls, v);
    PrettyIsStrict(v, 0);
    StrictIsJsonText("", Pretty(v, 0), "");
    assert "" + Render(Pretty(v, 0), "") == Render(Pretty(v, 0), "");
  }
}
