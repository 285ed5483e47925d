/** Which strict JSON texts the record reader accepts: those that spell, key by key, what the schema
    asks for. */
module AcceptedJson {
  import opened Results
  import opened Words
  import opened JsonText
  import opened JsonRecords
  import opened BuilderTexts
  import opened RfcAgreement
  import Rfc = Rfc8259

  // ---------- texts that spell what a schema asks for ----------

  /** Up to the closing quote, every escape is one of the short ones. */
  predicate NoUnicodeEscape(s: string) {
    if s == "" || s[0] == '"' then true
    else if s[0] != '\\' then NoUnicodeEscape(s[1..])
    else |s| > 1 && s[1] != 'u' && NoUnicodeEscape(s[2..])
  }

  /** A number without fraction and exponent, below 2^64 in magnitude. */
  predicate IsWord(s: string) {
    var t := if s != "" && s[0] == '-' then s[1..] else s;
    var n := DigitCount(t);
    n > 0 && !GoesOn(t[n..]) && DecimalValue(t[..n]) < TWO_TO_THE_64
  }

  /** The JSON value that s starts with has the types of the kind, known keys only, no \u escape in its
      strings and no number that is not a 64-bit integer. */
  ghost predicate Suits(kind: Kind, s: string)
    requires Rfc.Value(s).Some?
    decreases |s|, 0
  {
    match kind
    case TextKind => s[0] == '"' && NoUnicodeEscape(s[1..])
    case NumberKind => IsWord(s)
    case FlagKind => s[0] == 't' || s[0] == 'f'
    case RecordKind(schema) => s[0] == '{' && MembersSuit(schema, SkipSpace(s[1..]))
    case ListKind(schema) => s[0] == '[' && ItemsSuit(schema, SkipSpace(s[1..]))
  }

  ghost predicate MembersSuit(schema: Schema, t: string)
    requires Rfc.AfterBrace(t).Some?
    decreases |t|, 1
  {
    t[0] == '}' ||
    (PairsStart(t);
     var u := SkipSpace(Rfc.OnePair(t).value.1);
     && MemberSuits(schema, t)
     && (u[0] == '}' || (PairsStart(SkipSpace(u[1..])); MembersSuit(schema, SkipSpace(u[1..])))))
  }

  /** The text of a member's value. */
  function ValueText(t: string): (v: string)
    requires Rfc.OnePair(t).Some?
    ensures |v| < |t| && Rfc.Value(v).Some?
  {
    SkipSpace(SkipSpace(Rfc.String(t).value.1)[1..])
  }

  ghost predicate MemberSuits(schema: Schema, t: string)
    requires Rfc.OnePair(t).Some?
    decreases |t|, 0
  {
    && NoUnicodeEscape(t[1..])
    && exists key :: key in schema && Codes(key) == Rfc.OnePair(t).value.0.name && Suits(schema[key], ValueText(t))
  }

  ghost predicate ItemsSuit(schema: Schema, t: string)
    requires Rfc.AfterBracket(t).Some?
    decreases |t|, 1
  {
    t[0] == ']' ||
    (ItemsStart(t);
     var u := SkipSpace(Rfc.Value(t).value.1);
     && Suits(RecordKind(schema), t)
     && (u[0] == ']' || (ItemsStart(SkipSpace(u[1..])); ItemsSuit(schema, SkipSpace(u[1..])))))
  }

  // ---------- tokens ----------

  lemma {:induction false} StringAccepted(s: string)
    requires Rfc.Chars(s).Some?
    ensures StringBody(s).Ok? <==> NoUnicodeEscape(s)
  {
    if s[0] == '"' {
    } else if s[0] == '\\' {
      if s[1] != 'u' {
        StringAccepted(s[2..]);
      }
    } else {
      StringAccepted(s[1..]);
    }
  }

  /** The reader takes the value, and nothing of it is left over. */
  predicate Takes(kind: Kind, s: string) {
    ParseValue(kind, s).Ok? && !(kind.NumberKind? && GoesOn(ParseValue(kind, s).rest))
  }

  lemma TextTaken(s: string)
    requires Rfc.Value(s).Some?
    ensures Takes(TextKind, s) <==> Suits(TextKind, s)
  {
    ValueStart(s);
    if s[0] == '"' {
      StringAccepted(s[1..]);
    }
  }

  lemma NumberTaken(s: string)
    requires Rfc.Value(s).Some?
    ensures Takes(NumberKind, s) <==> Suits(NumberKind, s)
  {
    ValueStart(s);
    var negative := s[0] == '-';
    var t := if negative then s[1..] else s;
    var n := DigitCount(t);
    assert s[..LiteralLength(s)] == (if negative then "-" + t[..n] else t[..n]) && s[LiteralLength(s)..] == t[n..];
    assert ("-" + t[..n])[1..] == t[..n];
    assert n > 0 ==> IsDigit(t[..n][0]);
  }

  lemma FlagTaken(s: string)
    requires Rfc.Value(s).Some?
    ensures Takes(FlagKind, s) <==> Suits(FlagKind, s)
  {
    ValueStart(s);
    assert "null"[0] == 'n' && "true"[0] == 't' && "false"[0] == 'f';
  }

  // ---------- records and lists ----------

  lemma {:induction false} TakesWhatSuits(kind: Kind, s: string)
    requires Rfc.Value(s).Some? && StopsValue(Rfc.Value(s).value.1)
    ensures Takes(kind, s) <==> Suits(kind, s)
    decreases |s|, 0
  {
    ValueStart(s);
    match kind
    case TextKind => TextTaken(s);
    case NumberKind => NumberTaken(s);
    case FlagKind => FlagTaken(s);
    case RecordKind(schema) =>
      assert ParseObject(schema, s).Ok? <==> s[0] == '{' && ParseFields(schema, s[1..]).Ok?;
      if s[0] == '{' {
        FieldsTaken(schema, s[1..]);
      }
    case ListKind(schema) =>
      if s[0] == '[' {
        ItemsTaken(schema, s[1..]);
      }
  }

  lemma {:induction false} FieldsTaken(schema: Schema, s: string)
    requires Rfc.AfterBrace(SkipSpace(s)).Some?
    ensures ParseFields(schema, s).Ok? <==> MembersSuit(schema, SkipSpace(s))
    decreases |s|, 2
  {
    hide ParseFields, ParseField, Rfc.AfterBrace, Rfc.Pairs, Rfc.OnePair, MemberSuits;
    var t := SkipSpace(s);
    BraceUnfolds(t);
    if t[0] == '}' {
      EndOfFields(schema, s);
    } else {
      PairsStart(t);
      var u := SkipSpace(Rfc.OnePair(t).value.1);
      FieldTaken(schema, s);
      if u[0] == '}' {
        EndOfFields(schema, u);
      } else {
        PairsStart(SkipSpace(u[1..]));
        FieldsTaken(schema, u[1..]);
      }
    }
  }

  /** One member: it is read, and the loop goes on behind its comma, if and only if it suits. */
  lemma {:induction false} FieldTaken(schema: Schema, s: string)
    requires Rfc.Pairs(SkipSpace(s)).Some? && Rfc.OnePair(SkipSpace(s)).Some?
    ensures ParseFields(schema, s).Ok? <==>
            && MemberSuits(schema, SkipSpace(s))
            && ParseFields(schema, SkipComma(Rfc.OnePair(SkipSpace(s)).value.1)).Ok?
    decreases |s|, 1
  {
    var t := SkipSpace(s);
    PairsStart(t);
    if ParseFields(schema, s).Ok? {
      FieldSuits(schema, s);
    }
    if MemberSuits(schema, t) {
      SuitingField(schema, s);
    }
  }

  lemma StopsInside(r: string)
    requires SkipSpace(r) != "" && SkipSpace(r)[0] in {',', '}', ']'}
    ensures StopsValue(r)
  {
  }

  /** The key of a member as the reader and as the decoder see it, and where its value starts. */
  lemma KeyTaken(s: string)
    requires Rfc.OnePair(SkipSpace(s)).Some?
    ensures var t := SkipSpace(s);
            && Rfc.Value(ValueText(t)) == Some((Rfc.OnePair(t).value.0.value, Rfc.OnePair(t).value.1))
            && (ParseKey(s).Ok? <==> NoUnicodeEscape(t[1..]))
            && (ParseKey(s).Ok? ==>
                  && Codes(ParseKey(s).value) == Rfc.OnePair(t).value.0.name
                  && SkipSpace(ParseKey(s).rest) == ValueText(t))
  {
    hide Rfc.Value, StringBody, Rfc.Chars, NoUnicodeEscape;
    var t := SkipSpace(s);
    assert t != "" && t[0] == '"' && Rfc.Chars(t[1..]).Some?;
    StringAccepted(t[1..]);
    if StringBody(t[1..]).Ok? {
      StringsAgree(t[1..]);
    }
  }

  lemma FieldUnfolds(schema: Schema, s: string)
    requires Peek(s) != '}'
    ensures ParseFields(schema, s).Ok? <==>
            && ParseKey(s).Ok?
            && ParseFieldValue(schema, ParseKey(s).value, ParseKey(s).rest).Ok?
            && ParseFields(schema, SkipComma(ParseFieldValue(schema, ParseKey(s).value, ParseKey(s).rest).rest)).Ok?
  {
  }

  lemma {:induction false} FieldSuits(schema: Schema, s: string)
    requires Rfc.Pairs(SkipSpace(s)).Some? && Rfc.OnePair(SkipSpace(s)).Some? && ParseFields(schema, s).Ok?
    ensures MemberSuits(schema, SkipSpace(s))
    ensures ParseFields(schema, SkipComma(Rfc.OnePair(SkipSpace(s)).value.1)).Ok?
    decreases |s|, 0
  {
    var t := SkipSpace(s);
    PairsStart(t);
    PairsAgree(schema, s);
    FieldsUnfold(schema, s);
    FieldUnfolds(schema, s);
    KeyTaken(s);
    var key, u, v := ParseKey(s).value, ParseKey(s).rest, ValueText(t);
    assert key in schema && ParseFieldValue(schema, key, u) == ParseValue(schema[key], u);
    hide ParseFields, ParseField, ParseValue, Rfc.Pairs, Rfc.OnePair, Rfc.Value, ValueText;
    var rest := ParseValue(schema[key], u).rest;
    if GoesOn(rest) {
      NoFieldStarts(schema, rest);
    }
    StopsInside(Rfc.Value(v).value.1);
    AfterSpace(schema[key], u);
    TakesWhatSuits(schema[key], v);
  }

  lemma {:induction false} SuitingField(schema: Schema, s: string)
    requires Rfc.Pairs(SkipSpace(s)).Some? && Rfc.OnePair(SkipSpace(s)).Some? && MemberSuits(schema, SkipSpace(s))
    ensures ParseFields(schema, s).Ok? <==> ParseFields(schema, SkipComma(Rfc.OnePair(SkipSpace(s)).value.1)).Ok?
    decreases |s|, 0
  {
    var t := SkipSpace(s);
    PairsStart(t);
    FieldUnfolds(schema, s);
    KeyTaken(s);
    var u, v := ParseKey(s).rest, ValueText(t);
    var key :| key in schema && Codes(key) == Rfc.OnePair(t).value.0.name && Suits(schema[key], v);
    CodesAreInjective(key, ParseKey(s).value);
    assert ParseFieldValue(schema, key, u) == ParseValue(schema[key], u);
    hide ParseFields, ParseField, ParseValue, Rfc.Pairs, Rfc.OnePair, Rfc.Value, ValueText, Suits;
    StopsInside(Rfc.Value(v).value.1);
    AfterSpace(schema[key], u);
    TakesWhatSuits(schema[key], v);
    ValuesAgree(schema[key], v);
  }

  lemma ItemUnfolds(schema: Schema, s: string)
    requires Peek(s) != ']'
    ensures ParseItems(schema, s).Ok? <==>
            && ParseValue(RecordKind(schema), s).Ok?
            && ParseItems(schema, SkipComma(ParseValue(RecordKind(schema), s).rest)).Ok?
  {
  }

  lemma {:induction false} ItemsTaken(schema: Schema, s: string)
    requires Rfc.AfterBracket(SkipSpace(s)).Some?
    ensures ParseItems(schema, s).Ok? <==> ItemsSuit(schema, SkipSpace(s))
    decreases |s|, 1
  {
    hide ParseItems, ParseObject, ParseValue, Rfc.AfterBracket, Rfc.Items, Rfc.Value, Suits;
    var t, kind := SkipSpace(s), RecordKind(schema);
    BracketUnfolds(t);
    if t[0] == ']' {
      EndOfItems(schema, s);
    } else {
      ItemsStart(t);
      ItemUnfolds(schema, s);
      AfterSpace(kind, s);
      TakesWhatSuits(kind, t);
      var u := SkipSpace(Rfc.Value(t).value.1);
      if ParseValue(kind, t).Ok? {
        ValuesAgree(kind, t);
      }
      if u[0] == ']' {
        EndOfItems(schema, u);
      } else {
        ItemsStart(SkipSpace(u[1..]));
        ItemsTaken(schema, u[1..]);
      }
    }
  }

  /** A strict JSON text is accepted if and only if it suits the schema, whatever its layout is. */
  lemma AcceptedIfItSuits(schema: Schema, s: string)
    requires Rfc.Decode(s).Some?
    ensures ParseObject(schema, s).Ok? <==> Suits(RecordKind(schema), SkipSpace(s))
  {
    hide Suits, Rfc.Value;
    AfterSpace(RecordKind(schema), s);
    TakesWhatSuits(RecordKind(schema), SkipSpace(s));
  }
}
