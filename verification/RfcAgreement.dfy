/** The record reader on texts that are strict JSON: what it accepts it understands as RFC 8259 does,
    and an unknown key is never accepted. */
module RfcAgreement {
  import opened Results
  import opened Words
  import opened JsonText
  import opened JsonRecords
  import opened BuilderTexts
  import Rfc = Rfc8259

  // ---------- what a JSON value means to a schema ----------

  /** v is the JSON value j read with the types of the kind. A negative integer wraps modulo 2^64. */
  predicate Denotes(kind: Kind, j: Rfc.Json, v: Value)
    decreases j, 0
  {
    match kind
    case TextKind => j.Str? && v.Text? && Codes(v.text) == j.units
    case NumberKind => j.Num? && j.exponent == 0 && v == Number(j.coefficient % TWO_TO_THE_64)
    case FlagKind => j.Bool? && v == Flag(j.b)
    case RecordKind(schema) => j.Obj? && v.Record? && PairsDenote(schema, j.pairs, v.fields)
    case ListKind(schema) => j.Arr? && v.List? && ItemsDenote(schema, j.items, v.items)
  }

  predicate PairsDenote(schema: Schema, pairs: seq<Rfc.Pair>, fields: seq<Field>)
    decreases pairs, 0
  {
    if pairs == [] || fields == [] then pairs == [] && fields == []
    else PairDenotes(schema, pairs[0], fields[0]) && PairsDenote(schema, pairs[1..], fields[1..])
  }

  predicate PairDenotes(schema: Schema, pair: Rfc.Pair, f: Field)
    decreases pair
  {
    Codes(f.key) == pair.name && f.key in schema && Denotes(schema[f.key], pair.value, f.value)
  }

  predicate ItemsDenote(schema: Schema, items: seq<Rfc.Json>, values: seq<Value>)
    decreases items, 0
  {
    if items == [] || values == [] then items == [] && values == []
    else Denotes(RecordKind(schema), items[0], values[0]) && ItemsDenote(schema, items[1..], values[1..])
  }

  // ---------- tokens ----------

  lemma {:induction false} StringsAgree(s: string)
    requires StringBody(s).Ok? && Rfc.Chars(s).Some?
    ensures Rfc.Chars(s) == Some((Codes(StringBody(s).value), StringBody(s).rest))
  {
    if s[0] == '"' {
      assert Codes("") == [];
    } else if s[0] == '\\' {
      StringsAgree(s[2..]);
      ConsCodes(Unescape(s[1]).value, StringBody(s[2..]).value);
    } else {
      StringsAgree(s[1..]);
      ConsCodes(s[0], StringBody(s[1..]).value);
    }
  }

  /** What may stand after a value inside a strict text. */
  predicate StopsValue(r: string) {
    r == "" || IsSpace(r[0]) || r[0] in {',', '}', ']'}
  }

  /** The start of a fraction or an exponent: no field, no comma and no closing bracket starts so. */
  predicate GoesOn(t: string) {
    t != "" && t[0] in {'.', 'e', 'E'}
  }

  lemma ValueStart(s: string)
    requires Rfc.Value(s).Some?
    ensures s != "" && SkipSpace(s) == s && s[0] !in {',', '}', ']', ':'}
  {
    assert Rfc.LiteralName(s).Some? ==> s[0] in {'n', 't', 'f'};
  }

  lemma DigitsAgree(t: string)
    requires Rfc.Unsigned(t).Some? && StopsValue(Rfc.Unsigned(t).value.2)
    ensures Rfc.IntLength(t) == DigitCount(t) > 0
    ensures GoesOn(t[DigitCount(t)..]) ||
            Rfc.Unsigned(t) == Some((DecimalValue(t[..DigitCount(t)]), 0, t[DigitCount(t)..]))
  {
    var n := Rfc.IntLength(t);
    assert t[..n] + "" == t[..n];
    assert DigitCount(t) > 1 ==> IsDigit(t[1]) by {
      assert DigitCount(t) > 1 ==> IsDigit(t[..DigitCount(t)][1]);
    }
  }

  /** The number that a literal denotes is what std::stoull makes of it, up to wrapping. */
  lemma StoullWraps(negative: bool, digits: string)
    requires AllDigits(digits) && digits != "" && DecimalValue(digits) < TWO_TO_THE_64
    ensures var literal := if negative then "-" + digits else digits;
            && IsLiteral(literal)
            && Stoull(literal) ==
               Success((if negative then 0 - DecimalValue(digits) else DecimalValue(digits)) % TWO_TO_THE_64)
  {
    var c := DecimalValue(digits);
    NegativeWraps(c);
    assert ("-" + digits)[1..] == digits;
    assert IsDigit(digits[0]);
  }

  lemma NumbersAgree(s: string)
    requires Rfc.Value(s).Some? && StopsValue(Rfc.Value(s).value.1) && ParseNumber(s).Ok?
    ensures GoesOn(ParseNumber(s).rest) ||
            (&& ParseNumber(s).rest == Rfc.Value(s).value.1
             && Denotes(NumberKind, Rfc.Value(s).value.0, Number(ParseNumber(s).value)))
  {
    hide DecimalValue, Rfc.Unsigned, Rfc.Value, ParseNumber, Stoull;
    NumberStart(s);
    var negative := s[0] == '-';
    var t := if negative then s[1..] else s;
    DigitsAgree(t);
    LiteralParts(s);
    StoullWraps(negative, t[..DigitCount(t)]);
  }

  lemma NumberStart(s: string)
    requires Rfc.Value(s).Some? && ParseNumber(s).Ok?
    ensures s != "" && SkipSpace(s) == s && (s[0] == '-' || IsDigit(s[0])) && Rfc.Value(s) == Rfc.Number(s)
  {
    ValueStart(s);
  }

  lemma LiteralParts(s: string)
    requires s != "" && SkipSpace(s) == s && (s[0] == '-' || IsDigit(s[0])) && ParseNumber(s).Ok?
    ensures var negative := s[0] == '-';
            var t := if negative then s[1..] else s;
            var digits := t[..DigitCount(t)];
            && ParseNumber(s) == Leaving(Stoull(if negative then "-" + digits else digits), t[DigitCount(t)..])
            && (digits != "" ==> DecimalValue(digits) < TWO_TO_THE_64)
  {
    var negative := s[0] == '-';
    var t := if negative then s[1..] else s;
    var k := DigitCount(t);
    assert s[..LiteralLength(s)] == (if negative then "-" + t[..k] else t[..k]) && s[LiteralLength(s)..] == t[k..];
    assert ("-" + t[..k])[1..] == t[..k];
  }

  lemma NegativeWraps(c: nat)
    requires c < TWO_TO_THE_64
    ensures (TWO_TO_THE_64 - c) % TWO_TO_THE_64 == (0 - c) % TWO_TO_THE_64
    ensures c % TWO_TO_THE_64 == c
  {
  }

  // ---------- the reader against the decoder ----------

  lemma AfterSpace(kind: Kind, s: string)
    ensures ParseValue(kind, SkipSpace(s)) == ParseValue(kind, s)
  {
    var t := SkipSpace(s);
    assert SkipSpace(t) == t;
    assert ParseString(t) == ParseString(s) && ParseNumber(t) == ParseNumber(s) && ParseBool(t) == ParseBool(s);
    match kind
    case RecordKind(schema) => assert ParseObject(schema, t) == ParseObject(schema, s);
    case ListKind(schema) => assert Expect(t, '[') == Expect(s, '[');
    case _ =>
  }

  lemma {:induction false} ValuesAgree(kind: Kind, s: string)
    requires Rfc.Value(s).Some? && StopsValue(Rfc.Value(s).value.1) && ParseValue(kind, s).Ok?
    ensures (kind.NumberKind? && GoesOn(ParseValue(kind, s).rest)) ||
            (&& ParseValue(kind, s).rest == Rfc.Value(s).value.1
             && Denotes(kind, Rfc.Value(s).value.0, ParseValue(kind, s).value))
    decreases |s|, 0
  {
    ValueStart(s);
    match kind
    case TextKind => StringsAgree(s[1..]);
    case NumberKind => NumbersAgree(s);
    case FlagKind => WordsAgree(s);
    case RecordKind(schema) => FieldsAgree(schema, s[1..]);
    case ListKind(schema) => ListsAgree(schema, s[1..]);
  }

  lemma WordsAgree(s: string)
    requires Rfc.Value(s).Some? && SkipSpace(s) == s && ParseBool(s).Ok?
    ensures Rfc.Value(s) == Some((Rfc.Bool(ParseBool(s).value), ParseBool(s).rest))
  {
    assert "null"[0] == 'n' && "true"[0] == 't' && "false"[0] == 'f';
  }

  lemma {:induction false} FieldsAgree(schema: Schema, s: string)
    requires Rfc.AfterBrace(SkipSpace(s)).Some? && ParseFields(schema, s).Ok?
    ensures ParseFields(schema, s).rest == Rfc.AfterBrace(SkipSpace(s)).value.1
    ensures PairsDenote(schema, Rfc.AfterBrace(SkipSpace(s)).value.0, ParseFields(schema, s).value)
    decreases |s|, 1
  {
    hide ParseFields, ParseField, Rfc.AfterBrace, Rfc.Pairs, Rfc.OnePair;
    var t := SkipSpace(s);
    BraceUnfolds(t);
    if t[0] == '}' {
      EndOfFields(schema, s);
    } else {
      PairsStart(t);
      FieldsUnfold(schema, s);
      PairsAgree(schema, s);
      var u := SkipSpace(Rfc.OnePair(t).value.1);
      if u[0] == '}' {
        EndOfFields(schema, u);
      } else {
        PairsStart(SkipSpace(u[1..]));
        FieldsAgree(schema, u[1..]);
      }
    }
  }

  lemma BraceUnfolds(t: string)
    requires Rfc.AfterBrace(t).Some?
    ensures t != ""
    ensures if t[0] == '}' then Rfc.AfterBrace(t) == Some(([], t[1..])) else Rfc.Pairs(t).Some?
  {
  }

  lemma FieldsUnfold(schema: Schema, s: string)
    requires ParseFields(schema, s).Ok? && Peek(s) != '}'
    ensures ParseField(schema, s).Ok?
    ensures var p := ParseField(schema, s);
            && ParseFields(schema, p.rest).Ok?
            && ParseFields(schema, s) ==
               Ok([p.value] + ParseFields(schema, p.rest).value, ParseFields(schema, p.rest).rest)
  {
  }

  lemma EndOfFields(schema: Schema, s: string)
    requires Peek(s) == '}'
    ensures ParseFields(schema, s) == Ok([], SkipSpace(s)[1..])
  {
  }

  lemma PairsStart(t: string)
    requires Rfc.Pairs(t).Some?
    ensures t != "" && t[0] == '"' && SkipSpace(t) == t && Rfc.AfterBrace(t) == Rfc.Pairs(t) && Rfc.OnePair(t).Some?
    ensures var u := SkipSpace(Rfc.OnePair(t).value.1);
            && u != "" && SkipSpace(u) == u
            && (u[0] == '}' ==> Rfc.Pairs(t) == Some(([Rfc.OnePair(t).value.0], u[1..])))
            && (u[0] != '}' ==>
                  && u[0] == ',' && Rfc.Pairs(SkipSpace(u[1..])).Some?
                  && var (more, rest) := Rfc.Pairs(SkipSpace(u[1..])).value;
                     Rfc.Pairs(t) == Some(([Rfc.OnePair(t).value.0] + more, rest)))
  {
  }

  /** One member: the key agrees, and a known key's value agrees; an unknown key leads to an error. */
  lemma {:induction false} PairsAgree(schema: Schema, s: string)
    requires Rfc.Pairs(SkipSpace(s)).Some? && ParseFields(schema, s).Ok? && Peek(s) != '}'
    ensures ParseField(schema, s).rest == SkipComma(Rfc.OnePair(SkipSpace(s)).value.1)
    ensures PairDenotes(schema, Rfc.OnePair(SkipSpace(s)).value.0, ParseField(schema, s).value)
    decreases |s|, 0
  {
    var t := SkipSpace(s);
    PairsStart(t);
    KeysAgree(s);
    assert ParseField(schema, s).Ok? && ParseFields(schema, ParseField(schema, s).rest).Ok?;
    var key, u := ParseKey(s).value, ParseKey(s).rest;
    var w := SkipSpace(u);
    ValueStart(w);
    if key in schema {
      assert ParseValue(schema[key], u).Ok? by { assert ParseFieldValue(schema, key, u) == ParseValue(schema[key], u); }
      AfterSpace(schema[key], u);
      ValuesAgree(schema[key], w);
      var rest := ParseValue(schema[key], u).rest;
      if GoesOn(rest) {
        NoFieldStarts(schema, rest);
      }
    } else {
      StringIsNoKey(schema, w);
    }
  }

  lemma KeysAgree(s: string)
    requires Rfc.OnePair(SkipSpace(s)).Some? && ParseKey(s).Ok?
    ensures var pair := Rfc.OnePair(SkipSpace(s)).value;
            && pair.0.name == Codes(ParseKey(s).value)
            && Rfc.Value(SkipSpace(ParseKey(s).rest)) == Some((pair.0.value, pair.1))
  {
    StringsAgree(SkipSpace(s)[1..]);
  }

  /** After a number that goes on as a fraction or an exponent, the object loop throws. */
  lemma NoFieldStarts(schema: Schema, t: string)
    requires GoesOn(t)
    ensures SkipComma(t) == t && ParseFields(schema, t).Err?
  {
    assert SkipSpace(t) == t;
  }

  /** An unread value is taken for the next key, and the colon is missing. */
  lemma StringIsNoKey(schema: Schema, w: string)
    requires Rfc.Value(w).Some? && SkipSpace(w) == w && w[0] != '}'
    requires SkipSpace(Rfc.Value(w).value.1) != "" && SkipSpace(Rfc.Value(w).value.1)[0] in {',', '}'}
    ensures ParseFields(schema, w).Err?
  {
    if ParseString(w).Ok? {
      StringsAgree(w[1..]);
    }
  }

  lemma ItemsStart(t: string)
    requires Rfc.Items(t).Some?
    ensures t != "" && t[0] != ']' && SkipSpace(t) == t && Rfc.AfterBracket(t) == Rfc.Items(t) && Rfc.Value(t).Some?
    ensures var u := SkipSpace(Rfc.Value(t).value.1);
            && StopsValue(Rfc.Value(t).value.1)
            && u != "" && SkipSpace(u) == u
            && (u[0] == ']' ==> Rfc.Items(t) == Some(([Rfc.Value(t).value.0], u[1..])))
            && (u[0] != ']' ==>
                  && u[0] == ',' && Rfc.Items(SkipSpace(u[1..])).Some?
                  && var (more, rest) := Rfc.Items(SkipSpace(u[1..])).value;
                     Rfc.Items(t) == Some(([Rfc.Value(t).value.0] + more, rest)))
  {
    ValueStart(t);
  }

  lemma {:induction false} ListsAgree(schema: Schema, s: string)
    requires Rfc.AfterBracket(SkipSpace(s)).Some? && ParseItems(schema, s).Ok?
    ensures ParseItems(schema, s).rest == Rfc.AfterBracket(SkipSpace(s)).value.1
    ensures ItemsDenote(schema, Rfc.AfterBracket(SkipSpace(s)).value.0, ParseItems(schema, s).value)
    decreases |s|, 1
  {
    hide ParseItems, ParseObject, ParseValue, Rfc.AfterBracket, Rfc.Items, Rfc.Value;
    var t := SkipSpace(s);
    BracketUnfolds(t);
    if t[0] == ']' {
      EndOfItems(schema, s);
    } else {
      ItemsStart(t);
      ItemsUnfold(schema, s);
      AfterSpace(RecordKind(schema), s);
      ValuesAgree(RecordKind(schema), t);
      var u := SkipSpace(Rfc.Value(t).value.1);
      if u[0] == ']' {
        EndOfItems(schema, u);
      } else {
        ItemsStart(SkipSpace(u[1..]));
        ListsAgree(schema, u[1..]);
      }
    }
  }

  lemma BracketUnfolds(t: string)
    requires Rfc.AfterBracket(t).Some?
    ensures t != ""
    ensures if t[0] == ']' then Rfc.AfterBracket(t) == Some(([], t[1..])) else Rfc.Items(t).Some?
  {
  }

  lemma ItemsUnfold(schema: Schema, s: string)
    requires ParseItems(schema, s).Ok? && Peek(s) != ']'
    ensures ParseValue(RecordKind(schema), s).Ok?
    ensures var p := ParseValue(RecordKind(schema), s);
            var more := ParseItems(schema, SkipComma(p.rest));
            && more.Ok?
            && ParseItems(schema, s) == Ok([p.value] + more.value, more.rest)
  {
  }

  lemma EndOfItems(schema: Schema, s: string)
    requires Peek(s) == ']'
    ensures ParseItems(schema, s) == Ok([], SkipSpace(s)[1..])
  {
  }

  // ---------- consequences ----------

  /** Whatever strict JSON text the reader accepts, it has understood it, and nothing but white space
      is left over. */
  lemma AcceptedIsUnderstood(schema: Schema, s: string, j: Rfc.Json)
    requires Rfc.Decode(s) == Some(j) && ParseObject(schema, s).Ok?
    ensures Denotes(RecordKind(schema), j, Record(ParseObject(schema, s).value))
    ensures SkipSpace(ParseObject(schema, s).rest) == ""
  {
    AfterSpace(RecordKind(schema), s);
    var rest := Rfc.Value(SkipSpace(s)).value.1;
    assert StopsValue(rest);
    ValuesAgree(RecordKind(schema), SkipSpace(s));
  }

  /** Every key of the object, and of the records inside it, is one that the schema knows. */
  predicate KeysKnown(kind: Kind, j: Rfc.Json)
    decreases j, 0
  {
    match kind
    case RecordKind(schema) => j.Obj? ==> forall i | 0 <= i < |j.pairs| :: PairKnown(schema, j.pairs[i])
    case ListKind(schema) => j.Arr? ==> forall i | 0 <= i < |j.items| :: KeysKnown(RecordKind(schema), j.items[i])
    case _ => true
  }

  predicate PairKnown(schema: Schema, pair: Rfc.Pair)
    decreases pair
  {
    exists key :: key in schema && Codes(key) == pair.name && KeysKnown(schema[key], pair.value)
  }

  lemma {:induction false} DenotedKeysAreKnown(kind: Kind, j: Rfc.Json, v: Value)
    requires Denotes(kind, j, v)
    ensures KeysKnown(kind, j)
    decreases j, 0
  {
    match kind
    case RecordKind(schema) => DenotedPairsAreKnown(schema, j.pairs, v.fields);
    case ListKind(schema) => DenotedItemsAreKnown(schema, j.items, v.items);
    case _ =>
  }

  lemma {:induction false} DenotedPairsAreKnown(schema: Schema, pairs: seq<Rfc.Pair>, fields: seq<Field>)
    requires PairsDenote(schema, pairs, fields)
    ensures forall i | 0 <= i < |pairs| :: PairKnown(schema, pairs[i])
    decreases pairs, 0
  {
    if pairs != [] {
      DenotedKeysAreKnown(schema[fields[0].key], pairs[0].value, fields[0].value);
      DenotedPairsAreKnown(schema, pairs[1..], fields[1..]);
      assert PairKnown(schema, pairs[0]);
      assert pairs == [pairs[0]] + pairs[1..];
    }
  }

  lemma {:induction false} DenotedItemsAreKnown(schema: Schema, items: seq<Rfc.Json>, values: seq<Value>)
    requires ItemsDenote(schema, items, values)
    ensures forall i | 0 <= i < |items| :: KeysKnown(RecordKind(schema), items[i])
    decreases items, 0
  {
    if items != [] {
      DenotedKeysAreKnown(RecordKind(schema), items[0], values[0]);
      DenotedItemsAreKnown(schema, items[1..], values[1..]);
      assert items == [items[0]] + items[1..];
    }
  }

  /** An unknown key, wherever it stands and whatever its value is, makes the reader throw. */
  lemma UnknownKeyIsRejected(schema: Schema, s: string, j: Rfc.Json)
    requires Rfc.Decode(s) == Some(j) && !KeysKnown(RecordKind(schema), j)
    ensures ParseObject(schema, s).Err?
  {
    if ParseObject(schema, s).Ok? {
      AcceptedIsUnderstood(schema, s, j);
      DenotedKeysAreKnown(RecordKind(schema), j, Record(ParseObject(schema, s).value));
    }
  }

  // ---------- one JSON value, one result ----------

  lemma {:induction false} DenotationIsUnique(kind: Kind, j: Rfc.Json, v: Value, w: Value)
    requires Denotes(kind, j, v) && Denotes(kind, j, w)
    ensures v == w
    decreases j, 0
  {
    match kind
    case TextKind => CodesAreInjective(v.text, w.text);
    case RecordKind(schema) => PairsAreUnique(schema, j.pairs, v.fields, w.fields);
    case ListKind(schema) => ItemsAreUnique(schema, j.items, v.items, w.items);
    case _ =>
  }

  lemma {:induction false} PairsAreUnique(schema: Schema, pairs: seq<Rfc.Pair>, a: seq<Field>, b: seq<Field>)
    requires PairsDenote(schema, pairs, a) && PairsDenote(schema, pairs, b)
    ensures a == b
    decreases pairs, 0
  {
    if pairs != [] {
      CodesAreInjective(a[0].key, b[0].key);
      DenotationIsUnique(schema[a[0].key], pairs[0].value, a[0].value, b[0].value);
      PairsAreUnique(schema, pairs[1..], a[1..], b[1..]);
      assert a == [a[0]] + a[1..] && b == [b[0]] + b[1..];
    }
  }

  lemma {:induction false} ItemsAreUnique(schema: Schema, items: seq<Rfc.Json>, a: seq<Value>, b: seq<Value>)
    requires ItemsDenote(schema, items, a) && ItemsDenote(schema, items, b)
    ensures a == b
    decreases items, 0
  {
    if items != [] {
      DenotationIsUnique(RecordKind(schema), items[0], a[0], b[0]);
      ItemsAreUnique(schema, items[1..], a[1..], b[1..]);
      assert a == [a[0]] + a[1..] && b == [b[0]] + b[1..];
    }
  }

  /** Two strict texts of the same JSON value that are both accepted give the same fields. */
  lemma SameJsonSameFields(schema: Schema, s: string, t: string)
    requires Rfc.Decode(s).Some? && Rfc.Decode(s) == Rfc.Decode(t)
    requires ParseObject(schema, s).Ok? && ParseObject(schema, t).Ok?
    ensures ParseObject(schema, s).value == ParseObject(schema, t).value
  {
    var j := Rfc.Decode(s).value;
    AcceptedIsUnderstood(schema, s, j);
    AcceptedIsUnderstood(schema, t, j);
    DenotationIsUnique(RecordKind(schema), j,
                       Record(ParseObject(schema, s).value), Record(ParseObject(schema, t).value));
  }
}
