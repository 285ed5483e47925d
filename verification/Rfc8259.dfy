/** The grammar of JSON texts, sections 2 to 7 of RFC 8259, as a strict decoder. Bytes from 0x80 stand
    for themselves: whether they form valid UTF-8 is not looked at. */
module Rfc8259 {
  import opened Results
  import opened JsonText

  /** Strings are sequences of code units: the code of an unescaped character, or the number that
      four hexadecimal digits spell. A number is coefficient * 10^exponent. */
  datatype Json =
    | Null
    | Bool(b: bool)
    | Num(coefficient: int, exponent: int)
    | Str(units: seq<nat>)
    | Arr(items: seq<Json>)
    | Obj(pairs: seq<Pair>)

  datatype Pair = Pair(name: seq<nat>, value: Json)

  // ---------- section 7: strings ----------

  predicate IsHexDigit(c: char) {
    IsDigit(c) || 'a' <= c <= 'f' || 'A' <= c <= 'F'
  }

  function HexDigitValue(c: char): nat
    requires IsHexDigit(c)
  {
    if IsDigit(c) then c as nat - 0x30
    else if 'a' <= c then c as nat - 'a' as nat + 10
    else c as nat - 'A' as nat + 10
  }

  predicate IsHexQuad(s: string) {
    |s| >= 4 && IsHexDigit(s[0]) && IsHexDigit(s[1]) && IsHexDigit(s[2]) && IsHexDigit(s[3])
  }

  function HexQuadValue(s: string): nat
    requires IsHexQuad(s)
  {
    ((HexDigitValue(s[0]) * 16 + HexDigitValue(s[1])) * 16 + HexDigitValue(s[2])) * 16 + HexDigitValue(s[3])
  }

  /** The code that the grammar gives to a letter behind a backslash. */
  function CodeEscaped(letter: char): Option<nat> {
    match letter
    case '"' => Some(0x22)
    case '\\' => Some(0x5C)
    case '/' => Some(0x2F)
    case 'b' => Some(0x08)
    case 'f' => Some(0x0C)
    case 'n' => Some(0x0A)
    case 'r' => Some(0x0D)
    case 't' => Some(0x09)
    case _ => None
  }

  /** The characters up to the closing quote, and the text after it. */
  function Chars(s: string): (r: Option<(seq<nat>, string)>)
    ensures r.Some? ==> |r.value.1| < |s|
  {
    if s == "" || s[0] < ' ' then None
    else if s[0] == '"' then Some(([], s[1..]))
    else if s[0] != '\\' then PrependUnit(s[0] as nat, Chars(s[1..]))
    else if |s| >= 2 && s[1] == 'u' then
      if IsHexQuad(s[2..]) then PrependUnit(HexQuadValue(s[2..]), Chars(s[6..])) else None
    else if |s| >= 2 && CodeEscaped(s[1]).Some? then
      PrependUnit(CodeEscaped(s[1]).value, Chars(s[2..]))
    else None
  }

  function PrependUnit(unit: nat, r: Option<(seq<nat>, string)>): Option<(seq<nat>, string)> {
    match r
    case Some((units, rest)) => Some(([unit] + units, rest))
    case None => None
  }

  function String(s: string): (r: Option<(seq<nat>, string)>)
    ensures r.Some? ==> |r.value.1| < |s|
  {
    if s != "" && s[0] == '"' then Chars(s[1..]) else None
  }

  // ---------- section 6: numbers ----------

  /** int: a lone zero, or digits that do not start with zero. */
  function IntLength(s: string): (n: nat)
    ensures n <= |s| && AllDigits(s[..n])
  {
    if s != "" && s[0] == '0' then 1 else DigitCount(s)
  }

  /** frac: nothing, or a point and at least one digit. Yields the digits. */
  function Fraction(s: string): (r: Option<(string, string)>)
    ensures r.Some? ==> |r.value.1| <= |s| && AllDigits(r.value.0)
  {
    if s == "" || s[0] != '.' then Some(("", s))
    else if DigitCount(s[1..]) == 0 then None
    else Some((s[1..][..DigitCount(s[1..])], s[1..][DigitCount(s[1..])..]))
  }

  /** exp: nothing, or e, an optional sign and at least one digit. */
  function Exponent(s: string): (r: Option<(int, string)>)
    ensures r.Some? ==> |r.value.1| <= |s|
  {
    if s == "" || (s[0] != 'e' && s[0] != 'E') then Some((0, s))
    else
      var t := if |s| > 1 && (s[1] == '+' || s[1] == '-') then s[2..] else s[1..];
      var n := DigitCount(t);
      if n == 0 then None
      else
        var e: int := DecimalValue(t[..n]);
        Some((if s[1] == '-' then -e else e, t[n..]))
  }

  /** A number without its sign: its coefficient, its exponent and the text after it. */
  function Unsigned(t: string): (r: Option<(nat, int, string)>)
    ensures r.Some? ==> |r.value.2| < |t|
  {
    var n := IntLength(t);
    if n == 0 then None
    else match Fraction(t[n..])
      case None => None
      case Some((fraction, u)) =>
        match Exponent(u)
        case None => None
        case Some((e, rest)) => Some((DecimalValue(t[..n] + fraction), e - |fraction|, rest))
  }

  function Number(s: string): (r: Option<(Json, string)>)
    ensures r.Some? ==> |r.value.1| < |s|
  {
    var negative := s != "" && s[0] == '-';
    match Unsigned(if negative then s[1..] else s)
    case None => None
    case Some((c, e, rest)) =>
      var coefficient: int := c;
      Some((Num(if negative then -coefficient else coefficient, e), rest))
  }

  // ---------- sections 2 to 5 ----------

  function Value(s: string): (r: Option<(Json, string)>)
    ensures r.Some? ==> |r.value.1| < |s|
    decreases |s|, 0
  {
    if s == "" then None
    else if s[0] == '"' then
      match Chars(s[1..])
      case Some((units, rest)) => Some((Str(units), rest))
      case None => None
    else if s[0] == '[' then
      match AfterBracket(SkipSpace(s[1..]))
      case Some((items, rest)) => Some((Arr(items), rest))
      case None => None
    else if s[0] == '{' then
      match AfterBrace(SkipSpace(s[1..]))
      case Some((pairs, rest)) => Some((Obj(pairs), rest))
      case None => None
    else if s[0] == '-' || IsDigit(s[0]) then Number(s)
    else LiteralName(s)
  }

  function LiteralName(s: string): (r: Option<(Json, string)>)
    ensures r.Some? ==> |r.value.1| < |s|
  {
    if "null" <= s then Some((Null, s[4..]))
    else if "true" <= s then Some((Bool(true), s[4..]))
    else if "false" <= s then Some((Bool(false), s[5..]))
    else None
  }

  function AfterBracket(s: string): (r: Option<(seq<Json>, string)>)
    ensures r.Some? ==> |r.value.1| < |s|
    decreases |s|, 2
  {
    if s != "" && s[0] == ']' then Some(([], s[1..])) else Items(s)
  }

  function AfterBrace(s: string): (r: Option<(seq<Pair>, string)>)
    ensures r.Some? ==> |r.value.1| < |s|
    decreases |s|, 2
  {
    if s != "" && s[0] == '}' then Some(([], s[1..])) else Pairs(s)
  }

  /** At least one element, and the closing bracket. */
  function Items(s: string): (r: Option<(seq<Json>, string)>)
    ensures r.Some? ==> |r.value.1| < |s|
    decreases |s|, 1
  {
    match Value(s)
    case None => None
    case Some((item, more)) =>
      var t := SkipSpace(more);
      if t != "" && t[0] == ']' then Some(([item], t[1..]))
      else if t != "" && t[0] == ',' then
        match Items(SkipSpace(t[1..]))
        case Some((items, rest)) => Some(([item] + items, rest))
        case None => None
      else None
  }

  /** At least one member, and the closing brace. */
  function Pairs(s: string): (r: Option<(seq<Pair>, string)>)
    ensures r.Some? ==> |r.value.1| < |s|
    decreases |s|, 1
  {
    match OnePair(s)
    case None => None
    case Some((pair, more)) =>
      var t := SkipSpace(more);
      if t != "" && t[0] == '}' then Some(([pair], t[1..]))
      else if t != "" && t[0] == ',' then
        match Pairs(SkipSpace(t[1..]))
        case Some((pairs, rest)) => Some(([pair] + pairs, rest))
        case None => None
      else None
  }

  function OnePair(s: string): (r: Option<(Pair, string)>)
    ensures r.Some? ==> |r.value.1| < |s|
    decreases |s|, 0
  {
    match String(s)
    case None => None
    case Some((name, more)) =>
      var t := SkipSpace(more);
      if t == "" || t[0] != ':' then None
      else match Value(SkipSpace(t[1..]))
        case Some((value, rest)) => Some((Pair(name, value), rest))
        case None => None
  }

  /** A JSON text: a value with white space around it. */
  function Decode(s: string): Option<Json> {
    match Value(SkipSpace(s))
    case Some((j, rest)) => if SkipSpace(rest) == "" then Some(j) else None
    case None => None
  }

  // ---------- what follows a value plays no part ----------

  /** The text does not lengthen a number that stands before it. */
  predicate EndsNumber(s: string) {
    s == "" || (!IsDigit(s[0]) && s[0] !in {'.', 'e', 'E'})
  }

  lemma {:induction false} SkipSpaceIsLocal(s: string, tail: string)
    requires SkipSpace(s) != ""
    ensures SkipSpace(s + tail) == SkipSpace(s) + tail
  {
    if s != "" && IsSpace(s[0]) {
      assert (s + tail)[1..] == s[1..] + tail;
      SkipSpaceIsLocal(s[1..], tail);
    }
  }

  lemma {:induction false} CharsIsLocal(s: string, tail: string)
    requires Chars(s).Some?
    ensures Chars(s + tail) == Some((Chars(s).value.0, Chars(s).value.1 + tail))
  {
    var t := s + tail;
    assert t[1..] == s[1..] + tail;
    if s[0] == '"' {
    } else if s[0] != '\\' {
      CharsIsLocal(s[1..], tail);
    } else if s[1] == 'u' {
      assert t[2..] == s[2..] + tail && t[6..] == s[6..] + tail;
      CharsIsLocal(s[6..], tail);
    } else {
      assert t[2..] == s[2..] + tail;
      CharsIsLocal(s[2..], tail);
    }
  }

  lemma {:induction false} DigitCountIsLocal(s: string, tail: string)
    requires tail == "" || !IsDigit(tail[0])
    ensures DigitCount(s + tail) == DigitCount(s)
    ensures (s + tail)[..DigitCount(s)] == s[..DigitCount(s)]
    ensures (s + tail)[DigitCount(s)..] == s[DigitCount(s)..] + tail
  {
    if s == "" {
      assert s + tail == tail;
    } else if IsDigit(s[0]) {
      assert (s + tail)[1..] == s[1..] + tail;
      DigitCountIsLocal(s[1..], tail);
    }
  }

  lemma FractionIsLocal(s: string, tail: string)
    requires Fraction(s).Some? && EndsNumber(tail)
    ensures Fraction(s + tail) == Some((Fraction(s).value.0, Fraction(s).value.1 + tail))
  {
    if s == "" {
      assert s + tail == tail;
    } else if s[0] == '.' {
      assert (s + tail)[1..] == s[1..] + tail;
      DigitCountIsLocal(s[1..], tail);
    }
  }

  lemma ExponentIsLocal(s: string, tail: string)
    requires Exponent(s).Some? && EndsNumber(tail)
    ensures Exponent(s + tail) == Some((Exponent(s).value.0, Exponent(s).value.1 + tail))
  {
    if s == "" {
      assert s + tail == tail;
    } else if s[0] == 'e' || s[0] == 'E' {
      hide DecimalValue, DigitCount;
      var signed := |s| > 1 && (s[1] == '+' || s[1] == '-');
      var t := if signed then s[2..] else s[1..];
      assert |s| > 1 && (s + tail)[0] == s[0] && (s + tail)[1] == s[1];
      assert (if signed then (s + tail)[2..] else (s + tail)[1..]) == t + tail;
      DigitCountIsLocal(t, tail);
    }
  }

  lemma IntIsLocal(t: string, tail: string)
    requires t != "" && EndsNumber(tail)
    ensures IntLength(t + tail) == IntLength(t)
    ensures (t + tail)[..IntLength(t)] == t[..IntLength(t)]
    ensures (t + tail)[IntLength(t)..] == t[IntLength(t)..] + tail
  {
    DigitCountIsLocal(t, tail);
  }

  lemma UnsignedIsLocal(t: string, tail: string)
    requires Unsigned(t).Some? && EndsNumber(tail)
    ensures Unsigned(t + tail) ==
            Some((Unsigned(t).value.0, Unsigned(t).value.1, Unsigned(t).value.2 + tail))
  {
    hide IntLength, Fraction, Exponent, DecimalValue;
    var u := t[IntLength(t)..];
    var (fraction, v) := Fraction(u).value;
    IntIsLocal(t, tail);
    assert Fraction(u + tail) == Some((fraction, v + tail)) by { FractionIsLocal(u, tail); }
    assert Exponent(v + tail) ==
           Some((Exponent(v).value.0, Exponent(v).value.1 + tail)) by { ExponentIsLocal(v, tail); }
  }

  lemma NumberIsLocal(s: string, tail: string)
    requires Number(s).Some? && EndsNumber(tail)
    ensures Number(s + tail) == Some((Number(s).value.0, Number(s).value.1 + tail))
  {
    hide Unsigned;
    var negative := s != "" && s[0] == '-';
    UnsignedIsLocal(if negative then s[1..] else s, tail);
    if negative {
      assert (s + tail)[1..] == s[1..] + tail;
    } else {
      assert s != "" && (s + tail)[0] == s[0];
    }
  }

  lemma LiteralNameIsLocal(s: string, tail: string)
    requires LiteralName(s).Some?
    ensures LiteralName(s + tail) == Some((LiteralName(s).value.0, LiteralName(s).value.1 + tail))
  {
    var n := if "false" <= s then 5 else 4;
    assert (s + tail)[n..] == s[n..] + tail;
    assert (s + tail)[0] == s[0] && "null"[0] == 'n' && "true"[0] == 't' && "false"[0] == 'f';
  }

  lemma {:induction false} ValueIsLocal(s: string, tail: string)
    requires Value(s).Some? && EndsNumber(tail)
    ensures Value(s + tail) == Some((Value(s).value.0, Value(s).value.1 + tail))
    decreases |s|, 0
  {
    hide Number, Chars, AfterBracket, AfterBrace;
    assert (s + tail)[0] == s[0] && (s + tail)[1..] == s[1..] + tail;
    if s[0] == '"' {
      CharsIsLocal(s[1..], tail);
    } else if s[0] == '[' {
      SkipSpaceIsLocal(s[1..], tail);
      BracketIsLocal(SkipSpace(s[1..]), tail);
    } else if s[0] == '{' {
      SkipSpaceIsLocal(s[1..], tail);
      BraceIsLocal(SkipSpace(s[1..]), tail);
    } else if s[0] == '-' || IsDigit(s[0]) {
      NumberIsLocal(s, tail);
    } else {
      LiteralNameIsLocal(s, tail);
    }
  }

  lemma {:induction false} BracketIsLocal(s: string, tail: string)
    requires AfterBracket(s).Some? && EndsNumber(tail)
    ensures AfterBracket(s + tail) == Some((AfterBracket(s).value.0, AfterBracket(s).value.1 + tail))
    decreases |s|, 2
  {
    if s[0] == ']' {
      assert (s + tail)[1..] == s[1..] + tail;
    } else {
      ItemsIsLocal(s, tail);
    }
  }

  lemma {:induction false} BraceIsLocal(s: string, tail: string)
    requires AfterBrace(s).Some? && EndsNumber(tail)
    ensures AfterBrace(s + tail) == Some((AfterBrace(s).value.0, AfterBrace(s).value.1 + tail))
    decreases |s|, 2
  {
    if s[0] == '}' {
      assert (s + tail)[1..] == s[1..] + tail;
    } else {
      PairsIsLocal(s, tail);
    }
  }

  lemma {:induction false} ItemsIsLocal(s: string, tail: string)
    requires Items(s).Some? && EndsNumber(tail)
    ensures Items(s + tail) == Some((Items(s).value.0, Items(s).value.1 + tail))
    decreases |s|, 1
  {
    var more := Value(s).value.1;
    var t := SkipSpace(more);
    ValueIsLocal(s, tail);
    SkipSpaceIsLocal(more, tail);
    hide SkipSpace, Value;
    assert (t + tail)[0] == t[0] && (t + tail)[1..] == t[1..] + tail;
    if t[0] == ',' {
      SkipSpaceIsLocal(t[1..], tail);
      ItemsIsLocal(SkipSpace(t[1..]), tail);
    }
  }

  lemma {:induction false} PairsIsLocal(s: string, tail: string)
    requires Pairs(s).Some? && EndsNumber(tail)
    ensures Pairs(s + tail) == Some((Pairs(s).value.0, Pairs(s).value.1 + tail))
    decreases |s|, 1
  {
    var more := OnePair(s).value.1;
    var t := SkipSpace(more);
    PairIsLocal(s, tail);
    SkipSpaceIsLocal(more, tail);
    hide SkipSpace, OnePair;
    assert (t + tail)[0] == t[0] && (t + tail)[1..] == t[1..] + tail;
    if t[0] == ',' {
      SkipSpaceIsLocal(t[1..], tail);
      PairsIsLocal(SkipSpace(t[1..]), tail);
    }
  }

  lemma {:induction false} PairIsLocal(s: string, tail: string)
    requires OnePair(s).Some? && EndsNumber(tail)
    ensures OnePair(s + tail) == Some((OnePair(s).value.0, OnePair(s).value.1 + tail))
    decreases |s|, 0
  {
    assert (s + tail)[0] == s[0] && (s + tail)[1..] == s[1..] + tail;
    CharsIsLocal(s[1..], tail);
    var more := String(s).value.1;
    hide Chars, Value;
    SkipSpaceIsLocal(more, tail);
    var t := SkipSpace(more);
    hide SkipSpace;
    assert (t + tail)[0] == t[0] && (t + tail)[1..] == t[1..] + tail;
    SkipSpaceIsLocal(t[1..], tail);
    ValueIsLocal(SkipSpace(t[1..]), tail);
  }

  // ---------- and a value that ends before the tail does not need the tail ----------

  lemma SkipSpaceReflects(s: string, tail: string)
    requires |SkipSpace(s + tail)| > |tail|
    ensures SkipSpace(s) != "" && SkipSpace(s + tail) == SkipSpace(s) + tail
  {
    var w := SkippedSpace(s);
    SkipSpaceOver(w, SkipSpace(s) + tail);
    assert s + tail == w + (SkipSpace(s) + tail);
    if SkipSpace(s) != "" {
      SkipSpaceIsLocal(s, tail);
    }
  }

  lemma {:induction false} CharsReflect(s: string, tail: string)
    requires Chars(s + tail).Some? && |Chars(s + tail).value.1| >= |tail|
    ensures Chars(s).Some?
  {
    var t := s + tail;
    assert s != "" && t[0] == s[0] && t[1..] == s[1..] + tail;
    if s[0] == '"' {
    } else if s[0] != '\\' {
      CharsReflect(s[1..], tail);
    } else if t[1] == 'u' {
      assert |s| >= 6 && t[2..] == s[2..] + tail && t[6..] == s[6..] + tail;
      CharsReflect(s[6..], tail);
    } else {
      assert |s| >= 2 && t[2..] == s[2..] + tail;
      CharsReflect(s[2..], tail);
    }
  }

  lemma FractionReflects(s: string, tail: string)
    requires Fraction(s + tail).Some? && EndsNumber(tail)
    ensures Fraction(s).Some?
  {
    if s != "" && s[0] == '.' {
      assert (s + tail)[1..] == s[1..] + tail;
      DigitCountIsLocal(s[1..], tail);
    }
  }

  lemma ExponentReflects(s: string, tail: string)
    requires Exponent(s + tail).Some? && EndsNumber(tail)
    requires |Exponent(s + tail).value.1| >= |tail|
    ensures Exponent(s).Some?
  {
    if s != "" && (s[0] == 'e' || s[0] == 'E') {
      var u := s + tail;
      var signed := |u| > 1 && (u[1] == '+' || u[1] == '-');
      assert signed ==> |s| > 1;
      var t := if signed then s[2..] else s[1..];
      assert (if signed then u[2..] else u[1..]) == t + tail;
      DigitCountIsLocal(t, tail);
    }
  }

  lemma UnsignedReflects(t: string, tail: string)
    requires Unsigned(t + tail).Some? && |Unsigned(t + tail).value.2| >= |tail| && EndsNumber(tail)
    ensures Unsigned(t).Some?
  {
    assert t != "";
    IntIsLocal(t, tail);
    var u := t[IntLength(t)..];
    FractionReflects(u, tail);
    FractionIsLocal(u, tail);
    ExponentReflects(Fraction(u).value.1, tail);
  }

  lemma NumberReflects(s: string, tail: string)
    requires Number(s + tail).Some? && |Number(s + tail).value.1| >= |tail| && EndsNumber(tail)
    ensures Number(s).Some?
  {
    assert s != "" && (s + tail)[0] == s[0];
    if s[0] == '-' {
      assert (s + tail)[1..] == s[1..] + tail;
      UnsignedReflects(s[1..], tail);
    } else {
      UnsignedReflects(s, tail);
    }
  }

  lemma {:induction false} ValueReflects(s: string, tail: string)
    requires Value(s + tail).Some? && |Value(s + tail).value.1| >= |tail| && EndsNumber(tail)
    ensures Value(s).Some?
    decreases |s|, 0
  {
    hide Number, Chars, AfterBracket, AfterBrace;
    var t := s + tail;
    assert s != "" && t[0] == s[0] && t[1..] == s[1..] + tail;
    if s[0] == '"' {
      CharsReflect(s[1..], tail);
    } else if s[0] == '[' {
      SkipSpaceReflects(s[1..], tail);
      BracketReflects(SkipSpace(s[1..]), tail);
    } else if s[0] == '{' {
      SkipSpaceReflects(s[1..], tail);
      BraceReflects(SkipSpace(s[1..]), tail);
    } else if s[0] == '-' || IsDigit(s[0]) {
      NumberReflects(s, tail);
    } else {
      assert forall word | word in {"null", "true", "false"} :: word <= t && |word| <= |s| ==> word <= s;
    }
  }

  lemma {:induction false} BracketReflects(s: string, tail: string)
    requires AfterBracket(s + tail).Some? && |AfterBracket(s + tail).value.1| >= |tail| && EndsNumber(tail)
    ensures AfterBracket(s).Some?
    decreases |s|, 2
  {
    assert s != "" && (s + tail)[0] == s[0];
    if s[0] != ']' {
      ItemsReflect(s, tail);
    }
  }

  lemma {:induction false} BraceReflects(s: string, tail: string)
    requires AfterBrace(s + tail).Some? && |AfterBrace(s + tail).value.1| >= |tail| && EndsNumber(tail)
    ensures AfterBrace(s).Some?
    decreases |s|, 2
  {
    assert s != "" && (s + tail)[0] == s[0];
    if s[0] != '}' {
      PairsReflect(s, tail);
    }
  }

  lemma {:induction false} ItemsReflect(s: string, tail: string)
    requires Items(s + tail).Some? && |Items(s + tail).value.1| >= |tail| && EndsNumber(tail)
    ensures Items(s).Some?
    decreases |s|, 1
  {
    ValueReflects(s, tail);
    ValueIsLocal(s, tail);
    var more := Value(s).value.1;
    SkipSpaceReflects(more, tail);
    var t := SkipSpace(more);
    hide SkipSpace, Value;
    assert (t + tail)[0] == t[0] && (t + tail)[1..] == t[1..] + tail;
    if t[0] == ',' {
      SkipSpaceReflects(t[1..], tail);
      ItemsReflect(SkipSpace(t[1..]), tail);
    }
  }

  lemma {:induction false} PairsReflect(s: string, tail: string)
    requires Pairs(s + tail).Some? && |Pairs(s + tail).value.1| >= |tail| && EndsNumber(tail)
    ensures Pairs(s).Some?
    decreases |s|, 1
  {
    PairReflects(s, tail);
    PairIsLocal(s, tail);
    var more := OnePair(s).value.1;
    SkipSpaceReflects(more, tail);
    var t := SkipSpace(more);
    hide SkipSpace, OnePair;
    assert (t + tail)[0] == t[0] && (t + tail)[1..] == t[1..] + tail;
    if t[0] == ',' {
      SkipSpaceReflects(t[1..], tail);
      PairsReflect(SkipSpace(t[1..]), tail);
    }
  }

  lemma {:induction false} PairReflects(s: string, tail: string)
    requires OnePair(s + tail).Some? && |OnePair(s + tail).value.1| >= |tail| && EndsNumber(tail)
    ensures OnePair(s).Some?
    decreases |s|, 0
  {
    assert s != "" && (s + tail)[0] == s[0] && (s + tail)[1..] == s[1..] + tail;
    CharsReflect(s[1..], tail);
    CharsIsLocal(s[1..], tail);
    var more := String(s).value.1;
    hide Chars, Value;
    SkipSpaceReflects(more, tail);
    var t := SkipSpace(more);
    hide SkipSpace;
    assert (t + tail)[0] == t[0] && (t + tail)[1..] == t[1..] + tail;
    SkipSpaceReflects(t[1..], tail);
    ValueReflects(SkipSpace(t[1..]), tail);
  }
}
