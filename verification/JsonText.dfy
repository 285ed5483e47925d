/** The characters of include/JsonUtils.h: white space, string escapes, decimal numbers. */
module JsonText {
  import opened Results
  import opened Words

  // A std::string is a seq<char> whose characters are bytes. Every definition is total on char,
  // so no lemma has to repeat that codes above 255 do not occur.

  const BACKSPACE := '\U{0008}'
  const FORM_FEED := '\U{000C}'
  const DELETE := '\U{007F}'

  // ---------- white space and single characters ----------

  predicate IsSpace(c: char) {
    c == ' ' || c == '\t' || c == '\n' || c == '\r'
  }

  predicate AllSpace(w: string) {
    forall i | 0 <= i < |w| :: IsSpace(w[i])
  }

  function SkipSpace(s: string): (r: string)
    ensures |r| <= |s|
    ensures r == "" || !IsSpace(r[0])
  {
    if s != "" && IsSpace(s[0]) then SkipSpace(s[1..]) else s
  }

  lemma {:induction false} SkipSpaceOver(w: string, s: string)
    requires AllSpace(w)
    ensures SkipSpace(w + s) == SkipSpace(s)
  {
    if w == "" {
      assert w + s == s;
    } else {
      assert (w + s)[1..] == w[1..] + s;
      SkipSpaceOver(w[1..], s);
    }
  }

  lemma {:induction false} SkippedSpace(s: string) returns (w: string)
    ensures AllSpace(w) && s == w + SkipSpace(s)
  {
    if s != "" && IsSpace(s[0]) {
      var v := SkippedSpace(s[1..]);
      w := [s[0]] + v;
    } else {
      w := "";
    }
  }

  /** peek: the next character that is no white space, NUL at the end of the text. */
  function Peek(s: string): char {
    var t := SkipSpace(s);
    if t == "" then '\0' else t[0]
  }

  /** consume, compared with the one character that the caller accepts. */
  function Expect(s: string, c: char): (r: Parsed<()>)
    ensures r.Ok? ==> |r.rest| < |s|
  {
    var t := SkipSpace(s);
    if t != "" && t[0] == c then Ok((), t[1..]) else Err(Expected(c))
  }

  /** tryConsumeComma. */
  function SkipComma(s: string): (r: string)
    ensures |r| <= |s|
  {
    var t := SkipSpace(s);
    if t != "" && t[0] == ',' then t[1..] else t
  }

  // ---------- strings ----------

  /** The letter that stands for c after a backslash, in both escapers of the code base. */
  function ShortEscape(c: char): Option<char> {
    if c == '"' then Some('"')
    else if c == '\\' then Some('\\')
    else if c == BACKSPACE then Some('b')
    else if c == FORM_FEED then Some('f')
    else if c == '\n' then Some('n')
    else if c == '\r' then Some('r')
    else if c == '\t' then Some('t')
    else None
  }

  /** The character that parseString makes of a backslash and the letter. */
  function Unescape(letter: char): Option<char> {
    if letter == '"' then Some('"')
    else if letter == '\\' then Some('\\')
    else if letter == '/' then Some('/')
    else if letter == 'b' then Some(BACKSPACE)
    else if letter == 'f' then Some(FORM_FEED)
    else if letter == 'n' then Some('\n')
    else if letter == 'r' then Some('\r')
    else if letter == 't' then Some('\t')
    else None
  }

  /** c < 32 on a signed 8-bit char: the control characters and every byte from 0x80. */
  predicate BelowSpace(c: char) {
    c < ' ' || c > DELETE
  }

  predicate IsLowerHex(c: char) {
    IsDigit(c) || 'a' <= c <= 'f'
  }

  function HexDigit(n: nat): (c: char)
    requires n < 16
    ensures IsLowerHex(c)
  {
    if n < 10 then ('0' as nat + n) as char else ('a' as nat + (n - 10)) as char
  }

  function Hex(n: nat): (h: string)
    ensures h != "" && forall i | 0 <= i < |h| :: IsLowerHex(h[i])
  {
    if n < 16 then [HexDigit(n)] else Hex(n / 16) + [HexDigit(n % 16)]
  }

  /** std::setw(4) with std::setfill('0'). */
  function PadToFour(h: string): (r: string)
    requires forall i | 0 <= i < |h| :: IsLowerHex(h[i])
    ensures |r| >= 4 && forall i | 0 <= i < |r| :: IsLowerHex(r[i])
    decreases 4 - |h|
  {
    if |h| < 4 then PadToFour("0" + h) else h
  }

  /** static_cast<int>(c), printed in hexadecimal as an unsigned 32-bit number. */
  function HexOfChar(c: char): (h: string)
    ensures |h| >= 4 && forall i | 0 <= i < |h| :: IsLowerHex(h[i])
  {
    if c <= DELETE then PadToFour(Hex(c as nat))
    else PadToFour(Hex((0x1_0000_0000 - 256 + c as nat) % 0x1_0000_0000))
  }

  function EscapeChar(c: char): string {
    if ShortEscape(c).Some? then ['\\', ShortEscape(c).value]
    else if BelowSpace(c) then "\\u" + HexOfChar(c)
    else [c]
  }

  /** JsonBuilder::escapeString. */
  function EscapeString(s: string): string {
    if s == "" then "" else EscapeChar(s[0]) + EscapeString(s[1..])
  }

  /** The parse with c put in front of the text it reads. */
  function Prepend(c: char, p: Parsed<string>): Parsed<string> {
    match p
    case Ok(text, rest) => Ok([c] + text, rest)
    case Err(e) => Err(e)
  }

  function PrependAll(prefix: string, p: Parsed<string>): Parsed<string> {
    match p
    case Ok(text, rest) => Ok(prefix + text, rest)
    case Err(e) => Err(e)
  }

  lemma PrependLast(prefix: string, p: Parsed<string>)
    ensures p.Err? ==> PrependAll(prefix, p) == p
    ensures p.Ok? && p.value == "" ==> PrependAll(prefix, p) == Ok(prefix, p.rest)
  {
    assert prefix + "" == prefix;
  }

  lemma PrependTwice(prefix: string, c: char, p: Parsed<string>)
    ensures PrependAll("", p) == p
    ensures PrependAll(prefix, Prepend(c, p)) == PrependAll(prefix + [c], p)
  {
    if p.Ok? {
      assert "" + p.value == p.value;
      assert prefix + ([c] + p.value) == (prefix + [c]) + p.value;
    }
  }

  lemma {:induction false} EscapeOneMore(s: string, c: char)
    ensures EscapeString(s + [c]) == EscapeString(s) + EscapeChar(c)
  {
    if s == "" {
      assert EscapeString([c]) == EscapeChar(c) + "";
    } else {
      assert (s + [c])[1..] == s[1..] + [c];
      EscapeOneMore(s[1..], c);
    }
  }

  /** The loop of parseString, entered just past the opening quote. */
  function StringBody(s: string): (r: Parsed<string>)
    ensures r.Ok? ==> |r.rest| < |s|
  {
    if s == "" then Err(UnterminatedString)
    else if s[0] == '"' then Ok("", s[1..])
    else if s[0] == '\\' then
      if |s| == 1 then Err(UnexpectedEnd)
      else if Unescape(s[1]).None? then Err(InvalidEscape)
      else
        Prepend(Unescape(s[1]).value, StringBody(s[2..]))
    else Prepend(s[0], StringBody(s[1..]))
  }

  function ParseString(s: string): (r: Parsed<string>)
    ensures r.Ok? ==> |r.rest| < |s|
  {
    var (_, t) :- Expect(s, '"');
    StringBody(t)
  }

  /** The exact set of characters that survive printing and parsing. */
  predicate ReadableChar(c: char) {
    ' ' <= c <= DELETE || c in {BACKSPACE, FORM_FEED, '\n', '\r', '\t'}
  }

  predicate Readable(s: string) {
    forall i | 0 <= i < |s| :: ReadableChar(s[i])
  }

  lemma StringBodyUnfolds(first: string, more: string)
    requires first != ""
    ensures first[0] == '\\' && |first| == 2 ==>
              StringBody(first + more) ==
              if Unescape(first[1]).None? then Err(InvalidEscape)
              else Prepend(Unescape(first[1]).value, StringBody(more))
    ensures first[0] != '\\' && first[0] != '"' && |first| == 1 ==>
              StringBody(first + more) == Prepend(first[0], StringBody(more))
  {
    assert (first + more)[|first|..] == more;
  }

  lemma StringStopsAtEnd()
    ensures StringBody("") == Err(UnterminatedString)
  {
  }

  /** One turn of the loop of parseString. */
  lemma StringStep(s: string, i: nat)
    requires i < |s|
    ensures s[i] == '"' ==> StringBody(s[i..]) == Ok("", s[i + 1..])
    ensures s[i] != '"' && s[i] != '\\' ==> StringBody(s[i..]) == Prepend(s[i], StringBody(s[i + 1..]))
    ensures s[i] == '\\' && i + 1 == |s| ==> StringBody(s[i..]) == Err(UnexpectedEnd)
    ensures s[i] == '\\' && i + 1 < |s| ==>
              StringBody(s[i..]) ==
              if Unescape(s[i + 1]).None? then Err(InvalidEscape)
              else Prepend(Unescape(s[i + 1]).value, StringBody(s[i + 2..]))
  {
    assert s[i..][1..] == s[i + 1..];
    assert i + 1 < |s| ==> s[i..][2..] == s[i + 2..];
  }

  lemma EscapeCharThenParse(c: char, more: string)
    ensures StringBody(EscapeChar(c) + more) ==
            if ReadableChar(c) then Prepend(c, StringBody(more)) else Err(InvalidEscape)
  {
    hide StringBody, HexOfChar;
    if ShortEscape(c).Some? {
      StringBodyUnfolds(EscapeChar(c), more);
    } else if BelowSpace(c) {
      assert EscapeChar(c) + more == "\\u" + (HexOfChar(c) + more);
      StringBodyUnfolds("\\u", HexOfChar(c) + more);
    } else {
      StringBodyUnfolds([c], more);
    }
  }

  /** printing then parsing a string: exact on the readable strings, a failure on all others,
      whatever follows the closing quote. */
  lemma {:induction false} EscapeThenParse(s: string, tail: string)
    ensures StringBody(EscapeString(s) + ("\"" + tail)) ==
            if Readable(s) then Ok(s, tail) else Err(InvalidEscape)
  {
    if s == "" {
      assert EscapeString(s) + ("\"" + tail) == "\"" + tail;
    } else {
      var more := EscapeString(s[1..]) + ("\"" + tail);
      assert EscapeString(s) + ("\"" + tail) == EscapeChar(s[0]) + more;
      EscapeThenParse(s[1..], tail);
      EscapeCharThenParse(s[0], more);
      assert s == [s[0]] + s[1..];
      assert Readable(s) ==> Readable(s[1..]);
    }
  }

  /** What follows the closing quote plays no part in reading a string, and an invalid escape is
      found whatever follows it. */
  lemma {:induction false} StringBodyIsLocal(s: string, tail: string)
    ensures StringBody(s).Ok? ==>
              StringBody(s + tail) == Ok(StringBody(s).value, StringBody(s).rest + tail)
    ensures StringBody(s) == Err(InvalidEscape) ==> StringBody(s + tail) == Err(InvalidEscape)
  {
    if s == "" || s[0] == '"' {
      assert s != "" ==> (s + tail)[1..] == s[1..] + tail;
    } else if s[0] == '\\' {
      if |s| > 1 && Unescape(s[1]).Some? {
        StringBodyIsLocal(s[2..], tail);
        assert (s + tail)[2..] == s[2..] + tail;
      }
    } else {
      StringBodyIsLocal(s[1..], tail);
      assert (s + tail)[1..] == s[1..] + tail;
    }
  }

  // ---------- numbers ----------

  predicate IsDigit(c: char) {
    '0' <= c <= '9'
  }

  predicate AllDigits(s: string) {
    forall i | 0 <= i < |s| :: IsDigit(s[i])
  }

  function DigitValue(c: char): nat
    requires IsDigit(c)
  {
    c as nat - '0' as nat
  }

  /** Inserting an unsigned integer into a stream. */
  function Decimal(n: nat): (s: string)
    ensures s != "" && AllDigits(s)
    ensures s[0] == '0' ==> s == "0"
  {
    if n < 10 then [('0' as nat + n) as char] else Decimal(n / 10) + [('0' as nat + n % 10) as char]
  }

  /** Inserting a signed integer into a stream. */
  function SignedDecimal(n: int): string {
    if n < 0 then "-" + Decimal(-n) else Decimal(n)
  }

  /** The number that a digit sequence denotes in base ten. */
  function DecimalValue(s: string): nat
    requires AllDigits(s)
  {
    if s == "" then 0 else 10 * DecimalValue(s[..|s| - 1]) + DigitValue(s[|s| - 1])
  }

  lemma {:induction false} DecimalRoundTrip(n: nat)
    ensures DecimalValue(Decimal(n)) == n
  {
    if n >= 10 {
      DecimalRoundTrip(n / 10);
      assert Decimal(n)[..|Decimal(n)| - 1] == Decimal(n / 10);
    }
  }

  function Pow10(n: nat): (p: nat)
    ensures p > 0
  {
    if n == 0 then 1 else 10 * Pow10(n - 1)
  }

  /** The digits stand in their places: the i-th from the right is the character for n / 10^i modulo 10. */
  lemma {:induction false} DecimalDigits(n: nat, i: nat)
    requires i < |Decimal(n)|
    ensures Decimal(n)[|Decimal(n)| - 1 - i] as nat == 0x30 + n / Pow10(i) % 10
  {
    var digits := Decimal(n);
    if n < 10 {
      assert digits == [('0' as nat + n) as char] && Pow10(0) == 1;
    } else {
      LastDigit(n);
      if i == 0 {
        assert Pow10(0) == 1;
      } else {
        var init := digits[..|digits| - 1];
        DecimalDigits(n / 10, i - 1);
        assert digits[|digits| - 1 - i] == init[|init| - 1 - (i - 1)];
        assert Pow10(i) == 10 * Pow10(i - 1);
        DivideByTen(n, Pow10(i - 1));
        assert n / Pow10(i) == n / 10 / Pow10(i - 1);
      }
      hide Pow10, Decimal;
    }
  }

  /** There are only as many digits as the number needs. */
  lemma {:induction false} DecimalLength(n: nat)
    ensures n < Pow10(|Decimal(n)|) && (n > 0 ==> n >= Pow10(|Decimal(n)| - 1))
  {
    assert Pow10(0) == 1 && Pow10(1) == 10;
    if n >= 10 {
      DecimalLength(n / 10);
      LastDigit(n);
    }
  }

  lemma LastDigit(n: nat)
    requires n >= 10
    ensures Decimal(n)[..|Decimal(n)| - 1] == Decimal(n / 10)
    ensures Decimal(n)[|Decimal(n)| - 1] as nat == 0x30 + n % 10
  {
  }

  lemma DivideByTen(n: nat, d: nat)
    requires d > 0
    ensures n / 10 / d == n / (10 * d)
  {
    var q, r := n / 10 / d, n / 10 % d;
    assert n / 10 == q * d + r;
    assert q * (10 * d) == 10 * (q * d);
    DivisionIsUnique(n, 10 * d, q, 10 * r + n % 10);
  }

  /** The shape of the literals that parseNumber cuts out of the text. */
  predicate IsLiteral(s: string) {
    AllDigits(s) || (s != "" && s[0] == '-' && AllDigits(s[1..]))
  }

  /** std::stoull on such a literal: a leading minus negates modulo 2^64. */
  function Stoull(s: string): Result<nat>
    requires IsLiteral(s)
  {
    var digits := if s != "" && s[0] == '-' then s[1..] else s;
    if digits == "" then Failure(InvalidNumber)
    else if DecimalValue(digits) >= TWO_TO_THE_64 then Failure(NumberOutOfRange)
    else if digits == s then Success(DecimalValue(digits))
    else Success((TWO_TO_THE_64 - DecimalValue(digits)) % TWO_TO_THE_64)
  }

  /** The number of digits that a text starts with. */
  function DigitCount(s: string): (n: nat)
    ensures n <= |s| && AllDigits(s[..n])
    ensures n == |s| || !IsDigit(s[n])
  {
    if s != "" && IsDigit(s[0]) then
      var n := 1 + DigitCount(s[1..]);
      assert forall i | 1 <= i < n :: s[i] == s[1..][i - 1];
      n
    else 0
  }

  /** The length of the literal that a text starts with. */
  function LiteralLength(s: string): (n: nat)
    ensures n <= |s| && IsLiteral(s[..n])
  {
    if s != "" && s[0] == '-' then
      var n := 1 + DigitCount(s[1..]);
      assert s[..n][1..] == s[1..][..n - 1];
      n
    else DigitCount(s)
  }

  function ParseNumber(s: string): (r: Parsed<nat>)
    ensures r.Ok? ==> |r.rest| < |s| && r.value < TWO_TO_THE_64
  {
    var t := SkipSpace(s);
    var n := LiteralLength(t);
    Leaving(Stoull(t[..n]), t[n..])
  }

  function ParseBool(s: string): (r: Parsed<bool>)
    ensures r.Ok? ==> |r.rest| < |s|
  {
    var t := SkipSpace(s);
    if "true" <= t then Ok(true, t[4..])
    else if "false" <= t then Ok(false, t[5..])
    else Err(ExpectedBool)
  }

  lemma {:induction false} DigitCountOver(s: string, tail: string)
    requires AllDigits(s) && (tail == "" || !IsDigit(tail[0]))
    ensures DigitCount(s + tail) == |s|
  {
    if s == "" {
      assert s + tail == tail;
    } else {
      assert (s + tail)[1..] == s[1..] + tail;
      DigitCountOver(s[1..], tail);
    }
  }

  lemma LiteralCut(s: string, literal: string, tail: string)
    requires IsLiteral(literal) && s == literal + tail
    requires tail == "" || !IsDigit(tail[0])
    requires literal == "" && tail != "" ==> tail[0] != '-'
    ensures LiteralLength(s) == |literal| && s[..|literal|] == literal && s[|literal|..] == tail
  {
    if literal != "" && literal[0] == '-' {
      assert s[1..] == literal[1..] + tail;
      DigitCountOver(literal[1..], tail);
    } else {
      DigitCountOver(literal, tail);
    }
  }

  /** parseNumber takes the whole literal and nothing more. */
  lemma ParseLiteral(literal: string, tail: string)
    requires IsLiteral(literal) && literal != ""
    requires tail == "" || !IsDigit(tail[0])
    ensures ParseNumber(literal + tail) == Leaving(Stoull(literal), tail)
  {
    assert SkipSpace(literal + tail) == literal + tail;
    LiteralCut(literal + tail, literal, tail);
  }

  /** Printing then parsing a 64-bit number. */
  lemma StoullOfDecimal(n: nat)
    ensures IsLiteral(Decimal(n))
    ensures Stoull(Decimal(n)) == if n < TWO_TO_THE_64 then Success(n) else Failure(NumberOutOfRange)
  {
    DecimalRoundTrip(n);
    assert IsDigit(Decimal(n)[0]);
  }
}
