/** escapeJSON of include/APISerializer.h, the second escaper of the code base. */
module JsonEscaping {
  import opened Results
  import opened Sequences
  import opened JsonText
  import opened BuilderTexts
  import Rfc = Rfc8259

  // ---------- escapeJSON ----------

  /** Unlike the builder's escaper, this one compares c >= 0 first: a byte from 0x80 is written as it is. */
  function EscapeJsonChar(c: char): string {
    if ShortEscape(c).Some? then ['\\', ShortEscape(c).value]
    else if c < ' ' then "\\u" + HexOfChar(c)
    else [c]
  }

  function EscapeJson(s: string): string {
    if s == "" then "" else EscapeJsonChar(s[0]) + EscapeJson(s[1..])
  }

  lemma {:induction false} EscapeJsonOneMore(s: string, c: char)
    ensures EscapeJson(s + [c]) == EscapeJson(s) + EscapeJsonChar(c)
  {
    if s == "" {
      assert EscapeJson([c]) == EscapeJsonChar(c) + "";
    } else {
      assert (s + [c])[1..] == s[1..] + [c];
      EscapeJsonOneMore(s[1..], c);
    }
  }

  method EscapeJSON(str: string) returns (oss: string)
    ensures oss == EscapeJson(str)
  {
    oss := "";
    for i := 0 to |str|
      invariant oss == EscapeJson(str[..i])
    {
      hide EscapeJson, HexOfChar;
      var c := str[i];
      var piece;
      if ShortEscape(c).Some? {
        piece := ['\\', ShortEscape(c).value];
      } else if c < ' ' {
        piece := "\\u" + HexOfChar(c);
      } else {
        piece := [c];
      }
      EscapeJsonOneMore(str[..i], c);
      TakeOneMore(str, i);
      oss := oss + piece;
    }
    assert str[..|str|] == str;
  }

  lemma EscapedJsonCharDecodes(c: char, more: string)
    ensures Rfc.Chars(EscapeJsonChar(c) + more) == Before([c as nat], Rfc.Chars(more))
  {
    if c <= DELETE {
      EscapedCharDecodes(c, more);
    } else {
      PlainDecodes(c, more);
    }
  }

  /** escapeJSON is lossless on every byte string: a decoder finds the string again, and the quote
      that closes it is the first one that is not escaped. */
  lemma {:induction false} EscapeJsonDecodes(s: string, tail: string)
    ensures Rfc.Chars(EscapeJson(s) + ("\"" + tail)) == Some((Codes(s), tail))
  {
    if s == "" {
      assert EscapeJson(s) + ("\"" + tail) == "\"" + tail;
    } else {
      hide EscapeJsonChar, EscapeJson, Rfc.Chars;
      var more := EscapeJson(s[1..]) + ("\"" + tail);
      EscapeJsonDecodes(s[1..], tail);
      EscapedJsonCharDecodes(s[0], more);
      EscapeJsonUnfolds(s, "\"" + tail);
      assert s == [s[0]] + s[1..];
      ConsCodes(s[0], s[1..]);
    }
  }

  lemma EscapeJsonUnfolds(s: string, tail: string)
    requires s != ""
    ensures EscapeJson(s) + tail == EscapeJsonChar(s[0]) + (EscapeJson(s[1..]) + tail)
  {
    hide EscapeJsonChar;
  }

  lemma EscapeJsonIsInjective(s: string, t: string)
    requires EscapeJson(s) == EscapeJson(t)
    ensures s == t
  {
    EscapeJsonDecodes(s, "");
    EscapeJsonDecodes(t, "");
    CodesAreInjective(s, t);
  }

  /** The two escapers of the code base agree on a string exactly when all its bytes are ASCII. */
  lemma {:induction false} EscapersAgree(s: string)
    ensures EscapeJson(s) == EscapeString(s) <==> Ascii(s)
  {
    if s != "" {
      assert s == [s[0]] + s[1..];
      EscapersAgree(s[1..]);
      var a, b := EscapeJsonChar(s[0]), EscapeChar(s[0]);
      if s[0] <= DELETE {
        assert a == b;
        assert EscapeJson(s)[|a|..] == EscapeJson(s[1..]) && EscapeString(s)[|a|..] == EscapeString(s[1..]);
        assert Ascii(s) <==> Ascii(s[1..]);
      } else {
        assert EscapeJson(s)[0] == s[0] && EscapeString(s)[0] == '\\';
      }
    }
  }

  lemma {:induction false} PlainIsNotEscaped(s: string)
    requires Plain(s) && forall i | 0 <= i < |s| :: s[i] <= DELETE
    ensures EscapeJson(s) == s
  {
    if s != "" {
      PlainIsNotEscaped(s[1..]);
      assert [s[0]] + s[1..] == s;
    }
  }
}
