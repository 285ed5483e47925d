/** The two classes of include/JsonUtils.h: the printer that appends to a buffer and the reader that
    moves a cursor. */
module JsonUtils {
  import opened Results
  import opened JsonText
  import opened JsonRecords
  import opened PrettyDocuments

  // ---------- what each builder call does to the printer's state ----------

  /** buffer, isFirstElement and indentLevel. */
  datatype Printer = Printer(buffer: string, first: seq<bool>, level: int)

  datatype Call =
    | BeginObject
    | EndObject
    | BeginArray
    | EndArray
    | WriteString(key: string, text: string)
    | WriteNumber(key: string, n: int)
    | WriteBool(key: string, b: bool)
    | WriteObjectValue(key: string)
    | WriteArrayValue(key: string)
    | WriteArrayElement

  const FreshPrinter := Printer("", [], 0)

  function Emit(p: Printer, text: string): Printer {
    p.(buffer := p.buffer + text)
  }

  function Open(p: Printer, bracket: string): Printer {
    Printer(p.buffer + bracket, p.first + [true], p.level + 1)
  }

  /** pop_back on an empty vector is undefined; no properly nested call sequence comes to it. */
  function Close(p: Printer, bracket: string): Printer {
    var first := if p.first == [] then [] else p.first[..|p.first| - 1];
    Printer(p.buffer + NewLine(p.level - 1) + bracket, first, p.level - 1)
  }

  /** writeComma, then writeIndent: at top level there is no separator. */
  function Separate(p: Printer): Printer {
    if p.first == [] then Emit(p, Indent(p.level))
    else if p.first[|p.first| - 1] then
      Printer(p.buffer + NewLine(p.level), p.first[..|p.first| - 1] + [false], p.level)
    else Emit(p, "," + NewLine(p.level))
  }

  function WriteKey(p: Printer, key: string): Printer {
    Emit(Separate(p), "\"" + EscapeString(key) + "\": ")
  }

  function Step(p: Printer, call: Call): Printer {
    match call
    case BeginObject => Open(p, "{")
    case EndObject => Close(p, "}")
    case BeginArray => Open(p, "[")
    case EndArray => Close(p, "]")
    case WriteString(key, text) => Emit(WriteKey(p, key), "\"" + EscapeString(text) + "\"")
    case WriteNumber(key, n) => Emit(WriteKey(p, key), SignedDecimal(n))
    case WriteBool(key, b) => Emit(WriteKey(p, key), if b then "true" else "false")
    case WriteObjectValue(key) => WriteKey(p, key)
    case WriteArrayValue(key) => WriteKey(p, key)
    case WriteArrayElement => Separate(p)
  }

  class JsonBuilder {
    var buffer: string
    var isFirstElement: seq<bool>
    var indentLevel: int

    /** One flag for every open container, one level of indentation for every flag. */
    ghost predicate Valid()
      reads this
    {
      indentLevel == |isFirstElement|
    }

    ghost function State(): Printer
      reads this
    {
      Printer(buffer, isFirstElement, indentLevel)
    }

    constructor ()
      ensures Valid() && State() == FreshPrinter
    {
      buffer, isFirstElement, indentLevel := "", [], 0;
    }

    method WriteIndent()
      requires Valid()
      modifies this
      ensures Valid() && State() == Emit(old(State()), Indent(old(indentLevel)))
    {
      var i := 0;
      while i < indentLevel
        invariant 0 <= i <= indentLevel && indentLevel == old(indentLevel) && isFirstElement == old(isFirstElement)
        invariant buffer + Indent(indentLevel - i) == old(buffer) + Indent(indentLevel)
      {
        buffer := buffer + "  ";
        i := i + 1;
      }
    }

    method WriteComma()
      requires Valid()
      modifies this
      ensures Valid() && Emit(State(), Indent(indentLevel)) == Separate(old(State()))
    {
      if isFirstElement != [] && !isFirstElement[|isFirstElement| - 1] {
        buffer := buffer + ",\n";
      } else if isFirstElement != [] {
        buffer := buffer + "\n";
        isFirstElement := isFirstElement[|isFirstElement| - 1 := false];
      }
    }

    method Escape(str: string) returns (escaped: string)
      ensures escaped == EscapeString(str)
    {
      escaped := "";
      for i := 0 to |str|
        invariant escaped == EscapeString(str[..i])
      {
        var c := str[i];
        var piece;
        if ShortEscape(c).Some? {
          piece := ['\\', ShortEscape(c).value];
        } else if BelowSpace(c) {
          piece := "\\u" + HexOfChar(c);
        } else {
          piece := [c];
        }
        EscapeOneMore(str[..i], c);
        assert str[..i + 1] == str[..i] + [c];
        escaped := escaped + piece;
      }
      assert str[..|str|] == str;
    }

    method Begin(bracket: string)
      requires Valid()
      modifies this
      ensures Valid() && State() == Open(old(State()), bracket)
    {
      buffer := buffer + bracket;
      indentLevel := indentLevel + 1;
      isFirstElement := isFirstElement + [true];
    }

    method End(bracket: string)
      requires Valid() && indentLevel > 0
      modifies this
      ensures Valid() && State() == Close(old(State()), bracket)
    {
      indentLevel := indentLevel - 1;
      isFirstElement := isFirstElement[..|isFirstElement| - 1];
      buffer := buffer + "\n";
      WriteIndent();
      buffer := buffer + bracket;
    }

    method BeginObject()
      requires Valid()
      modifies this
      ensures Valid() && State() == Step(old(State()), Call.BeginObject)
    {
      Begin("{");
    }

    method EndObject()
      requires Valid() && indentLevel > 0
      modifies this
      ensures Valid() && State() == Step(old(State()), Call.EndObject)
    {
      End("}");
    }

    method BeginArray()
      requires Valid()
      modifies this
      ensures Valid() && State() == Step(old(State()), Call.BeginArray)
    {
      Begin("[");
    }

    method EndArray()
      requires Valid() && indentLevel > 0
      modifies this
      ensures Valid() && State() == Step(old(State()), Call.EndArray)
    {
      End("]");
    }

    method WriteKey(key: string)
      requires Valid()
      modifies this
      ensures Valid() && State() == Step(old(State()), Call.WriteObjectValue(key))
    {
      WriteComma();
      WriteIndent();
      var escaped := Escape(key);
      buffer := buffer + ("\"" + escaped + "\": ");
    }

    method WriteString(key: string, text: string)
      requires Valid()
      modifies this
      ensures Valid() && State() == Step(old(State()), Call.WriteString(key, text))
    {
      WriteKey(key);
      var escaped := Escape(text);
      buffer := buffer + ("\"" + escaped + "\"");
    }

    method WriteNumber(key: string, n: int)
      requires Valid()
      modifies this
      ensures Valid() && State() == Step(old(State()), Call.WriteNumber(key, n))
    {
      WriteKey(key);
      buffer := buffer + SignedDecimal(n);
    }

    method WriteBool(key: string, b: bool)
      requires Valid()
      modifies this
      ensures Valid() && State() == Step(old(State()), Call.WriteBool(key, b))
    {
      WriteKey(key);
      buffer := buffer + if b then "true" else "false";
    }

    method WriteObjectValue(key: string)
      requires Valid()
      modifies this
      ensures Valid() && State() == Step(old(State()), Call.WriteObjectValue(key))
    {
      WriteKey(key);
    }

    method WriteArrayValue(key: string)
      requires Valid()
      modifies this
      ensures Valid() && State() == Step(old(State()), Call.WriteArrayValue(key))
    {
      WriteKey(key);
    }

    method WriteArrayElement()
      requires Valid()
      modifies this
      ensures Valid() && State() == Step(old(State()), Call.WriteArrayElement)
    {
      WriteComma();
      WriteIndent();
    }
  }

  // ---------- the reader ----------

  /** The method returned what the parsing function says and left the text unread that it leaves.
      After an exception only the error is observable. */
  ghost predicate Delivers<T>(r: Result<T>, rest: string, p: Parsed<T>) {
    r == p.Outcome() && (p.Ok? ==> rest == p.rest)
  }

  class JsonParser {
    const json: string
    var pos: nat

    /** The cursor never leaves the text. */
    ghost predicate Valid()
      reads this
    {
      pos <= |json|
    }

    /** The text that is still to be read. */
    ghost function Rest(): string
      requires Valid()
      reads this
    {
      json[pos..]
    }

    constructor (json: string)
      ensures Valid() && Rest() == json && this.json == json
    {
      this.json := json;
      pos := 0;
    }

    method SkipWhitespace()
      requires Valid()
      modifies this
      ensures Valid() && pos >= old(pos)
      ensures forall k | old(pos) <= k < pos :: json[k] in {' ', '\t', '\n', '\r'}
      ensures pos == |json| || json[pos] !in {' ', '\t', '\n', '\r'}
      ensures Rest() == SkipSpace(old(Rest()))
    {
      while pos < |json| && IsSpace(json[pos])
        invariant old(pos) <= pos <= |json|
        invariant forall k | old(pos) <= k < pos :: json[k] in {' ', '\t', '\n', '\r'}
        invariant SkipSpace(json[pos..]) == SkipSpace(old(json[pos..]))
      {
        assert json[pos..][1..] == json[pos + 1..];
        pos := pos + 1;
      }
    }

    method PeekChar() returns (c: char)
      requires Valid()
      modifies this
      ensures Valid() && c == Peek(old(Rest())) && Rest() == SkipSpace(old(Rest()))
    {
      SkipWhitespace();
      if pos >= |json| {
        return '\0';
      }
      return json[pos];
    }

    /** The character that consume returns decides in every caller between going on and throwing. */
    method Consume(c: char) returns (r: Result<()>)
      requires Valid()
      modifies this
      ensures Valid() && Delivers(r, Rest(), Expect(old(Rest()), c))
    {
      SkipWhitespace();
      if pos >= |json| {
        return Failure(Expected(c));
      }
      assert json[pos..][1..] == json[pos + 1..];
      pos := pos + 1;
      return if json[pos - 1] == c then Success(()) else Failure(Expected(c));
    }

    method Match(c: char) returns (b: bool)
      requires Valid()
      modifies this
      ensures Valid()
      ensures b == Expect(old(Rest()), c).Ok?
      ensures Rest() == if b then Expect(old(Rest()), c).rest else SkipSpace(old(Rest()))
    {
      SkipWhitespace();
      if pos < |json| && json[pos] == c {
        assert json[pos..][1..] == json[pos + 1..];
        pos := pos + 1;
        return true;
      }
      return false;
    }

    method ReadString() returns (r: Result<string>)
      requires Valid()
      modifies this
      ensures Valid() && Delivers(r, Rest(), ParseString(old(Rest())))
    {
      var _ :- Consume('"');
      ghost var left := StringBody(json[pos..]);
      ghost var body := left;
      assert ParseString(old(Rest())) == body;
      var result := "";
      PrependTwice("", 'x', body);
      hide StringBody, Unescape, ParseString, PrependAll, Prepend, Expect, SkipSpace;
      while pos < |json| && json[pos] != '"'
        invariant pos <= |json|
        invariant left == StringBody(json[pos..]) && body == PrependAll(result, left)
      {
        PrependLast(result, left);
        var c :- ReadCharacter();
        left := StringBody(json[pos..]);
        PrependTwice(result, c, left);
        result := result + [c];
      }
      PrependLast(result, left);
      if pos >= |json| {
        StringStopsAtEnd();
        assert json[pos..] == "";
        return Failure(UnterminatedString);
      }
      StringStep(json, pos);
      pos := pos + 1;
      return Success(result);
    }

    /** One turn of that loop, with its switch on the character after a backslash. */
    method ReadCharacter() returns (r: Result<char>)
      requires pos < |json| && json[pos] != '"'
      modifies this
      ensures old(pos) < pos <= |json|
      ensures StringBody(json[old(pos)..]) ==
              match r case Success(c) => Prepend(c, StringBody(json[pos..])) case Failure(e) => Err(e)
    {
      StringStep(json, pos);
      hide StringBody;
      if json[pos] == '\\' {
        pos := pos + 1;
        if pos >= |json| {
          return Failure(UnexpectedEnd);
        }
        pos := pos + 1;
        match Unescape(json[pos - 1])
        case None => return Failure(InvalidEscape);
        case Some(c) => return Success(c);
      } else {
        pos := pos + 1;
        return Success(json[pos - 1]);
      }
    }

    method SkipDigits()
      requires Valid()
      modifies this
      ensures Valid() && old(pos) <= pos
      ensures AllDigits(json[old(pos)..pos]) && (pos == |json| || !IsDigit(json[pos]))
    {
      while pos < |json| && '0' <= json[pos] <= '9'
        invariant old(pos) <= pos <= |json|
        invariant AllDigits(json[old(pos)..pos])
      {
        assert json[old(pos)..pos + 1] == json[old(pos)..pos] + [json[pos]];
        pos := pos + 1;
      }
    }

    method ReadNumber() returns (r: Result<nat>)
      requires Valid()
      modifies this
      ensures Valid() && Delivers(r, Rest(), ParseNumber(old(Rest())))
    {
      SkipWhitespace();
      var start := pos;
      if pos < |json| && json[pos] == '-' {
        pos := pos + 1;
      }
      ghost var digits := pos;
      SkipDigits();
      var literal := json[start..pos];
      assert digits == start + 1 ==> literal[1..] == json[digits..pos];
      assert json[start..] == literal + json[pos..];
      LiteralCut(json[start..], literal, json[pos..]);
      r := Stoull(literal);
    }

    method ReadBool() returns (r: Result<bool>)
      requires Valid()
      modifies this
      ensures Valid() && Delivers(r, Rest(), ParseBool(old(Rest())))
    {
      SkipWhitespace();
      if "true" <= json[pos..] {
        pos := pos + 4;
        return Success(true);
      } else if "false" <= json[pos..] {
        pos := pos + 5;
        return Success(false);
      }
      return Failure(ExpectedBool);
    }

    method ReadKey() returns (r: Result<string>)
      requires Valid()
      modifies this
      ensures Valid() && Delivers(r, Rest(), ParseKey(old(Rest())))
    {
      var key :- ReadString();
      var _ :- Consume(':');
      return Success(key);
    }

    method TryConsumeComma() returns (b: bool)
      requires Valid()
      modifies this
      ensures Valid() && Rest() == SkipComma(old(Rest()))
    {
      b := Match(',');
    }
  }
}
