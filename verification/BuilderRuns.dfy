/** Whole runs of JsonBuilder: every properly nested sequence of calls writes the pretty document of
    the value that the calls spell out. */
module BuilderRuns {
  import opened Results
  import opened Sequences
  import opened JsonText
  import opened JsonRecords
  import opened JsonDocuments
  import opened PrettyDocuments
  import opened JsonUtils

  /** The printer once the value has been written. */
  function After(p: Printer, v: Value): Printer {
    Emit(p, Render(Pretty(v, p.level), ""))
  }

  /** The printer inside an object that was begun at p and has these members so far. */
  function InRecord(p: Printer, fields: seq<Field>): Printer {
    Printer(p.buffer + "{" + MembersText(fields, p.level + 1), p.first + [fields == []], p.level + 1)
  }

  /** The printer inside an array that was begun at p and has these elements so far. */
  function InList(p: Printer, items: seq<Value>): Printer {
    Printer(p.buffer + "[" + ElementsText(items, p.level + 1), p.first + [items == []], p.level + 1)
  }

  lemma BeginContainer(p: Printer)
    ensures Step(p, BeginObject) == InRecord(p, [])
    ensures Step(p, BeginArray) == InList(p, [])
  {
  }

  lemma SeparateInside(buffer: string, first: seq<bool>, empty: bool, level: int)
    ensures Separate(Printer(buffer, first + [empty], level)) ==
            Printer(buffer + Comma(!empty) + NewLine(level), first + [false], level)
  {
    DropLast(first, empty);
  }

  lemma AddMember(p: Printer, fields: seq<Field>, key: string, v: Value)
    ensures After(WriteKey(InRecord(p, fields), key), v) == InRecord(p, fields + [Field(key, v)])
  {
    var level, f := p.level + 1, Field(key, v);
    var start := p.buffer + "{" + MembersText(fields, level) + Comma(fields != []);
    var prefix, text := "\"" + EscapeString(key) + "\": ", Render(Pretty(v, level), "");
    SeparateInside(p.buffer + "{" + MembersText(fields, level), p.first, fields == [], level);
    assert After(WriteKey(InRecord(p, fields), key), v) ==
           Printer(start + NewLine(level) + prefix + text, p.first + [false], level);
    OneMoreMember(fields, f, level);
    MemberText(f, level);
    Regrouped(p.buffer + "{", MembersText(fields, level), Comma(fields != []), NewLine(level), prefix, text);
  }

  lemma Regrouped(a: string, b: string, c: string, d: string, e: string, f: string)
    ensures a + (b + c + (d + e + f)) == a + b + c + d + e + f
    ensures a + (b + c + (d + e)) == a + b + c + d + e
  {
  }

  lemma MemberText(f: Field, level: int)
    ensures RenderMember(PrettyMember(f, level, false), "") ==
            NewLine(level) + ("\"" + EscapeString(f.key) + "\": ") + Render(Pretty(f.value, level), "")
  {
    hide EscapeString, NewLine, Render, Pretty;
    var m := PrettyMember(f, level, false);
    assert m.post + (Comma(m.comma) + "") == "";
    assert AfterColon(m, "") == " " + Render(Pretty(f.value, level), "");
    hide AfterColon;
    MemberPieces(NewLine(level), EscapeString(f.key), Render(Pretty(f.value, level), ""));
  }

  lemma MemberPieces(line: string, key: string, value: string)
    ensures line + ("\"" + (key + ("\"" + ("" + (":" + (" " + value)))))) == line + ("\"" + key + "\": ") + value
  {
    assert "\"" + ("" + (":" + (" " + value))) == "\": " + value;
  }

  lemma AddScalar(q: Printer, key: string)
    ensures forall text :: Step(q, WriteString(key, text)) == After(WriteKey(q, key), Text(text))
    ensures forall n :: Step(q, WriteNumber(key, n)) == After(WriteKey(q, key), Number(n))
    ensures forall b :: Step(q, WriteBool(key, b)) == After(WriteKey(q, key), Flag(b))
  {
    forall text ensures Step(q, WriteString(key, text)) == After(WriteKey(q, key), Text(text)) {
      assert Render(Quoted(EscapeString(text)), "") == "\"" + EscapeString(text) + "\"";
    }
    forall n ensures Step(q, WriteNumber(key, n)) == After(WriteKey(q, key), Number(n)) {
      assert Render(Literal(SignedDecimal(n)), "") == SignedDecimal(n);
    }
    forall b ensures Step(q, WriteBool(key, b)) == After(WriteKey(q, key), Flag(b)) {
      assert Render(Word(b), "") == if b then "true" else "false";
    }
  }

  lemma AddElement(p: Printer, items: seq<Value>, v: Value)
    ensures After(Separate(InList(p, items)), v) == InList(p, items + [v])
  {
    var level := p.level + 1;
    var text := Render(Pretty(v, level), "");
    SeparateInside(p.buffer + "[" + ElementsText(items, level), p.first, items == [], level);
    assert After(Separate(InList(p, items)), v) ==
           Printer(p.buffer + "[" + ElementsText(items, level) + Comma(items != []) + NewLine(level) + text,
                   p.first + [false], level);
    OneMoreElement(items, v, level);
    Regrouped(p.buffer + "[", ElementsText(items, level), Comma(items != []), NewLine(level), text, "");
  }

  lemma Nested(a: string, b: string, c: string, d: string, e: string)
    ensures a + b + c + d + e == a + (b + (c + (d + (e + ""))))
  {
  }

  lemma EndRecord(p: Printer, fields: seq<Field>)
    ensures Step(InRecord(p, fields), EndObject) == After(p, Record(fields))
  {
    hide PrettyMembers, RenderMembers, NewLine;
    var text, line := MembersText(fields, p.level + 1), NewLine(p.level);
    MembersThenTail(PrettyMembers(fields, p.level + 1), line + ("}" + ""));
    Nested(p.buffer, "{", text, line, "}");
    DropLast(p.first, fields == []);
  }

  lemma EndList(p: Printer, items: seq<Value>)
    ensures Step(InList(p, items), EndArray) == After(p, List(items))
  {
    hide PrettyElements, RenderElements, NewLine;
    var text, line := ElementsText(items, p.level + 1), NewLine(p.level);
    ElementsThenTail(PrettyElements(items, p.level + 1), line + ("]" + ""));
    Nested(p.buffer, "[", text, line, "]");
    DropLast(p.first, items == []);
  }

  // ---------- properly nested sequences of calls ----------

  function Run(p: Printer, calls: seq<Call>): Printer
    decreases |calls|
  {
    if calls == [] then p else Run(Step(p, calls[0]), calls[1..])
  }

  /** The value that a properly nested sequence of calls starts with, and the calls after it. */
  function ValueOf(calls: seq<Call>): (r: Option<(Value, seq<Call>)>)
    ensures r.Some? ==> |r.value.1| < |calls|
    decreases |calls|, 0
  {
    if calls == [] then None
    else match calls[0]
      case BeginObject => (
        match FieldsOf(calls[1..])
        case Some((fields, more)) => Some((Record(fields), more))
        case None => None)
      case BeginArray => (
        match ItemsOf(calls[1..])
        case Some((items, more)) => Some((List(items), more))
        case None => None)
      case _ => None
  }

  /** The members up to the matching endObject. A container member is announced by writeObjectValue
      or writeArrayValue, which are the same call. */
  function FieldsOf(calls: seq<Call>): (r: Option<(seq<Field>, seq<Call>)>)
    ensures r.Some? ==> |r.value.1| < |calls|
    decreases |calls|, 1
  {
    if calls == [] then None
    else if calls[0] == EndObject then Some(([], calls[1..]))
    else match FieldOf(calls)
      case None => None
      case Some((field, more)) =>
        match FieldsOf(more)
        case None => None
        case Some((fields, rest)) => Some(([field] + fields, rest))
  }

  function FieldOf(calls: seq<Call>): (r: Option<(Field, seq<Call>)>)
    requires calls != []
    ensures r.Some? ==> |r.value.1| < |calls|
    decreases |calls|, 0
  {
    match calls[0]
    case WriteString(key, text) => Some((Field(key, Text(text)), calls[1..]))
    case WriteNumber(key, n) => Some((Field(key, Number(n)), calls[1..]))
    case WriteBool(key, b) => Some((Field(key, Flag(b)), calls[1..]))
    case WriteObjectValue(key) => Labelled(key, ValueOf(calls[1..]))
    case WriteArrayValue(key) => Labelled(key, ValueOf(calls[1..]))
    case _ => None
  }

  function Labelled(key: string, r: Option<(Value, seq<Call>)>): Option<(Field, seq<Call>)> {
    match r
    case Some((v, more)) => Some((Field(key, v), more))
    case None => None
  }

  /** The elements up to the matching endArray; the builder has no call for a scalar element. */
  function ItemsOf(calls: seq<Call>): (r: Option<(seq<Value>, seq<Call>)>)
    ensures r.Some? ==> |r.value.1| < |calls|
    decreases |calls|, 1
  {
    if calls == [] then None
    else if calls[0] == EndArray then Some(([], calls[1..]))
    else if calls[0] != WriteArrayElement then None
    else match ValueOf(calls[1..])
      case None => None
      case Some((item, more)) =>
        match ItemsOf(more)
        case None => None
        case Some((items, rest)) => Some(([item] + items, rest))
  }

  lemma {:induction false} RunValue(p: Printer, calls: seq<Call>)
    requires ValueOf(calls).Some?
    ensures Run(p, calls) == Run(After(p, ValueOf(calls).value.0), ValueOf(calls).value.1)
    decreases |calls|, 0
  {
    BeginContainer(p);
    if calls[0] == BeginObject {
      RunFields(p, [], calls[1..]);
      WithNothing(FieldsOf(calls[1..]).value.0);
    } else {
      RunItems(p, [], calls[1..]);
      WithNothing(ItemsOf(calls[1..]).value.0);
    }
  }

  lemma RunStarts(p: Printer, calls: seq<Call>)
    requires calls != []
    ensures Run(p, calls) == Run(Step(p, calls[0]), calls[1..])
  {
  }

  lemma FieldsUnfold(calls: seq<Call>)
    requires FieldsOf(calls).Some?
    ensures calls != []
    ensures if calls[0] == EndObject then FieldsOf(calls) == Some(([], calls[1..]))
            else
              && FieldOf(calls).Some?
              && var (field, more) := FieldOf(calls).value;
                 && FieldsOf(more).Some?
                 && FieldsOf(calls) == Some(([field] + FieldsOf(more).value.0, FieldsOf(more).value.1))
  {
  }

  lemma ItemsUnfold(calls: seq<Call>)
    requires ItemsOf(calls).Some?
    ensures calls != []
    ensures if calls[0] == EndArray then ItemsOf(calls) == Some(([], calls[1..]))
            else
              && calls[0] == WriteArrayElement && ValueOf(calls[1..]).Some?
              && var (item, more) := ValueOf(calls[1..]).value;
                 && ItemsOf(more).Some?
                 && ItemsOf(calls) == Some(([item] + ItemsOf(more).value.0, ItemsOf(more).value.1))
  {
  }

  lemma {:induction false} RunFields(p: Printer, done: seq<Field>, calls: seq<Call>)
    requires FieldsOf(calls).Some?
    ensures Run(InRecord(p, done), calls) ==
            Run(After(p, Record(done + FieldsOf(calls).value.0)), FieldsOf(calls).value.1)
    decreases |calls|, 1
  {
    FieldsUnfold(calls);
    RunStarts(InRecord(p, done), calls);
    hide FieldsOf, FieldOf, Run, InRecord, After;
    if calls[0] == EndObject {
      EndRecord(p, done);
      WithNothing(done);
    } else {
      var (field, more) := FieldOf(calls).value;
      RunField(p, done, calls);
      RunFields(p, done + [field], more);
      Associate(done, [field], FieldsOf(more).value.0);
    }
  }

  /** The call that starts a member, and what is left of the calls after the member. */
  lemma FieldUnfolds(calls: seq<Call>)
    requires calls != [] && FieldOf(calls).Some?
    ensures var (Field(key, v), more) := FieldOf(calls).value;
            match calls[0]
            case WriteString(k, text) => k == key && v == Text(text) && more == calls[1..]
            case WriteNumber(k, n) => k == key && v == Number(n) && more == calls[1..]
            case WriteBool(k, b) => k == key && v == Flag(b) && more == calls[1..]
            case WriteObjectValue(k) => k == key && ValueOf(calls[1..]) == Some((v, more))
            case WriteArrayValue(k) => k == key && ValueOf(calls[1..]) == Some((v, more))
            case _ => false
  {
  }

  lemma {:induction false} RunField(p: Printer, done: seq<Field>, calls: seq<Call>)
    requires calls != [] && FieldOf(calls).Some?
    ensures Run(InRecord(p, done), calls) ==
            Run(InRecord(p, done + [FieldOf(calls).value.0]), FieldOf(calls).value.1)
    decreases |calls|, 0
  {
    var q := InRecord(p, done);
    var Field(key, v) := FieldOf(calls).value.0;
    RunStarts(q, calls);
    AddScalar(q, key);
    AddMember(p, done, key, v);
    FieldUnfolds(calls);
    assert forall k :: Step(q, WriteObjectValue(k)) == Step(q, WriteArrayValue(k)) == WriteKey(q, k);
    hide Run, InRecord, After, ValueOf, FieldOf, Step, WriteKey;
    if calls[0].WriteObjectValue? || calls[0].WriteArrayValue? {
      RunValue(WriteKey(q, key), calls[1..]);
    }
  }

  lemma {:induction false} RunItems(p: Printer, done: seq<Value>, calls: seq<Call>)
    requires ItemsOf(calls).Some?
    ensures Run(InList(p, done), calls) ==
            Run(After(p, List(done + ItemsOf(calls).value.0)), ItemsOf(calls).value.1)
    decreases |calls|, 1
  {
    ItemsUnfold(calls);
    RunStarts(InList(p, done), calls);
    assert calls[0] == WriteArrayElement ==> Step(InList(p, done), calls[0]) == Separate(InList(p, done));
    hide ItemsOf, ValueOf, Run, InList, After, Separate, Step;
    if calls[0] == EndArray {
      EndList(p, done);
      WithNothing(done);
    } else {
      var (item, more) := ValueOf(calls[1..]).value;
      assert Run(InList(p, done), calls) == Run(InList(p, done + [item]), more) by {
        RunValue(Separate(InList(p, done)), calls[1..]);
        AddElement(p, done, item);
      }
      RunItems(p, done + [item], more);
      Associate(done, [item], ItemsOf(more).value.0);
    }
  }

  /** A whole run on a new builder: the text is the pretty document, and every container that was
      opened is closed again. */
  lemma WholeRun(calls: seq<Call>, v: Value)
    requires ValueOf(calls) == Some((v, []))
    ensures Run(FreshPrinter, calls) == Printer(Render(Pretty(v, 0), ""), [], 0)
  {
    RunValue(FreshPrinter, calls);
  }

  /** Along every call sequence the stack of flags is as high as the indentation is deep. */
  lemma {:induction false} StackFollowsLevel(p: Printer, calls: seq<Call>)
    requires |p.first| == p.level
    requires forall k | 0 <= k <= |calls| :: Run(p, calls[..k]).level >= 0
    ensures |Run(p, calls).first| == Run(p, calls).level
    decreases |calls|
  {
    if calls != [] {
      assert calls[..1][1..] == [] && calls[..1][0] == calls[0];
      assert Run(p, calls[..1]) == Step(p, calls[0]);
      forall k | 0 <= k <= |calls[1..]| ensures Run(Step(p, calls[0]), calls[1..][..k]).level >= 0 {
        assert calls[..k + 1][1..] == calls[1..][..k];
      }
      StackFollowsLevel(Step(p, calls[0]), calls[1..]);
    }
  }
}
