/** serialize(APIResponse) of include/APISerializer.h, whose body is inserted as it is. */
module ApiResponses {
  import opened Words
  import opened Results
  import opened JsonText
  import opened JsonDocuments
  import opened StrictDocuments
  import opened BuilderTexts
  import opened JsonEscaping
  import opened CompactDocuments
  import Rfc = Rfc8259

  datatype APIStatus = SUCCESS | ERROR | NOT_FOUND | INVALID_REQUEST | UNAUTHORIZED | CONFLICT | TIMEOUT

  datatype APIResponse = APIResponse(
    requestId: string,
    status: APIStatus,
    message: string,
    body: string,
    timestamp: int64)

  function StatusName(status: APIStatus): string {
    match status
    case SUCCESS => "success"
    case ERROR => "error"
    case NOT_FOUND => "not_found"
    case INVALID_REQUEST => "invalid_request"
    case UNAUTHORIZED => "unauthorized"
    case CONFLICT => "conflict"
    case TIMEOUT => "timeout"
  }

  /** The status that a client reads from the decoded name. */
  function StatusNamed(units: seq<nat>): Option<APIStatus> {
    if units == Codes("success") then Some(SUCCESS)
    else if units == Codes("error") then Some(ERROR)
    else if units == Codes("not_found") then Some(NOT_FOUND)
    else if units == Codes("invalid_request") then Some(INVALID_REQUEST)
    else if units == Codes("unauthorized") then Some(UNAUTHORIZED)
    else if units == Codes("conflict") then Some(CONFLICT)
    else if units == Codes("timeout") then Some(TIMEOUT)
    else None
  }

  lemma StatusIsRead(status: APIStatus)
    ensures StatusNamed(Codes(StatusName(status))) == Some(status)
  {
    assert |StatusName(status)| ==
           match status
           case SUCCESS => 7
           case ERROR => 5
           case NOT_FOUND => 9
           case INVALID_REQUEST => 15
           case UNAUTHORIZED => 12
           case CONFLICT => 8
           case TIMEOUT => 7;
    assert Codes("timeout")[0] != Codes("success")[0];
  }

  /** A client that decodes the members before the body knows the whole head of the response. */
  lemma HeadIsRecovered(r: APIResponse, s: APIResponse)
    requires HeadPairs(r) == HeadPairs(s)
    ensures r.requestId == s.requestId && r.status == s.status && r.message == s.message && r.timestamp == s.timestamp
  {
    hide Codes, StatusName, StatusNamed;
    var p, q := HeadPairs(r), HeadPairs(s);
    assert p[0].value == q[0].value && p[1].value == q[1].value && p[2].value == q[2].value && p[3].value == q[3].value;
    StatusIsRead(r.status);
    StatusIsRead(s.status);
    CodesAreInjective(r.requestId, s.requestId);
    CodesAreInjective(r.message, s.message);
  }

  lemma StatusNameIsPlain(status: APIStatus)
    ensures Plain(StatusName(status)) && forall i | 0 <= i < |StatusName(status)| :: StatusName(status)[i] <= DELETE
  {
    var name := StatusName(status);
    assert forall i | 0 <= i < |name| :: 'a' <= name[i] <= 'z' || name[i] == '_' by {
      match status
      case SUCCESS =>
      case ERROR =>
      case NOT_FOUND =>
      case INVALID_REQUEST =>
      case UNAUTHORIZED =>
      case CONFLICT =>
      case TIMEOUT =>
    }
    hide StatusName;
  }

  lemma HeadNames()
    ensures Plain("request_id") && Plain("status") && Plain("message") && Plain("timestamp") && Plain("body")
  {
  }

  /** The members before the body. */
  function HeadEntries(r: APIResponse): seq<Entry> {
    [ Entry("request_id", StringOf(r.requestId)),
      Entry("status", StringOf(StatusName(r.status))),
      Entry("message", StringOf(r.message)),
      Entry("timestamp", NumberOf(r.timestamp)) ]
  }

  function HeadPairs(r: APIResponse): seq<Rfc.Pair> {
    [ Rfc.Pair(Codes("request_id"), Rfc.Str(Codes(r.requestId))),
      Rfc.Pair(Codes("status"), Rfc.Str(Codes(StatusName(r.status)))),
      Rfc.Pair(Codes("message"), Rfc.Str(Codes(r.message))),
      Rfc.Pair(Codes("timestamp"), Rfc.Num(r.timestamp, 0)) ]
  }

  /** What a client is to see if the body is the JSON value v. */
  function ResponseJson(r: APIResponse, v: Rfc.Json): Rfc.Json {
    Rfc.Obj(HeadPairs(r) + [Rfc.Pair(Codes("body"), v)])
  }

  function BodyText(r: APIResponse): string {
    if r.body == "" then "null" else r.body
  }

  function LastMember(r: APIResponse): string {
    Label("body") + (BodyText(r) + "}")
  }

  function ResponseText(r: APIResponse): string {
    "{" + (Joined(EntryTexts(HeadEntries(r))) + "," + LastMember(r))
  }

  method SerializeResponse(r: APIResponse) returns (oss: string)
    ensures oss == ResponseText(r)
    ensures Rfc.Decode(oss) == ObjectWith(HeadPairs(r), BodyMembers(BodyText(r)))
    ensures forall v :: Rfc.Decode(oss) == Some(ResponseJson(r, v)) <==> Rfc.Decode(BodyText(r)) == Some(v)
    ensures StatusNamed(HeadPairs(r)[1].value.units) == Some(r.status)
  {
    StatusIsRead(r.status);
    hide StatusNamed, StatusName;
    hide Joined, EntryTexts, StringMember, NumberMember, Label, ResponseJson, Codes;
    var requestId := EscapeJSON(r.requestId);
    var message := EscapeJSON(r.message);
    var m1, m2 := StringMember("request_id", requestId), StringMember("status", StatusName(r.status));
    var m3, m4 := StringMember("message", message), NumberMember("timestamp", r.timestamp);
    oss := "{" + (m1 + "," + m2 + "," + m3 + "," + m4 + "," + (Label("body") + (BodyText(r) + "}")));
    HeadText(r);
    ResponseIs(r);
    forall v ensures Rfc.Decode(oss) == Some(ResponseJson(r, v)) <==> Rfc.Decode(BodyText(r)) == Some(v) {
      ResponseDecodes(r, v);
    }
  }

  lemma HeadText(r: APIResponse)
    ensures Joined(EntryTexts(HeadEntries(r))) ==
            StringMember("request_id", EscapeJson(r.requestId)) + "," +
            StringMember("status", StatusName(r.status)) + "," +
            StringMember("message", EscapeJson(r.message)) + "," + NumberMember("timestamp", r.timestamp)
  {
    hide Joined, StringMember, NumberMember, EscapeJson, StringOf, NumberOf, EntryIs, Codes, StatusName, Plain;
    var m1, m2 := StringMember("request_id", EscapeJson(r.requestId)), StringMember("status", StatusName(r.status));
    var m3, m4 := StringMember("message", EscapeJson(r.message)), NumberMember("timestamp", r.timestamp);
    HeadNames();
    StatusNameIsPlain(r.status);
    PlainIsNotEscaped(StatusName(r.status));
    StringEntry("request_id", r.requestId);
    StringEntry("status", StatusName(r.status));
    StringEntry("message", r.message);
    NumberEntry("timestamp", r.timestamp);
    assert EntryTexts(HeadEntries(r)) == [m1, m2, m3, m4];
    JoinedEight(m1, m2, m3, m4, "", "", "", "");
  }

  lemma HeadDenotes(r: APIResponse)
    ensures forall i | 0 <= i < 4 :: EntryIs(HeadEntries(r)[i], HeadPairs(r)[i])
  {
    hide EntryIs, Codes, StringOf, NumberOf, StatusName, Plain, EntryText, StringMember, NumberMember;
    HeadNames();
    StringEntry("request_id", r.requestId);
    StringEntry("status", StatusName(r.status));
    StringEntry("message", r.message);
    NumberEntry("timestamp", r.timestamp);
  }

  // ---------- decoding a text whose last member is arbitrary ----------

  function PrependPairs(pairs: seq<Rfc.Pair>, r: Option<(seq<Rfc.Pair>, string)>): Option<(seq<Rfc.Pair>, string)> {
    match r
    case Some((more, rest)) => Some((pairs + more, rest))
    case None => None
  }

  lemma {:induction false} PairsBefore(entries: seq<Entry>, pairs: seq<Rfc.Pair>, last: string)
    requires entries != [] && |entries| == |pairs|
    requires forall i | 0 <= i < |entries| :: EntryIs(entries[i], pairs[i])
    requires last != "" && last[0] == '"'
    ensures var s := Joined(EntryTexts(entries)) + "," + last;
            s != "" && s[0] == '"' && Rfc.Pairs(s) == PrependPairs(pairs, Rfc.Pairs(last))
  {
    hide Rfc.Pairs, EntryIs, Joined, EntryText;
    if |entries| == 1 {
      OneEntry(entries[0], pairs[0], last);
      assert pairs == [pairs[0]];
      SplitFirst(entries, last);
    } else {
      var rest := Joined(EntryTexts(entries[1..])) + "," + last;
      PairsBefore(entries[1..], pairs[1..], last);
      OneEntry(entries[0], pairs[0], rest);
      SplitFirst(entries, last);
      PrependTwo(pairs, Rfc.Pairs(last));
    }
  }

  lemma PrependTwo(pairs: seq<Rfc.Pair>, r: Option<(seq<Rfc.Pair>, string)>)
    requires pairs != []
    ensures PrependPairs([pairs[0]], PrependPairs(pairs[1..], r)) == PrependPairs(pairs, r)
  {
    if r.Some? {
      assert [pairs[0]] + (pairs[1..] + r.value.0) == pairs + r.value.0;
    }
  }

  lemma SplitFirst(entries: seq<Entry>, last: string)
    requires entries != []
    ensures Joined(EntryTexts(entries)) + "," + last ==
            EntryText(entries[0]) +
            ("," + if |entries| == 1 then last else Joined(EntryTexts(entries[1..])) + "," + last)
  {
    hide EntryText;
    assert EntryTexts(entries)[1..] == EntryTexts(entries[1..]);
    if |entries| > 1 {
      JoinedFromTheFront(EntryTexts(entries));
    }
  }

  lemma EntryMember(e: Entry, pair: Rfc.Pair)
    requires EntryIs(e, pair)
    ensures var m := Member("", e.name, "", "", e.value, "", true);
            StrictMember(m) && DenotedMember(m) == pair
  {
  }

  lemma EntryIsPair(e: Entry, pair: Rfc.Pair, rest: string)
    requires EntryIs(e, pair)
    ensures Rfc.OnePair(EntryText(e) + ("," + rest)) == Some((pair, "," + rest))
  {
    hide Rfc.OnePair, EntryIs, EntryText, StrictMember, DenotedMember, AfterColon, Strict, Denoted;
    var m := Member("", e.name, "", "", e.value, "", true);
    EntryMember(e, pair);
    CompactMember(e, true, rest);
    DecodeMember(m, rest);
    assert m.post + (Comma(m.comma) + rest) == "," + rest;
    assert RenderMember(m, rest) == "\"" + (m.key + ("\"" + (m.mid + (":" + AfterColon(m, rest)))));
    assert EntryText(e) + Comma(true) + rest == EntryText(e) + ("," + rest);
  }

  /** One strict member, a comma, and whatever follows. */
  lemma OneEntry(e: Entry, pair: Rfc.Pair, rest: string)
    requires EntryIs(e, pair) && rest != "" && rest[0] == '"'
    ensures var s := EntryText(e) + ("," + rest);
            s != "" && s[0] == '"' && Rfc.Pairs(s) == PrependPairs([pair], Rfc.Pairs(rest))
  {
    hide Rfc.OnePair, EntryIs;
    EntryIsPair(e, pair, rest);
    assert ("," + rest)[1..] == rest && SkipSpace(rest) == rest && SkipSpace("," + rest) == "," + rest;
  }

  lemma BodyPair(body: string)
    ensures var last := Label("body") + (body + "}");
            && last[0] == '"'
            && Rfc.OnePair(last) ==
               match Rfc.Value(SkipSpace(body + "}"))
               case Some((v, more)) => Some((Rfc.Pair(Codes("body"), v), more))
               case None => None
  {
    var more := ":" + (body + "}");
    PlainName("body") by { HeadNames(); }
    DecodeName("body", more);
    assert Label("body") + (body + "}") == "\"" + ("body" + ("\"" + more));
    assert SkipSpace(more) == more && more[1..] == body + "}";
  }

  lemma SpaceBeforeBrace(rest: string)
    ensures SkipSpace(rest + "}") == SkipSpace(rest) + "}"
  {
    var w := SkippedSpace(rest);
    SkipSpaceOver(w, SkipSpace(rest) + "}");
    assert rest + "}" == w + (SkipSpace(rest) + "}");
    assert SkipSpace(rest) == "" ==> SkipSpace(rest) + "}" == "}";
  }

  // ---------- which bodies make JSON ----------

  /** The members that the body brings in: its own, and those that it adds if it goes on with a comma
      and the inside of an object. */
  function BodyMembers(body: string): Option<seq<Rfc.Pair>> {
    match Rfc.Value(SkipSpace(body))
    case None => None
    case Some((v, rest)) =>
      var t := SkipSpace(rest);
      if t == "" then Some([Rfc.Pair(Codes("body"), v)])
      else if t[0] != ',' then None
      else match Rfc.Decode("{" + (t[1..] + "}"))
        case Some(Obj(pairs)) => if pairs == [] then None else Some([Rfc.Pair(Codes("body"), v)] + pairs)
        case _ => None
  }

  function ObjectWith(head: seq<Rfc.Pair>, pairs: Option<seq<Rfc.Pair>>): Option<Rfc.Json> {
    match pairs
    case Some(more) => Some(Rfc.Obj(head + more))
    case None => None
  }

  /** The members of a text of members with the closing brace, if only white space follows it. */
  function AllPairs(s: string): Option<seq<Rfc.Pair>> {
    match Rfc.Pairs(s)
    case Some((pairs, rest)) => (if SkipSpace(rest) == "" then Some(pairs) else None)
    case None => None
  }

  lemma DecodeBraced(s: string)
    requires s != "" && s[0] == '"'
    ensures Rfc.Decode("{" + s) ==
            match AllPairs(s) case Some(pairs) => Some(Rfc.Obj(pairs)) case None => None
  {
    var text := "{" + s;
    assert text[1..] == s && SkipSpace(text) == text && SkipSpace(s) == s;
    assert Rfc.AfterBrace(s) == Rfc.Pairs(s);
    assert Rfc.Value(text) ==
           match Rfc.Pairs(s) case Some((pairs, rest)) => Some((Rfc.Obj(pairs), rest)) case None => None;
  }

  /** The inside of an object that may be empty. */
  lemma DecodeInside(s: string)
    ensures match Rfc.Decode("{" + s)
            case Some(Obj(pairs)) => AllPairs(SkipSpace(s)) == if pairs == [] then None else Some(pairs)
            case _ => AllPairs(SkipSpace(s)) == None
  {
    hide Rfc.Pairs;
    var text, u := "{" + s, SkipSpace(s);
    assert text[1..] == s && SkipSpace(text) == text;
    assert Rfc.Value(text) ==
           match Rfc.AfterBrace(u) case Some((pairs, rest)) => Some((Rfc.Obj(pairs), rest)) case None => None;
    PairsAreSome(u);
  }

  lemma PairsAreSome(s: string)
    ensures Rfc.Pairs(s).Some? ==> s != "" && s[0] == '"' && Rfc.Pairs(s).value.0 != []
  {
    assert Rfc.OnePair(s).Some? ==> Rfc.String(s).Some?;
  }

  lemma PairsUnfold(s: string)
    requires Rfc.OnePair(s).Some?
    ensures var (pair, more) := Rfc.OnePair(s).value;
            var t := SkipSpace(more);
            AllPairs(s) ==
            if t == "" then None
            else if t[0] == '}' then (if SkipSpace(t[1..]) == "" then Some([pair]) else None)
            else if t[0] != ',' then None
            else match AllPairs(SkipSpace(t[1..])) case Some(more) => Some([pair] + more) case None => None
  {
  }

  /** The last member with the closing brace, for every body. */
  lemma LastPairs(body: string)
    ensures AllPairs(Label("body") + (body + "}")) == BodyMembers(body)
  {
    hide Rfc.Value, Rfc.OnePair, Rfc.Pairs, Rfc.Decode, Label, AllPairs;
    var last, s := Label("body") + (body + "}"), SkipSpace(body);
    BodyPair(body);
    SpaceBeforeBrace(body);
    if Rfc.Value(s).Some? {
      Rfc.ValueIsLocal(s, "}");
      var rest := Rfc.Value(s).value.1;
      SpaceBeforeBrace(rest);
      PairsUnfold(last);
      var t := SkipSpace(rest);
      assert t == "" ==> (t + "}")[1..] == "";
      assert t != "" ==> (t + "}")[1..] == t[1..] + "}";
      if t != "" {
        SpaceBeforeBrace(t[1..]);
        DecodeInside(t[1..] + "}");
      }
    } else if Rfc.OnePair(last).Some? {
      PairsUnfold(last);
      if Rfc.OnePair(last).value.1 != "" {
        Rfc.ValueReflects(s, "}");
      }
    } else {
      NoPairs(last);
    }
  }

  lemma NoPairs(s: string)
    requires Rfc.OnePair(s).None?
    ensures AllPairs(s) == None
  {
  }

  /** What a client decodes, for every body: the members in front of the body and those that the body
      brings in, or no JSON at all. */
  lemma ResponseIs(r: APIResponse)
    ensures Rfc.Decode(ResponseText(r)) == ObjectWith(HeadPairs(r), BodyMembers(BodyText(r)))
  {
    hide Joined, EntryIs, Rfc.Pairs, Rfc.OnePair, BodyText, Label, EntryTexts, BodyMembers, HeadPairs, HeadEntries;
    var last := LastMember(r);
    BodyPair(BodyText(r));
    HeadDenotes(r);
    assert |HeadEntries(r)| == |HeadPairs(r)| == 4 by { HeadCounts(r); }
    PairsBefore(HeadEntries(r), HeadPairs(r), last);
    LastPairs(BodyText(r));
    DecodeBraced(Joined(EntryTexts(HeadEntries(r))) + "," + last);
  }

  lemma HeadCounts(r: APIResponse)
    ensures |HeadEntries(r)| == |HeadPairs(r)| == 4
  {
  }

  /** The response is JSON if and only if the object of the body alone is, and that depends on the body
      only: a value, and behind it nothing, or a comma and the inside of a JSON object. */
  lemma ResponseIsJson(r: APIResponse)
    ensures Rfc.Decode(ResponseText(r)).Some? <==> Rfc.Decode("{" + LastMember(r)).Some?
    ensures Rfc.Decode(ResponseText(r)).Some? <==> BodyMembers(BodyText(r)).Some?
  {
    hide Rfc.Pairs, Rfc.OnePair, BodyText, BodyMembers, Rfc.Decode, Label;
    ResponseIs(r);
    LastPairs(BodyText(r));
    BodyPair(BodyText(r));
    DecodeBraced(LastMember(r));
  }

  /** The response is decoded to its five members exactly when the inserted body is a JSON text. */
  lemma ResponseDecodes(r: APIResponse, v: Rfc.Json)
    ensures Rfc.Decode(ResponseText(r)) == Some(ResponseJson(r, v)) <==> Rfc.Decode(BodyText(r)) == Some(v)
  {
    hide Rfc.Value, BodyText, ResponseText, HeadPairs;
    var body, pair := BodyText(r), Rfc.Pair(Codes("body"), v);
    ResponseIs(r);
    if BodyMembers(body).Some? {
      var pairs := BodyMembers(body).value;
      assert (HeadPairs(r) + pairs)[|HeadPairs(r)|..] == pairs;
      assert (HeadPairs(r) + [pair])[|HeadPairs(r)|..] == [pair];
      assert pairs == [pair] <==> Rfc.Decode(body) == Some(v) by {
        assert pairs == [pair] ==> |pairs| == 1;
      }
    }
  }

  /** A one and what follows it. */
  lemma OneThen(tail: string)
    requires Rfc.EndsNumber(tail)
    ensures Rfc.Value(SkipSpace("1" + tail)) == Some((Rfc.Num(1, 0), tail))
  {
    SignedDecimalIsNumber(1);
    Rfc.ValueIsLocal("1", tail);
    assert "" + tail == tail;
  }

  lemma OneMember()
    ensures Rfc.Decode("{\"x\":1}") == Some(Rfc.Obj([Rfc.Pair(Codes("x"), Rfc.Num(1, 0))]))
  {
    hide Rfc.Value, Rfc.Pairs, Rfc.OnePair, Rfc.Decode, AllPairs;
    var s := "\"x\":1}";
    OnePairIs(s);
    assert SkipSpace("}") == "}" && "}"[1..] == "";
    PairsUnfold(s);
    DecodeBraced(s);
    assert "{" + s == "{\"x\":1}";
  }

  lemma OnePairIs(s: string)
    requires s == "\"x\":1}"
    ensures Rfc.OnePair(s) == Some((Rfc.Pair(Codes("x"), Rfc.Num(1, 0)), "}"))
  {
    hide Rfc.Value, Rfc.Chars;
    PlainName("x");
    DecodeName("x", ":1}");
    OneThen("}");
    assert "\"" + ("x" + ("\"" + ":1}")) == s;
    assert SkipSpace(":1}") == ":1}" && ":1}"[1..] == "1" + "}";
  }

  lemma OneAndMember()
    ensures Rfc.Decode("1,\"x\":1") == None
    ensures BodyMembers("1,\"x\":1") ==
            Some([Rfc.Pair(Codes("body"), Rfc.Num(1, 0)), Rfc.Pair(Codes("x"), Rfc.Num(1, 0))])
  {
    hide Rfc.Value;
    var t := ",\"x\":1";
    OneThen(t);
    OneMember();
    assert Rfc.Value(SkipSpace("1,\"x\":1")) == Some((Rfc.Num(1, 0), t)) by { assert "1,\"x\":1" == "1" + t; }
    assert SkipSpace(t) == t && t != "" && t[0] == ',';
    assert "{" + (t[1..] + "}") == "{\"x\":1}";
    var one, x := Rfc.Pair(Codes("body"), Rfc.Num(1, 0)), Rfc.Pair(Codes("x"), Rfc.Num(1, 0));
    assert [one] + [x] == [one, x];
  }

  /** Some bodies are not JSON and yet do no visible harm: this one adds a sixth member. */
  lemma BodyAddsMember(r: APIResponse)
    requires r.body == "1,\"x\":1"
    ensures Rfc.Decode(r.body) == None
    ensures Rfc.Decode(ResponseText(r)) ==
            Some(Rfc.Obj(HeadPairs(r) + [Rfc.Pair(Codes("body"), Rfc.Num(1, 0)), Rfc.Pair(Codes("x"), Rfc.Num(1, 0))]))
  {
    ResponseIs(r);
    OneAndMember();
  }

  /** Others leave no JSON text behind. */
  lemma BrokenBody(r: APIResponse)
    requires r.body == "x"
    ensures Rfc.Decode(ResponseText(r)) == None
  {
    ResponseIs(r);
    assert Rfc.Value("x") == None;
  }
}
