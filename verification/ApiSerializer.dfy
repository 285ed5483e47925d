/** The serializers of include/APISerializer.h: what they write is decoded by the rules of RFC 8259 to
    the data that went in. */
module ApiSerializer {
  import opened Results
  import opened Words
  import opened JsonText
  import opened JsonDocuments
  import opened StrictDocuments
  import opened BuilderTexts
  import opened JsonEscaping
  import opened CompactDocuments
  import Rfc = Rfc8259

  // ---------- VMInfo and VMListResponse ----------

  datatype VMInfo = VMInfo(
    vmId: string,
    name: string,
    state: string,
    memorySizeMB: uint64,
    cpuCount: uint32,
    createdTime: int64,
    startedTime: int64,
    cyclesExecuted: uint64)

  datatype VMListResponse = VMListResponse(vms: seq<VMInfo>, totalCount: uint64)

  function VMInfoEntries(info: VMInfo): seq<Entry> {
    [ Entry("vm_id", StringOf(info.vmId)),
      Entry("name", StringOf(info.name)),
      Entry("state", StringOf(info.state)),
      Entry("memory_mb", NumberOf(info.memorySizeMB)),
      Entry("cpu_count", NumberOf(info.cpuCount)),
      Entry("created_time", NumberOf(info.createdTime)),
      Entry("started_time", NumberOf(info.startedTime)),
      Entry("cycles_executed", NumberOf(info.cyclesExecuted)) ]
  }

  /** The JSON value that a client of the API is to see. */
  function VMInfoJson(info: VMInfo): Rfc.Json {
    Rfc.Obj([
      Rfc.Pair(Codes("vm_id"), Rfc.Str(Codes(info.vmId))),
      Rfc.Pair(Codes("name"), Rfc.Str(Codes(info.name))),
      Rfc.Pair(Codes("state"), Rfc.Str(Codes(info.state))),
      Rfc.Pair(Codes("memory_mb"), Rfc.Num(info.memorySizeMB, 0)),
      Rfc.Pair(Codes("cpu_count"), Rfc.Num(info.cpuCount, 0)),
      Rfc.Pair(Codes("created_time"), Rfc.Num(info.createdTime, 0)),
      Rfc.Pair(Codes("started_time"), Rfc.Num(info.startedTime, 0)),
      Rfc.Pair(Codes("cycles_executed"), Rfc.Num(info.cyclesExecuted, 0)) ])
  }

  lemma VMInfoNames()
    ensures Plain("vm_id") && Plain("name") && Plain("state") && Plain("memory_mb") && Plain("cpu_count")
    ensures Plain("created_time") && Plain("started_time") && Plain("cycles_executed")
  {
  }

  lemma VMInfoDenotes(info: VMInfo)
    ensures Strict(ObjectOf(VMInfoEntries(info))) && Denoted(ObjectOf(VMInfoEntries(info))) == VMInfoJson(info)
  {
    hide EntryIs, EntryText, Plain, Codes, StringOf, NumberOf, ObjectOf, CompactMembers, StringMember, NumberMember;
    VMInfoNames();
    StringEntry("vm_id", info.vmId);
    StringEntry("name", info.name);
    StringEntry("state", info.state);
    NumberEntry("memory_mb", info.memorySizeMB);
    NumberEntry("cpu_count", info.cpuCount);
    NumberEntry("created_time", info.createdTime);
    NumberEntry("started_time", info.startedTime);
    NumberEntry("cycles_executed", info.cyclesExecuted);
    ObjectIs(VMInfoEntries(info), VMInfoJson(info).pairs);
  }

  method ToJSON(info: VMInfo) returns (oss: string)
    ensures oss == Render(ObjectOf(VMInfoEntries(info)), "")
  {
    hide EntryText, StringMember, NumberMember, Joined, ObjectOf, StringOf, NumberOf, EntryIs, Plain, Codes;
    VMInfoNames();
    var vmId := EscapeJSON(info.vmId);
    var name := EscapeJSON(info.name);
    var state := EscapeJSON(info.state);
    var m1, m2, m3 := StringMember("vm_id", vmId), StringMember("name", name), StringMember("state", state);
    var m4, m5 := NumberMember("memory_mb", info.memorySizeMB), NumberMember("cpu_count", info.cpuCount);
    var m6, m7 := NumberMember("created_time", info.createdTime), NumberMember("started_time", info.startedTime);
    var m8 := NumberMember("cycles_executed", info.cyclesExecuted);
    oss := "{" + (m1 + "," + m2 + "," + m3 + "," + m4 + "," + m5 + "," + m6 + "," + m7 + "," + m8) + "}";
    StringEntry("vm_id", info.vmId);
    StringEntry("name", info.name);
    StringEntry("state", info.state);
    NumberEntry("memory_mb", info.memorySizeMB);
    NumberEntry("cpu_count", info.cpuCount);
    NumberEntry("created_time", info.createdTime);
    NumberEntry("started_time", info.startedTime);
    NumberEntry("cycles_executed", info.cyclesExecuted);
    JoinedEight(m1, m2, m3, m4, m5, m6, m7, m8);
    assert EntryTexts(VMInfoEntries(info)) == [m1, m2, m3, m4, m5, m6, m7, m8];
    ObjectText(VMInfoEntries(info));
  }

  function VMInfoDocuments(vms: seq<VMInfo>): (ds: seq<Document>)
    ensures |ds| == |vms| && forall i | 0 <= i < |vms| :: ds[i] == ObjectOf(VMInfoEntries(vms[i]))
  {
    seq(|vms|, i requires 0 <= i < |vms| => ObjectOf(VMInfoEntries(vms[i])))
  }

  function VMListEntries(response: VMListResponse): seq<Entry> {
    [ Entry("vms", ArrayOf(VMInfoDocuments(response.vms))),
      Entry("total_count", NumberOf(response.totalCount)) ]
  }

  function VMListJson(response: VMListResponse): Rfc.Json {
    Rfc.Obj([
      Rfc.Pair(Codes("vms"), Rfc.Arr(VMInfoJsons(response.vms))),
      Rfc.Pair(Codes("total_count"), Rfc.Num(response.totalCount, 0)) ])
  }

  function VMInfoJsons(vms: seq<VMInfo>): (items: seq<Rfc.Json>)
    ensures |items| == |vms| && forall i | 0 <= i < |vms| :: items[i] == VMInfoJson(vms[i])
  {
    seq(|vms|, i requires 0 <= i < |vms| => VMInfoJson(vms[i]))
  }

  lemma VMInfosDenote(vms: seq<VMInfo>)
    ensures Strict(ArrayOf(VMInfoDocuments(vms)))
    ensures Denoted(ArrayOf(VMInfoDocuments(vms))) == Rfc.Arr(VMInfoJsons(vms))
  {
    hide ObjectOf, VMInfoJson, VMInfoEntries;
    var ds := VMInfoDocuments(vms);
    forall i | 0 <= i < |ds| ensures Strict(ds[i]) && Denoted(ds[i]) == VMInfoJson(vms[i]) {
      VMInfoDenotes(vms[i]);
    }
    ArrayDenotes(ds, VMInfoJsons(vms));
  }

  lemma VMListDenotes(response: VMListResponse)
    ensures Strict(ObjectOf(VMListEntries(response))) &&
            Denoted(ObjectOf(VMListEntries(response))) == VMListJson(response)
  {
    hide EntryIs, EntryText, Plain, Codes, NumberOf, ObjectOf, Strict, Denoted, ArrayOf, VMInfoDocuments, VMInfoJsons;
    VMInfosDenote(response.vms);
    DocumentEntry("vms", ArrayOf(VMInfoDocuments(response.vms)), Rfc.Arr(VMInfoJsons(response.vms)));
    NumberEntry("total_count", response.totalCount);
    ObjectIs(VMListEntries(response), VMListJson(response).pairs);
  }

  method SerializeVMList(response: VMListResponse) returns (oss: string)
    ensures Rfc.Decode(oss) == Some(VMListJson(response))
  {
    hide Joined, TextsOf, ObjectOf, VMInfoEntries, NumberOf, EntryText, EntryTexts, NumberMember, VMListJson, Codes;
    ghost var ds := VMInfoDocuments(response.vms);
    var open := "{" + Label("vms") + "[";
    oss := open;
    if response.vms != [] {
      TextsGrow(ds, 0);
    } else {
      assert ds == [];
      ArrayText(ds);
    }
    for i := 0 to |response.vms|
      invariant oss == open + Joined(TextsOf(ds[..i]))
    {
      if i > 0 {
        oss := oss + ",";
      }
      TextsGrow(ds, i);
      var text := ToJSON(response.vms[i]);
      oss := oss + text;
    }
    assert ds[..|ds|] == ds;
    oss := oss + "]" + "," + NumberMember("total_count", response.totalCount) + "}";
    VMListText(response, oss);
    VMListDenotes(response);
    TextDecodes(ObjectOf(VMListEntries(response)), oss, VMListJson(response));
  }

  lemma VMListText(response: VMListResponse, oss: string)
    requires oss == "{" + Label("vms") + "[" + Joined(TextsOf(VMInfoDocuments(response.vms))) + "]" + "," +
                    NumberMember("total_count", response.totalCount) + "}"
    ensures oss == Render(ObjectOf(VMListEntries(response)), "")
  {
    hide Joined, TextsOf, ObjectOf, NumberMember, NumberOf, ArrayOf, EntryIs, VMInfoDocuments, Label;
    var ds := VMInfoDocuments(response.vms);
    var m1, m2 := Label("vms") + Render(ArrayOf(ds), ""), NumberMember("total_count", response.totalCount);
    ArrayText(ds);
    NumberEntry("total_count", response.totalCount);
    assert EntryTexts(VMListEntries(response)) == [m1, m2];
    JoinedEight(m1, m2, "", "", "", "", "", "");
    ObjectText(VMListEntries(response));
    LastListMember("{", Label("vms"), Joined(TextsOf(ds)), m2);
  }

  lemma LastListMember(a: string, b: string, c: string, d: string)
    ensures a + (b + ("[" + c + "]") + "," + d) + "}" == a + b + "[" + c + "]" + "," + d + "}"
  {
  }

  // ---------- VMConsoleOutputResponse ----------

  datatype VMConsoleOutputResponse = VMConsoleOutputResponse(
    vmId: string,
    lines: seq<string>,
    startLine: uint64,
    totalLines: uint64,
    totalBytes: uint64)

  function LineDocuments(lines: seq<string>): (ds: seq<Document>)
    ensures |ds| == |lines| && forall i | 0 <= i < |lines| :: ds[i] == StringOf(lines[i])
  {
    seq(|lines|, i requires 0 <= i < |lines| => StringOf(lines[i]))
  }

  function LineJsons(lines: seq<string>): (items: seq<Rfc.Json>)
    ensures |items| == |lines| && forall i | 0 <= i < |lines| :: items[i] == Rfc.Str(Codes(lines[i]))
  {
    seq(|lines|, i requires 0 <= i < |lines| => Rfc.Str(Codes(lines[i])))
  }

  function ConsoleEntries(console: VMConsoleOutputResponse): seq<Entry> {
    [ Entry("vm_id", StringOf(console.vmId)),
      Entry("start_line", NumberOf(console.startLine)),
      Entry("total_lines", NumberOf(console.totalLines)),
      Entry("total_bytes", NumberOf(console.totalBytes)),
      Entry("lines", ArrayOf(LineDocuments(console.lines))) ]
  }

  function ConsoleJson(console: VMConsoleOutputResponse): Rfc.Json {
    Rfc.Obj([
      Rfc.Pair(Codes("vm_id"), Rfc.Str(Codes(console.vmId))),
      Rfc.Pair(Codes("start_line"), Rfc.Num(console.startLine, 0)),
      Rfc.Pair(Codes("total_lines"), Rfc.Num(console.totalLines, 0)),
      Rfc.Pair(Codes("total_bytes"), Rfc.Num(console.totalBytes, 0)),
      Rfc.Pair(Codes("lines"), Rfc.Arr(LineJsons(console.lines))) ])
  }

  lemma ConsoleNames()
    ensures Plain("vm_id") && Plain("start_line") && Plain("total_lines") && Plain("total_bytes") && Plain("lines")
  {
  }

  lemma ConsoleDenotes(console: VMConsoleOutputResponse)
    ensures Strict(ObjectOf(ConsoleEntries(console))) &&
            Denoted(ObjectOf(ConsoleEntries(console))) == ConsoleJson(console)
  {
    hide EntryIs, EntryText, Plain, Codes, StringOf, NumberOf, ObjectOf, CompactMembers, StringMember, NumberMember;
    ConsoleNames();
    var ds := LineDocuments(console.lines);
    forall i | 0 <= i < |ds| ensures Strict(ds[i]) && Denoted(ds[i]) == Rfc.Str(Codes(console.lines[i])) {
      StringDenotes(console.lines[i]);
    }
    ArrayDenotes(ds, LineJsons(console.lines));
    StringEntry("vm_id", console.vmId);
    NumberEntry("start_line", console.startLine);
    NumberEntry("total_lines", console.totalLines);
    NumberEntry("total_bytes", console.totalBytes);
    DocumentEntry("lines", ArrayOf(ds), Rfc.Arr(LineJsons(console.lines)));
    ObjectIs(ConsoleEntries(console), ConsoleJson(console).pairs);
  }

  lemma ConsoleText(console: VMConsoleOutputResponse, open: string, oss: string)
    requires open == "{" + StringMember("vm_id", EscapeJson(console.vmId)) + "," +
                     NumberMember("start_line", console.startLine) + "," +
                     NumberMember("total_lines", console.totalLines) + "," +
                     NumberMember("total_bytes", console.totalBytes) + "," + Label("lines") + "["
    requires oss == open + Joined(TextsOf(LineDocuments(console.lines))) + "]}"
    ensures oss == Render(ObjectOf(ConsoleEntries(console)), "")
  {
    hide Joined, TextsOf, ObjectOf, StringMember, NumberMember, NumberOf, StringOf, ArrayOf, EntryIs, LineDocuments;
    hide Label, EscapeJson, Plain, Codes;
    var ds := LineDocuments(console.lines);
    var m1 := StringMember("vm_id", EscapeJson(console.vmId));
    var m2, m3 := NumberMember("start_line", console.startLine), NumberMember("total_lines", console.totalLines);
    var m4, m5 := NumberMember("total_bytes", console.totalBytes), Label("lines") + Render(ArrayOf(ds), "");
    ConsoleNames();
    StringEntry("vm_id", console.vmId);
    NumberEntry("start_line", console.startLine);
    NumberEntry("total_lines", console.totalLines);
    NumberEntry("total_bytes", console.totalBytes);
    ArrayText(ds);
    assert EntryTexts(ConsoleEntries(console)) == [m1, m2, m3, m4, m5];
    JoinedEight(m1, m2, m3, m4, m5, "", "", "");
    ObjectText(ConsoleEntries(console));
    FirstMembers("{", m1 + "," + m2 + "," + m3 + "," + m4, Label("lines"), Joined(TextsOf(ds)));
    OpenMembers(m1, m2, m3, m4, Label("lines"));
  }

  lemma OpenMembers(a: string, b: string, c: string, d: string, e: string)
    ensures "{" + (a + "," + b + "," + c + "," + d) + "," + e + "[" ==
            "{" + a + "," + b + "," + c + "," + d + "," + e + "["
    ensures "{" + (a + "," + b + "," + c) + "," + e + "{" == "{" + a + "," + b + "," + c + "," + e + "{"
  {
  }

  lemma FirstMembers(a: string, b: string, c: string, d: string)
    ensures a + (b + "," + (c + ("[" + d + "]"))) + "}" == a + b + "," + c + "[" + d + "]}"
  {
  }

  method SerializeConsole(console: VMConsoleOutputResponse) returns (oss: string)
    ensures Rfc.Decode(oss) == Some(ConsoleJson(console))
  {
    hide Joined, TextsOf, StringMember, NumberMember, ConsoleJson, Label, EscapeJson, Rfc.Decode, Codes, Strict,
         Denoted;
    ghost var ds := LineDocuments(console.lines);
    var vmId := EscapeJSON(console.vmId);
    var open := "{" + StringMember("vm_id", vmId) + "," +
                NumberMember("start_line", console.startLine) + "," +
                NumberMember("total_lines", console.totalLines) + "," +
                NumberMember("total_bytes", console.totalBytes) + "," + Label("lines") + "[";
    oss := open;
    NoTexts();
    for i := 0 to |console.lines|
      invariant oss == open + Joined(TextsOf(ds[..i]))
    {
      if i > 0 {
        oss := oss + ",";
      }
      TextsGrow(ds, i);
      StringDenotes(console.lines[i]);
      var line := EscapeJSON(console.lines[i]);
      oss := oss + ("\"" + line + "\"");
    }
    assert ds[..|ds|] == ds;
    oss := oss + "]}";
    ConsoleDecodes(console, open, oss);
  }

  lemma ConsoleDecodes(console: VMConsoleOutputResponse, open: string, oss: string)
    requires open == "{" + StringMember("vm_id", EscapeJson(console.vmId)) + "," +
                     NumberMember("start_line", console.startLine) + "," +
                     NumberMember("total_lines", console.totalLines) + "," +
                     NumberMember("total_bytes", console.totalBytes) + "," + Label("lines") + "["
    requires oss == open + Joined(TextsOf(LineDocuments(console.lines))) + "]}"
    ensures Rfc.Decode(oss) == Some(ConsoleJson(console))
  {
    ConsoleText(console, open, oss);
    ConsoleDenotes(console);
    hide *;
    TextDecodes(ObjectOf(ConsoleEntries(console)), oss, ConsoleJson(console));
  }

  // ---------- StatusUpdate ----------

  datatype StatusUpdateType = VM_STATE_CHANGED | CPU_USAGE | MEMORY_USAGE | EXECUTION_STATS | LOG_MESSAGE | ERROR

  /** data is the std::map in the order of its iteration. */
  datatype StatusUpdate = StatusUpdate(
    kind: StatusUpdateType,
    vmId: string,
    timestamp: int64,
    data: seq<(string, string)>)

  function TypeName(t: StatusUpdateType): string {
    match t
    case VM_STATE_CHANGED => "vm_state_changed"
    case CPU_USAGE => "cpu_usage"
    case MEMORY_USAGE => "memory_usage"
    case EXECUTION_STATS => "execution_stats"
    case LOG_MESSAGE => "log_message"
    case ERROR => "error"
  }

  function DataEntries(data: seq<(string, string)>): (entries: seq<Entry>)
    ensures |entries| == |data|
    ensures forall i | 0 <= i < |data| :: entries[i] == Entry(EscapeJson(data[i].0), StringOf(data[i].1))
  {
    seq(|data|, i requires 0 <= i < |data| => Entry(EscapeJson(data[i].0), StringOf(data[i].1)))
  }

  function DataPairs(data: seq<(string, string)>): (pairs: seq<Rfc.Pair>)
    ensures |pairs| == |data|
    ensures forall i | 0 <= i < |data| :: pairs[i] == Rfc.Pair(Codes(data[i].0), Rfc.Str(Codes(data[i].1)))
  {
    seq(|data|, i requires 0 <= i < |data| => Rfc.Pair(Codes(data[i].0), Rfc.Str(Codes(data[i].1))))
  }

  /** The type name is written without escaping; escaping it would change nothing. */
  function StatusEntries(update: StatusUpdate): seq<Entry> {
    [ Entry("type", StringOf(TypeName(update.kind))),
      Entry("vm_id", StringOf(update.vmId)),
      Entry("timestamp", NumberOf(update.timestamp)),
      Entry("data", ObjectOf(DataEntries(update.data))) ]
  }

  function StatusJson(update: StatusUpdate): Rfc.Json {
    Rfc.Obj([
      Rfc.Pair(Codes("type"), Rfc.Str(Codes(TypeName(update.kind)))),
      Rfc.Pair(Codes("vm_id"), Rfc.Str(Codes(update.vmId))),
      Rfc.Pair(Codes("timestamp"), Rfc.Num(update.timestamp, 0)),
      Rfc.Pair(Codes("data"), Rfc.Obj(DataPairs(update.data))) ])
  }

  /** The kind that a client reads from the decoded name. */
  function KindNamed(units: seq<nat>): Option<StatusUpdateType> {
    if units == Codes("vm_state_changed") then Some(VM_STATE_CHANGED)
    else if units == Codes("cpu_usage") then Some(CPU_USAGE)
    else if units == Codes("memory_usage") then Some(MEMORY_USAGE)
    else if units == Codes("execution_stats") then Some(EXECUTION_STATS)
    else if units == Codes("log_message") then Some(LOG_MESSAGE)
    else if units == Codes("error") then Some(ERROR)
    else None
  }

  lemma KindIsRead(t: StatusUpdateType)
    ensures KindNamed(Codes(TypeName(t))) == Some(t)
  {
    assert |TypeName(t)| ==
           match t
           case VM_STATE_CHANGED => 16
           case CPU_USAGE => 9
           case MEMORY_USAGE => 12
           case EXECUTION_STATS => 15
           case LOG_MESSAGE => 11
           case ERROR => 5;
  }

  lemma StatusKindIsRead(update: StatusUpdate)
    ensures StatusJson(update).Obj? && |StatusJson(update).pairs| == 4 && StatusJson(update).pairs[0].value.Str?
    ensures KindNamed(StatusJson(update).pairs[0].value.units) == Some(update.kind)
  {
    hide Codes, TypeName, KindNamed;
    KindIsRead(update.kind);
  }

  /** A client that decodes the text knows the whole update: no two updates decode alike. */
  lemma StatusIsRecovered(u: StatusUpdate, v: StatusUpdate)
    requires StatusJson(u) == StatusJson(v)
    ensures u == v
  {
    hide Codes, TypeName, KindNamed, DataPairs;
    var p, q := StatusJson(u).pairs, StatusJson(v).pairs;
    assert p[0].value == q[0].value && p[1].value == q[1].value && p[2].value == q[2].value && p[3].value == q[3].value;
    KindIsRead(u.kind);
    KindIsRead(v.kind);
    CodesAreInjective(u.vmId, v.vmId);
    DataIsRecovered(u.data, v.data);
  }

  lemma DataIsRecovered(a: seq<(string, string)>, b: seq<(string, string)>)
    requires DataPairs(a) == DataPairs(b)
    ensures a == b
  {
    hide Codes;
    assert |a| == |DataPairs(a)| == |b|;
    forall i | 0 <= i < |a| ensures a[i] == b[i] {
      assert DataPairs(a)[i] == DataPairs(b)[i];
      CodesAreInjective(a[i].0, b[i].0);
      CodesAreInjective(a[i].1, b[i].1);
    }
  }

  lemma StatusNames(t: StatusUpdateType)
    ensures Plain("type") && Plain("vm_id") && Plain("timestamp") && Plain("data")
    ensures EscapeJson(TypeName(t)) == TypeName(t)
  {
    TypeNameIsPlain(t);
    hide TypeName, EscapeJson;
    PlainIsNotEscaped(TypeName(t));
  }

  predicate IsLetter(c: char) {
    'a' <= c <= 'z' || c == '_'
  }

  lemma TypeNameIsPlain(t: StatusUpdateType)
    ensures Plain(TypeName(t)) && forall i | 0 <= i < |TypeName(t)| :: TypeName(t)[i] <= DELETE
  {
    TypeNameHasLetters(t);
    hide TypeName;
  }

  lemma TypeNameHasLetters(t: StatusUpdateType)
    ensures forall i | 0 <= i < |TypeName(t)| :: IsLetter(TypeName(t)[i])
  {
    match t
    case VM_STATE_CHANGED =>
    case CPU_USAGE =>
    case MEMORY_USAGE =>
    case EXECUTION_STATS =>
    case LOG_MESSAGE =>
    case ERROR =>
  }

  lemma DataDenotes(data: seq<(string, string)>)
    ensures Strict(ObjectOf(DataEntries(data))) && Denoted(ObjectOf(DataEntries(data))) == Rfc.Obj(DataPairs(data))
  {
    var entries, pairs := DataEntries(data), DataPairs(data);
    forall i | 0 <= i < |data| ensures EntryIs(entries[i], pairs[i]) {
      EscapeJsonDecodes(data[i].0, "");
      assert EscapeJson(data[i].0) + ("\"" + "") == EscapeJson(data[i].0) + "\"";
      StringDenotes(data[i].1);
    }
    ObjectIs(entries, pairs);
  }

  lemma StatusDenotes(update: StatusUpdate)
    ensures Strict(ObjectOf(StatusEntries(update))) && Denoted(ObjectOf(StatusEntries(update))) == StatusJson(update)
  {
    hide EntryIs, EntryText, Plain, Codes, StringOf, NumberOf, ObjectOf, CompactMembers, StringMember, NumberMember;
    StatusNames(update.kind);
    StringEntry("type", TypeName(update.kind));
    StringEntry("vm_id", update.vmId);
    NumberEntry("timestamp", update.timestamp);
    DataDenotes(update.data);
    DocumentEntry("data", ObjectOf(DataEntries(update.data)), Rfc.Obj(DataPairs(update.data)));
    ObjectIs(StatusEntries(update), StatusJson(update).pairs);
  }

  lemma StatusText(update: StatusUpdate, open: string, oss: string)
    requires open == "{" + StringMember("type", TypeName(update.kind)) + "," +
                     StringMember("vm_id", EscapeJson(update.vmId)) + "," +
                     NumberMember("timestamp", update.timestamp) + "," + Label("data") + "{"
    requires oss == open + Joined(EntryTexts(DataEntries(update.data))) + "}}"
    ensures oss == Render(ObjectOf(StatusEntries(update)), "")
  {
    hide Joined, ObjectOf, StringMember, NumberMember, NumberOf, StringOf, EntryIs, DataEntries;
    hide Label, EscapeJson, Plain, Codes, TypeName;
    var entries := DataEntries(update.data);
    var m1, m2 := StringMember("type", TypeName(update.kind)), StringMember("vm_id", EscapeJson(update.vmId));
    var m3, m4 := NumberMember("timestamp", update.timestamp), Label("data") + Render(ObjectOf(entries), "");
    StatusNames(update.kind);
    StringEntry("type", TypeName(update.kind));
    StringEntry("vm_id", update.vmId);
    NumberEntry("timestamp", update.timestamp);
    ObjectText(entries);
    assert EntryTexts(StatusEntries(update)) == [m1, m2, m3, m4];
    JoinedEight(m1, m2, m3, m4, "", "", "", "");
    ObjectText(StatusEntries(update));
    InnerMembers("{", m1 + "," + m2 + "," + m3, Label("data"), Joined(EntryTexts(entries)));
    OpenMembers(m1, m2, m3, "", Label("data"));
  }

  lemma InnerMembers(a: string, b: string, c: string, d: string)
    ensures a + (b + "," + (c + ("{" + d + "}"))) + "}" == a + b + "," + c + "{" + d + "}}"
  {
  }

  method SerializeStatus(update: StatusUpdate) returns (oss: string)
    ensures Rfc.Decode(oss) == Some(StatusJson(update))
    ensures KindNamed(StatusJson(update).pairs[0].value.units) == Some(update.kind)
  {
    StatusKindIsRead(update);
    hide Joined, EntryTexts, ObjectOf, NumberOf, NumberMember, EscapeJson, TypeName, KindNamed, Codes, StatusJson;
    hide Strict, Denoted, Rfc.Decode;
    ghost var entries := DataEntries(update.data);
    var vmId := EscapeJSON(update.vmId);
    var open := "{" + StringMember("type", TypeName(update.kind)) + "," +
                StringMember("vm_id", vmId) + "," +
                NumberMember("timestamp", update.timestamp) + "," + Label("data") + "{";
    oss := open;
    NoTexts();
    var first := true;
    for i := 0 to |update.data|
      invariant oss == open + Joined(EntryTexts(entries[..i]))
      invariant first == (i == 0)
    {
      if !first {
        oss := oss + ",";
      }
      EntriesGrow(entries, i);
      var key := EscapeJSON(update.data[i].0);
      var value := EscapeJSON(update.data[i].1);
      StringDenotes(update.data[i].1);
      oss := oss + (Label(key) + ("\"" + value + "\""));
      first := false;
    }
    assert entries[..|entries|] == entries;
    oss := oss + "}}";
    StatusText(update, open, oss);
    StatusDenotes(update);
    TextDecodes(ObjectOf(StatusEntries(update)), oss, StatusJson(update));
  }
}
