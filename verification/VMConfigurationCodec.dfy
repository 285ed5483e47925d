/** toJson and fromJson of include/VMConfiguration.h: loops and calls that drive the builder and the
    parser, proved against the pretty document and the fold. */
module VMConfigurationCodec {
  import opened Results
  import opened JsonText
  import opened JsonRecords
  import opened ReadingDocuments
  import opened JsonUtils
  import opened BuilderRuns
  import opened VMConfigurations
  import opened ConfigurationRoundTrip
  import opened ConfigurationTexts
  import opened Reindenting
  import Rfc = Rfc8259

  // ---------- loop steps ----------

  /** A parse with the values of earlier turns in front. */
  ghost function Prefixed<T>(done: seq<T>, p: Parsed<seq<T>>): Parsed<seq<T>> {
    match p
    case Ok(more, rest) => Ok(done + more, rest)
    case Err(e) => Err(e)
  }

  lemma StartFields(schema: Schema, s: string)
    ensures Prefixed([], ParseFields(schema, SkipSpace(s))) == ParseFields(schema, s)
  {
    FieldsAfterSpace(schema, s);
    if ParseFields(schema, s).Ok? {
      assert [] + ParseFields(schema, s).value == ParseFields(schema, s).value;
    }
  }

  lemma PeekAfterSpace(s: string)
    ensures Peek(SkipSpace(s)) == Peek(s)
  {
  }

  lemma StepFields(schema: Schema, done: seq<Field>, s: string)
    requires Peek(s) != '}'
    ensures ParseField(schema, s).Ok? ==>
              Prefixed(done, ParseFields(schema, s)) ==
              Prefixed(done + [ParseField(schema, s).value], ParseFields(schema, SkipSpace(ParseField(schema, s).rest)))
    ensures ParseField(schema, s).Err? ==>
              Prefixed(done, ParseFields(schema, s)) == Err(ParseField(schema, s).error)
  {
    if ParseField(schema, s).Ok? {
      var field, t := ParseField(schema, s).value, ParseField(schema, s).rest;
      FieldsAfterSpace(schema, t);
      if ParseFields(schema, t).Ok? {
        var more := ParseFields(schema, t).value;
        assert done + ([field] + more) == (done + [field]) + more;
      }
    }
  }

  lemma EndFields(schema: Schema, done: seq<Field>, s: string)
    requires Peek(s) == '}'
    ensures Expect(s, '}').Ok? && Prefixed(done, ParseFields(schema, s)) == Ok(done, Expect(s, '}').rest)
  {
    assert done + [] == done;
  }

  /** One more member, written by its key and its value or by one call for a scalar. */
  lemma ExtendRecord(p: Printer, fields: seq<Field>, i: nat)
    requires i < |fields|
    ensures After(WriteKey(InRecord(p, fields[..i]), fields[i].key), fields[i].value) == InRecord(p, fields[..i + 1])
    ensures fields[i].value.Text? ==>
              Step(InRecord(p, fields[..i]), WriteString(fields[i].key, fields[i].value.text)) ==
              InRecord(p, fields[..i + 1])
    ensures fields[i].value.Number? ==>
              Step(InRecord(p, fields[..i]), WriteNumber(fields[i].key, fields[i].value.n)) ==
              InRecord(p, fields[..i + 1])
    ensures fields[i].value.Flag? ==>
              Step(InRecord(p, fields[..i]), WriteBool(fields[i].key, fields[i].value.b)) ==
              InRecord(p, fields[..i + 1])
  {
    hide Step, InRecord, After, WriteKey;
    assert fields[..i + 1] == fields[..i] + [fields[i]];
    AddMember(p, fields[..i], fields[i].key, fields[i].value);
    AddScalar(InRecord(p, fields[..i]), fields[i].key);
  }

  /** The method that reads the value of one field did what parsing the value and applying it does. */
  ghost predicate ReadsField<C>(p: Parsed<Value>, key: string, apply: (C, Field) -> C, c: C, r: Result<C>,
                                rest: string) {
    match p
    case Ok(value, t) => r == Success(apply(c, Field(key, value))) && rest == t
    case Err(e) => r == Failure(e)
  }

  lemma ScalarFields(schema: Schema, key: string, s: string)
    requires key in schema
    ensures schema[key] == TextKind ==>
              ParseFieldValue(schema, key, s) ==
              match ParseString(s) case Ok(text, t) => Ok(Text(text), t) case Err(e) => Err(e)
    ensures schema[key] == NumberKind ==>
              ParseFieldValue(schema, key, s) ==
              match ParseNumber(s) case Ok(n, t) => Ok(Number(n), t) case Err(e) => Err(e)
    ensures schema[key] == FlagKind ==>
              ParseFieldValue(schema, key, s) ==
              match ParseBool(s) case Ok(b, t) => Ok(Flag(b), t) case Err(e) => Err(e)
  {
  }

  lemma UnknownField(schema: Schema, key: string, s: string)
    requires key !in schema
    ensures ParseFieldValue(schema, key, s) == Ok(Unread, s)
  {
  }

  lemma InsideContainer(p: Printer, fields: seq<Field>)
    ensures InRecord(p, fields).level == p.level + 1 && InRecord(p, fields).first == p.first + [fields == []]
  {
  }

  method CpuToJson(c: CpuConfiguration, builder: JsonBuilder)
    requires builder.Valid()
    modifies builder
    ensures builder.Valid() && builder.State() == After(old(builder.State()), Record(CpuFields(c)))
  {
    hide Step, InRecord, After, WriteKey;
    ghost var p, f := builder.State(), CpuFields(c);
    BeginContainer(p);
    builder.BeginObject();
    ExtendRecord(p, f, 0);
    builder.WriteString("isaType", c.isaType);
    ExtendRecord(p, f, 1);
    builder.WriteNumber("cpuCount", c.cpuCount);
    ExtendRecord(p, f, 2);
    builder.WriteNumber("clockFrequency", c.clockFrequency);
    ExtendRecord(p, f, 3);
    builder.WriteBool("enableProfiling", c.enableProfiling);
    assert f[..4] == f;
    EndRecord(p, f);
    InsideContainer(p, f);
    builder.EndObject();
  }

  method ReadCpuField(key: string, config: CpuConfiguration, parser: JsonParser) returns (r: Result<CpuConfiguration>)
    requires parser.Valid()
    modifies parser
    ensures parser.Valid()
    ensures ReadsField(ParseFieldValue(CPU, key, old(parser.Rest())), key, ApplyCpu, config, r, parser.Rest())
  {
    hide ParseValue, ParseString, ParseNumber, ParseBool, SkipSpace, ParseFieldValue;
    if key in CPU {
      ScalarFields(CPU, key, parser.Rest());
    } else {
      UnknownField(CPU, key, parser.Rest());
    }
    if key == "isaType" {
      var v :- parser.ReadString();
      return Success(config.(isaType := v));
    } else if key == "cpuCount" {
      var v :- parser.ReadNumber();
      return Success(config.(cpuCount := v));
    } else if key == "clockFrequency" {
      var v :- parser.ReadNumber();
      return Success(config.(clockFrequency := v));
    } else if key == "enableProfiling" {
      var v :- parser.ReadBool();
      return Success(config.(enableProfiling := v));
    }
    return Success(config);
  }

  function CpuFrom(s: string): Parsed<CpuConfiguration> {
    var (fields, t) :- ParseObject(CPU, s);
    Ok(CpuOf(fields), t)
  }

  method CpuFromJson(parser: JsonParser) returns (r: Result<CpuConfiguration>)
    requires parser.Valid()
    modifies parser
    ensures parser.Valid() && Delivers(r, parser.Rest(), CpuFrom(old(parser.Rest())))
  {
    hide ParseFields, ParseField, ParseFieldValue, ApplyCpu;
    var config := DEFAULT_CPU;
    var _ :- parser.Consume('{');
    ghost var start, done := parser.Rest(), [];
    StartFields(CPU, start);
    var next := parser.PeekChar();
    while next != '}'
      invariant parser.Valid() && next == Peek(parser.Rest())
      invariant ParseFields(CPU, start) == Prefixed(done, ParseFields(CPU, parser.Rest()))
      invariant config == CpuOf(done)
      decreases |parser.Rest()|
    {
      ghost var s := parser.Rest();
      StepFields(CPU, done, s);
      FieldSteps(CPU, s);
      var key :- parser.ReadKey();
      config :- ReadCpuField(key, config, parser);
      var _ := parser.TryConsumeComma();
      ghost var field := ParseField(CPU, s).value;
      FoldOneMore(ApplyCpu, DEFAULT_CPU, done, field);
      done := done + [field];
      next := parser.PeekChar();
    }
    EndFields(CPU, done, parser.Rest());
    var closed := parser.Consume('}');
    return closed.Then(config);
  }

  method MemoryToJson(c: MemoryConfiguration, builder: JsonBuilder)
    requires builder.Valid()
    modifies builder
    ensures builder.Valid() && builder.State() == After(old(builder.State()), Record(MemoryFields(c)))
  {
    hide Step, InRecord, After, WriteKey;
    ghost var p, f := builder.State(), MemoryFields(c);
    BeginContainer(p);
    builder.BeginObject();
    ExtendRecord(p, f, 0);
    builder.WriteNumber("memorySize", c.memorySize);
    ExtendRecord(p, f, 1);
    builder.WriteBool("enableMMU", c.enableMMU);
    ExtendRecord(p, f, 2);
    builder.WriteBool("enablePaging", c.enablePaging);
    ExtendRecord(p, f, 3);
    builder.WriteNumber("pageSize", c.pageSize);
    assert f[..4] == f;
    EndRecord(p, f);
    InsideContainer(p, f);
    builder.EndObject();
  }

  method ReadMemoryField(key: string, config: MemoryConfiguration, parser: JsonParser)
    returns (r: Result<MemoryConfiguration>)
    requires parser.Valid()
    modifies parser
    ensures parser.Valid()
    ensures ReadsField(ParseFieldValue(MEMORY, key, old(parser.Rest())), key, ApplyMemory, config, r, parser.Rest())
  {
    hide ParseValue, ParseString, ParseNumber, ParseBool, SkipSpace, ParseFieldValue;
    if key in MEMORY {
      ScalarFields(MEMORY, key, parser.Rest());
    } else {
      UnknownField(MEMORY, key, parser.Rest());
    }
    if key == "memorySize" {
      var v :- parser.ReadNumber();
      return Success(config.(memorySize := v));
    } else if key == "enableMMU" {
      var v :- parser.ReadBool();
      return Success(config.(enableMMU := v));
    } else if key == "enablePaging" {
      var v :- parser.ReadBool();
      return Success(config.(enablePaging := v));
    } else if key == "pageSize" {
      var v :- parser.ReadNumber();
      return Success(config.(pageSize := v));
    }
    return Success(config);
  }

  function MemoryFrom(s: string): Parsed<MemoryConfiguration> {
    var (fields, t) :- ParseObject(MEMORY, s);
    Ok(MemoryOf(fields), t)
  }

  method MemoryFromJson(parser: JsonParser) returns (r: Result<MemoryConfiguration>)
    requires parser.Valid()
    modifies parser
    ensures parser.Valid() && Delivers(r, parser.Rest(), MemoryFrom(old(parser.Rest())))
  {
    hide ParseFields, ParseField, ParseFieldValue, ApplyMemory;
    var config := DEFAULT_MEMORY;
    var _ :- parser.Consume('{');
    ghost var start, done := parser.Rest(), [];
    StartFields(MEMORY, start);
    var next := parser.PeekChar();
    while next != '}'
      invariant parser.Valid() && next == Peek(parser.Rest())
      invariant ParseFields(MEMORY, start) == Prefixed(done, ParseFields(MEMORY, parser.Rest()))
      invariant config == MemoryOf(done)
      decreases |parser.Rest()|
    {
      ghost var s := parser.Rest();
      StepFields(MEMORY, done, s);
      FieldSteps(MEMORY, s);
      var key :- parser.ReadKey();
      config :- ReadMemoryField(key, config, parser);
      var _ := parser.TryConsumeComma();
      ghost var field := ParseField(MEMORY, s).value;
      FoldOneMore(ApplyMemory, DEFAULT_MEMORY, done, field);
      done := done + [field];
      next := parser.PeekChar();
    }
    EndFields(MEMORY, done, parser.Rest());
    var closed := parser.Consume('}');
    return closed.Then(config);
  }

  method StorageToJson(c: StorageConfiguration, builder: JsonBuilder)
    requires builder.Valid()
    modifies builder
    ensures builder.Valid() && builder.State() == After(old(builder.State()), Record(StorageFields(c)))
  {
    hide Step, InRecord, After, WriteKey;
    ghost var p, f := builder.State(), StorageFields(c);
    BeginContainer(p);
    builder.BeginObject();
    ExtendRecord(p, f, 0);
    builder.WriteString("deviceId", c.deviceId);
    ExtendRecord(p, f, 1);
    builder.WriteString("deviceType", c.deviceType);
    ExtendRecord(p, f, 2);
    builder.WriteString("imagePath", c.imagePath);
    ExtendRecord(p, f, 3);
    builder.WriteBool("readOnly", c.readOnly);
    ExtendRecord(p, f, 4);
    builder.WriteNumber("sizeBytes", c.sizeBytes);
    ExtendRecord(p, f, 5);
    builder.WriteNumber("blockSize", c.blockSize);
    assert f[..6] == f;
    EndRecord(p, f);
    InsideContainer(p, f);
    builder.EndObject();
  }

  method ReadStorageField(key: string, config: StorageConfiguration, parser: JsonParser)
    returns (r: Result<StorageConfiguration>)
    requires parser.Valid()
    modifies parser
    ensures parser.Valid()
    ensures ReadsField(ParseFieldValue(STORAGE, key, old(parser.Rest())), key, ApplyStorage, config, r, parser.Rest())
  {
    hide ParseValue, ParseString, ParseNumber, ParseBool, SkipSpace, ParseFieldValue;
    if key in STORAGE {
      ScalarFields(STORAGE, key, parser.Rest());
    } else {
      UnknownField(STORAGE, key, parser.Rest());
    }
    if key == "deviceId" {
      var v :- parser.ReadString();
      return Success(config.(deviceId := v));
    } else if key == "deviceType" {
      var v :- parser.ReadString();
      return Success(config.(deviceType := v));
    } else if key == "imagePath" {
      var v :- parser.ReadString();
      return Success(config.(imagePath := v));
    } else if key == "readOnly" {
      var v :- parser.ReadBool();
      return Success(config.(readOnly := v));
    } else if key == "sizeBytes" {
      var v :- parser.ReadNumber();
      return Success(config.(sizeBytes := v));
    } else if key == "blockSize" {
      var v :- parser.ReadNumber();
      return Success(config.(blockSize := ToUint32(v)));
    }
    return Success(config);
  }

  function StorageFrom(s: string): Parsed<StorageConfiguration> {
    var (fields, t) :- ParseObject(STORAGE, s);
    Ok(StorageOf(fields), t)
  }

  method StorageFromJson(parser: JsonParser) returns (r: Result<StorageConfiguration>)
    requires parser.Valid()
    modifies parser
    ensures parser.Valid() && Delivers(r, parser.Rest(), StorageFrom(old(parser.Rest())))
  {
    hide ParseFields, ParseField, ParseFieldValue, ApplyStorage;
    var config := DEFAULT_STORAGE;
    var _ :- parser.Consume('{');
    ghost var start, done := parser.Rest(), [];
    StartFields(STORAGE, start);
    var next := parser.PeekChar();
    while next != '}'
      invariant parser.Valid() && next == Peek(parser.Rest())
      invariant ParseFields(STORAGE, start) == Prefixed(done, ParseFields(STORAGE, parser.Rest()))
      invariant config == StorageOf(done)
      decreases |parser.Rest()|
    {
      ghost var s := parser.Rest();
      StepFields(STORAGE, done, s);
      FieldSteps(STORAGE, s);
      var key :- parser.ReadKey();
      config :- ReadStorageField(key, config, parser);
      var _ := parser.TryConsumeComma();
      ghost var field := ParseField(STORAGE, s).value;
      FoldOneMore(ApplyStorage, DEFAULT_STORAGE, done, field);
      done := done + [field];
      next := parser.PeekChar();
    }
    EndFields(STORAGE, done, parser.Rest());
    var closed := parser.Consume('}');
    return closed.Then(config);
  }

  method BootToJson(c: BootConfiguration, builder: JsonBuilder)
    requires builder.Valid()
    modifies builder
    ensures builder.Valid() && builder.State() == After(old(builder.State()), Record(BootFields(c)))
  {
    hide Step, InRecord, After, WriteKey;
    ghost var p, f := builder.State(), BootFields(c);
    BeginContainer(p);
    builder.BeginObject();
    ExtendRecord(p, f, 0);
    builder.WriteString("bootDevice", c.bootDevice);
    ExtendRecord(p, f, 1);
    builder.WriteString("kernelPath", c.kernelPath);
    ExtendRecord(p, f, 2);
    builder.WriteString("initrdPath", c.initrdPath);
    ExtendRecord(p, f, 3);
    builder.WriteString("bootArgs", c.bootArgs);
    ExtendRecord(p, f, 4);
    builder.WriteNumber("entryPoint", c.entryPoint);
    ExtendRecord(p, f, 5);
    builder.WriteBool("directBoot", c.directBoot);
    assert f[..6] == f;
    EndRecord(p, f);
    InsideContainer(p, f);
    builder.EndObject();
  }

  method ReadBootField(key: string, config: BootConfiguration, parser: JsonParser)
    returns (r: Result<BootConfiguration>)
    requires parser.Valid()
    modifies parser
    ensures parser.Valid()
    ensures ReadsField(ParseFieldValue(BOOT, key, old(parser.Rest())), key, ApplyBoot, config, r, parser.Rest())
  {
    hide ParseValue, ParseString, ParseNumber, ParseBool, SkipSpace, ParseFieldValue;
    if key in BOOT {
      ScalarFields(BOOT, key, parser.Rest());
    } else {
      UnknownField(BOOT, key, parser.Rest());
    }
    if key == "bootDevice" {
      var v :- parser.ReadString();
      return Success(config.(bootDevice := v));
    } else if key == "kernelPath" {
      var v :- parser.ReadString();
      return Success(config.(kernelPath := v));
    } else if key == "initrdPath" {
      var v :- parser.ReadString();
      return Success(config.(initrdPath := v));
    } else if key == "bootArgs" {
      var v :- parser.ReadString();
      return Success(config.(bootArgs := v));
    } else if key == "entryPoint" {
      var v :- parser.ReadNumber();
      return Success(config.(entryPoint := v));
    } else if key == "directBoot" {
      var v :- parser.ReadBool();
      return Success(config.(directBoot := v));
    }
    return Success(config);
  }

  function BootFrom(s: string): Parsed<BootConfiguration> {
    var (fields, t) :- ParseObject(BOOT, s);
    Ok(BootOf(fields), t)
  }

  method BootFromJson(parser: JsonParser) returns (r: Result<BootConfiguration>)
    requires parser.Valid()
    modifies parser
    ensures parser.Valid() && Delivers(r, parser.Rest(), BootFrom(old(parser.Rest())))
  {
    hide ParseFields, ParseField, ParseFieldValue, ApplyBoot;
    var config := DEFAULT_BOOT;
    var _ :- parser.Consume('{');
    ghost var start, done := parser.Rest(), [];
    StartFields(BOOT, start);
    var next := parser.PeekChar();
    while next != '}'
      invariant parser.Valid() && next == Peek(parser.Rest())
      invariant ParseFields(BOOT, start) == Prefixed(done, ParseFields(BOOT, parser.Rest()))
      invariant config == BootOf(done)
      decreases |parser.Rest()|
    {
      ghost var s := parser.Rest();
      StepFields(BOOT, done, s);
      FieldSteps(BOOT, s);
      var key :- parser.ReadKey();
      config :- ReadBootField(key, config, parser);
      var _ := parser.TryConsumeComma();
      ghost var field := ParseField(BOOT, s).value;
      FoldOneMore(ApplyBoot, DEFAULT_BOOT, done, field);
      done := done + [field];
      next := parser.PeekChar();
    }
    EndFields(BOOT, done, parser.Rest());
    var closed := parser.Consume('}');
    return closed.Then(config);
  }

  method NetworkToJson(c: NetworkConfiguration, builder: JsonBuilder)
    requires builder.Valid()
    modifies builder
    ensures builder.Valid() && builder.State() == After(old(builder.State()), Record(NetworkFields(c)))
  {
    hide Step, InRecord, After, WriteKey;
    ghost var p, f := builder.State(), NetworkFields(c);
    BeginContainer(p);
    builder.BeginObject();
    ExtendRecord(p, f, 0);
    builder.WriteString("interfaceId", c.interfaceId);
    ExtendRecord(p, f, 1);
    builder.WriteString("interfaceType", c.interfaceType);
    ExtendRecord(p, f, 2);
    builder.WriteString("macAddress", c.macAddress);
    ExtendRecord(p, f, 3);
    builder.WriteBool("enableDHCP", c.enableDHCP);
    ExtendRecord(p, f, 4);
    builder.WriteString("ipAddress", c.ipAddress);
    ExtendRecord(p, f, 5);
    builder.WriteString("gateway", c.gateway);
    assert f[..6] == f;
    EndRecord(p, f);
    InsideContainer(p, f);
    builder.EndObject();
  }

  method ReadNetworkField(key: string, config: NetworkConfiguration, parser: JsonParser)
    returns (r: Result<NetworkConfiguration>)
    requires parser.Valid()
    modifies parser
    ensures parser.Valid()
    ensures ReadsField(ParseFieldValue(NETWORK, key, old(parser.Rest())), key, ApplyNetwork, config, r, parser.Rest())
  {
    hide ParseValue, ParseString, ParseNumber, ParseBool, SkipSpace, ParseFieldValue;
    if key in NETWORK {
      ScalarFields(NETWORK, key, parser.Rest());
    } else {
      UnknownField(NETWORK, key, parser.Rest());
    }
    if key == "interfaceId" {
      var v :- parser.ReadString();
      return Success(config.(interfaceId := v));
    } else if key == "interfaceType" {
      var v :- parser.ReadString();
      return Success(config.(interfaceType := v));
    } else if key == "macAddress" {
      var v :- parser.ReadString();
      return Success(config.(macAddress := v));
    } else if key == "enableDHCP" {
      var v :- parser.ReadBool();
      return Success(config.(enableDHCP := v));
    } else if key == "ipAddress" {
      var v :- parser.ReadString();
      return Success(config.(ipAddress := v));
    } else if key == "gateway" {
      var v :- parser.ReadString();
      return Success(config.(gateway := v));
    }
    return Success(config);
  }

  function NetworkFrom(s: string): Parsed<NetworkConfiguration> {
    var (fields, t) :- ParseObject(NETWORK, s);
    Ok(NetworkOf(fields), t)
  }

  method NetworkFromJson(parser: JsonParser) returns (r: Result<NetworkConfiguration>)
    requires parser.Valid()
    modifies parser
    ensures parser.Valid() && Delivers(r, parser.Rest(), NetworkFrom(old(parser.Rest())))
  {
    hide ParseFields, ParseField, ParseFieldValue, ApplyNetwork;
    var config := DEFAULT_NETWORK;
    var _ :- parser.Consume('{');
    ghost var start, done := parser.Rest(), [];
    StartFields(NETWORK, start);
    var next := parser.PeekChar();
    while next != '}'
      invariant parser.Valid() && next == Peek(parser.Rest())
      invariant ParseFields(NETWORK, start) == Prefixed(done, ParseFields(NETWORK, parser.Rest()))
      invariant config == NetworkOf(done)
      decreases |parser.Rest()|
    {
      ghost var s := parser.Rest();
      StepFields(NETWORK, done, s);
      FieldSteps(NETWORK, s);
      var key :- parser.ReadKey();
      config :- ReadNetworkField(key, config, parser);
      var _ := parser.TryConsumeComma();
      ghost var field := ParseField(NETWORK, s).value;
      FoldOneMore(ApplyNetwork, DEFAULT_NETWORK, done, field);
      done := done + [field];
      next := parser.PeekChar();
    }
    EndFields(NETWORK, done, parser.Rest());
    var closed := parser.Consume('}');
    return closed.Then(config);
  }

  // ---------- the whole configuration ----------

  lemma ExtendAfter(p: Printer, done: seq<Field>, fields: seq<Field>, i: nat)
    requires i < |fields|
    ensures After(WriteKey(InRecord(p, done + fields[..i]), fields[i].key), fields[i].value) ==
            InRecord(p, done + fields[..i + 1])
    ensures fields[i].value.Number? ==>
              Step(InRecord(p, done + fields[..i]), WriteNumber(fields[i].key, fields[i].value.n)) ==
              InRecord(p, done + fields[..i + 1])
    ensures fields[i].value.Flag? ==>
              Step(InRecord(p, done + fields[..i]), WriteBool(fields[i].key, fields[i].value.b)) ==
              InRecord(p, done + fields[..i + 1])
    ensures done + fields[..0] == done
  {
    hide Step, InRecord, After, WriteKey;
    var all := done + fields;
    assert all[|done| + i] == fields[i];
    assert all[..|done| + i] == done + fields[..i];
    assert all[..|done| + i + 1] == done + fields[..i + 1];
    ExtendRecord(p, all, |done| + i);
  }

  lemma KeyStep(q: Printer, key: string)
    ensures Step(q, Call.WriteObjectValue(key)) == WriteKey(q, key)
    ensures Step(q, Call.WriteArrayValue(key)) == WriteKey(q, key)
    ensures Step(q, Call.WriteArrayElement) == Separate(q)
  {
  }

  lemma InsideList(p: Printer, items: seq<Value>)
    ensures InList(p, items).level == p.level + 1
  {
  }

  method StoragesToJson(devices: seq<StorageConfiguration>, builder: JsonBuilder)
    requires builder.Valid()
    modifies builder
    ensures builder.Valid() && builder.State() == After(old(builder.State()), List(StorageItems(devices)))
  {
    hide Step, InList, After, Separate, StorageFields;
    ghost var p, items := builder.State(), StorageItems(devices);
    BeginContainer(p);
    builder.BeginArray();
    for i := 0 to |devices|
      invariant builder.Valid() && builder.State() == InList(p, items[..i])
    {
      KeyStep(builder.State(), "");
      builder.WriteArrayElement();
      StorageToJson(devices[i], builder);
      AddElement(p, items[..i], items[i]);
      assert items[..i + 1] == items[..i] + [items[i]];
    }
    assert items[..|devices|] == items;
    EndList(p, items);
    InsideList(p, items);
    builder.EndArray();
  }

  method NetworksToJson(interfaces: seq<NetworkConfiguration>, builder: JsonBuilder)
    requires builder.Valid()
    modifies builder
    ensures builder.Valid() && builder.State() == After(old(builder.State()), List(NetworkItems(interfaces)))
  {
    hide Step, InList, After, Separate, NetworkFields;
    ghost var p, items := builder.State(), NetworkItems(interfaces);
    BeginContainer(p);
    builder.BeginArray();
    for i := 0 to |interfaces|
      invariant builder.Valid() && builder.State() == InList(p, items[..i])
    {
      KeyStep(builder.State(), "");
      builder.WriteArrayElement();
      NetworkToJson(interfaces[i], builder);
      AddElement(p, items[..i], items[i]);
      assert items[..i + 1] == items[..i] + [items[i]];
    }
    assert items[..|interfaces|] == items;
    EndList(p, items);
    InsideList(p, items);
    builder.EndArray();
  }

  method WriteIdentification(c: VMConfiguration, builder: JsonBuilder, ghost p: Printer)
    requires builder.Valid() && builder.State() == InRecord(p, [])
    modifies builder
    ensures builder.Valid() && builder.State() == InRecord(p, IdentificationFields(c))
  {
    hide Step, InRecord, After, WriteKey;
    ghost var f := IdentificationFields(c);
    ExtendRecord(p, f, 0);
    builder.WriteString("name", c.name);
    ExtendRecord(p, f, 1);
    builder.WriteString("description", c.description);
    ExtendRecord(p, f, 2);
    builder.WriteString("uuid", c.uuid);
    assert f[..3] == f;
  }

  method WriteComponents(c: VMConfiguration, builder: JsonBuilder, ghost p: Printer, ghost done: seq<Field>)
    requires builder.Valid() && builder.State() == InRecord(p, done)
    modifies builder
    ensures builder.Valid() && builder.State() == InRecord(p, done + ComponentFields(c))
  {
    hide Step, InRecord, After, WriteKey, CpuFields, MemoryFields, BootFields, StorageItems, NetworkItems;
    ghost var f := ComponentFields(c);
    ExtendAfter(p, done, f, 0);
    KeyStep(builder.State(), "cpu");
    builder.WriteObjectValue("cpu");
    CpuToJson(c.cpu, builder);
    ExtendAfter(p, done, f, 1);
    KeyStep(builder.State(), "memory");
    builder.WriteObjectValue("memory");
    MemoryToJson(c.memory, builder);
    ExtendAfter(p, done, f, 2);
    KeyStep(builder.State(), "storageDevices");
    builder.WriteArrayValue("storageDevices");
    StoragesToJson(c.storageDevices, builder);
    ExtendAfter(p, done, f, 3);
    KeyStep(builder.State(), "boot");
    builder.WriteObjectValue("boot");
    BootToJson(c.boot, builder);
    ExtendAfter(p, done, f, 4);
    KeyStep(builder.State(), "networkInterfaces");
    builder.WriteArrayValue("networkInterfaces");
    NetworksToJson(c.networkInterfaces, builder);
    assert f[..5] == f;
  }

  method WriteBehavior(c: VMConfiguration, builder: JsonBuilder, ghost p: Printer, ghost done: seq<Field>)
    requires builder.Valid() && builder.State() == InRecord(p, done)
    modifies builder
    ensures builder.Valid() && builder.State() == InRecord(p, done + BehaviorFields(c))
  {
    hide Step, InRecord, After, WriteKey;
    ghost var f := BehaviorFields(c);
    ExtendAfter(p, done, f, 0);
    builder.WriteBool("enableDebugger", c.enableDebugger);
    ExtendAfter(p, done, f, 1);
    builder.WriteBool("enableSnapshots", c.enableSnapshots);
    ExtendAfter(p, done, f, 2);
    builder.WriteBool("autoStart", c.autoStart);
    ExtendAfter(p, done, f, 3);
    builder.WriteNumber("maxCycles", c.maxCycles);
    assert f[..4] == f;
  }

  method ToJson(c: VMConfiguration) returns (text: string)
    ensures text == ToJsonText(c)
    ensures Rfc.Decode(text) == Some(VMJson(c))
    ensures Relaid(0, text) == text
  {
    SavedText(c);
    hide Rfc.Decode, VMJson, Relaid, Step, InRecord, IdentificationFields, ComponentFields, BehaviorFields;
    var builder := new JsonBuilder();
    ghost var p, f := FreshPrinter, VMFields(c);
    BeginContainer(p);
    builder.BeginObject();
    WriteIdentification(c, builder, p);
    WriteComponents(c, builder, p, IdentificationFields(c));
    WriteBehavior(c, builder, p, IdentificationFields(c) + ComponentFields(c));
    EndRecord(p, f);
    InsideContainer(p, f);
    builder.EndObject();
    text := builder.buffer;
    assert "" + ToJsonText(c) == ToJsonText(c);
  }

  // ---------- reading the whole configuration ----------

  lemma RecordField(schema: Schema, key: string, s: string, inner: Schema)
    requires key in schema && schema[key] == RecordKind(inner)
    ensures ParseFieldValue(schema, key, s) ==
            match ParseObject(inner, s) case Ok(fields, t) => Ok(Record(fields), t) case Err(e) => Err(e)
  {
  }

  lemma ListField(schema: Schema, key: string, s: string, inner: Schema)
    requires key in schema && schema[key] == ListKind(inner)
    ensures ParseFieldValue(schema, key, s) ==
            match ParseList(inner, s) case Ok(items, t) => Ok(List(items), t) case Err(e) => Err(e)
  {
  }

  function ParseList(schema: Schema, s: string): Parsed<seq<Value>> {
    var (_, t) :- Expect(s, '[');
    ParseItems(schema, t)
  }

  lemma StartItems(schema: Schema, s: string)
    ensures Prefixed([], ParseItems(schema, SkipSpace(s))) == ParseItems(schema, s)
  {
    ItemsAfterSpace(schema, s);
    if ParseItems(schema, s).Ok? {
      assert [] + ParseItems(schema, s).value == ParseItems(schema, s).value;
    }
  }

  lemma StepItems(schema: Schema, done: seq<Value>, s: string)
    requires Peek(s) != ']'
    ensures ParseObject(schema, s).Ok? ==>
              Prefixed(done, ParseItems(schema, s)) ==
              Prefixed(done + [Record(ParseObject(schema, s).value)],
                       ParseItems(schema, SkipSpace(SkipComma(ParseObject(schema, s).rest))))
    ensures ParseObject(schema, s).Err? ==>
              Prefixed(done, ParseItems(schema, s)) == Err(ParseObject(schema, s).error)
  {
    if ParseObject(schema, s).Ok? {
      var item, t := Record(ParseObject(schema, s).value), SkipComma(ParseObject(schema, s).rest);
      ItemsAfterSpace(schema, t);
      if ParseItems(schema, t).Ok? {
        var more := ParseItems(schema, t).value;
        assert done + ([item] + more) == (done + [item]) + more;
      }
    }
  }

  lemma EndItems(schema: Schema, done: seq<Value>, s: string)
    requires Peek(s) == ']'
    ensures Expect(s, ']').Ok? && Prefixed(done, ParseItems(schema, s)) == Ok(done, Expect(s, ']').rest)
  {
    assert done + [] == done;
  }

  /** The list was read and appended: push_back in the loop of the source. */
  ghost predicate Appends<C>(p: Parsed<seq<Value>>, of: seq<Value> -> seq<C>, before: seq<C>, r: Result<seq<C>>,
                             rest: string) {
    match p
    case Ok(items, t) => r == Success(before + of(items)) && rest == t
    case Err(e) => r == Failure(e)
  }

  lemma OneMoreDevice(before: seq<StorageConfiguration>, done: seq<Value>, item: Value)
    ensures before + StoragesOf(done + [item]) == before + StoragesOf(done) + [StorageOf(FieldsOfItem(item))]
  {
    assert StoragesOf(done + [item]) == StoragesOf(done) + [StorageOf(FieldsOfItem(item))];
  }

  lemma OneMoreInterface(before: seq<NetworkConfiguration>, done: seq<Value>, item: Value)
    ensures before + NetworksOf(done + [item]) == before + NetworksOf(done) + [NetworkOf(FieldsOfItem(item))]
  {
    assert NetworksOf(done + [item]) == NetworksOf(done) + [NetworkOf(FieldsOfItem(item))];
  }

  method StoragesFromJson(before: seq<StorageConfiguration>, parser: JsonParser)
    returns (r: Result<seq<StorageConfiguration>>)
    requires parser.Valid()
    modifies parser
    ensures parser.Valid()
    ensures Appends(ParseList(STORAGE, old(parser.Rest())), StoragesOf, before, r, parser.Rest())
  {
    assert before + StoragesOf([]) == before;
    hide ParseItems, ParseObject, StorageOf, StoragesOf, Prefixed, STORAGE;
    var devices := before;
    var _ :- parser.Consume('[');
    ghost var start, done := parser.Rest(), [];
    StartItems(STORAGE, start);
    var next := parser.PeekChar();
    while next != ']'
      invariant parser.Valid() && next == Peek(parser.Rest())
      invariant ParseItems(STORAGE, start) == Prefixed(done, ParseItems(STORAGE, parser.Rest()))
      invariant devices == before + StoragesOf(done)
      decreases |parser.Rest()|
    {
      ghost var s := parser.Rest();
      StepItems(STORAGE, done, s);
      var device :- StorageFromJson(parser);
      ghost var item := Record(ParseObject(STORAGE, s).value);
      OneMoreDevice(before, done, item);
      devices := devices + [device];
      var _ := parser.TryConsumeComma();
      done := done + [item];
      next := parser.PeekChar();
    }
    EndItems(STORAGE, done, parser.Rest());
    var closed := parser.Consume(']');
    return closed.Then(devices);
  }

  method NetworksFromJson(before: seq<NetworkConfiguration>, parser: JsonParser)
    returns (r: Result<seq<NetworkConfiguration>>)
    requires parser.Valid()
    modifies parser
    ensures parser.Valid()
    ensures Appends(ParseList(NETWORK, old(parser.Rest())), NetworksOf, before, r, parser.Rest())
  {
    assert before + NetworksOf([]) == before;
    hide ParseItems, ParseObject, NetworkOf, NetworksOf, Prefixed, NETWORK;
    var interfaces := before;
    var _ :- parser.Consume('[');
    ghost var start, done := parser.Rest(), [];
    StartItems(NETWORK, start);
    var next := parser.PeekChar();
    while next != ']'
      invariant parser.Valid() && next == Peek(parser.Rest())
      invariant ParseItems(NETWORK, start) == Prefixed(done, ParseItems(NETWORK, parser.Rest()))
      invariant interfaces == before + NetworksOf(done)
      decreases |parser.Rest()|
    {
      ghost var s := parser.Rest();
      StepItems(NETWORK, done, s);
      var iface :- NetworkFromJson(parser);
      ghost var item := Record(ParseObject(NETWORK, s).value);
      OneMoreInterface(before, done, item);
      interfaces := interfaces + [iface];
      var _ := parser.TryConsumeComma();
      done := done + [item];
      next := parser.PeekChar();
    }
    EndItems(NETWORK, done, parser.Rest());
    var closed := parser.Consume(']');
    return closed.Then(interfaces);
  }

  /** A key that none of the comparisons matches: nothing is read and nothing changes. */
  lemma OtherKey(config: VMConfiguration, key: string, s: string)
    requires key !in {"name", "description", "uuid"}
    requires key !in {"cpu", "memory", "storageDevices", "boot", "networkInterfaces"}
    requires key !in {"enableDebugger", "enableSnapshots", "autoStart", "maxCycles"}
    ensures ParseFieldValue(VM, key, s) == Ok(Unread, s)
    ensures ApplyVM(config, Field(key, Unread)) == config
  {
    hide CPU, MEMORY, STORAGE, BOOT, NETWORK;
    UnknownField(VM, key, s);
  }

  lemma CyclesKind()
    ensures "maxCycles" in VM && VM["maxCycles"] == NumberKind
  {
    hide CPU, MEMORY, STORAGE, BOOT, NETWORK;
  }

  /** The branches of the key comparison whose value is a record or a list. */
  method ReadComponent(key: string, config: VMConfiguration, parser: JsonParser) returns (r: Result<VMConfiguration>)
    requires parser.Valid()
    requires key in {"cpu", "memory", "storageDevices", "boot", "networkInterfaces"}
    modifies parser
    ensures parser.Valid()
    ensures ReadsField(ParseFieldValue(VM, key, old(parser.Rest())), key, ApplyVM, config, r, parser.Rest())
  {
    hide VM, CPU, MEMORY, BOOT, STORAGE, NETWORK, ApplyVM, ParseFieldValue, ParseObject, ParseList;
    hide CpuOf, MemoryOf, BootOf, StoragesOf, NetworksOf;
    ghost var s := parser.Rest();
    RecordKinds();
    ListKinds();
    if key == "cpu" {
      RecordField(VM, key, s, CPU);
      var v :- CpuFromJson(parser);
      ApplyRecords(config, ParseObject(CPU, s).value);
      return Success(config.(cpu := v));
    } else if key == "memory" {
      RecordField(VM, key, s, MEMORY);
      var v :- MemoryFromJson(parser);
      ApplyRecords(config, ParseObject(MEMORY, s).value);
      return Success(config.(memory := v));
    } else if key == "storageDevices" {
      ListField(VM, key, s, STORAGE);
      var v :- StoragesFromJson(config.storageDevices, parser);
      ApplyLists(config, ParseList(STORAGE, s).value);
      return Success(config.(storageDevices := v));
    } else if key == "boot" {
      RecordField(VM, key, s, BOOT);
      var v :- BootFromJson(parser);
      ApplyRecords(config, ParseObject(BOOT, s).value);
      return Success(config.(boot := v));
    } else {
      ListField(VM, key, s, NETWORK);
      var v :- NetworksFromJson(config.networkInterfaces, parser);
      ApplyLists(config, ParseList(NETWORK, s).value);
      return Success(config.(networkInterfaces := v));
    }
  }

  /** The last branches of the comparison: the flags, the cycle limit, and no branch at all. */
  method ReadBehavior(key: string, config: VMConfiguration, parser: JsonParser) returns (r: Result<VMConfiguration>)
    requires parser.Valid()
    requires key !in {"name", "description", "uuid"}
    requires key !in {"cpu", "memory", "storageDevices", "boot", "networkInterfaces"}
    modifies parser
    ensures parser.Valid()
    ensures ReadsField(ParseFieldValue(VM, key, old(parser.Rest())), key, ApplyVM, config, r, parser.Rest())
  {
    hide VM, ApplyVM, ParseFieldValue, ParseString, ParseNumber, ParseBool;
    ghost var s := parser.Rest();
    FlagKinds();
    CyclesKind();
    if key == "enableDebugger" {
      ScalarFields(VM, key, s);
      var v :- parser.ReadBool();
      ApplyFlags(config, v);
      return Success(config.(enableDebugger := v));
    } else if key == "enableSnapshots" {
      ScalarFields(VM, key, s);
      var v :- parser.ReadBool();
      ApplyFlags(config, v);
      return Success(config.(enableSnapshots := v));
    } else if key == "autoStart" {
      ScalarFields(VM, key, s);
      var v :- parser.ReadBool();
      ApplyFlags(config, v);
      return Success(config.(autoStart := v));
    } else if key == "maxCycles" {
      ScalarFields(VM, key, s);
      var v :- parser.ReadNumber();
      ApplyCycles(config, v);
      return Success(config.(maxCycles := v));
    }
    OtherKey(config, key, s);
    return Success(config);
  }

  method ReadVMField(key: string, config: VMConfiguration, parser: JsonParser) returns (r: Result<VMConfiguration>)
    requires parser.Valid()
    modifies parser
    ensures parser.Valid()
    ensures ReadsField(ParseFieldValue(VM, key, old(parser.Rest())), key, ApplyVM, config, r, parser.Rest())
  {
    hide VM, ApplyVM, ParseFieldValue, ParseString, ParseNumber, ParseBool;
    ghost var s := parser.Rest();
    TextKinds();
    if key == "name" {
      ScalarFields(VM, key, s);
      var v :- parser.ReadString();
      ApplyTexts(config, v);
      return Success(config.(name := v));
    } else if key == "description" {
      ScalarFields(VM, key, s);
      var v :- parser.ReadString();
      ApplyTexts(config, v);
      return Success(config.(description := v));
    } else if key == "uuid" {
      ScalarFields(VM, key, s);
      var v :- parser.ReadString();
      ApplyTexts(config, v);
      return Success(config.(uuid := v));
    } else if key in {"cpu", "memory", "storageDevices", "boot", "networkInterfaces"} {
      r := ReadComponent(key, config, parser);
      return r;
    }
    r := ReadBehavior(key, config, parser);
  }

  /** One turn of the loop: the key, its value, and the comma. */
  method ReadVMMember(config: VMConfiguration, parser: JsonParser) returns (r: Result<VMConfiguration>)
    requires parser.Valid()
    modifies parser
    ensures parser.Valid()
    ensures match ParseField(VM, old(parser.Rest()))
            case Ok(field, rest) => r == Success(ApplyVM(config, field)) && parser.Rest() == rest
            case Err(e) => r == Failure(e)
  {
    hide ParseField, ParseFieldValue, ParseKey, ApplyVM, SkipComma;
    FieldSteps(VM, parser.Rest());
    var key :- parser.ReadKey();
    var changed :- ReadVMField(key, config, parser);
    var _ := parser.TryConsumeComma();
    return Success(changed);
  }

  method FromJson(json: string) returns (r: Result<VMConfiguration>)
    ensures r == FromJsonText(json)
  {
    assert VMOf([]) == DEFAULT_VM;
    TextUnfolds(json);
    hide ParseFields, ParseField, ApplyVM, VMOf, Prefixed, DEFAULT_VM, VM, FromJsonText, Peek, SkipSpace, Expect;
    var config := DEFAULT_VM;
    var parser := new JsonParser(json);
    var _ :- parser.Consume('{');
    ghost var start, done := parser.Rest(), [];
    StartFields(VM, start);
    PeekAfterSpace(start);
    var next := parser.PeekChar();
    while next != '}'
      invariant parser.Valid() && next == Peek(parser.Rest())
      invariant ParseFields(VM, start) == Prefixed(done, ParseFields(VM, parser.Rest()))
      invariant config == VMOf(done)
      decreases |parser.Rest()|
    {
      ghost var s := parser.Rest();
      StepFields(VM, done, s);
      config :- ReadVMMember(config, parser);
      ghost var field := ParseField(VM, s).value;
      OneMoreField(done, field);
      done := done + [field];
      PeekAfterSpace(parser.Rest());
      next := parser.PeekChar();
    }
    EndFields(VM, done, parser.Rest());
    var closed := parser.Consume('}');
    return closed.Then(config);
  }

  lemma TextUnfolds(s: string)
    ensures FromJsonText(s) ==
            match Expect(s, '{')
            case Ok(_, t) => (
              match ParseFields(VM, t)
              case Ok(fields, _) => Success(VMOf(fields))
              case Err(e) => Failure(e))
            case Err(e) => Failure(e)
  {
    hide ParseFields, VMOf;
  }

  lemma OneMoreField(done: seq<Field>, f: Field)
    ensures VMOf(done + [f]) == ApplyVM(VMOf(done), f)
  {
    FoldOneMore(ApplyVM, DEFAULT_VM, done, f);
  }

  lemma FieldSteps(schema: Schema, s: string)
    ensures ParseKey(s).Err? ==> ParseField(schema, s) == Err(ParseKey(s).error)
    ensures ParseKey(s).Ok? ==>
              var p := ParseFieldValue(schema, ParseKey(s).value, ParseKey(s).rest);
              ParseField(schema, s) ==
              if p.Ok? then Ok(Field(ParseKey(s).value, p.value), SkipComma(p.rest)) else Err(p.error)
  {
  }

  /** Saving and loading through the two methods, for every configuration. */
  method SaveAndLoad(c: VMConfiguration) returns (r: Result<VMConfiguration>)
    ensures r.Success? <==> VMReadable(c)
    ensures VMReadable(c) ==> r == Success(c)
  {
    var text := ToJson(c);
    r := FromJson(text);
    RoundTrip(c);
  }
}
