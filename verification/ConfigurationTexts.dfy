/** What toJson of include/VMConfiguration.h writes, said of the text alone: the JSON value it denotes,
    member by member, and its layout. */
module ConfigurationTexts {
  import opened Results
  import opened JsonRecords
  import opened JsonDocuments
  import opened StrictDocuments
  import opened PrettyDocuments
  import opened BuilderTexts
  import opened VMConfigurations
  import opened ConfigurationRoundTrip
  import opened Reindenting
  import Rfc = Rfc8259

  // ---------- the JSON value of a configuration ----------

  /** A string as a JSON reader sees it. */
  function Shown(text: string): Rfc.Json {
    Rfc.Str(UnitsOfEscaped(text))
  }

  /** It is itself exactly if it is ASCII. */
  lemma ShownAsItIs(text: string)
    requires Bytes(text)
    ensures Shown(text) == Rfc.Str(Codes(text)) <==> Ascii(text)
  {
    EscapedKeepsAscii(text);
  }

  function CpuJson(c: CpuConfiguration): Rfc.Json {
    Rfc.Obj([
      Rfc.Pair(Codes("isaType"), Shown(c.isaType)),
      Rfc.Pair(Codes("cpuCount"), Rfc.Num(c.cpuCount, 0)),
      Rfc.Pair(Codes("clockFrequency"), Rfc.Num(c.clockFrequency, 0)),
      Rfc.Pair(Codes("enableProfiling"), Rfc.Bool(c.enableProfiling))])
  }

  function MemoryJson(c: MemoryConfiguration): Rfc.Json {
    Rfc.Obj([
      Rfc.Pair(Codes("memorySize"), Rfc.Num(c.memorySize, 0)),
      Rfc.Pair(Codes("enableMMU"), Rfc.Bool(c.enableMMU)),
      Rfc.Pair(Codes("enablePaging"), Rfc.Bool(c.enablePaging)),
      Rfc.Pair(Codes("pageSize"), Rfc.Num(c.pageSize, 0))])
  }

  function StorageJson(c: StorageConfiguration): Rfc.Json {
    Rfc.Obj([
      Rfc.Pair(Codes("deviceId"), Shown(c.deviceId)),
      Rfc.Pair(Codes("deviceType"), Shown(c.deviceType)),
      Rfc.Pair(Codes("imagePath"), Shown(c.imagePath)),
      Rfc.Pair(Codes("readOnly"), Rfc.Bool(c.readOnly)),
      Rfc.Pair(Codes("sizeBytes"), Rfc.Num(c.sizeBytes, 0)),
      Rfc.Pair(Codes("blockSize"), Rfc.Num(c.blockSize, 0))])
  }

  function BootJson(c: BootConfiguration): Rfc.Json {
    Rfc.Obj([
      Rfc.Pair(Codes("bootDevice"), Shown(c.bootDevice)),
      Rfc.Pair(Codes("kernelPath"), Shown(c.kernelPath)),
      Rfc.Pair(Codes("initrdPath"), Shown(c.initrdPath)),
      Rfc.Pair(Codes("bootArgs"), Shown(c.bootArgs)),
      Rfc.Pair(Codes("entryPoint"), Rfc.Num(c.entryPoint, 0)),
      Rfc.Pair(Codes("directBoot"), Rfc.Bool(c.directBoot))])
  }

  function NetworkJson(c: NetworkConfiguration): Rfc.Json {
    Rfc.Obj([
      Rfc.Pair(Codes("interfaceId"), Shown(c.interfaceId)),
      Rfc.Pair(Codes("interfaceType"), Shown(c.interfaceType)),
      Rfc.Pair(Codes("macAddress"), Shown(c.macAddress)),
      Rfc.Pair(Codes("enableDHCP"), Rfc.Bool(c.enableDHCP)),
      Rfc.Pair(Codes("ipAddress"), Shown(c.ipAddress)),
      Rfc.Pair(Codes("gateway"), Shown(c.gateway))])
  }

  function StorageJsons(devices: seq<StorageConfiguration>): seq<Rfc.Json> {
    seq(|devices|, i requires 0 <= i < |devices| => StorageJson(devices[i]))
  }

  function NetworkJsons(interfaces: seq<NetworkConfiguration>): seq<Rfc.Json> {
    seq(|interfaces|, i requires 0 <= i < |interfaces| => NetworkJson(interfaces[i]))
  }

  function IdentificationPairs(c: VMConfiguration): seq<Rfc.Pair> {
    [ Rfc.Pair(Codes("name"), Shown(c.name)),
      Rfc.Pair(Codes("description"), Shown(c.description)),
      Rfc.Pair(Codes("uuid"), Shown(c.uuid)) ]
  }

  function ComponentPairs(c: VMConfiguration): seq<Rfc.Pair> {
    [ Rfc.Pair(Codes("cpu"), CpuJson(c.cpu)),
      Rfc.Pair(Codes("memory"), MemoryJson(c.memory)),
      Rfc.Pair(Codes("storageDevices"), Rfc.Arr(StorageJsons(c.storageDevices))),
      Rfc.Pair(Codes("boot"), BootJson(c.boot)),
      Rfc.Pair(Codes("networkInterfaces"), Rfc.Arr(NetworkJsons(c.networkInterfaces))) ]
  }

  function BehaviorPairs(c: VMConfiguration): seq<Rfc.Pair> {
    [ Rfc.Pair(Codes("enableDebugger"), Rfc.Bool(c.enableDebugger)),
      Rfc.Pair(Codes("enableSnapshots"), Rfc.Bool(c.enableSnapshots)),
      Rfc.Pair(Codes("autoStart"), Rfc.Bool(c.autoStart)),
      Rfc.Pair(Codes("maxCycles"), Rfc.Num(c.maxCycles, 0)) ]
  }

  function VMJson(c: VMConfiguration): Rfc.Json {
    Rfc.Obj(IdentificationPairs(c) + ComponentPairs(c) + BehaviorPairs(c))
  }

  // ---------- what the fields denote ----------

  /** The member that a field writes. */
  predicate Writes(f: Field, pair: Rfc.Pair) {
    Complete(f.value) && pair == Rfc.Pair(UnitsOfEscaped(f.key), Denotation(f.value))
  }

  predicate WritesAll(fields: seq<Field>, pairs: seq<Rfc.Pair>) {
    |fields| == |pairs| && forall i | 0 <= i < |fields| :: Writes(fields[i], pairs[i])
  }

  lemma WritesBoth(a: seq<Field>, p: seq<Rfc.Pair>, b: seq<Field>, q: seq<Rfc.Pair>)
    requires WritesAll(a, p) && WritesAll(b, q)
    ensures WritesAll(a + b, p + q)
  {
    hide Writes;
  }

  lemma {:induction false} FieldsDenote(fields: seq<Field>, pairs: seq<Rfc.Pair>)
    requires WritesAll(fields, pairs)
    ensures FieldsComplete(fields) && FieldsDenotation(fields) == pairs
  {
    if fields != [] {
      FieldsDenote(fields[1..], pairs[1..]);
      assert Writes(fields[0], pairs[0]);
      assert pairs == [pairs[0]] + pairs[1..];
    }
  }

  lemma RecordDenotes(fields: seq<Field>, pairs: seq<Rfc.Pair>)
    requires WritesAll(fields, pairs)
    ensures Complete(Record(fields)) && Denotation(Record(fields)) == Rfc.Obj(pairs)
  {
    FieldsDenote(fields, pairs);
  }

  lemma {:induction false} ItemsDenote(items: seq<Value>, jsons: seq<Rfc.Json>)
    requires |items| == |jsons|
    requires forall i | 0 <= i < |items| :: Complete(items[i]) && Denotation(items[i]) == jsons[i]
    ensures ItemsComplete(items) && ItemsDenotation(items) == jsons
  {
    if items != [] {
      ItemsDenote(items[1..], jsons[1..]);
      assert jsons == [jsons[0]] + jsons[1..];
    }
  }

  lemma Writing(key: string, v: Value)
    requires Ascii(key) && Complete(v)
    ensures Writes(Field(key, v), Rfc.Pair(Codes(key), Denotation(v)))
    ensures v.Text? ==> Denotation(v) == Shown(v.text)
  {
    EscapedKeepsAscii(key);
  }

  lemma WritingText(key: string, text: string)
    requires Ascii(key)
    ensures Writes(Field(key, Text(text)), Rfc.Pair(Codes(key), Shown(text)))
  {
    Writing(key, Text(text));
  }

  lemma WritingNumber(key: string, n: int)
    requires Ascii(key)
    ensures Writes(Field(key, Number(n)), Rfc.Pair(Codes(key), Rfc.Num(n, 0)))
  {
    Writing(key, Number(n));
  }

  lemma WritingFlag(key: string, b: bool)
    requires Ascii(key)
    ensures Writes(Field(key, Flag(b)), Rfc.Pair(Codes(key), Rfc.Bool(b)))
  {
    Writing(key, Flag(b));
  }

  lemma CpuDenotes(c: CpuConfiguration)
    ensures Complete(Record(CpuFields(c))) && Denotation(Record(CpuFields(c))) == CpuJson(c)
  {
    hide Writes, Shown, Codes, Complete, Denotation, FieldsComplete, FieldsDenotation;
    WritingText("isaType", c.isaType);
    WritingNumber("cpuCount", c.cpuCount);
    WritingNumber("clockFrequency", c.clockFrequency);
    WritingFlag("enableProfiling", c.enableProfiling);
    RecordDenotes(CpuFields(c), CpuJson(c).pairs);
  }

  lemma MemoryDenotes(c: MemoryConfiguration)
    ensures Complete(Record(MemoryFields(c))) && Denotation(Record(MemoryFields(c))) == MemoryJson(c)
  {
    hide Writes, Shown, Codes, Complete, Denotation, FieldsComplete, FieldsDenotation;
    WritingNumber("memorySize", c.memorySize);
    WritingFlag("enableMMU", c.enableMMU);
    WritingFlag("enablePaging", c.enablePaging);
    WritingNumber("pageSize", c.pageSize);
    RecordDenotes(MemoryFields(c), MemoryJson(c).pairs);
  }

  lemma StorageDenotes(c: StorageConfiguration)
    ensures Complete(Record(StorageFields(c))) && Denotation(Record(StorageFields(c))) == StorageJson(c)
  {
    hide Writes, Shown, Codes, Complete, Denotation, FieldsComplete, FieldsDenotation;
    WritingText("deviceId", c.deviceId);
    WritingText("deviceType", c.deviceType);
    WritingText("imagePath", c.imagePath);
    WritingFlag("readOnly", c.readOnly);
    WritingNumber("sizeBytes", c.sizeBytes);
    WritingNumber("blockSize", c.blockSize);
    RecordDenotes(StorageFields(c), StorageJson(c).pairs);
  }

  lemma BootDenotes(c: BootConfiguration)
    ensures Complete(Record(BootFields(c))) && Denotation(Record(BootFields(c))) == BootJson(c)
  {
    hide Writes, Shown, Codes, Complete, Denotation, FieldsComplete, FieldsDenotation;
    WritingText("bootDevice", c.bootDevice);
    WritingText("kernelPath", c.kernelPath);
    WritingText("initrdPath", c.initrdPath);
    WritingText("bootArgs", c.bootArgs);
    WritingNumber("entryPoint", c.entryPoint);
    WritingFlag("directBoot", c.directBoot);
    RecordDenotes(BootFields(c), BootJson(c).pairs);
  }

  lemma NetworkDenotes(c: NetworkConfiguration)
    ensures Complete(Record(NetworkFields(c))) && Denotation(Record(NetworkFields(c))) == NetworkJson(c)
  {
    hide Writes, Shown, Codes, Complete, Denotation, FieldsComplete, FieldsDenotation;
    WritingText("interfaceId", c.interfaceId);
    WritingText("interfaceType", c.interfaceType);
    WritingText("macAddress", c.macAddress);
    WritingFlag("enableDHCP", c.enableDHCP);
    WritingText("ipAddress", c.ipAddress);
    WritingText("gateway", c.gateway);
    RecordDenotes(NetworkFields(c), NetworkJson(c).pairs);
  }

  lemma StoragesDenote(devices: seq<StorageConfiguration>)
    ensures Complete(List(StorageItems(devices)))
    ensures Denotation(List(StorageItems(devices))) == Rfc.Arr(StorageJsons(devices))
  {
    hide StorageJson, StorageFields;
    var items := StorageItems(devices);
    forall i | 0 <= i < |items| ensures Complete(items[i]) && Denotation(items[i]) == StorageJson(devices[i]) {
      StorageDenotes(devices[i]);
    }
    ItemsDenote(items, StorageJsons(devices));
  }

  lemma NetworksDenote(interfaces: seq<NetworkConfiguration>)
    ensures Complete(List(NetworkItems(interfaces)))
    ensures Denotation(List(NetworkItems(interfaces))) == Rfc.Arr(NetworkJsons(interfaces))
  {
    hide NetworkJson, NetworkFields;
    var items := NetworkItems(interfaces);
    forall i | 0 <= i < |items| ensures Complete(items[i]) && Denotation(items[i]) == NetworkJson(interfaces[i]) {
      NetworkDenotes(interfaces[i]);
    }
    ItemsDenote(items, NetworkJsons(interfaces));
  }

  lemma IdentificationDenotes(c: VMConfiguration)
    ensures WritesAll(IdentificationFields(c), IdentificationPairs(c))
  {
    hide Writes, Shown, Codes, Complete, Denotation, FieldsComplete, FieldsDenotation;
    WritingText("name", c.name);
    WritingText("description", c.description);
    WritingText("uuid", c.uuid);
  }

  lemma ComponentsDenote(c: VMConfiguration)
    ensures WritesAll(ComponentFields(c), ComponentPairs(c))
  {
    hide Writes, Shown, Codes, Complete, Denotation, CpuFields, MemoryFields, BootFields, StorageItems, NetworkItems;
    hide CpuJson, MemoryJson, BootJson, StorageJsons, NetworkJsons;
    CpuDenotes(c.cpu);
    Writing("cpu", Record(CpuFields(c.cpu)));
    MemoryDenotes(c.memory);
    Writing("memory", Record(MemoryFields(c.memory)));
    StoragesDenote(c.storageDevices);
    Writing("storageDevices", List(StorageItems(c.storageDevices)));
    BootDenotes(c.boot);
    Writing("boot", Record(BootFields(c.boot)));
    NetworksDenote(c.networkInterfaces);
    Writing("networkInterfaces", List(NetworkItems(c.networkInterfaces)));
  }

  lemma BehaviorDenotes(c: VMConfiguration)
    ensures WritesAll(BehaviorFields(c), BehaviorPairs(c))
  {
    hide Writes, Codes;
    WritingFlag("enableDebugger", c.enableDebugger);
    WritingFlag("enableSnapshots", c.enableSnapshots);
    WritingFlag("autoStart", c.autoStart);
    WritingNumber("maxCycles", c.maxCycles);
  }

  lemma VMDenotes(c: VMConfiguration)
    ensures Complete(Record(VMFields(c))) && Denotation(Record(VMFields(c))) == VMJson(c)
  {
    IdentificationDenotes(c);
    ComponentsDenote(c);
    BehaviorDenotes(c);
    hide WritesAll, Complete, Denotation;
    hide IdentificationFields, ComponentFields, BehaviorFields, IdentificationPairs, ComponentPairs, BehaviorPairs;
    WritesBoth(IdentificationFields(c), IdentificationPairs(c), ComponentFields(c), ComponentPairs(c));
    WritesBoth(IdentificationFields(c) + ComponentFields(c), IdentificationPairs(c) + ComponentPairs(c),
               BehaviorFields(c), BehaviorPairs(c));
    RecordDenotes(VMFields(c), VMJson(c).pairs);
  }

  /** The text that toJson returns is JSON, with these members in this order, and is laid out line by
      line. */
  lemma SavedText(c: VMConfiguration)
    ensures Rfc.Decode(ToJsonText(c)) == Some(VMJson(c))
    ensures Relaid(0, ToJsonText(c)) == ToJsonText(c)
  {
    hide VMFields, VMJson, Pretty, Render, Denotation, Denoted, Strict, Complete, Relaid;
    var v := Record(VMFields(c));
    VMDenotes(c);
    PrettyIsStrict(v, 0);
    StrictIsJsonText("", Pretty(v, 0), "");
    assert "" + ToJsonText(c) == ToJsonText(c);
    RelaidValue(v, 0, "");
    RelaidNothing(0);
  }
}
