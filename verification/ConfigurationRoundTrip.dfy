/** Printing and parsing a configuration, and the fold on both sides of it. */
module ConfigurationRoundTrip {
  import opened Results
  import opened Words
  import opened JsonText
  import opened JsonRecords
  import opened JsonDocuments
  import opened ReadingDocuments
  import opened PrettyDocuments
  import opened VMConfigurations

  lemma {:induction false} ConformsFieldwise(schema: Schema, fields: seq<Field>)
    requires forall i | 0 <= i < |fields| :: FieldConforms(schema, fields[i])
    ensures FieldsConform(schema, fields)
  {
    if fields != [] {
      ConformsFieldwise(schema, fields[1..]);
    }
  }

  lemma FieldFits(schema: Schema, f: Field)
    requires f.key in schema && Readable(f.key) && Conforms(schema[f.key], f.value)
    ensures FieldConforms(schema, f)
  {
  }

  predicate PrintableAt(fields: seq<Field>, i: nat)
    requires i < |fields|
  {
    Printable(fields[i].value)
  }

  lemma {:induction false} PrintableFieldwise(fields: seq<Field>)
    ensures FieldsPrintable(fields) <==> forall i | 0 <= i < |fields| :: PrintableAt(fields, i)
  {
    if fields != [] {
      PrintableFieldwise(fields[1..]);
      assert PrintableAt(fields, 0) <==> Printable(fields[0].value);
      assert forall i | 0 < i < |fields| :: PrintableAt(fields, i) <==> PrintableAt(fields[1..], i - 1);
      assert forall i | 0 <= i < |fields[1..]| :: PrintableAt(fields[1..], i) <==> PrintableAt(fields, i + 1);
    }
  }

  /** The fold ends in the last of the states that one step after the other leads to. */
  lemma {:induction false} FoldTrace<C>(apply: (C, Field) -> C, fields: seq<Field>, states: seq<C>)
    requires |states| == |fields| + 1
    requires forall i | 0 <= i < |fields| :: states[i + 1] == apply(states[i], fields[i])
    ensures Fold(apply, states[0], fields) == states[|fields|]
  {
    if fields != [] {
      FoldTrace(apply, fields[..|fields| - 1], states[..|fields|]);
    }
  }

  lemma FoldThree<C>(apply: (C, Field) -> C, f: seq<Field>, s: C, s1: C, s2: C, s3: C)
    requires |f| == 3 && s1 == apply(s, f[0]) && s2 == apply(s1, f[1]) && s3 == apply(s2, f[2])
    ensures Fold(apply, s, f) == s3
  {
    FoldTrace(apply, f, [s, s1, s2, s3]);
  }

  lemma FoldFour<C>(apply: (C, Field) -> C, f: seq<Field>, s: C, s1: C, s2: C, s3: C, s4: C)
    requires |f| == 4
    requires s1 == apply(s, f[0]) && s2 == apply(s1, f[1]) && s3 == apply(s2, f[2]) && s4 == apply(s3, f[3])
    ensures Fold(apply, s, f) == s4
  {
    FoldTrace(apply, f, [s, s1, s2, s3, s4]);
  }

  lemma FoldFive<C>(apply: (C, Field) -> C, f: seq<Field>, s: C, s1: C, s2: C, s3: C, s4: C, s5: C)
    requires |f| == 5
    requires s1 == apply(s, f[0]) && s2 == apply(s1, f[1]) && s3 == apply(s2, f[2])
    requires s4 == apply(s3, f[3]) && s5 == apply(s4, f[4])
    ensures Fold(apply, s, f) == s5
  {
    FoldTrace(apply, f, [s, s1, s2, s3, s4, s5]);
  }

  predicate CpuReadable(c: CpuConfiguration) {
    Readable(c.isaType)
  }

  lemma CpuRestored(c: CpuConfiguration)
    ensures CpuOf(CpuFields(c)) == c
  {
    var f := CpuFields(c);
    var s0 := DEFAULT_CPU;
    var s1 := ApplyCpu(s0, f[0]);
    var s2 := ApplyCpu(s1, f[1]);
    var s3 := ApplyCpu(s2, f[2]);
    var s4 := ApplyCpu(s3, f[3]);
    FoldTrace(ApplyCpu, f, [s0, s1, s2, s3, s4]);
  }

  lemma CpuKeys()
    ensures Readable("isaType") && Readable("cpuCount") && Readable("clockFrequency")
    ensures Readable("enableProfiling")
  {
  }

  lemma CpuKinds()
    ensures "isaType" in CPU && CPU["isaType"] == TextKind
    ensures "cpuCount" in CPU && CPU["cpuCount"] == NumberKind
    ensures "clockFrequency" in CPU && CPU["clockFrequency"] == NumberKind
    ensures "enableProfiling" in CPU && CPU["enableProfiling"] == FlagKind
  {
  }

  lemma CpuConforms(c: CpuConfiguration)
    ensures Conforms(RecordKind(CPU), Record(CpuFields(c)))
  {
    hide CPU, Readable;
    CpuKeys();
    CpuKinds();
    var f := CpuFields(c);
    FieldFits(CPU, f[0]);
    FieldFits(CPU, f[1]);
    FieldFits(CPU, f[2]);
    FieldFits(CPU, f[3]);
    ConformsFieldwise(CPU, f);
  }

  lemma CpuPrintable(c: CpuConfiguration)
    ensures Printable(Record(CpuFields(c))) <==> CpuReadable(c)
  {
    var f := CpuFields(c);
    assert (PrintableAt(f, 0) <==> Readable(c.isaType)) && PrintableAt(f, 1) && PrintableAt(f, 2) && PrintableAt(f, 3);
    PrintableFieldwise(f);
  }

  predicate MemoryReadable(c: MemoryConfiguration) {
    true
  }

  lemma MemoryRestored(c: MemoryConfiguration)
    ensures MemoryOf(MemoryFields(c)) == c
  {
    var f := MemoryFields(c);
    var s0 := DEFAULT_MEMORY;
    var s1 := ApplyMemory(s0, f[0]);
    var s2 := ApplyMemory(s1, f[1]);
    var s3 := ApplyMemory(s2, f[2]);
    var s4 := ApplyMemory(s3, f[3]);
    FoldTrace(ApplyMemory, f, [s0, s1, s2, s3, s4]);
  }

  lemma MemoryKeys()
    ensures Readable("memorySize") && Readable("enableMMU") && Readable("enablePaging")
    ensures Readable("pageSize")
  {
  }

  lemma MemoryKinds()
    ensures "memorySize" in MEMORY && MEMORY["memorySize"] == NumberKind
    ensures "enableMMU" in MEMORY && MEMORY["enableMMU"] == FlagKind
    ensures "enablePaging" in MEMORY && MEMORY["enablePaging"] == FlagKind
    ensures "pageSize" in MEMORY && MEMORY["pageSize"] == NumberKind
  {
  }

  lemma MemoryConforms(c: MemoryConfiguration)
    ensures Conforms(RecordKind(MEMORY), Record(MemoryFields(c)))
  {
    hide MEMORY, Readable;
    MemoryKeys();
    MemoryKinds();
    var f := MemoryFields(c);
    FieldFits(MEMORY, f[0]);
    FieldFits(MEMORY, f[1]);
    FieldFits(MEMORY, f[2]);
    FieldFits(MEMORY, f[3]);
    ConformsFieldwise(MEMORY, f);
  }

  lemma MemoryPrintable(c: MemoryConfiguration)
    ensures Printable(Record(MemoryFields(c))) <==> MemoryReadable(c)
  {
    var f := MemoryFields(c);
    assert PrintableAt(f, 0) && PrintableAt(f, 1) && PrintableAt(f, 2) && PrintableAt(f, 3);
    PrintableFieldwise(f);
  }

  predicate StorageReadable(c: StorageConfiguration) {
    Readable(c.deviceId) && Readable(c.deviceType) && Readable(c.imagePath)
  }

  lemma StorageRestored(c: StorageConfiguration)
    ensures StorageOf(StorageFields(c)) == c
  {
    var f := StorageFields(c);
    var s0 := DEFAULT_STORAGE;
    var s1 := ApplyStorage(s0, f[0]);
    var s2 := ApplyStorage(s1, f[1]);
    var s3 := ApplyStorage(s2, f[2]);
    var s4 := ApplyStorage(s3, f[3]);
    var s5 := ApplyStorage(s4, f[4]);
    var s6 := ApplyStorage(s5, f[5]);
    FoldTrace(ApplyStorage, f, [s0, s1, s2, s3, s4, s5, s6]);
  }

  lemma StorageKeys()
    ensures Readable("deviceId") && Readable("deviceType") && Readable("imagePath")
    ensures Readable("readOnly") && Readable("sizeBytes") && Readable("blockSize")
  {
  }

  lemma StorageKinds()
    ensures "deviceId" in STORAGE && STORAGE["deviceId"] == TextKind
    ensures "deviceType" in STORAGE && STORAGE["deviceType"] == TextKind
    ensures "imagePath" in STORAGE && STORAGE["imagePath"] == TextKind
    ensures "readOnly" in STORAGE && STORAGE["readOnly"] == FlagKind
    ensures "sizeBytes" in STORAGE && STORAGE["sizeBytes"] == NumberKind
    ensures "blockSize" in STORAGE && STORAGE["blockSize"] == NumberKind
  {
  }

  lemma StorageConforms(c: StorageConfiguration)
    ensures Conforms(RecordKind(STORAGE), Record(StorageFields(c)))
  {
    hide STORAGE, Readable;
    StorageKeys();
    StorageKinds();
    var f := StorageFields(c);
    FieldFits(STORAGE, f[0]);
    FieldFits(STORAGE, f[1]);
    FieldFits(STORAGE, f[2]);
    FieldFits(STORAGE, f[3]);
    FieldFits(STORAGE, f[4]);
    FieldFits(STORAGE, f[5]);
    ConformsFieldwise(STORAGE, f);
  }

  lemma StoragePrintable(c: StorageConfiguration)
    ensures Printable(Record(StorageFields(c))) <==> StorageReadable(c)
  {
    var f := StorageFields(c);
    assert (PrintableAt(f, 0) <==> Readable(c.deviceId)) && (PrintableAt(f, 1) <==> Readable(c.deviceType)) &&
           (PrintableAt(f, 2) <==> Readable(c.imagePath)) &&
           PrintableAt(f, 3) && PrintableAt(f, 4) && PrintableAt(f, 5);
    PrintableFieldwise(f);
  }

  predicate BootReadable(c: BootConfiguration) {
    Readable(c.bootDevice) && Readable(c.kernelPath) && Readable(c.initrdPath) && Readable(c.bootArgs)
  }

  lemma BootRestored(c: BootConfiguration)
    ensures BootOf(BootFields(c)) == c
  {
    var f := BootFields(c);
    var s0 := DEFAULT_BOOT;
    var s1 := ApplyBoot(s0, f[0]);
    var s2 := ApplyBoot(s1, f[1]);
    var s3 := ApplyBoot(s2, f[2]);
    var s4 := ApplyBoot(s3, f[3]);
    var s5 := ApplyBoot(s4, f[4]);
    var s6 := ApplyBoot(s5, f[5]);
    FoldTrace(ApplyBoot, f, [s0, s1, s2, s3, s4, s5, s6]);
  }

  lemma BootKeys()
    ensures Readable("bootDevice") && Readable("kernelPath") && Readable("initrdPath")
    ensures Readable("bootArgs") && Readable("entryPoint") && Readable("directBoot")
  {
  }

  lemma BootKinds()
    ensures "bootDevice" in BOOT && BOOT["bootDevice"] == TextKind
    ensures "kernelPath" in BOOT && BOOT["kernelPath"] == TextKind
    ensures "initrdPath" in BOOT && BOOT["initrdPath"] == TextKind
    ensures "bootArgs" in BOOT && BOOT["bootArgs"] == TextKind
    ensures "entryPoint" in BOOT && BOOT["entryPoint"] == NumberKind
    ensures "directBoot" in BOOT && BOOT["directBoot"] == FlagKind
  {
  }

  lemma BootConforms(c: BootConfiguration)
    ensures Conforms(RecordKind(BOOT), Record(BootFields(c)))
  {
    hide BOOT, Readable;
    BootKeys();
    BootKinds();
    var f := BootFields(c);
    FieldFits(BOOT, f[0]);
    FieldFits(BOOT, f[1]);
    FieldFits(BOOT, f[2]);
    FieldFits(BOOT, f[3]);
    FieldFits(BOOT, f[4]);
    FieldFits(BOOT, f[5]);
    ConformsFieldwise(BOOT, f);
  }

  lemma BootPrintable(c: BootConfiguration)
    ensures Printable(Record(BootFields(c))) <==> BootReadable(c)
  {
    var f := BootFields(c);
    assert (PrintableAt(f, 0) <==> Readable(c.bootDevice)) && (PrintableAt(f, 1) <==> Readable(c.kernelPath)) &&
           (PrintableAt(f, 2) <==> Readable(c.initrdPath)) && (PrintableAt(f, 3) <==> Readable(c.bootArgs)) &&
           PrintableAt(f, 4) && PrintableAt(f, 5);
    PrintableFieldwise(f);
  }

  predicate NetworkReadable(c: NetworkConfiguration) {
    && Readable(c.interfaceId) && Readable(c.interfaceType) && Readable(c.macAddress)
    && Readable(c.ipAddress) && Readable(c.gateway)
  }

  lemma NetworkRestored(c: NetworkConfiguration)
    ensures NetworkOf(NetworkFields(c)) == c
  {
    var f := NetworkFields(c);
    var s0 := DEFAULT_NETWORK;
    var s1 := ApplyNetwork(s0, f[0]);
    var s2 := ApplyNetwork(s1, f[1]);
    var s3 := ApplyNetwork(s2, f[2]);
    var s4 := ApplyNetwork(s3, f[3]);
    var s5 := ApplyNetwork(s4, f[4]);
    var s6 := ApplyNetwork(s5, f[5]);
    FoldTrace(ApplyNetwork, f, [s0, s1, s2, s3, s4, s5, s6]);
  }

  lemma NetworkKeys()
    ensures Readable("interfaceId") && Readable("interfaceType") && Readable("macAddress")
    ensures Readable("enableDHCP") && Readable("ipAddress") && Readable("gateway")
  {
  }

  lemma NetworkKinds()
    ensures "interfaceId" in NETWORK && NETWORK["interfaceId"] == TextKind
    ensures "interfaceType" in NETWORK && NETWORK["interfaceType"] == TextKind
    ensures "macAddress" in NETWORK && NETWORK["macAddress"] == TextKind
    ensures "enableDHCP" in NETWORK && NETWORK["enableDHCP"] == FlagKind
    ensures "ipAddress" in NETWORK && NETWORK["ipAddress"] == TextKind
    ensures "gateway" in NETWORK && NETWORK["gateway"] == TextKind
  {
  }

  lemma NetworkConforms(c: NetworkConfiguration)
    ensures Conforms(RecordKind(NETWORK), Record(NetworkFields(c)))
  {
    hide NETWORK, Readable;
    NetworkKeys();
    NetworkKinds();
    var f := NetworkFields(c);
    FieldFits(NETWORK, f[0]);
    FieldFits(NETWORK, f[1]);
    FieldFits(NETWORK, f[2]);
    FieldFits(NETWORK, f[3]);
    FieldFits(NETWORK, f[4]);
    FieldFits(NETWORK, f[5]);
    ConformsFieldwise(NETWORK, f);
  }

  lemma NetworkPrintable(c: NetworkConfiguration)
    ensures Printable(Record(NetworkFields(c))) <==> NetworkReadable(c)
  {
    var f := NetworkFields(c);
    assert (PrintableAt(f, 0) <==> Readable(c.interfaceId)) && (PrintableAt(f, 1) <==> Readable(c.interfaceType)) &&
           (PrintableAt(f, 2) <==> Readable(c.macAddress)) && PrintableAt(f, 3) &&
           (PrintableAt(f, 4) <==> Readable(c.ipAddress)) && (PrintableAt(f, 5) <==> Readable(c.gateway));
    PrintableFieldwise(f);
  }

  // ---------- the whole configuration ----------

  predicate StoragesReadable(devices: seq<StorageConfiguration>) {
    forall i | 0 <= i < |devices| :: StorageReadable(devices[i])
  }

  predicate NetworksReadable(interfaces: seq<NetworkConfiguration>) {
    forall i | 0 <= i < |interfaces| :: NetworkReadable(interfaces[i])
  }

  /** Every string of the configuration survives escaping. */
  predicate VMReadable(c: VMConfiguration) {
    && Readable(c.name) && Readable(c.description) && Readable(c.uuid)
    && CpuReadable(c.cpu)
    && BootReadable(c.boot)
    && StoragesReadable(c.storageDevices)
    && NetworksReadable(c.networkInterfaces)
  }

  lemma {:induction false} ItemsConformEach(schema: Schema, items: seq<Value>)
    requires forall i | 0 <= i < |items| :: Conforms(RecordKind(schema), items[i])
    ensures ItemsConform(schema, items)
  {
    if items != [] {
      ItemsConformEach(schema, items[1..]);
    }
  }

  lemma {:induction false} ItemsPrintableEach(items: seq<Value>)
    ensures ItemsPrintable(items) <==> forall i | 0 <= i < |items| :: Printable(items[i])
  {
    if items != [] {
      ItemsPrintableEach(items[1..]);
      assert items == [items[0]] + items[1..];
    }
  }

  lemma StoragesFit(devices: seq<StorageConfiguration>)
    ensures ItemsConform(STORAGE, StorageItems(devices))
    ensures ItemsPrintable(StorageItems(devices)) <==> StoragesReadable(devices)
    ensures StoragesOf(StorageItems(devices)) == devices
  {
    var items := StorageItems(devices);
    forall i | 0 <= i < |devices|
      ensures Conforms(RecordKind(STORAGE), items[i])
      ensures Printable(items[i]) <==> StorageReadable(devices[i])
      ensures StorageOf(FieldsOfItem(items[i])) == devices[i]
    {
      StorageConforms(devices[i]);
      StoragePrintable(devices[i]);
      StorageRestored(devices[i]);
    }
    ItemsConformEach(STORAGE, items);
    ItemsPrintableEach(items);
  }

  lemma NetworksFit(interfaces: seq<NetworkConfiguration>)
    ensures ItemsConform(NETWORK, NetworkItems(interfaces))
    ensures ItemsPrintable(NetworkItems(interfaces)) <==> NetworksReadable(interfaces)
    ensures NetworksOf(NetworkItems(interfaces)) == interfaces
  {
    var items := NetworkItems(interfaces);
    forall i | 0 <= i < |interfaces|
      ensures Conforms(RecordKind(NETWORK), items[i])
      ensures Printable(items[i]) <==> NetworkReadable(interfaces[i])
      ensures NetworkOf(FieldsOfItem(items[i])) == interfaces[i]
    {
      NetworkConforms(interfaces[i]);
      NetworkPrintable(interfaces[i]);
      NetworkRestored(interfaces[i]);
    }
    ItemsConformEach(NETWORK, items);
    ItemsPrintableEach(items);
  }

  lemma {:induction false} FoldAppend<C>(apply: (C, Field) -> C, c: C, a: seq<Field>, b: seq<Field>)
    ensures Fold(apply, c, a + b) == Fold(apply, Fold(apply, c, a), b)
  {
    if b == [] {
      assert a + b == a;
    } else {
      FoldAppend(apply, c, a, b[..|b| - 1]);
      assert (a + b)[..|a + b| - 1] == a + b[..|b| - 1];
    }
  }

  lemma ApplyTexts(s: VMConfiguration, text: string)
    ensures ApplyVM(s, Field("name", Text(text))) == s.(name := text)
    ensures ApplyVM(s, Field("description", Text(text))) == s.(description := text)
    ensures ApplyVM(s, Field("uuid", Text(text))) == s.(uuid := text)
  {
  }

  lemma IdentificationRestored(s: VMConfiguration, c: VMConfiguration)
    ensures Fold(ApplyVM, s, IdentificationFields(c)) ==
            s.(name := c.name, description := c.description, uuid := c.uuid)
  {
    hide ApplyVM;
    var s1 := s.(name := c.name);
    var s2 := s1.(description := c.description);
    var s3 := s2.(uuid := c.uuid);
    ApplyTexts(s, c.name);
    ApplyTexts(s1, c.description);
    ApplyTexts(s2, c.uuid);
    hide Fold;
    FoldThree(ApplyVM, IdentificationFields(c), s, s1, s2, s3);
  }

  lemma ApplyRecords(s: VMConfiguration, fields: seq<Field>)
    ensures ApplyVM(s, Field("cpu", Record(fields))) == s.(cpu := CpuOf(fields))
    ensures ApplyVM(s, Field("memory", Record(fields))) == s.(memory := MemoryOf(fields))
    ensures ApplyVM(s, Field("boot", Record(fields))) == s.(boot := BootOf(fields))
  {
  }

  lemma ApplyLists(s: VMConfiguration, items: seq<Value>)
    ensures ApplyVM(s, Field("storageDevices", List(items))) ==
            s.(storageDevices := s.storageDevices + StoragesOf(items))
    ensures ApplyVM(s, Field("networkInterfaces", List(items))) ==
            s.(networkInterfaces := s.networkInterfaces + NetworksOf(items))
  {
  }

  lemma ComponentsRestored(s: VMConfiguration, c: VMConfiguration)
    requires s.storageDevices == [] && s.networkInterfaces == []
    ensures Fold(ApplyVM, s, ComponentFields(c)) ==
            s.(cpu := c.cpu, memory := c.memory, storageDevices := c.storageDevices, boot := c.boot,
               networkInterfaces := c.networkInterfaces)
  {
    hide ApplyVM, Fold, CpuFields, MemoryFields, BootFields, StorageItems, NetworkItems;
    hide CpuOf, MemoryOf, BootOf, StoragesOf, NetworksOf;
    var s1 := s.(cpu := c.cpu);
    var s2 := s1.(memory := c.memory);
    var s3 := s2.(storageDevices := c.storageDevices);
    var s4 := s3.(boot := c.boot);
    var s5 := s4.(networkInterfaces := c.networkInterfaces);
    CpuRestored(c.cpu);
    MemoryRestored(c.memory);
    BootRestored(c.boot);
    StoragesFit(c.storageDevices);
    NetworksFit(c.networkInterfaces);
    ApplyRecords(s, CpuFields(c.cpu));
    ApplyRecords(s1, MemoryFields(c.memory));
    ApplyLists(s2, StorageItems(c.storageDevices));
    ApplyRecords(s3, BootFields(c.boot));
    ApplyLists(s4, NetworkItems(c.networkInterfaces));
    assert [] + c.storageDevices == c.storageDevices && [] + c.networkInterfaces == c.networkInterfaces;
    FoldFive(ApplyVM, ComponentFields(c), s, s1, s2, s3, s4, s5);
  }

  lemma ApplyFlags(s: VMConfiguration, b: bool)
    ensures ApplyVM(s, Field("enableDebugger", Flag(b))) == s.(enableDebugger := b)
    ensures ApplyVM(s, Field("enableSnapshots", Flag(b))) == s.(enableSnapshots := b)
    ensures ApplyVM(s, Field("autoStart", Flag(b))) == s.(autoStart := b)
  {
  }

  lemma ApplyCycles(s: VMConfiguration, n: uint64)
    ensures ApplyVM(s, Field("maxCycles", Number(n))) == s.(maxCycles := n)
  {
  }

  lemma BehaviorRestored(s: VMConfiguration, c: VMConfiguration)
    ensures Fold(ApplyVM, s, BehaviorFields(c)) ==
            s.(enableDebugger := c.enableDebugger, enableSnapshots := c.enableSnapshots,
               autoStart := c.autoStart, maxCycles := c.maxCycles)
  {
    hide ApplyVM;
    var s1 := s.(enableDebugger := c.enableDebugger);
    var s2 := s1.(enableSnapshots := c.enableSnapshots);
    var s3 := s2.(autoStart := c.autoStart);
    var s4 := s3.(maxCycles := c.maxCycles);
    ApplyFlags(s, c.enableDebugger);
    ApplyFlags(s1, c.enableSnapshots);
    ApplyFlags(s2, c.autoStart);
    ApplyCycles(s3, c.maxCycles);
    hide Fold;
    FoldFour(ApplyVM, BehaviorFields(c), s, s1, s2, s3, s4);
  }

  lemma VMRestored(c: VMConfiguration)
    ensures VMOf(VMFields(c)) == c
  {
    var s1 := Fold(ApplyVM, DEFAULT_VM, IdentificationFields(c));
    var s2 := Fold(ApplyVM, s1, ComponentFields(c));
    FoldAppend(ApplyVM, DEFAULT_VM, IdentificationFields(c) + ComponentFields(c), BehaviorFields(c));
    FoldAppend(ApplyVM, DEFAULT_VM, IdentificationFields(c), ComponentFields(c));
    IdentificationRestored(DEFAULT_VM, c);
    ComponentsRestored(s1, c);
    BehaviorRestored(s2, c);
  }

  lemma {:induction false} FieldsAppend(schema: Schema, a: seq<Field>, b: seq<Field>)
    ensures FieldsConform(schema, a + b) <==> FieldsConform(schema, a) && FieldsConform(schema, b)
    ensures FieldsPrintable(a + b) <==> FieldsPrintable(a) && FieldsPrintable(b)
  {
    if a == [] {
      assert a + b == b;
    } else {
      assert (a + b)[1..] == a[1..] + b;
      FieldsAppend(schema, a[1..], b);
    }
  }

  lemma TextKeys()
    ensures Readable("name")
    ensures Readable("description")
    ensures Readable("uuid")
  {
  }

  lemma TextKinds()
    ensures "name" in VM && VM["name"] == TextKind
    ensures "description" in VM && VM["description"] == TextKind
    ensures "uuid" in VM && VM["uuid"] == TextKind
  {
    hide CPU, MEMORY, STORAGE, BOOT, NETWORK;
  }

  lemma TextFits(text: string)
    ensures FieldConforms(VM, Field("name", Text(text))) && FieldConforms(VM, Field("description", Text(text)))
    ensures FieldConforms(VM, Field("uuid", Text(text)))
  {
    hide VM, Readable;
    TextKeys();
    TextKinds();
    FieldFits(VM, Field("name", Text(text)));
    FieldFits(VM, Field("description", Text(text)));
    FieldFits(VM, Field("uuid", Text(text)));
  }

  lemma IdentificationConforms(c: VMConfiguration)
    ensures FieldsConform(VM, IdentificationFields(c))
  {
    hide FieldConforms, VM;
    TextFits(c.name);
    TextFits(c.description);
    TextFits(c.uuid);
    ConformsFieldwise(VM, IdentificationFields(c));
  }

  lemma IdentificationPrintable(c: VMConfiguration)
    ensures FieldsPrintable(IdentificationFields(c)) <==>
            Readable(c.name) && Readable(c.description) && Readable(c.uuid)
  {
    hide Readable;
    var f := IdentificationFields(c);
    assert (PrintableAt(f, 0) <==> Readable(c.name)) && (PrintableAt(f, 1) <==> Readable(c.description));
    assert PrintableAt(f, 2) <==> Readable(c.uuid);
    PrintableFieldwise(f);
  }

  lemma RecordKeys()
    ensures Readable("cpu")
    ensures Readable("memory")
    ensures Readable("boot")
  {
  }

  lemma RecordKinds()
    ensures "cpu" in VM && VM["cpu"] == RecordKind(CPU)
    ensures "memory" in VM && VM["memory"] == RecordKind(MEMORY)
    ensures "boot" in VM && VM["boot"] == RecordKind(BOOT)
  {
    hide CPU, MEMORY, STORAGE, BOOT, NETWORK;
  }

  lemma KeysOfRecords(v: Value)
    ensures Conforms(RecordKind(CPU), v) ==> FieldConforms(VM, Field("cpu", v))
    ensures Conforms(RecordKind(MEMORY), v) ==> FieldConforms(VM, Field("memory", v))
    ensures Conforms(RecordKind(BOOT), v) ==> FieldConforms(VM, Field("boot", v))
  {
    hide VM, Readable, Conforms;
    RecordKeys();
    RecordKinds();
  }

  lemma ListKeys()
    ensures Readable("storageDevices")
    ensures Readable("networkInterfaces")
  {
  }

  lemma ListKinds()
    ensures "storageDevices" in VM && VM["storageDevices"] == ListKind(STORAGE)
    ensures "networkInterfaces" in VM && VM["networkInterfaces"] == ListKind(NETWORK)
  {
    hide CPU, MEMORY, STORAGE, BOOT, NETWORK;
  }

  lemma KeysOfLists(v: Value)
    ensures Conforms(ListKind(STORAGE), v) ==> FieldConforms(VM, Field("storageDevices", v))
    ensures Conforms(ListKind(NETWORK), v) ==> FieldConforms(VM, Field("networkInterfaces", v))
  {
    hide VM, Readable, Conforms;
    ListKeys();
    ListKinds();
  }

  lemma ListConforms(schema: Schema, items: seq<Value>)
    requires ItemsConform(schema, items)
    ensures Conforms(ListKind(schema), List(items))
  {
  }

  lemma ComponentsConform(c: VMConfiguration)
    ensures FieldsConform(VM, ComponentFields(c))
  {
    hide FieldConforms, Conforms, FieldsConform;
    hide CpuFields, MemoryFields, BootFields, StorageItems, NetworkItems;
    var f := ComponentFields(c);
    CpuConforms(c.cpu);
    KeysOfRecords(f[0].value);
    MemoryConforms(c.memory);
    KeysOfRecords(f[1].value);
    StoragesFit(c.storageDevices);
    ListConforms(STORAGE, StorageItems(c.storageDevices));
    KeysOfLists(f[2].value);
    BootConforms(c.boot);
    KeysOfRecords(f[3].value);
    NetworksFit(c.networkInterfaces);
    ListConforms(NETWORK, NetworkItems(c.networkInterfaces));
    KeysOfLists(f[4].value);
    ConformsFieldwise(VM, f);
  }

  lemma ComponentsPrintable(c: VMConfiguration)
    ensures FieldsPrintable(ComponentFields(c)) <==>
            && CpuReadable(c.cpu) && BootReadable(c.boot)
            && StoragesReadable(c.storageDevices) && NetworksReadable(c.networkInterfaces)
  {
    var f := ComponentFields(c);
    assert PrintableAt(f, 0) <==> CpuReadable(c.cpu) by { CpuPrintable(c.cpu); }
    assert PrintableAt(f, 1) by { MemoryPrintable(c.memory); }
    assert PrintableAt(f, 2) <==> StoragesReadable(c.storageDevices) by { StoragesFit(c.storageDevices); }
    assert PrintableAt(f, 3) <==> BootReadable(c.boot) by { BootPrintable(c.boot); }
    assert PrintableAt(f, 4) <==> NetworksReadable(c.networkInterfaces) by { NetworksFit(c.networkInterfaces); }
    PrintableFieldwise(f);
  }

  lemma FlagKeys()
    ensures Readable("enableDebugger")
    ensures Readable("enableSnapshots")
    ensures Readable("autoStart")
  {
  }

  lemma FlagKinds()
    ensures "enableDebugger" in VM && VM["enableDebugger"] == FlagKind
    ensures "enableSnapshots" in VM && VM["enableSnapshots"] == FlagKind
    ensures "autoStart" in VM && VM["autoStart"] == FlagKind
  {
    hide CPU, MEMORY, STORAGE, BOOT, NETWORK;
  }

  lemma FlagFits(b: bool)
    ensures FieldConforms(VM, Field("enableDebugger", Flag(b))) && FieldConforms(VM, Field("enableSnapshots", Flag(b)))
    ensures FieldConforms(VM, Field("autoStart", Flag(b)))
  {
    hide VM, Readable;
    FlagKeys();
    FlagKinds();
    FieldFits(VM, Field("enableDebugger", Flag(b)));
    FieldFits(VM, Field("enableSnapshots", Flag(b)));
    FieldFits(VM, Field("autoStart", Flag(b)));
  }

  lemma CyclesFit(n: uint64)
    ensures FieldConforms(VM, Field("maxCycles", Number(n)))
  {
  }

  lemma BehaviorConforms(c: VMConfiguration)
    ensures FieldsConform(VM, BehaviorFields(c))
  {
    hide FieldConforms, VM;
    FlagFits(c.enableDebugger);
    FlagFits(c.enableSnapshots);
    FlagFits(c.autoStart);
    CyclesFit(c.maxCycles);
    ConformsFieldwise(VM, BehaviorFields(c));
  }

  lemma BehaviorPrintable(c: VMConfiguration)
    ensures FieldsPrintable(BehaviorFields(c))
  {
    var f := BehaviorFields(c);
    assert PrintableAt(f, 0) && PrintableAt(f, 1) && PrintableAt(f, 2) && PrintableAt(f, 3);
    PrintableFieldwise(f);
  }

  lemma VMFits(c: VMConfiguration)
    ensures Conforms(RecordKind(VM), Record(VMFields(c)))
    ensures Printable(Record(VMFields(c))) <==> VMReadable(c)
  {
    IdentificationConforms(c);
    IdentificationPrintable(c);
    ComponentsConform(c);
    ComponentsPrintable(c);
    BehaviorConforms(c);
    BehaviorPrintable(c);
    hide IdentificationFields, ComponentFields, BehaviorFields, VM;
    FieldsAppend(VM, IdentificationFields(c), ComponentFields(c));
    FieldsAppend(VM, IdentificationFields(c) + ComponentFields(c), BehaviorFields(c));
  }

  // ---------- the round trip ----------

  /** The text that toJson returns. */
  function ToJsonText(c: VMConfiguration): string {
    Render(Pretty(Record(VMFields(c)), 0), "")
  }

  /** What fromJson makes of a text. */
  function FromJsonText(s: string): Result<VMConfiguration> {
    var fields :- ParseObject(VM, s).Outcome();
    Success(VMOf(fields))
  }

  /** fromJson(toJson(c)) is c if every string of c survives escaping; otherwise it fails on the first
      invalid escape. There is no third case. */
  lemma RoundTrip(c: VMConfiguration)
    ensures FromJsonText(ToJsonText(c)) == if VMReadable(c) then Success(c) else Failure(InvalidEscape)
  {
    hide VM, VMFields, VMOf, VMReadable, Pretty, Conforms, Printable, Fits, Read, Render;
    var v := Record(VMFields(c));
    VMFits(c);
    VMRestored(c);
    ReadPretty(RecordKind(VM), v, 0);
    ReadValue(RecordKind(VM), "", Pretty(v, 0), "");
    assert "" + ToJsonText(c) == ToJsonText(c);
    assert ParseValue(RecordKind(VM), ToJsonText(c)) ==
           if VMReadable(c) then Ok(v, "") else Err(InvalidEscape);
  }
}
