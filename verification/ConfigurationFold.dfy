/** What the fold of fromJson amounts to: the last value of every scalar or record key, all items of
    every list key, and therefore no influence of the order of distinct keys. */
module ConfigurationFold {
  import opened Results
  import opened Words
  import opened JsonRecords
  import opened VMConfigurations

  predicate IsText(v: Value) { v.Text? }
  predicate IsNumber(v: Value) { v.Number? }
  predicate IsFlag(v: Value) { v.Flag? }
  predicate IsRecord(v: Value) { v.Record? }
  predicate IsList(v: Value) { v.List? }

  /** The value of the last field with the key and a value of the type that the key asks for. */
  function Last(fields: seq<Field>, key: string, fits: Value -> bool): (r: Option<Value>)
    ensures r.Some? ==> fits(r.value) && Field(key, r.value) in fields
    ensures r.None? ==> forall f <- fields :: f.key == key ==> !fits(f.value)
  {
    if fields == [] then None
    else
      var f := fields[|fields| - 1];
      if f.key == key && fits(f.value) then Some(f.value) else Last(fields[..|fields| - 1], key, fits)
  }

  function TextOr(v: Option<Value>, default: string): string {
    if v.Some? && v.value.Text? then v.value.text else default
  }

  function NumberOr(v: Option<Value>, default: uint64): uint64 {
    if v.Some? && v.value.Number? then Wrap(v.value.n) else default
  }

  function SmallOr(v: Option<Value>, default: uint32): uint32 {
    if v.Some? && v.value.Number? then ToUint32(v.value.n) else default
  }

  function FlagOr(v: Option<Value>, default: bool): bool {
    if v.Some? && v.value.Flag? then v.value.b else default
  }

  function RecordOrNone(v: Option<Value>): seq<Field> {
    if v.Some? && v.value.Record? then v.value.fields else []
  }

  /** The items of all lists with the key, in order. */
  function AllItems(fields: seq<Field>, key: string): seq<Value> {
    if fields == [] then []
    else
      var f := fields[|fields| - 1];
      AllItems(fields[..|fields| - 1], key) + (if f.key == key && f.value.List? then f.value.items else [])
  }

  // ---------- the components, one by one ----------

  lemma ApplyName(c: VMConfiguration, f: Field)
    ensures ApplyVM(c, f).name == if f.key == "name" && f.value.Text? then f.value.text else c.name
  {
    hide CpuOf, MemoryOf, BootOf, StoragesOf, NetworksOf;
  }

  lemma ApplyDescription(c: VMConfiguration, f: Field)
    ensures ApplyVM(c, f).description == if f.key == "description" && f.value.Text? then f.value.text else c.description
  {
    hide CpuOf, MemoryOf, BootOf, StoragesOf, NetworksOf;
  }

  lemma ApplyUuid(c: VMConfiguration, f: Field)
    ensures ApplyVM(c, f).uuid == if f.key == "uuid" && f.value.Text? then f.value.text else c.uuid
  {
    hide CpuOf, MemoryOf, BootOf, StoragesOf, NetworksOf;
  }

  lemma ApplyCpuField(c: VMConfiguration, f: Field)
    ensures ApplyVM(c, f).cpu == if f.key == "cpu" && f.value.Record? then CpuOf(f.value.fields) else c.cpu
  {
    hide CpuOf, MemoryOf, BootOf, StoragesOf, NetworksOf;
  }

  lemma ApplyMemoryField(c: VMConfiguration, f: Field)
    ensures ApplyVM(c, f).memory == if f.key == "memory" && f.value.Record? then MemoryOf(f.value.fields) else c.memory
  {
    hide CpuOf, MemoryOf, BootOf, StoragesOf, NetworksOf;
  }

  lemma ApplyBootField(c: VMConfiguration, f: Field)
    ensures ApplyVM(c, f).boot == if f.key == "boot" && f.value.Record? then BootOf(f.value.fields) else c.boot
  {
    hide CpuOf, MemoryOf, BootOf, StoragesOf, NetworksOf;
  }

  lemma ApplyStorageList(c: VMConfiguration, f: Field)
    ensures ApplyVM(c, f).storageDevices ==
            if f.key == "storageDevices" && f.value.List? then c.storageDevices + StoragesOf(f.value.items)
            else c.storageDevices
  {
    hide CpuOf, MemoryOf, BootOf, StoragesOf, NetworksOf;
  }

  lemma ApplyNetworkList(c: VMConfiguration, f: Field)
    ensures ApplyVM(c, f).networkInterfaces ==
            if f.key == "networkInterfaces" && f.value.List? then c.networkInterfaces + NetworksOf(f.value.items)
            else c.networkInterfaces
  {
    hide CpuOf, MemoryOf, BootOf, StoragesOf, NetworksOf;
  }

  lemma ApplyDebugger(c: VMConfiguration, f: Field)
    ensures ApplyVM(c, f).enableDebugger ==
            if f.key == "enableDebugger" && f.value.Flag? then f.value.b else c.enableDebugger
  {
    hide CpuOf, MemoryOf, BootOf, StoragesOf, NetworksOf;
  }

  lemma ApplySnapshots(c: VMConfiguration, f: Field)
    ensures ApplyVM(c, f).enableSnapshots ==
            if f.key == "enableSnapshots" && f.value.Flag? then f.value.b else c.enableSnapshots
  {
    hide CpuOf, MemoryOf, BootOf, StoragesOf, NetworksOf;
  }

  lemma ApplyAutoStart(c: VMConfiguration, f: Field)
    ensures ApplyVM(c, f).autoStart == if f.key == "autoStart" && f.value.Flag? then f.value.b else c.autoStart
  {
    hide CpuOf, MemoryOf, BootOf, StoragesOf, NetworksOf;
  }

  lemma ApplyMaxCycles(c: VMConfiguration, f: Field)
    ensures ApplyVM(c, f).maxCycles == if f.key == "maxCycles" && f.value.Number? then Wrap(f.value.n) else c.maxCycles
  {
    hide CpuOf, MemoryOf, BootOf, StoragesOf, NetworksOf;
  }

  lemma {:induction false} TextsAreLast(fields: seq<Field>)
    ensures VMOf(fields).name == TextOr(Last(fields, "name", IsText), "vm")
    ensures VMOf(fields).description == TextOr(Last(fields, "description", IsText), "")
    ensures VMOf(fields).uuid == TextOr(Last(fields, "uuid", IsText), "")
  {
    hide ApplyVM;
    if fields != [] {
      var init, f := fields[..|fields| - 1], fields[|fields| - 1];
      TextsAreLast(init);
      ApplyName(VMOf(init), f);
      ApplyDescription(VMOf(init), f);
      ApplyUuid(VMOf(init), f);
    }
  }

  lemma {:induction false} SettingsAreLast(fields: seq<Field>)
    ensures VMOf(fields).enableDebugger == FlagOr(Last(fields, "enableDebugger", IsFlag), false)
    ensures VMOf(fields).enableSnapshots == FlagOr(Last(fields, "enableSnapshots", IsFlag), true)
    ensures VMOf(fields).autoStart == FlagOr(Last(fields, "autoStart", IsFlag), false)
    ensures VMOf(fields).maxCycles == NumberOr(Last(fields, "maxCycles", IsNumber), 0)
  {
    hide ApplyVM;
    if fields != [] {
      var init, f := fields[..|fields| - 1], fields[|fields| - 1];
      SettingsAreLast(init);
      ApplyDebugger(VMOf(init), f);
      ApplySnapshots(VMOf(init), f);
      ApplyAutoStart(VMOf(init), f);
      ApplyMaxCycles(VMOf(init), f);
    }
  }

  lemma {:induction false} RecordsAreLast(fields: seq<Field>)
    ensures VMOf(fields).cpu == CpuOf(RecordOrNone(Last(fields, "cpu", IsRecord)))
    ensures VMOf(fields).memory == MemoryOf(RecordOrNone(Last(fields, "memory", IsRecord)))
    ensures VMOf(fields).boot == BootOf(RecordOrNone(Last(fields, "boot", IsRecord)))
  {
    if fields == [] {
    } else {
      hide ApplyVM, CpuOf, MemoryOf, BootOf;
      var init, f := fields[..|fields| - 1], fields[|fields| - 1];
      RecordsAreLast(init);
      ApplyCpuField(VMOf(init), f);
      ApplyMemoryField(VMOf(init), f);
      ApplyBootField(VMOf(init), f);
    }
  }

  lemma ListsAppend(a: seq<Value>, b: seq<Value>)
    ensures StoragesOf(a + b) == StoragesOf(a) + StoragesOf(b)
    ensures NetworksOf(a + b) == NetworksOf(a) + NetworksOf(b)
  {
  }

  lemma {:induction false} ListsConcatenate(fields: seq<Field>)
    ensures VMOf(fields).storageDevices == StoragesOf(AllItems(fields, "storageDevices"))
    ensures VMOf(fields).networkInterfaces == NetworksOf(AllItems(fields, "networkInterfaces"))
  {
    if fields == [] {
    } else {
      hide ApplyVM, StoragesOf, NetworksOf;
      var init, f := fields[..|fields| - 1], fields[|fields| - 1];
      var a, b := AllItems(init, "storageDevices"), AllItems(init, "networkInterfaces");
      ListsConcatenate(init);
      ApplyStorageList(VMOf(init), f);
      ApplyNetworkList(VMOf(init), f);
      assert a + [] == a && b + [] == b;
      if f.value.List? {
        ListsAppend(a, f.value.items);
        ListsAppend(b, f.value.items);
      }
    }
  }

  /** The configuration that fromJson returns, component by component. */
  lemma FoldIsLastWins(fields: seq<Field>)
    ensures VMOf(fields) == VMConfiguration(
      TextOr(Last(fields, "name", IsText), "vm"),
      TextOr(Last(fields, "description", IsText), ""),
      TextOr(Last(fields, "uuid", IsText), ""),
      CpuOf(RecordOrNone(Last(fields, "cpu", IsRecord))),
      MemoryOf(RecordOrNone(Last(fields, "memory", IsRecord))),
      StoragesOf(AllItems(fields, "storageDevices")),
      BootOf(RecordOrNone(Last(fields, "boot", IsRecord))),
      NetworksOf(AllItems(fields, "networkInterfaces")),
      FlagOr(Last(fields, "enableDebugger", IsFlag), false),
      FlagOr(Last(fields, "enableSnapshots", IsFlag), true),
      FlagOr(Last(fields, "autoStart", IsFlag), false),
      NumberOr(Last(fields, "maxCycles", IsNumber), 0))
  {
    TextsAreLast(fields);
    SettingsAreLast(fields);
    RecordsAreLast(fields);
    ListsConcatenate(fields);
  }

  // ---------- the records inside ----------

  lemma {:induction false} CpuIsLastWins(fields: seq<Field>)
    ensures CpuOf(fields) == CpuConfiguration(
      TextOr(Last(fields, "isaType", IsText), "IA-64"),
      NumberOr(Last(fields, "cpuCount", IsNumber), 1),
      NumberOr(Last(fields, "clockFrequency", IsNumber), 0),
      FlagOr(Last(fields, "enableProfiling", IsFlag), false))
  {
    if fields != [] {
      CpuIsLastWins(fields[..|fields| - 1]);
    }
  }

  lemma {:induction false} MemoryIsLastWins(fields: seq<Field>)
    ensures MemoryOf(fields) == MemoryConfiguration(
      NumberOr(Last(fields, "memorySize", IsNumber), 16 * 1024 * 1024),
      FlagOr(Last(fields, "enableMMU", IsFlag), true),
      FlagOr(Last(fields, "enablePaging", IsFlag), false),
      NumberOr(Last(fields, "pageSize", IsNumber), 4096))
  {
    if fields != [] {
      MemoryIsLastWins(fields[..|fields| - 1]);
    }
  }

  lemma StorageApplied(c: StorageConfiguration, f: Field)
    ensures ApplyStorage(c, f) == StorageConfiguration(
      if f.key == "deviceId" && f.value.Text? then f.value.text else c.deviceId,
      if f.key == "deviceType" && f.value.Text? then f.value.text else c.deviceType,
      if f.key == "imagePath" && f.value.Text? then f.value.text else c.imagePath,
      if f.key == "readOnly" && f.value.Flag? then f.value.b else c.readOnly,
      if f.key == "sizeBytes" && f.value.Number? then Wrap(f.value.n) else c.sizeBytes,
      if f.key == "blockSize" && f.value.Number? then ToUint32(f.value.n) else c.blockSize)
  {
  }

  /** The cut to 32 bits gives the one number below 2^32 that is congruent to the number written. */
  lemma CutIsTheCongruent(n: int, r: uint32)
    ensures r == ToUint32(n) <==> (n - r) % 0x1_0000_0000 == 0
  {
  }

  /** The block size of a device: congruent to the last number written, and as wide as its field. */
  lemma BlockSizeIsCongruent(fields: seq<Field>)
    ensures 0 <= StorageOf(fields).blockSize < 0x1_0000_0000
    ensures var last := Last(fields, "blockSize", IsNumber);
            if last.Some? then (last.value.n - StorageOf(fields).blockSize) % 0x1_0000_0000 == 0
            else StorageOf(fields).blockSize == 512
  {
    StorageIsLastWins(fields);
    hide StorageOf, Last;
    var last := Last(fields, "blockSize", IsNumber);
    if last.Some? {
      CutIsTheCongruent(last.value.n, StorageOf(fields).blockSize);
    }
  }

  lemma {:induction false} StorageIsLastWins(fields: seq<Field>)
    ensures StorageOf(fields) == StorageConfiguration(
      TextOr(Last(fields, "deviceId", IsText), "disk0"),
      TextOr(Last(fields, "deviceType", IsText), "raw"),
      TextOr(Last(fields, "imagePath", IsText), ""),
      FlagOr(Last(fields, "readOnly", IsFlag), false),
      NumberOr(Last(fields, "sizeBytes", IsNumber), 0),
      SmallOr(Last(fields, "blockSize", IsNumber), 512))
  {
    if fields != [] {
      hide ApplyStorage;
      var init, f := fields[..|fields| - 1], fields[|fields| - 1];
      StorageIsLastWins(init);
      StorageApplied(StorageOf(init), f);
    }
  }

  lemma BootApplied(c: BootConfiguration, f: Field)
    ensures ApplyBoot(c, f) == BootConfiguration(
      if f.key == "bootDevice" && f.value.Text? then f.value.text else c.bootDevice,
      if f.key == "kernelPath" && f.value.Text? then f.value.text else c.kernelPath,
      if f.key == "initrdPath" && f.value.Text? then f.value.text else c.initrdPath,
      if f.key == "bootArgs" && f.value.Text? then f.value.text else c.bootArgs,
      if f.key == "entryPoint" && f.value.Number? then Wrap(f.value.n) else c.entryPoint,
      if f.key == "directBoot" && f.value.Flag? then f.value.b else c.directBoot)
  {
  }

  lemma {:induction false} BootIsLastWins(fields: seq<Field>)
    ensures BootOf(fields) == BootConfiguration(
      TextOr(Last(fields, "bootDevice", IsText), "disk0"),
      TextOr(Last(fields, "kernelPath", IsText), ""),
      TextOr(Last(fields, "initrdPath", IsText), ""),
      TextOr(Last(fields, "bootArgs", IsText), ""),
      NumberOr(Last(fields, "entryPoint", IsNumber), 0),
      FlagOr(Last(fields, "directBoot", IsFlag), false))
  {
    if fields != [] {
      hide ApplyBoot;
      var init, f := fields[..|fields| - 1], fields[|fields| - 1];
      BootIsLastWins(init);
      BootApplied(BootOf(init), f);
    }
  }

  lemma NetworkApplied(c: NetworkConfiguration, f: Field)
    ensures ApplyNetwork(c, f) == NetworkConfiguration(
      if f.key == "interfaceId" && f.value.Text? then f.value.text else c.interfaceId,
      if f.key == "interfaceType" && f.value.Text? then f.value.text else c.interfaceType,
      if f.key == "macAddress" && f.value.Text? then f.value.text else c.macAddress,
      if f.key == "enableDHCP" && f.value.Flag? then f.value.b else c.enableDHCP,
      if f.key == "ipAddress" && f.value.Text? then f.value.text else c.ipAddress,
      if f.key == "gateway" && f.value.Text? then f.value.text else c.gateway)
  {
  }

  lemma {:induction false} NetworkIsLastWins(fields: seq<Field>)
    ensures NetworkOf(fields) == NetworkConfiguration(
      TextOr(Last(fields, "interfaceId", IsText), "eth0"),
      TextOr(Last(fields, "interfaceType", IsText), "user"),
      TextOr(Last(fields, "macAddress", IsText), ""),
      FlagOr(Last(fields, "enableDHCP", IsFlag), true),
      TextOr(Last(fields, "ipAddress", IsText), ""),
      TextOr(Last(fields, "gateway", IsText), ""))
  {
    if fields != [] {
      hide ApplyNetwork;
      var init, f := fields[..|fields| - 1], fields[|fields| - 1];
      NetworkIsLastWins(init);
      NetworkApplied(NetworkOf(init), f);
    }
  }

  // ---------- the order of distinct keys ----------

  predicate DistinctKeys(fields: seq<Field>) {
    forall i, j | 0 <= i < j < |fields| :: fields[i].key != fields[j].key
  }

  /** The same fields in another order, no key twice. */
  predicate Permuted(a: seq<Field>, b: seq<Field>) {
    DistinctKeys(a) && DistinctKeys(b) && multiset(a) == multiset(b)
  }

  lemma {:induction false} LastOfDistinct(fields: seq<Field>, key: string, v: Value, fits: Value -> bool)
    requires DistinctKeys(fields) && Field(key, v) in fields && fits(v)
    ensures Last(fields, key, fits) == Some(v)
  {
    var n := |fields| - 1;
    if fields[n].key == key {
      var i :| 0 <= i <= n && fields[i] == Field(key, v);
    } else {
      assert fields == fields[..n] + [fields[n]];
      LastOfDistinct(fields[..n], key, v, fits);
    }
  }

  lemma PermutedLast(a: seq<Field>, b: seq<Field>, key: string, fits: Value -> bool)
    requires Permuted(a, b)
    ensures Last(a, key, fits) == Last(b, key, fits)
  {
    assert forall f :: f in a <==> f in multiset(a);
    assert forall f :: f in b <==> f in multiset(b);
    match Last(a, key, fits)
    case Some(v) => LastOfDistinct(b, key, v, fits);
    case None =>
  }

  lemma {:induction false} ItemsOfDistinct(fields: seq<Field>, key: string)
    requires DistinctKeys(fields)
    ensures AllItems(fields, key) ==
            match Last(fields, key, IsList) case Some(v) => (if v.List? then v.items else []) case None => []
  {
    if fields != [] {
      var n := |fields| - 1;
      ItemsOfDistinct(fields[..n], key);
      if fields[n].key == key && fields[n].value.List? {
        assert Last(fields[..n], key, IsList).None?;
        assert [] + fields[n].value.items == fields[n].value.items;
      } else {
        assert AllItems(fields[..n], key) + [] == AllItems(fields[..n], key);
      }
    }
  }

  lemma PermutedItems(a: seq<Field>, b: seq<Field>, key: string)
    requires Permuted(a, b)
    ensures AllItems(a, key) == AllItems(b, key)
  {
    PermutedLast(a, b, key, IsList);
    ItemsOfDistinct(a, key);
    ItemsOfDistinct(b, key);
  }

  /** Fields with distinct keys can come in any order. */
  lemma OrderIsIrrelevant(a: seq<Field>, b: seq<Field>)
    requires Permuted(a, b)
    ensures VMOf(a) == VMOf(b)
  {
    hide VMOf, Last, AllItems, CpuOf, MemoryOf, BootOf, StoragesOf, NetworksOf;
    FoldIsLastWins(a);
    FoldIsLastWins(b);
    PermutedLast(a, b, "name", IsText);
    PermutedLast(a, b, "description", IsText);
    PermutedLast(a, b, "uuid", IsText);
    PermutedLast(a, b, "cpu", IsRecord);
    PermutedLast(a, b, "memory", IsRecord);
    PermutedItems(a, b, "storageDevices");
    PermutedLast(a, b, "boot", IsRecord);
    PermutedItems(a, b, "networkInterfaces");
    PermutedLast(a, b, "enableDebugger", IsFlag);
    PermutedLast(a, b, "enableSnapshots", IsFlag);
    PermutedLast(a, b, "autoStart", IsFlag);
    PermutedLast(a, b, "maxCycles", IsNumber);
  }

  /** The same for the records inside. */
  lemma PermutedCpu(a: seq<Field>, b: seq<Field>)
    requires Permuted(a, b)
    ensures CpuOf(a) == CpuOf(b)
  {
    hide CpuOf, Last, Permuted;
    CpuIsLastWins(a);
    CpuIsLastWins(b);
    PermutedLast(a, b, "isaType", IsText);
    PermutedLast(a, b, "cpuCount", IsNumber);
    PermutedLast(a, b, "clockFrequency", IsNumber);
    PermutedLast(a, b, "enableProfiling", IsFlag);
  }

  lemma PermutedMemory(a: seq<Field>, b: seq<Field>)
    requires Permuted(a, b)
    ensures MemoryOf(a) == MemoryOf(b)
  {
    hide MemoryOf, Last, Permuted;
    MemoryIsLastWins(a);
    MemoryIsLastWins(b);
    PermutedLast(a, b, "memorySize", IsNumber);
    PermutedLast(a, b, "enableMMU", IsFlag);
    PermutedLast(a, b, "enablePaging", IsFlag);
    PermutedLast(a, b, "pageSize", IsNumber);
  }

  lemma PermutedStorage(a: seq<Field>, b: seq<Field>)
    requires Permuted(a, b)
    ensures StorageOf(a) == StorageOf(b)
  {
    hide StorageOf, Last, Permuted;
    StorageIsLastWins(a);
    StorageIsLastWins(b);
    PermutedLast(a, b, "deviceId", IsText);
    PermutedLast(a, b, "deviceType", IsText);
    PermutedLast(a, b, "imagePath", IsText);
    PermutedLast(a, b, "readOnly", IsFlag);
    PermutedLast(a, b, "sizeBytes", IsNumber);
    PermutedLast(a, b, "blockSize", IsNumber);
  }

  lemma PermutedBoot(a: seq<Field>, b: seq<Field>)
    requires Permuted(a, b)
    ensures BootOf(a) == BootOf(b)
  {
    hide BootOf, Last, Permuted;
    BootIsLastWins(a);
    BootIsLastWins(b);
    PermutedLast(a, b, "bootDevice", IsText);
    PermutedLast(a, b, "kernelPath", IsText);
    PermutedLast(a, b, "initrdPath", IsText);
    PermutedLast(a, b, "bootArgs", IsText);
    PermutedLast(a, b, "entryPoint", IsNumber);
    PermutedLast(a, b, "directBoot", IsFlag);
  }

  lemma PermutedNetwork(a: seq<Field>, b: seq<Field>)
    requires Permuted(a, b)
    ensures NetworkOf(a) == NetworkOf(b)
  {
    hide NetworkOf, Last, Permuted;
    NetworkIsLastWins(a);
    NetworkIsLastWins(b);
    PermutedLast(a, b, "interfaceId", IsText);
    PermutedLast(a, b, "interfaceType", IsText);
    PermutedLast(a, b, "macAddress", IsText);
    PermutedLast(a, b, "enableDHCP", IsFlag);
    PermutedLast(a, b, "ipAddress", IsText);
    PermutedLast(a, b, "gateway", IsText);
  }
}
