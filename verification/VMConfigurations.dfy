/** The configuration records of include/VMConfiguration.h as values: their defaults, their keys, and
    the fold that their fromJson loops compute. */
module VMConfigurations {
  import opened Words
  import opened JsonRecords

  /** static_cast<uint32_t>. */
  function ToUint32(n: int): uint32 {
    n % 0x1_0000_0000
  }

  /** The left fold of the fields over a configuration. */
  function Fold<C>(apply: (C, Field) -> C, c: C, fields: seq<Field>): C {
    if fields == [] then c
    else apply(Fold(apply, c, fields[..|fields| - 1]), fields[|fields| - 1])
  }

  lemma FoldOneMore<C>(apply: (C, Field) -> C, c: C, fields: seq<Field>, f: Field)
    ensures Fold(apply, c, fields + [f]) == apply(Fold(apply, c, fields), f)
  {
    assert (fields + [f])[..|fields|] == fields;
  }

  datatype CpuConfiguration = CpuConfiguration(
    isaType: string,
    cpuCount: uint64,
    clockFrequency: uint64,
    enableProfiling: bool)

  const DEFAULT_CPU := CpuConfiguration("IA-64", 1, 0, false)

  const CPU: Schema := map[
    "isaType" := TextKind,
    "cpuCount" := NumberKind,
    "clockFrequency" := NumberKind,
    "enableProfiling" := FlagKind]

  function CpuFields(c: CpuConfiguration): seq<Field> {
    [ Field("isaType", Text(c.isaType)),
      Field("cpuCount", Number(c.cpuCount)),
      Field("clockFrequency", Number(c.clockFrequency)),
      Field("enableProfiling", Flag(c.enableProfiling)) ]
  }

  function ApplyCpu(c: CpuConfiguration, f: Field): CpuConfiguration {
    if f.key == "isaType" && f.value.Text? then c.(isaType := f.value.text)
    else if f.key == "cpuCount" && f.value.Number? then c.(cpuCount := Wrap(f.value.n))
    else if f.key == "clockFrequency" && f.value.Number? then c.(clockFrequency := Wrap(f.value.n))
    else if f.key == "enableProfiling" && f.value.Flag? then c.(enableProfiling := f.value.b)
    else c
  }

  function CpuOf(fields: seq<Field>): CpuConfiguration {
    Fold(ApplyCpu, DEFAULT_CPU, fields)
  }

  datatype MemoryConfiguration = MemoryConfiguration(
    memorySize: uint64,
    enableMMU: bool,
    enablePaging: bool,
    pageSize: uint64)

  const DEFAULT_MEMORY := MemoryConfiguration(16 * 1024 * 1024, true, false, 4096)

  const MEMORY: Schema := map[
    "memorySize" := NumberKind,
    "enableMMU" := FlagKind,
    "enablePaging" := FlagKind,
    "pageSize" := NumberKind]

  function MemoryFields(c: MemoryConfiguration): seq<Field> {
    [ Field("memorySize", Number(c.memorySize)),
      Field("enableMMU", Flag(c.enableMMU)),
      Field("enablePaging", Flag(c.enablePaging)),
      Field("pageSize", Number(c.pageSize)) ]
  }

  function ApplyMemory(c: MemoryConfiguration, f: Field): MemoryConfiguration {
    if f.key == "memorySize" && f.value.Number? then c.(memorySize := Wrap(f.value.n))
    else if f.key == "enableMMU" && f.value.Flag? then c.(enableMMU := f.value.b)
    else if f.key == "enablePaging" && f.value.Flag? then c.(enablePaging := f.value.b)
    else if f.key == "pageSize" && f.value.Number? then c.(pageSize := Wrap(f.value.n))
    else c
  }

  function MemoryOf(fields: seq<Field>): MemoryConfiguration {
    Fold(ApplyMemory, DEFAULT_MEMORY, fields)
  }

  datatype StorageConfiguration = StorageConfiguration(
    deviceId: string,
    deviceType: string,
    imagePath: string,
    readOnly: bool,
    sizeBytes: uint64,
    blockSize: uint32)

  const DEFAULT_STORAGE := StorageConfiguration("disk0", "raw", "", false, 0, 512)

  const STORAGE: Schema := map[
    "deviceId" := TextKind,
    "deviceType" := TextKind,
    "imagePath" := TextKind,
    "readOnly" := FlagKind,
    "sizeBytes" := NumberKind,
    "blockSize" := NumberKind]

  function StorageFields(c: StorageConfiguration): seq<Field> {
    [ Field("deviceId", Text(c.deviceId)),
      Field("deviceType", Text(c.deviceType)),
      Field("imagePath", Text(c.imagePath)),
      Field("readOnly", Flag(c.readOnly)),
      Field("sizeBytes", Number(c.sizeBytes)),
      Field("blockSize", Number(c.blockSize)) ]
  }

  function ApplyStorage(c: StorageConfiguration, f: Field): StorageConfiguration {
    if f.key == "deviceId" && f.value.Text? then c.(deviceId := f.value.text)
    else if f.key == "deviceType" && f.value.Text? then c.(deviceType := f.value.text)
    else if f.key == "imagePath" && f.value.Text? then c.(imagePath := f.value.text)
    else if f.key == "readOnly" && f.value.Flag? then c.(readOnly := f.value.b)
    else if f.key == "sizeBytes" && f.value.Number? then c.(sizeBytes := Wrap(f.value.n))
    else if f.key == "blockSize" && f.value.Number? then c.(blockSize := ToUint32(f.value.n))
    else c
  }

  function StorageOf(fields: seq<Field>): StorageConfiguration {
    Fold(ApplyStorage, DEFAULT_STORAGE, fields)
  }

  datatype BootConfiguration = BootConfiguration(
    bootDevice: string,
    kernelPath: string,
    initrdPath: string,
    bootArgs: string,
    entryPoint: uint64,
    directBoot: bool)

  const DEFAULT_BOOT := BootConfiguration("disk0", "", "", "", 0, false)

  const BOOT: Schema := map[
    "bootDevice" := TextKind,
    "kernelPath" := TextKind,
    "initrdPath" := TextKind,
    "bootArgs" := TextKind,
    "entryPoint" := NumberKind,
    "directBoot" := FlagKind]

  function BootFields(c: BootConfiguration): seq<Field> {
    [ Field("bootDevice", Text(c.bootDevice)),
      Field("kernelPath", Text(c.kernelPath)),
      Field("initrdPath", Text(c.initrdPath)),
      Field("bootArgs", Text(c.bootArgs)),
      Field("entryPoint", Number(c.entryPoint)),
      Field("directBoot", Flag(c.directBoot)) ]
  }

  function ApplyBoot(c: BootConfiguration, f: Field): BootConfiguration {
    if f.key == "bootDevice" && f.value.Text? then c.(bootDevice := f.value.text)
    else if f.key == "kernelPath" && f.value.Text? then c.(kernelPath := f.value.text)
    else if f.key == "initrdPath" && f.value.Text? then c.(initrdPath := f.value.text)
    else if f.key == "bootArgs" && f.value.Text? then c.(bootArgs := f.value.text)
    else if f.key == "entryPoint" && f.value.Number? then c.(entryPoint := Wrap(f.value.n))
    else if f.key == "directBoot" && f.value.Flag? then c.(directBoot := f.value.b)
    else c
  }

  function BootOf(fields: seq<Field>): BootConfiguration {
    Fold(ApplyBoot, DEFAULT_BOOT, fields)
  }

  datatype NetworkConfiguration = NetworkConfiguration(
    interfaceId: string,
    interfaceType: string,
    macAddress: string,
    enableDHCP: bool,
    ipAddress: string,
    gateway: string)

  const DEFAULT_NETWORK := NetworkConfiguration("eth0", "user", "", true, "", "")

  const NETWORK: Schema := map[
    "interfaceId" := TextKind,
    "interfaceType" := TextKind,
    "macAddress" := TextKind,
    "enableDHCP" := FlagKind,
    "ipAddress" := TextKind,
    "gateway" := TextKind]

  function NetworkFields(c: NetworkConfiguration): seq<Field> {
    [ Field("interfaceId", Text(c.interfaceId)),
      Field("interfaceType", Text(c.interfaceType)),
      Field("macAddress", Text(c.macAddress)),
      Field("enableDHCP", Flag(c.enableDHCP)),
      Field("ipAddress", Text(c.ipAddress)),
      Field("gateway", Text(c.gateway)) ]
  }

  function ApplyNetwork(c: NetworkConfiguration, f: Field): NetworkConfiguration {
    if f.key == "interfaceId" && f.value.Text? then c.(interfaceId := f.value.text)
    else if f.key == "interfaceType" && f.value.Text? then c.(interfaceType := f.value.text)
    else if f.key == "macAddress" && f.value.Text? then c.(macAddress := f.value.text)
    else if f.key == "enableDHCP" && f.value.Flag? then c.(enableDHCP := f.value.b)
    else if f.key == "ipAddress" && f.value.Text? then c.(ipAddress := f.value.text)
    else if f.key == "gateway" && f.value.Text? then c.(gateway := f.value.text)
    else c
  }

  function NetworkOf(fields: seq<Field>): NetworkConfiguration {
    Fold(ApplyNetwork, DEFAULT_NETWORK, fields)
  }
  datatype VMConfiguration = VMConfiguration(
    name: string,
    description: string,
    uuid: string,
    cpu: CpuConfiguration,
    memory: MemoryConfiguration,
    storageDevices: seq<StorageConfiguration>,
    boot: BootConfiguration,
    networkInterfaces: seq<NetworkConfiguration>,
    enableDebugger: bool,
    enableSnapshots: bool,
    autoStart: bool,
    maxCycles: uint64)

  const DEFAULT_VM :=
    VMConfiguration("vm", "", "", DEFAULT_CPU, DEFAULT_MEMORY, [], DEFAULT_BOOT, [], false, true, false, 0)

  const VM: Schema := map[
    "name" := TextKind,
    "description" := TextKind,
    "uuid" := TextKind,
    "cpu" := RecordKind(CPU),
    "memory" := RecordKind(MEMORY),
    "storageDevices" := ListKind(STORAGE),
    "boot" := RecordKind(BOOT),
    "networkInterfaces" := ListKind(NETWORK),
    "enableDebugger" := FlagKind,
    "enableSnapshots" := FlagKind,
    "autoStart" := FlagKind,
    "maxCycles" := NumberKind]

  function StorageItems(devices: seq<StorageConfiguration>): seq<Value> {
    seq(|devices|, i requires 0 <= i < |devices| => Record(StorageFields(devices[i])))
  }

  function NetworkItems(interfaces: seq<NetworkConfiguration>): seq<Value> {
    seq(|interfaces|, i requires 0 <= i < |interfaces| => Record(NetworkFields(interfaces[i])))
  }

  function IdentificationFields(c: VMConfiguration): seq<Field> {
    [ Field("name", Text(c.name)),
      Field("description", Text(c.description)),
      Field("uuid", Text(c.uuid)) ]
  }

  function ComponentFields(c: VMConfiguration): seq<Field> {
    [ Field("cpu", Record(CpuFields(c.cpu))),
      Field("memory", Record(MemoryFields(c.memory))),
      Field("storageDevices", List(StorageItems(c.storageDevices))),
      Field("boot", Record(BootFields(c.boot))),
      Field("networkInterfaces", List(NetworkItems(c.networkInterfaces))) ]
  }

  function BehaviorFields(c: VMConfiguration): seq<Field> {
    [ Field("enableDebugger", Flag(c.enableDebugger)),
      Field("enableSnapshots", Flag(c.enableSnapshots)),
      Field("autoStart", Flag(c.autoStart)),
      Field("maxCycles", Number(c.maxCycles)) ]
  }

  /** All fields in the order of toJson. */
  function VMFields(c: VMConfiguration): seq<Field> {
    IdentificationFields(c) + ComponentFields(c) + BehaviorFields(c)
  }

  function FieldsOfItem(item: Value): seq<Field> {
    if item.Record? then item.fields else []
  }

  function StoragesOf(items: seq<Value>): seq<StorageConfiguration> {
    seq(|items|, i requires 0 <= i < |items| => StorageOf(FieldsOfItem(items[i])))
  }

  function NetworksOf(items: seq<Value>): seq<NetworkConfiguration> {
    seq(|items|, i requires 0 <= i < |items| => NetworkOf(FieldsOfItem(items[i])))
  }

  function ApplyVM(c: VMConfiguration, f: Field): VMConfiguration {
    if f.key == "name" && f.value.Text? then c.(name := f.value.text)
    else if f.key == "description" && f.value.Text? then c.(description := f.value.text)
    else if f.key == "uuid" && f.value.Text? then c.(uuid := f.value.text)
    else if f.key == "cpu" && f.value.Record? then c.(cpu := CpuOf(f.value.fields))
    else if f.key == "memory" && f.value.Record? then c.(memory := MemoryOf(f.value.fields))
    else if f.key == "storageDevices" && f.value.List? then
      c.(storageDevices := c.storageDevices + StoragesOf(f.value.items))
    else if f.key == "boot" && f.value.Record? then c.(boot := BootOf(f.value.fields))
    else if f.key == "networkInterfaces" && f.value.List? then
      c.(networkInterfaces := c.networkInterfaces + NetworksOf(f.value.items))
    else if f.key == "enableDebugger" && f.value.Flag? then c.(enableDebugger := f.value.b)
    else if f.key == "enableSnapshots" && f.value.Flag? then c.(enableSnapshots := f.value.b)
    else if f.key == "autoStart" && f.value.Flag? then c.(autoStart := f.value.b)
    else if f.key == "maxCycles" && f.value.Number? then c.(maxCycles := Wrap(f.value.n))
    else c
  }

  function VMOf(fields: seq<Field>): VMConfiguration {
    Fold(ApplyVM, DEFAULT_VM, fields)
  }
}
