/** The placement of the EFI hand-off region, include/IA64EfiHandoffLayout.h, over 64-bit machine words. */
module EfiHandoff {

  import opened Results
  import opened Words

  const PAGE_SIZE: uint64 := 0x1000
  const STACK_SIZE: uint64 := 0x40000
  const STACK_GUARD: uint64 := 0x10000
  const REGION_SPAN: uint64 := 0x200000
  const LOW_MEMORY_FLOOR: uint64 := 0x100000

  // ---------- the published addresses ----------

  /** The service tables, the vendor name, and the stubs of the firmware services. */
  datatype ServiceName =
    | RuntimeServices | BootServices | FirmwareVendor | OpenVolumeStubCode | OpenVolumeStubDesc
    | LoadedImageProtocol | GetVariableStubCode | GetVariableStubDesc | AllocatePoolStubCode
    | AllocatePoolStubDesc | HandleProtocolStubCode | HandleProtocolStubDesc | UnsupportedStubCode
    | UnsupportedStubDesc | SuccessStubCode | SuccessStubDesc

  /** The protocols for files and text output, and the stubs of the file calls. */
  datatype FileName =
    | SimpleFileSystemProtocol | RootFileProtocol | TextOutputProtocol | TextOutputMode
    | TextOutputStringStubCode | TextOutputStringStubDesc | FileOpenStubCode | FileOpenStubDesc
    | FileCloseStubCode | FileCloseStubDesc | FileReadStubCode | FileReadStubDesc
    | FileGetPositionStubCode | FileGetPositionStubDesc | FileSetPositionStubCode
    | FileSetPositionStubDesc | FileGetInfoStubCode | FileGetInfoStubDesc | LoadedImageFilePath
    | LoadedImageLoadOptions

  /** The stubs of the boot services and the protocols for text input. */
  datatype BootName =
    | LocateHandleStubCode | LocateHandleStubDesc | LocateProtocolStubCode | LocateProtocolStubDesc
    | GetMemoryMapStubCode | GetMemoryMapStubDesc | ExitBootServicesStubCode | ExitBootServicesStubDesc
    | LoadImageStubCode | LoadImageStubDesc | StartImageStubCode | StartImageStubDesc | SetMemStubCode
    | SetMemStubDesc | SimpleTextInputProtocol | SimpleTextInputExProtocol | ConsoleInputEvent

  /** The stubs of text input and events, and the metadata of the boot image. */
  datatype InputName =
    | BootImageMetadata | TextOutputQueryModeStubCode | TextOutputQueryModeStubDesc | InputResetStubCode
    | InputResetStubDesc | InputReadKeyStrokeStubCode | InputReadKeyStrokeStubDesc
    | InputReadKeyStrokeExStubCode | InputReadKeyStrokeExStubDesc | InputRegisterKeyNotifyStubCode
    | InputRegisterKeyNotifyStubDesc | InputUnregisterKeyNotifyStubCode
    | InputUnregisterKeyNotifyStubDesc | WaitForEventStubCode | WaitForEventStubDesc
    | CheckEventStubCode | CheckEventStubDesc

  /** The configuration table and the tables of the firmware. */
  datatype TableName =
    | ConfigurationTable | SalSystemTable | SalProcedureCode | PalProcedureCode | SalGlobalPointer
    | Rsdp | Rsdt | Xsdt | Madt

  /** The 79 addresses that the layout publishes besides base and end. */
  datatype Published =
    | Service(service: ServiceName)
    | File(file: FileName)
    | Boot(boot: BootName)
    | Input(input: InputName)
    | Table(table: TableName)

  /** The distance of a published address from the base. */
  function Offset(p: Published): uint64 {
    match p
    case Service(name) => ServiceOffset(name)
    case File(name) => FileOffset(name)
    case Boot(name) => BootOffset(name)
    case Input(name) => InputOffset(name)
    case Table(name) => TableOffset(name)
  }

  function ServiceOffset(name: ServiceName): uint64 {
    match name
    case RuntimeServices => 0x400
    case BootServices => 0x800
    case FirmwareVendor => 0xC00
    case OpenVolumeStubCode => 0xC80
    case OpenVolumeStubDesc => 0xCC0
    case LoadedImageProtocol => 0xD00
    case GetVariableStubCode => 0xD80
    case GetVariableStubDesc => 0xDC0
    case AllocatePoolStubCode => 0xE00
    case AllocatePoolStubDesc => 0xE40
    case HandleProtocolStubCode => 0xE80
    case HandleProtocolStubDesc => 0xEC0
    case UnsupportedStubCode => 0xF00
    case UnsupportedStubDesc => 0xF40
    case SuccessStubCode => 0xF80
    case SuccessStubDesc => 0xFC0
  }

  function FileOffset(name: FileName): uint64 {
    match name
    case SimpleFileSystemProtocol => 0x1000
    case RootFileProtocol => 0x1040
    case TextOutputProtocol => 0x1200
    case TextOutputMode => 0x1260
    case TextOutputStringStubCode => 0x1280
    case TextOutputStringStubDesc => 0x12C0
    case FileOpenStubCode => 0x1400
    case FileOpenStubDesc => 0x1440
    case FileCloseStubCode => 0x1480
    case FileCloseStubDesc => 0x14C0
    case FileReadStubCode => 0x1500
    case FileReadStubDesc => 0x1540
    case FileGetPositionStubCode => 0x1580
    case FileGetPositionStubDesc => 0x15C0
    case FileSetPositionStubCode => 0x1600
    case FileSetPositionStubDesc => 0x1640
    case FileGetInfoStubCode => 0x1680
    case FileGetInfoStubDesc => 0x16C0
    case LoadedImageFilePath => 0x1300
    case LoadedImageLoadOptions => 0x1340
  }

  function BootOffset(name: BootName): uint64 {
    match name
    case LocateHandleStubCode => 0x1700
    case LocateHandleStubDesc => 0x1740
    case LocateProtocolStubCode => 0x1780
    case LocateProtocolStubDesc => 0x17C0
    case GetMemoryMapStubCode => 0x1800
    case GetMemoryMapStubDesc => 0x1840
    case ExitBootServicesStubCode => 0x1880
    case ExitBootServicesStubDesc => 0x18C0
    case LoadImageStubCode => 0x1900
    case LoadImageStubDesc => 0x1940
    case StartImageStubCode => 0x1980
    case StartImageStubDesc => 0x19C0
    case SetMemStubCode => 0x1A00
    case SetMemStubDesc => 0x1A40
    case SimpleTextInputProtocol => 0x1A80
    case SimpleTextInputExProtocol => 0x1AA0
    case ConsoleInputEvent => 0x1AE0
  }

  function InputOffset(name: InputName): uint64 {
    match name
    case BootImageMetadata => 0x1D00
    case TextOutputQueryModeStubCode => 0x1F00
    case TextOutputQueryModeStubDesc => 0x1F40
    case InputResetStubCode => 0x1B00
    case InputResetStubDesc => 0x1B40
    case InputReadKeyStrokeStubCode => 0x1B80
    case InputReadKeyStrokeStubDesc => 0x1BC0
    case InputReadKeyStrokeExStubCode => 0x1C00
    case InputReadKeyStrokeExStubDesc => 0x1C40
    case InputRegisterKeyNotifyStubCode => 0x1C80
    case InputRegisterKeyNotifyStubDesc => 0x1CC0
    case InputUnregisterKeyNotifyStubCode => 0x1CA0
    case InputUnregisterKeyNotifyStubDesc => 0x1CE0
    case WaitForEventStubCode => 0x1D40
    case WaitForEventStubDesc => 0x1D80
    case CheckEventStubCode => 0x1DC0
    case CheckEventStubDesc => 0x1E00
  }

  function TableOffset(name: TableName): uint64 {
    match name
    case ConfigurationTable => 0x2000
    case SalSystemTable => 0x2040
    case SalProcedureCode => 0x2140
    case PalProcedureCode => 0x2180
    case SalGlobalPointer => 0x21C0
    case Rsdp => 0x2200
    case Rsdt => 0x2240
    case Xsdt => 0x22C0
    case Madt => 0x2280
  }

  // ---------- alignment ----------

  function AlignDown(value: uint64, alignment: uint64): uint64 {
    if alignment == 0 then value else AndAtMost(value, Not(Wrap(alignment - 1))); And(value, Not(Wrap(alignment - 1)))
  }

  function AlignUp(value: uint64, alignment: uint64): uint64 {
    if alignment == 0 then value else AlignDown(Wrap(Wrap(value + alignment) - 1), alignment)
  }

  /** The largest multiple of a power of two that is not above the value. */
  lemma AlignDownIsFloor(value: uint64, k: nat)
    requires k < 64
    ensures Pow2(k) < TWO_TO_THE_64
    ensures AlignDown(value, Pow2(k)) == value - value % Pow2(k)
  {
    PowersAreWords(k);
    Pow2Of64();
    AndHighMask(value, 64, k);
    var p := Pow2(k);
    hide Pow2, And, Wrap;
    NoWrap(p - 1);
    assert Not(p - 1) == Pow2(64) - p;
  }

  /** The smallest multiple that is not below the value, or 0 where the addition wraps around. */
  lemma AlignUpIsCeiling(value: uint64, k: nat)
    requires k < 64
    ensures Pow2(k) < TWO_TO_THE_64
    ensures var p, up := Pow2(k), AlignUp(value, Pow2(k));
            && (value + p - 1 < TWO_TO_THE_64 ==> up % p == 0 && value <= up < value + p)
            && (value + p - 1 >= TWO_TO_THE_64 ==> up == 0 < value)
  {
    PowersAreWords(k);
    hide Pow2, AlignUp;
    var w := RoundedDown(value, k);
    CeilingOrZero(value, Pow2(k), w);
  }

  lemma RoundedDown(value: uint64, k: nat) returns (w: uint64)
    requires k < 64 && Pow2(k) < TWO_TO_THE_64
    ensures var p := Pow2(k);
            && w == (if value + p - 1 < TWO_TO_THE_64 then value + p - 1 else value + p - 1 - TWO_TO_THE_64)
            && AlignUp(value, p) == w - w % p
  {
    hide Pow2, AlignDown, Wrap;
    w := Wrap(Wrap(value + Pow2(k)) - 1);
    AlignDownIsFloor(w, k);
    WrapTwice(value, Pow2(k));
  }

  lemma WrapTwice(value: uint64, p: uint64)
    requires 0 < p
    ensures Wrap(Wrap(value + p) - 1) ==
            if value + p - 1 < TWO_TO_THE_64 then value + p - 1 else value + p - 1 - TWO_TO_THE_64
  {
  }

  lemma CeilingOrZero(value: uint64, p: uint64, w: uint64)
    requires 0 < p <= TWO_TO_THE_64 / 2
    requires w == if value + p - 1 < TWO_TO_THE_64 then value + p - 1 else value + p - 1 - TWO_TO_THE_64
    ensures value + p - 1 < TWO_TO_THE_64 ==> (w - w % p) % p == 0 && value <= w - w % p < value + p
    ensures value + p - 1 >= TWO_TO_THE_64 ==> w - w % p == 0 < value
  {
    if value + p - 1 < TWO_TO_THE_64 {
      Ceiling(value, p);
    } else {
      DivisionIsUnique(w, p, 0, w);
    }
  }

  lemma Ceiling(value: nat, p: nat)
    requires p > 0
    ensures var w := value + p - 1; 0 <= w - w % p && (w - w % p) % p == 0 && value <= w - w % p < value + p
  {
    var w := value + p - 1;
    var q := w / p;
    assert w - w % p == q * p;
    DivisionIsUnique(q * p, p, q, 0);
  }

  lemma ToPage(value: uint64)
    ensures AlignDown(value, PAGE_SIZE) == value - value % PAGE_SIZE
    ensures AlignDown(value, 16) == value - value % 16
  {
    assert Pow2(4) == 16;
    assert Pow2(12) == PAGE_SIZE;
    AlignDownIsFloor(value, 12);
    AlignDownIsFloor(value, 4);
  }

  // ---------- placement ----------

  /** The lowest address of the boot stack: below a guard and above the hand-off region. */
  function StackBase(guestMemorySize: nat): int {
    (guestMemorySize - STACK_GUARD) / 16 * 16 - STACK_SIZE
  }

  class EfiHandoffLayout {
    var base: uint64
    var end: uint64
    var address: Published -> uint64

    /** layout = {}. */
    ghost predicate Cleared()
      reads this
    {
      base == 0 && end == 0 && address == NoAddresses()
    }

    constructor ()
      ensures Cleared()
    {
      base, end, address := 0, 0, NoAddresses();
    }

    /**
     * Succeeds exactly above 0x350000 bytes of memory. The region is then where unbounded integers
     * would put it: page-aligned, above the low memory, below the stack by less than a page.
     */
    method TryCompute(guestMemorySize: uint64) returns (ok: bool)
      modifies this
      ensures ok <==> guestMemorySize > 0x350000
      ensures !ok ==> base == 0 && end == 0 && forall p :: address(p) == 0
      ensures ok ==> Placed(guestMemorySize, base) && end == base + 0x200000
      ensures ok ==> Publishes(address, base)
    {
      base, end, address := 0, 0, NoAddresses();
      hide AlignDown, Wrap, Placed, Addresses, Publishes, Offset;
      if guestMemorySize == 0 {
        return false;
      }
      if guestMemorySize <= LOW_MEMORY_FLOOR + STACK_SIZE + STACK_GUARD + REGION_SPAN {
        return false;
      }
      GuardsNeverReject(guestMemorySize);
      var stackTop := AlignDown(Wrap(guestMemorySize - STACK_GUARD), 16);
      if stackTop <= STACK_SIZE {
        return false;
      }
      var stackBase := Wrap(stackTop - STACK_SIZE);
      if stackBase <= REGION_SPAN {
        return false;
      }
      var b := AlignDown(Wrap(stackBase - REGION_SPAN), PAGE_SIZE);
      if b < LOW_MEMORY_FLOOR {
        return false;
      }
      if Wrap(b + REGION_SPAN) > stackBase {
        return false;
      }
      base := b;
      end := Wrap(b + REGION_SPAN);
      address := Addresses(b);
      AddressesPublish(b);
      return true;
    }
  }

  /** Above the first guard no subtraction or addition wraps around and no later guard rejects. */
  lemma GuardsNeverReject(g: uint64)
    requires g > LOW_MEMORY_FLOOR + STACK_SIZE + STACK_GUARD + REGION_SPAN
    ensures var stackTop := AlignDown(Wrap(g - STACK_GUARD), 16);
            var stackBase := Wrap(stackTop - STACK_SIZE);
            var base := AlignDown(Wrap(stackBase - REGION_SPAN), PAGE_SIZE);
            && STACK_SIZE < stackTop <= g - STACK_GUARD
            && REGION_SPAN < stackBase == stackTop - STACK_SIZE
            && LOW_MEMORY_FLOOR <= base
            && Wrap(base + REGION_SPAN) == base + REGION_SPAN <= stackBase < TWO_TO_THE_64
            && Placed(g, base)
  {
    hide AlignDown, Wrap, Placed;
    var stackTop := StackTopIs(g);
    var stackBase := Wrap(stackTop - STACK_SIZE);
    NoWrap(stackTop - STACK_SIZE);
    var base := BaseIs(stackBase);
    NoWrap(base + REGION_SPAN);
    PlacedBelow(g, stackBase, base);
  }

  lemma StackTopIs(g: uint64) returns (top: uint64)
    requires g > STACK_GUARD
    ensures top == AlignDown(Wrap(g - STACK_GUARD), 16) == g - STACK_GUARD - (g - STACK_GUARD) % 16
  {
    NoWrap(g - STACK_GUARD);
    ToPage(g - STACK_GUARD);
    hide AlignDown, Wrap;
    top := AlignDown(Wrap(g - STACK_GUARD), 16);
  }

  lemma BaseIs(stackBase: uint64) returns (base: uint64)
    requires stackBase >= REGION_SPAN
    ensures base == AlignDown(Wrap(stackBase - REGION_SPAN), PAGE_SIZE) ==
            stackBase - REGION_SPAN - (stackBase - REGION_SPAN) % PAGE_SIZE
  {
    NoWrap(stackBase - REGION_SPAN);
    ToPage(stackBase - REGION_SPAN);
    hide AlignDown, Wrap;
    base := AlignDown(Wrap(stackBase - REGION_SPAN), PAGE_SIZE);
  }

  lemma PlacedBelow(g: nat, stackBase: nat, base: nat)
    requires g > 0x350000
    requires stackBase == g - STACK_GUARD - (g - STACK_GUARD) % 16 - STACK_SIZE
    requires REGION_SPAN < stackBase && base == stackBase - REGION_SPAN - (stackBase - REGION_SPAN) % PAGE_SIZE
    requires LOW_MEMORY_FLOOR <= base
    ensures Placed(g, base)
  {
  }

  function NoAddresses(): Published -> uint64 {
    (_: Published) => 0
  }

  function Addresses(base: uint64): Published -> uint64 {
    (p: Published) => Wrap(base + Offset(p))
  }

  // ---------- the map of the region ----------

  /** What lies at a distance from the base, in ascending order. */
  function PublishedAt(distance: nat): Option<Published> {
    if distance < 0x1000 then ServiceAt(distance)
    else if distance < 0x1700 then FileAt(distance)
    else if distance < 0x1B00 then BootAt(distance)
    else if distance < 0x2000 then InputAt(distance)
    else TableAt(distance)
  }

  function ServiceAt(distance: nat): Option<Published> {
    match distance
    case 0x400 => Some(Service(RuntimeServices))
    case 0x800 => Some(Service(BootServices))
    case 0xC00 => Some(Service(FirmwareVendor))
    case 0xC80 => Some(Service(OpenVolumeStubCode))
    case 0xCC0 => Some(Service(OpenVolumeStubDesc))
    case 0xD00 => Some(Service(LoadedImageProtocol))
    case 0xD80 => Some(Service(GetVariableStubCode))
    case 0xDC0 => Some(Service(GetVariableStubDesc))
    case 0xE00 => Some(Service(AllocatePoolStubCode))
    case 0xE40 => Some(Service(AllocatePoolStubDesc))
    case 0xE80 => Some(Service(HandleProtocolStubCode))
    case 0xEC0 => Some(Service(HandleProtocolStubDesc))
    case 0xF00 => Some(Service(UnsupportedStubCode))
    case 0xF40 => Some(Service(UnsupportedStubDesc))
    case 0xF80 => Some(Service(SuccessStubCode))
    case 0xFC0 => Some(Service(SuccessStubDesc))
    case _ => None
  }

  function FileAt(distance: nat): Option<Published> {
    match distance
    case 0x1000 => Some(File(SimpleFileSystemProtocol))
    case 0x1040 => Some(File(RootFileProtocol))
    case 0x1200 => Some(File(TextOutputProtocol))
    case 0x1260 => Some(File(TextOutputMode))
    case 0x1280 => Some(File(TextOutputStringStubCode))
    case 0x12C0 => Some(File(TextOutputStringStubDesc))
    case 0x1300 => Some(File(LoadedImageFilePath))
    case 0x1340 => Some(File(LoadedImageLoadOptions))
    case 0x1400 => Some(File(FileOpenStubCode))
    case 0x1440 => Some(File(FileOpenStubDesc))
    case 0x1480 => Some(File(FileCloseStubCode))
    case 0x14C0 => Some(File(FileCloseStubDesc))
    case 0x1500 => Some(File(FileReadStubCode))
    case 0x1540 => Some(File(FileReadStubDesc))
    case 0x1580 => Some(File(FileGetPositionStubCode))
    case 0x15C0 => Some(File(FileGetPositionStubDesc))
    case 0x1600 => Some(File(FileSetPositionStubCode))
    case 0x1640 => Some(File(FileSetPositionStubDesc))
    case 0x1680 => Some(File(FileGetInfoStubCode))
    case 0x16C0 => Some(File(FileGetInfoStubDesc))
    case _ => None
  }

  function BootAt(distance: nat): Option<Published> {
    match distance
    case 0x1700 => Some(Boot(LocateHandleStubCode))
    case 0x1740 => Some(Boot(LocateHandleStubDesc))
    case 0x1780 => Some(Boot(LocateProtocolStubCode))
    case 0x17C0 => Some(Boot(LocateProtocolStubDesc))
    case 0x1800 => Some(Boot(GetMemoryMapStubCode))
    case 0x1840 => Some(Boot(GetMemoryMapStubDesc))
    case 0x1880 => Some(Boot(ExitBootServicesStubCode))
    case 0x18C0 => Some(Boot(ExitBootServicesStubDesc))
    case 0x1900 => Some(Boot(LoadImageStubCode))
    case 0x1940 => Some(Boot(LoadImageStubDesc))
    case 0x1980 => Some(Boot(StartImageStubCode))
    case 0x19C0 => Some(Boot(StartImageStubDesc))
    case 0x1A00 => Some(Boot(SetMemStubCode))
    case 0x1A40 => Some(Boot(SetMemStubDesc))
    case 0x1A80 => Some(Boot(SimpleTextInputProtocol))
    case 0x1AA0 => Some(Boot(SimpleTextInputExProtocol))
    case 0x1AE0 => Some(Boot(ConsoleInputEvent))
    case _ => None
  }

  function InputAt(distance: nat): Option<Published> {
    match distance
    case 0x1B00 => Some(Input(InputResetStubCode))
    case 0x1B40 => Some(Input(InputResetStubDesc))
    case 0x1B80 => Some(Input(InputReadKeyStrokeStubCode))
    case 0x1BC0 => Some(Input(InputReadKeyStrokeStubDesc))
    case 0x1C00 => Some(Input(InputReadKeyStrokeExStubCode))
    case 0x1C40 => Some(Input(InputReadKeyStrokeExStubDesc))
    case 0x1C80 => Some(Input(InputRegisterKeyNotifyStubCode))
    case 0x1CA0 => Some(Input(InputUnregisterKeyNotifyStubCode))
    case 0x1CC0 => Some(Input(InputRegisterKeyNotifyStubDesc))
    case 0x1CE0 => Some(Input(InputUnregisterKeyNotifyStubDesc))
    case 0x1D00 => Some(Input(BootImageMetadata))
    case 0x1D40 => Some(Input(WaitForEventStubCode))
    case 0x1D80 => Some(Input(WaitForEventStubDesc))
    case 0x1DC0 => Some(Input(CheckEventStubCode))
    case 0x1E00 => Some(Input(CheckEventStubDesc))
    case 0x1F00 => Some(Input(TextOutputQueryModeStubCode))
    case 0x1F40 => Some(Input(TextOutputQueryModeStubDesc))
    case _ => None
  }

  function TableAt(distance: nat): Option<Published> {
    match distance
    case 0x2000 => Some(Table(ConfigurationTable))
    case 0x2040 => Some(Table(SalSystemTable))
    case 0x2140 => Some(Table(SalProcedureCode))
    case 0x2180 => Some(Table(PalProcedureCode))
    case 0x21C0 => Some(Table(SalGlobalPointer))
    case 0x2200 => Some(Table(Rsdp))
    case 0x2240 => Some(Table(Rsdt))
    case 0x2280 => Some(Table(Madt))
    case 0x22C0 => Some(Table(Xsdt))
    case _ => None
  }

  /** Under every name stands the address of what the map has at its distance from the base, and
      everything on the map is published. */
  ghost predicate Publishes(address: Published -> uint64, base: nat) {
    && (forall p :: base <= address(p) && PublishedAt(address(p) - base) == Some(p))
    && (forall d: nat | PublishedAt(d).Some? :: address(PublishedAt(d).value) == base + d)
  }

  lemma ServiceMap(name: ServiceName)
    ensures ServiceOffset(name) < 0x1000 && ServiceAt(ServiceOffset(name)) == Some(Service(name))
  {
  }

  lemma ServiceOffsets(distance: nat)
    ensures ServiceAt(distance).Some? ==> Offset(ServiceAt(distance).value) == distance
  {
  }

  lemma FileMap(name: FileName)
    ensures 0x1000 <= FileOffset(name) < 0x1700 && FileAt(FileOffset(name)) == Some(File(name))
  {
  }

  lemma FileOffsets(distance: nat)
    ensures FileAt(distance).Some? ==> Offset(FileAt(distance).value) == distance
  {
  }

  lemma BootMap(name: BootName)
    ensures 0x1700 <= BootOffset(name) < 0x1B00 && BootAt(BootOffset(name)) == Some(Boot(name))
  {
  }

  lemma BootOffsets(distance: nat)
    ensures BootAt(distance).Some? ==> Offset(BootAt(distance).value) == distance
  {
  }

  lemma InputMap(name: InputName)
    ensures 0x1B00 <= InputOffset(name) < 0x2000 && InputAt(InputOffset(name)) == Some(Input(name))
  {
  }

  lemma InputOffsets(distance: nat)
    ensures InputAt(distance).Some? ==> Offset(InputAt(distance).value) == distance
  {
  }

  lemma TableMap(name: TableName)
    ensures 0x2000 <= TableOffset(name) && TableAt(TableOffset(name)) == Some(Table(name))
  {
  }

  lemma TableOffsets(distance: nat)
    ensures TableAt(distance).Some? ==> Offset(TableAt(distance).value) == distance
  {
  }

  lemma MapOfOffset(p: Published)
    ensures PublishedAt(Offset(p)) == Some(p)
  {
    hide ServiceAt, FileAt, BootAt, InputAt, TableAt;
    hide ServiceOffset, FileOffset, BootOffset, InputOffset, TableOffset;
    match p
    case Service(name) => ServiceMap(name);
    case File(name) => FileMap(name);
    case Boot(name) => BootMap(name);
    case Input(name) => InputMap(name);
    case Table(name) => TableMap(name);
  }

  lemma OffsetOfMap(distance: nat)
    ensures PublishedAt(distance).Some? ==> Offset(PublishedAt(distance).value) == distance
  {
    hide Offset, ServiceAt, FileAt, BootAt, InputAt, TableAt;
    ServiceOffsets(distance);
    FileOffsets(distance);
    BootOffsets(distance);
    InputOffsets(distance);
    TableOffsets(distance);
  }

  lemma AddressesPublish(base: uint64)
    requires base + REGION_SPAN < TWO_TO_THE_64
    ensures Publishes(Addresses(base), base)
  {
    hide Offset, PublishedAt, Wrap;
    forall p ensures Addresses(base)(p) == base + Offset(p) && PublishedAt(Offset(p)) == Some(p) {
      OffsetIsSmall(p);
      NoWrap(base + Offset(p));
      MapOfOffset(p);
    }
    forall d: nat | PublishedAt(d).Some? ensures Offset(PublishedAt(d).value) == d {
      OffsetOfMap(d);
    }
  }

  lemma MapIsInside(distance: nat)
    requires PublishedAt(distance).Some?
    ensures 0x400 <= distance <= 0x22C0 && distance % 0x20 == 0
  {
  }

  /** Every published address lies in the region, on a multiple of 32 bytes from the base. */
  lemma AddressIsInside(address: Published -> uint64, base: nat, p: Published)
    requires Publishes(address, base)
    ensures base + 0x400 <= address(p) <= base + 0x22C0 < base + REGION_SPAN
    ensures (address(p) - base) % 0x20 == 0 && PublishedAt(address(p) - base) == Some(p)
  {
    hide PublishedAt;
    MapIsInside(address(p) - base);
  }

  /** No two names share an address: there are at least 32 bytes from one to the next. */
  lemma AddressesAreApart(address: Published -> uint64, base: nat, p: Published, q: Published)
    requires Publishes(address, base) && p != q
    ensures address(p) - address(q) >= 0x20 || address(q) - address(p) >= 0x20
  {
    hide PublishedAt, Publishes;
    AddressIsInside(address, base, p);
    AddressIsInside(address, base, q);
    var d, e := address(p) - base, address(q) - base;
    assert d != e;
  }

  ghost predicate Placed(guestMemorySize: nat, base: nat) {
    && base % PAGE_SIZE == 0
    && LOW_MEMORY_FLOOR <= base
    && 0 <= StackBase(guestMemorySize) - (base + REGION_SPAN) < PAGE_SIZE
  }

  /** The placement in closed form: a fixed distance below the last page boundary in memory. */
  lemma PlacedAt(guestMemorySize: nat, base: nat)
    ensures Placed(guestMemorySize, base) <==>
            guestMemorySize >= 0x350000 && base == guestMemorySize / PAGE_SIZE * PAGE_SIZE - 0x250000
  {
    var q, r := guestMemorySize / PAGE_SIZE, guestMemorySize % PAGE_SIZE;
    var t, u, c := r / 16, r % 16, base / PAGE_SIZE;
    assert guestMemorySize == q * PAGE_SIZE + 16 * t + u;
    assert (guestMemorySize - STACK_GUARD) / 16 == 256 * q + t - 0x1000;
    assert base % PAGE_SIZE == 0 <==> base == PAGE_SIZE * c;
  }

  /** More memory never places the region lower, and memory in the same page places it the same. */
  lemma BaseIsMonotone(g: nat, h: nat, b: nat, c: nat)
    requires Placed(g, b) && Placed(h, c)
    ensures g <= h ==> b <= c
    ensures g / PAGE_SIZE == h / PAGE_SIZE <==> b == c
  {
    PlacedAt(g, b);
    PlacedAt(h, c);
    hide Placed;
  }

  /** The region, the stack and the guard are disjoint and inside the memory. */
  lemma PlacedIsSeparate(g: nat, base: nat)
    requires Placed(g, base)
    ensures 0x100000 <= base < base + 0x200000 <= StackBase(g)
    ensures StackBase(g) + 0x40000 <= g - 0x10000 < StackBase(g) + 0x40000 + 16
  {
  }

  lemma OffsetIsSmall(p: Published)
    ensures 0x400 <= Offset(p) <= 0x22C0
  {
  }
}
