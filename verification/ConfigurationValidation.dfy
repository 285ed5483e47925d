/** VMConfiguration::validate, include/VMConfiguration.h. */
module ConfigurationValidation {

  import opened Results
  import opened VMConfigurations
  import opened ConfigurationRoundTrip

  /** One constructor per message of validate. */
  datatype Flaw =
    | NoName | NoCpu | TooManyCpus | NoMemory | TooLittleMemory
    | DuplicateId(deviceId: string)

  const MINIMUM_MEMORY: nat := 1024 * 1024

  predicate SameId(devices: seq<StorageConfiguration>, i: nat, j: nat) {
    i < j < |devices| && devices[i].deviceId == devices[j].deviceId
  }

  predicate DistinctIds(devices: seq<StorageConfiguration>) {
    forall i, j :: 0 <= i < j < |devices| ==> devices[i].deviceId != devices[j].deviceId
  }

  predicate Acceptable(c: VMConfiguration) {
    && c.name != "" && 1 <= c.cpu.cpuCount <= 256 && c.memory.memorySize >= MINIMUM_MEMORY
    && DistinctIds(c.storageDevices)
  }

  /** No device before this one shares its identifier with a later one. */
  ghost predicate FirstDuplicate(devices: seq<StorageConfiguration>, i: nat) {
    && i < |devices|
    && (exists j: nat :: SameId(devices, i, j))
    && forall k: nat, l: nat | k < i :: !SameId(devices, k, l)
  }

  /** What a flaw says of a configuration. */
  ghost predicate Applies(flaw: Flaw, c: VMConfiguration) {
    match flaw
    case NoName => c.name == ""
    case NoCpu => c.cpu.cpuCount == 0
    case TooManyCpus => c.cpu.cpuCount > 256
    case NoMemory => c.memory.memorySize == 0
    case TooLittleMemory => 0 < c.memory.memorySize < MINIMUM_MEMORY
    case DuplicateId(id) => exists i: nat :: FirstDuplicate(c.storageDevices, i) && c.storageDevices[i].deviceId == id
  }

  function Rank(flaw: Flaw): nat {
    match flaw
    case NoName => 0
    case NoCpu => 1
    case TooManyCpus => 2
    case NoMemory => 3
    case TooLittleMemory => 4
    case DuplicateId(_) => 5
  }

  /** The verdict, and with a refusal the first flaw that applies. */
  method Validate(c: VMConfiguration) returns (valid: bool, flaw: Option<Flaw>)
    ensures valid <==> Acceptable(c)
    ensures valid <==> flaw.None?
    ensures flaw.Some? ==> Applies(flaw.value, c)
    ensures flaw.Some? ==> forall f: Flaw :: Applies(f, c) ==> Rank(flaw.value) <= Rank(f)
  {
    if c.name == "" {
      return false, Some(NoName);
    }
    if c.cpu.cpuCount == 0 {
      return false, Some(NoCpu);
    }
    if c.cpu.cpuCount > 256 {
      return false, Some(TooManyCpus);
    }
    if c.memory.memorySize == 0 {
      return false, Some(NoMemory);
    }
    if c.memory.memorySize < 1024 * 1024 {
      return false, Some(TooLittleMemory);
    }
    var duplicate := FindDuplicate(c.storageDevices);
    if duplicate.Some? {
      return false, Some(DuplicateId(c.storageDevices[duplicate.value].deviceId));
    }
    return true, None;
  }

  method FindDuplicate(devices: seq<StorageConfiguration>) returns (r: Option<nat>)
    ensures r.None? <==> DistinctIds(devices)
    ensures r.Some? ==> FirstDuplicate(devices, r.value)
  {
    for i := 0 to |devices|
      invariant forall k: nat, l: nat | k < i :: !SameId(devices, k, l)
    {
      for j := i + 1 to |devices|
        invariant forall l: nat | l < j :: !SameId(devices, i, l)
      {
        if devices[i].deviceId == devices[j].deviceId {
          assert SameId(devices, i, j);
          assert !DistinctIds(devices);
          return Some(i);
        }
      }
    }
    forall i, j | 0 <= i < j < |devices|
      ensures devices[i].deviceId != devices[j].deviceId
    {
      assert !SameId(devices, i, j);
    }
    return None;
  }

  /** Saving and loading changes no verdict: whatever is loaded was readable and is as acceptable as before. */
  lemma LoadingKeepsTheVerdict(c: VMConfiguration)
    ensures FromJsonText(ToJsonText(c)).Success? <==> VMReadable(c)
    ensures VMReadable(c) ==> (Acceptable(FromJsonText(ToJsonText(c)).value) <==> Acceptable(c))
  {
    RoundTrip(c);
  }
}
