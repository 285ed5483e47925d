/** Memory watchpoints, include/Watchpoint.h, and what one access does to one of them, src/mmu/mmu.cpp. */
module Watchpoints {

  import opened Results
  import opened Words

  datatype WatchpointType = READ | WRITE | ACCESS

  datatype WatchpointCondition =
    ALWAYS | VALUE_EQUALS | VALUE_NOT_EQUALS | VALUE_CHANGED | VALUE_GREATER | VALUE_LESS

  datatype Access = Access(address: uint64, size: uint64, isWrite: bool, value: uint64)

  /** What the owner of a watchpoint sets. */
  datatype Settings = Settings(
    start: uint64, end: uint64, kind: WatchpointType,
    condition: WatchpointCondition, conditionValue: uint64, maxTriggers: uint64)

  /** What accesses change. */
  datatype State = State(enabled: bool, triggerCount: uint64, last: Option<uint64>)

  class Watchpoint {
    var addressStart: uint64
    var addressEnd: uint64
    var kind: WatchpointType
    var condition: WatchpointCondition
    var conditionValue: uint64
    var enabled: bool
    var triggerCount: uint64
    var maxTriggers: uint64
    var lastValue: uint64
    var hasLastValue: bool

    constructor (start: uint64, end: uint64, kind: WatchpointType)
      ensures TheSettings() == Settings(start, end, kind, ALWAYS, 0, 0)
      ensures TheState() == State(true, 0, None) && lastValue == 0
    {
      addressStart, addressEnd, this.kind := start, end, kind;
      condition, conditionValue := ALWAYS, 0;
      enabled, triggerCount, maxTriggers := true, 0, 0;
      lastValue, hasLastValue := 0, false;
    }

    function TheSettings(): Settings
      reads this
    {
      Settings(addressStart, addressEnd, kind, condition, conditionValue, maxTriggers)
    }

    function TheState(): State
      reads this
    {
      State(enabled, triggerCount, if hasLastValue then Some(lastValue) else None)
    }

    predicate ShouldTrigger(address: uint64, size: uint64, isWrite: bool)
      reads this
    {
      if !enabled then
        false
      else
        var accessEnd := Wrap(address + size);
        if accessEnd <= addressStart || address >= addressEnd then
          false
        else if kind == READ && isWrite then
          false
        else if kind == WRITE && !isWrite then
          false
        else if maxTriggers > 0 && triggerCount >= maxTriggers then
          false
        else
          true
    }

    method CheckCondition(value: uint64) returns (holds: bool)
      modifies this`lastValue, this`hasLastValue
      ensures condition == ALWAYS ==> holds
      ensures condition == VALUE_EQUALS ==> (holds <==> value == conditionValue)
      ensures condition == VALUE_NOT_EQUALS ==> (holds <==> value != conditionValue)
      ensures condition == VALUE_GREATER ==> (holds <==> value > conditionValue)
      ensures condition == VALUE_LESS ==> (holds <==> value < conditionValue)
      ensures condition == VALUE_CHANGED ==> (holds <==> old(hasLastValue) && value != old(lastValue))
      ensures condition == VALUE_CHANGED ==> hasLastValue && lastValue == value
      ensures condition != VALUE_CHANGED ==> hasLastValue == old(hasLastValue) && lastValue == old(lastValue)
      ensures holds == Holds(TheSettings(), old(TheState()).last, value)
      ensures TheState() == old(TheState()).(last := Remembered(TheSettings(), old(TheState()).last, value))
    {
      match condition
      case ALWAYS => return true;
      case VALUE_EQUALS => return value == conditionValue;
      case VALUE_NOT_EQUALS => return value != conditionValue;
      case VALUE_CHANGED =>
        if !hasLastValue {
          lastValue := value;
          hasLastValue := true;
          return false;
        } else {
          var changed := value != lastValue;
          lastValue := value;
          return changed;
        }
      case VALUE_GREATER => return value > conditionValue;
      case VALUE_LESS => return value < conditionValue;
    }

    /**
     * The part of MMU::CheckWatchpoints that deals with one watchpoint. The values reported to the
     * callback are read after the condition has remembered the new one: a watchpoint for changes
     * reports the new value as the old one.
     */
    method Check(a: Access) returns (fired: bool, oldValue: uint64, newValue: uint64)
      modifies this`lastValue, this`hasLastValue, this`triggerCount, this`enabled
      ensures (TheState(), fired) == Step(TheSettings(), old(TheState()), a)
      ensures fired <==>
              && old(ShouldTrigger(a.address, a.size, a.isWrite))
              && (condition == VALUE_EQUALS ==> a.value == conditionValue)
              && (condition == VALUE_NOT_EQUALS ==> a.value != conditionValue)
              && (condition == VALUE_GREATER ==> a.value > conditionValue)
              && (condition == VALUE_LESS ==> a.value < conditionValue)
              && (condition == VALUE_CHANGED ==> old(hasLastValue) && a.value != old(lastValue))
      ensures triggerCount == if fired then Wrap(old(triggerCount) + 1) else old(triggerCount)
      ensures enabled == (old(enabled) && !(fired && 0 < maxTriggers <= triggerCount))
      ensures fired ==> newValue == a.value
      ensures fired && condition == VALUE_CHANGED ==> oldValue == newValue && old(lastValue) != oldValue
      ensures fired && condition != VALUE_CHANGED ==> oldValue == old(lastValue)
    {
      hide Wrap;
      fired, oldValue, newValue := false, 0, 0;
      if !ShouldTrigger(a.address, a.size, a.isWrite) {
        return;
      }
      var holds := CheckCondition(a.value);
      if !holds {
        return;
      }
      fired, oldValue, newValue := true, lastValue, a.value;
      triggerCount := Wrap(triggerCount + 1);
      if maxTriggers > 0 && triggerCount >= maxTriggers {
        enabled := false;
      }
    }
  }

  // ---------- which accesses match ----------

  predicate Overlaps(w: Settings, address: uint64, size: uint64) {
    Wrap(address + size) > w.start && address < w.end
  }

  predicate KindMatches(w: Settings, isWrite: bool) {
    w.kind == ACCESS || (w.kind == WRITE <==> isWrite)
  }

  predicate Matches(w: Settings, a: Access) {
    Overlaps(w, a.address, a.size) && KindMatches(w, a.isWrite)
  }

  predicate Holds(w: Settings, last: Option<uint64>, value: uint64) {
    match w.condition
    case ALWAYS => true
    case VALUE_EQUALS => value == w.conditionValue
    case VALUE_NOT_EQUALS => value != w.conditionValue
    case VALUE_CHANGED => last.Some? && value != last.value
    case VALUE_GREATER => value > w.conditionValue
    case VALUE_LESS => value < w.conditionValue
  }

  function Remembered(w: Settings, last: Option<uint64>, value: uint64): Option<uint64> {
    if w.condition == VALUE_CHANGED then Some(value) else last
  }

  predicate Exhausted(w: Settings, triggerCount: uint64) {
    w.maxTriggers > 0 && triggerCount >= w.maxTriggers
  }

  /** Some byte lies in the access and in the watched range, both taken without wrap-around. */
  ghost predicate SomeByteWatched(w: Settings, address: uint64, size: uint64) {
    exists b: nat :: InBoth(w, address, size, b)
  }

  predicate InBoth(w: Settings, address: uint64, size: uint64, b: nat) {
    address <= b < address + size && w.start <= b < w.end
  }

  /** When the comparison of the ends says that the access and the range share a byte, and it is true. */
  lemma OverlapIsTrue(w: Settings, address: uint64, size: uint64)
    ensures (Overlaps(w, address, size) <==> SomeByteWatched(w, address, size)) <==>
            if size == 0 || w.start >= w.end then
              address >= w.end || Wrap(address + size) <= w.start
            else
              address + size < TWO_TO_THE_64 || address >= w.end || address + size - TWO_TO_THE_64 > w.start
  {
    var b := if address >= w.start then address else w.start;
    if size > 0 && w.start < w.end {
      if address < w.end && w.start < address + size {
        assert InBoth(w, address, size, b);
      }
    }
  }

  /** For an access that stays in the address space and a range that is not empty, the check is exact. */
  lemma ShouldTriggerIsExact(wp: Watchpoint, address: uint64, size: uint64, isWrite: bool)
    requires wp.addressStart < wp.addressEnd && size > 0 && address + size < TWO_TO_THE_64
    ensures wp.ShouldTrigger(address, size, isWrite) <==>
            && wp.enabled
            && SomeByteWatched(wp.TheSettings(), address, size)
            && (wp.kind == ACCESS || (isWrite <==> wp.kind == WRITE))
            && (wp.maxTriggers == 0 || wp.triggerCount < wp.maxTriggers)
  {
    OverlapIsTrue(wp.TheSettings(), address, size);
  }

  /** An access that ends where the address space ends is never seen. */
  lemma LastByteIsNeverWatched(wp: Watchpoint, address: uint64, isWrite: bool)
    requires address > 0
    ensures !wp.ShouldTrigger(address, TWO_TO_THE_64 - address, isWrite)
  {
  }

  // ---------- runs ----------

  function Step(w: Settings, s: State, a: Access): (State, bool) {
    if !s.enabled || !Matches(w, a) || Exhausted(w, s.triggerCount) then
      (s, false)
    else
      var seen := s.(last := Remembered(w, s.last, a.value));
      if Holds(w, s.last, a.value) then
        var count := Wrap(s.triggerCount + 1);
        (seen.(triggerCount := count, enabled := !Exhausted(w, count)), true)
      else
        (seen, false)
  }

  /** Which of a run of accesses fire. */
  function Fired(w: Settings, s: State, accesses: seq<Access>): seq<bool>
    decreases |accesses|
  {
    if accesses == [] then []
    else
      var (next, fired) := Step(w, s, accesses[0]);
      [fired] + Fired(w, next, accesses[1..])
  }

  function After(w: Settings, s: State, accesses: seq<Access>): State
    decreases |accesses|
  {
    if accesses == [] then s else After(w, Step(w, s, accesses[0]).0, accesses[1..])
  }

  function Count(fired: seq<bool>): nat {
    if fired == [] then 0 else (if fired[0] then 1 else 0) + Count(fired[1..])
  }

  /** The value of the last matching access. */
  function LastMatch(w: Settings, accesses: seq<Access>): Option<uint64> {
    if accesses == [] then None
    else if Matches(w, accesses[|accesses| - 1]) then Some(accesses[|accesses| - 1].value)
    else LastMatch(w, accesses[..|accesses| - 1])
  }

  const FRESH := State(true, 0, None)

  lemma {:induction false} AfterOneMore(w: Settings, s: State, accesses: seq<Access>, a: Access)
    ensures After(w, s, accesses + [a]) == Step(w, After(w, s, accesses), a).0
    ensures Fired(w, s, accesses + [a]) == Fired(w, s, accesses) + [Step(w, After(w, s, accesses), a).1]
    decreases |accesses|
  {
    if accesses == [] {
      assert [a][1..] == [];
    } else {
      assert (accesses + [a])[1..] == accesses[1..] + [a];
      AfterOneMore(w, Step(w, s, accesses[0]).0, accesses[1..], a);
    }
  }

  lemma {:induction false} CountOneMore(fired: seq<bool>, b: bool)
    ensures Count(fired + [b]) == Count(fired) + (if b then 1 else 0)
    decreases |fired|
  {
    if fired != [] {
      assert (fired + [b])[1..] == fired[1..] + [b];
      CountOneMore(fired[1..], b);
    }
  }

  /** What a watchpoint has come to after a run from its construction: nothing but a summary of that run. */
  lemma {:induction false} StateSumsUpTheRun(w: Settings, accesses: seq<Access>)
    ensures var s, n := After(w, FRESH, accesses), Count(Fired(w, FRESH, accesses));
            && s.triggerCount == Wrap(n)
            && (s.enabled <==> w.maxTriggers == 0 || n < w.maxTriggers)
            && (w.maxTriggers > 0 ==> n <= w.maxTriggers)
            && (s.enabled && w.condition == VALUE_CHANGED ==> s.last == LastMatch(w, accesses))
    decreases |accesses|
  {
    if accesses != [] {
      var before, a := accesses[..|accesses| - 1], accesses[|accesses| - 1];
      assert accesses == before + [a];
      StateSumsUpTheRun(w, before);
      AfterOneMore(w, FRESH, before, a);
      CountOneMore(Fired(w, FRESH, before), Step(w, After(w, FRESH, before), a).1);
      CountWraps(w, Count(Fired(w, FRESH, before)));
      hide Fired, After, Count, Matches, Holds, Wrap;
    }
  }

  /** A counter with a limit is reset by no wrap-around. */
  lemma CountWraps(w: Settings, n: nat)
    ensures Wrap(Wrap(n) + 1) == Wrap(n + 1)
    ensures n < w.maxTriggers ==> Wrap(n) == n
    ensures n < w.maxTriggers ==> Wrap(n + 1) == n + 1
  {
  }

  lemma FiresWhenItHolds(w: Settings, before: seq<Access>, a: Access, rest: seq<Access>)
    ensures var fired := Fired(w, FRESH, before + [a] + rest);
            && |fired| == |before| + 1 + |rest|
            && fired[..|before|] == Fired(w, FRESH, before)
            && (fired[|before|] <==>
                && Matches(w, a)
                && (w.maxTriggers == 0 || Count(fired[..|before|]) < w.maxTriggers)
                && Holds(w, LastMatch(w, before), a.value))
  {
    StateSumsUpTheRun(w, before);
    AfterOneMore(w, FRESH, before, a);
    FiredPrefix(w, FRESH, before, []);
    assert before + [] == before;
    FiredPrefix(w, FRESH, before + [a], rest);
    hide Fired, After, LastMatch, Matches;
    var fired := Fired(w, FRESH, before + [a] + rest);
    assert fired[..|before|] == fired[..|before| + 1][..|before|];
  }

  /**
   * An access of a run fires exactly if it matches, the limit has not been reached before it, and its
   * value satisfies the condition, where "changed" is against the value of the matching access before it.
   */
  lemma FiresExactlyWhen(w: Settings, before: seq<Access>, a: Access, rest: seq<Access>)
    ensures var fired := Fired(w, FRESH, before + [a] + rest);
            && |fired| == |before| + 1 + |rest|
            && fired[..|before|] == Fired(w, FRESH, before)
            && (fired[|before|] <==>
                && Wrap(a.address + a.size) > w.start && a.address < w.end
                && (w.kind == READ ==> !a.isWrite) && (w.kind == WRITE ==> a.isWrite)
                && (w.maxTriggers == 0 || Count(fired[..|before|]) < w.maxTriggers)
                && (w.condition == VALUE_EQUALS ==> a.value == w.conditionValue)
                && (w.condition == VALUE_NOT_EQUALS ==> a.value != w.conditionValue)
                && (w.condition == VALUE_GREATER ==> a.value > w.conditionValue)
                && (w.condition == VALUE_LESS ==> a.value < w.conditionValue)
                && (w.condition == VALUE_CHANGED ==>
                      LastMatch(w, before).Some? && LastMatch(w, before).value != a.value))
  {
    hide Fired, Count, LastMatch, Wrap;
    FiresWhenItHolds(w, before, a, rest);
  }

  lemma {:induction false} FiredPrefix(w: Settings, s: State, accesses: seq<Access>, rest: seq<Access>)
    ensures |Fired(w, s, accesses)| == |accesses|
    ensures |Fired(w, s, accesses + rest)| == |accesses| + |rest|
    ensures Fired(w, s, accesses + rest)[..|accesses|] == Fired(w, s, accesses)
    decreases |accesses| + |rest|
  {
    if accesses != [] {
      assert (accesses + rest)[1..] == accesses[1..] + rest;
      FiredPrefix(w, Step(w, s, accesses[0]).0, accesses[1..], rest);
    } else if rest != [] {
      assert [] + rest == rest;
      assert [] + rest[1..] == rest[1..];
      FiredPrefix(w, Step(w, s, rest[0]).0, [], rest[1..]);
    }
  }
}
