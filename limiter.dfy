/** The resource limiter a store installs when memory limiting is enabled
    (`MemoryLimit` in wasm_instance.rs). Two allowance counters, one for
    linear-memory bytes and one for table entries, where the largest u64
    value is a sentinel meaning "no limit". */
module ResourceLimit {
  import opened Wrappers
  import opened MachineInts
  import WasmConfig

  /** The answer to one growth request and the allowance left after it. */
  datatype Decision = Decision(granted: bool, remaining: u64)

  /** The growth hook shared by `memory_growing` and `table_growing`:
      a guest-declared maximum is checked first, then the sentinel, then the
      allowance, from which a granted delta is deducted. */
  function Grow(remaining: u64, current: u64, desired: u64, max: Option<u64>): (d: Decision)
    requires current <= desired
    ensures max.Some? && desired > max.value ==> d == Decision(false, remaining)
    ensures (max.None? || desired <= max.value) && remaining == U64_MAX ==>
              d == Decision(true, U64_MAX)
    ensures (max.None? || desired <= max.value) && remaining != U64_MAX ==>
              (d.granted <==> desired - current <= remaining)
    ensures d.granted && remaining != U64_MAX ==> d.remaining == remaining - (desired - current)
    ensures !d.granted ==> d.remaining == remaining
  {
    if max.Some? && desired > max.value then Decision(false, remaining)
    else if remaining == U64_MAX then Decision(true, remaining)
    else if desired - current <= remaining then Decision(true, remaining - (desired - current))
    else Decision(false, remaining)
  }

  /** One growth request as Wasmtime issues it. */
  datatype Request = Request(current: u64, desired: u64, max: Option<u64>)

  ghost predicate WellFormed(reqs: seq<Request>) {
    forall k :: 0 <= k < |reqs| ==> reqs[k].current <= reqs[k].desired
  }

  /** The allowance left after a sequence of requests against one counter. */
  function GrowAll(remaining: u64, reqs: seq<Request>): u64
    requires WellFormed(reqs)
  {
    if reqs == [] then remaining
    else
      var d := Grow(remaining, reqs[0].current, reqs[0].desired, reqs[0].max);
      GrowAll(d.remaining, reqs[1..])
  }

  /** The total size granted over a sequence of requests. */
  function GrantedTotal(remaining: u64, reqs: seq<Request>): nat
    requires WellFormed(reqs)
  {
    if reqs == [] then 0
    else
      var d := Grow(remaining, reqs[0].current, reqs[0].desired, reqs[0].max);
      (if d.granted then reqs[0].desired - reqs[0].current else 0) + GrantedTotal(d.remaining, reqs[1..])
  }

  /** A finite allowance is a budget: whatever sequence of requests arrives,
      the deltas granted plus what is left add up to the initial allowance,
      so the guest never grows by more than it was allowed, and a finite
      counter never turns into the "unlimited" sentinel. */
  lemma {:induction false} BudgetRespected(remaining: u64, reqs: seq<Request>)
    requires WellFormed(reqs)
    requires remaining != U64_MAX
    ensures GrantedTotal(remaining, reqs) + GrowAll(remaining, reqs) == remaining
    ensures GrowAll(remaining, reqs) != U64_MAX
  {
    if reqs != [] {
      var d := Grow(remaining, reqs[0].current, reqs[0].desired, reqs[0].max);
      assert WellFormed(reqs[1..]) by {
        forall k | 0 <= k < |reqs[1..]| ensures reqs[1..][k].current <= reqs[1..][k].desired {
          assert reqs[1..][k] == reqs[k + 1];
        }
      }
      BudgetRespected(d.remaining, reqs[1..]);
    }
  }

  /** With the sentinel, every request within the guest's own maximum is
      granted and the counter stays the sentinel. */
  lemma {:induction false} UnlimitedStaysUnlimited(reqs: seq<Request>)
    requires WellFormed(reqs)
    ensures GrowAll(U64_MAX, reqs) == U64_MAX
  {
    if reqs != [] {
      assert WellFormed(reqs[1..]) by {
        forall k | 0 <= k < |reqs[1..]| ensures reqs[1..][k].current <= reqs[1..][k].desired {
          assert reqs[1..][k] == reqs[k + 1];
        }
      }
      UnlimitedStaysUnlimited(reqs[1..]);
    }
  }

  class MemoryLimit {
    var maxMemory: u64
    var maxTableEntries: u64

    /** `MemoryLimit::default()`: both counters unlimited. */
    constructor Default()
      ensures maxMemory == U64_MAX && maxTableEntries == U64_MAX
    {
      maxMemory, maxTableEntries := U64_MAX, U64_MAX;
    }

    /** `MemoryLimit::from_config`: a configured cap replaces the sentinel. */
    constructor FromConfig(config: WasmConfig.Config)
      ensures maxMemory == (if config.maxMemory.Some? then config.maxMemory.value else U64_MAX)
      ensures maxTableEntries == (if config.maxEntries.Some? then config.maxEntries.value else U64_MAX)
    {
      maxMemory, maxTableEntries := U64_MAX, U64_MAX;
      if config.maxMemory.Some? {
        maxMemory := config.maxMemory.value;
      }
      if config.maxEntries.Some? {
        maxTableEntries := config.maxEntries.value;
      }
    }

    /** Linear memory asks to grow from `current` to `desired` bytes. */
    method MemoryGrowing(current: u64, desired: u64, max: Option<u64>) returns (granted: bool)
      requires current <= desired
      modifies this`maxMemory
      ensures var d := Grow(old(maxMemory), current, desired, max);
                granted == d.granted && maxMemory == d.remaining
      ensures granted ==> max.None? || desired <= max.value
      ensures !granted ==> maxMemory == old(maxMemory)
    {
      if max.Some? && desired > max.value {
        return false;
      } else if maxMemory == U64_MAX {
        return true;
      }
      var delta := desired - current;
      if delta <= maxMemory {
        maxMemory := maxMemory - delta;
        granted := true;
      } else {
        granted := false;
      }
    }

    /** A table asks to grow from `current` to `desired` entries. */
    method TableGrowing(current: u32, desired: u32, max: Option<u32>) returns (granted: bool)
      requires current <= desired
      modifies this`maxTableEntries
      ensures var d := Grow(old(maxTableEntries), current, desired,
                            if max.Some? then Some(max.value as u64) else None);
                granted == d.granted && maxTableEntries == d.remaining
      ensures granted ==> max.None? || desired <= max.value
      ensures !granted ==> maxTableEntries == old(maxTableEntries)
    {
      if max.Some? && desired > max.value {
        return false;
      } else if maxTableEntries == U64_MAX {
        return true;
      }
      var delta := desired - current;
      if delta <= maxTableEntries {
        maxTableEntries := maxTableEntries - delta;
        granted := true;
      } else {
        granted := false;
      }
    }
  }

  /** The worked example: with 5 left, a request of 10 is denied and 5 stay
      left; a request of 3 then leaves 2. */
  method LimiterExample() {
    var c := WasmConfig.Config(WasmConfig.NoBinding, false, Some(5), None, 0);
    var l := new MemoryLimit.FromConfig(c);
    var ok := l.MemoryGrowing(0, 10, None);
    assert !ok && l.maxMemory == 5;
    ok := l.MemoryGrowing(0, 3, None);
    assert ok && l.maxMemory == 2;
    ok := l.MemoryGrowing(3, 4, Some(3));
    assert !ok && l.maxMemory == 2;
    assert l.maxTableEntries == U64_MAX;
  }
}
