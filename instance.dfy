/** `WasmInstance`: the one-shot instance slot, the per-store error signal,
    memory access through the exported linear memory and the two call
    paths. The store mutex and `acquire_store` are not modelled; every
    operation sees the store directly. */
module Instance {
  import opened Wrappers
  import opened MachineInts
  import opened LittleEndian
  import WasmConfig
  import ImportGraph
  import LinearMemory
  import CallArgs

  datatype InstanceType = Core(inst: ImportGraph.Instance) | Component

  /** The per-store fields the core reads and writes. */
  datatype StoreData = StoreData(
    errorSignal: Option<string>,
    epochTimeout: u64,
    registryEnabled: bool,
    deadline: Option<u64>)

  datatype InstanceData = InstanceData(instance: InstanceType, moduleId: ImportGraph.ModuleId, store: StoreData)

  /** A configuration argument as it arrives from the host: a readable
      configuration, or a value `Config::try_from_variant` rejects. */
  datatype ConfigArg = ConfigValue(config: WasmConfig.Config) | MalformedConfig

  /** The type of an export as `call_wasm` sees it. */
  datatype ExportType<T> = FuncExport(params: seq<T>, results: seq<T>) | OtherExport

  datatype InstError =
    | UninitializedInstance
    | InstanceIsComponent
    | NoMemoryExported
    | Memory(memCause: LinearMemory.MemError)
    | NoSuchExport(name: string)
    | NotAFunction(name: string)
    | Call(callCause: CallArgs.CallError<string>)

  /** `InstanceType::get_core`. */
  function GetCore(t: InstanceType): (r: Result<ImportGraph.Instance, InstError>)
    ensures r.Ok? <==> t.Core?
    ensures r.Ok? ==> r.value == t.inst
    ensures r.Err? ==> r.error == InstanceIsComponent
  {
    match t
    case Core(i) => Ok(i)
    case Component => Err(InstanceIsComponent)
  }

  /** The configuration `initialize_` instantiates with: an absent or
      unreadable argument falls back to the default. */
  function EffectiveConfig(arg: Option<ConfigArg>): (c: WasmConfig.Config)
    ensures arg.Some? && arg.value.ConfigValue? ==> c == arg.value.config
    ensures arg.None? || arg.value.MalformedConfig? ==> c == WasmConfig.DefaultConfig
  {
    match arg
    case Some(ConfigValue(c)) => c
    case _ => WasmConfig.DefaultConfig
  }

  /** The store state right after instantiation with `config`. */
  function FreshStore(config: WasmConfig.Config): (s: StoreData)
    ensures s.errorSignal.None? && s.deadline.None?
    ensures s.epochTimeout == config.epochTimeout
    ensures s.registryEnabled <==> config.externBind == WasmConfig.Registry
  {
    StoreData(None, config.epochTimeout, config.externBind == WasmConfig.Registry, None)
  }

  /** The name the linear memory is exported under. */
  const MemoryExport: string := "memory"

  class WasmInstance {
    var data: Option<InstanceData>
    var memory: Option<array<byte>>

    /** A new, uninitialized instance. */
    constructor ()
      ensures data.None? && memory.None?
    {
      data, memory := None, None;
    }

    function MemFrame(): set<object>
      reads this
    {
      if memory.Some? then {memory.value} else {}
    }

    /** `get_data`. */
    function GetData(): (r: Result<InstanceData, InstError>)
      reads this
      ensures r.Ok? <==> data.Some?
      ensures r.Ok? ==> r.value == data.value
      ensures r.Err? ==> r.error == UninitializedInstance
    {
      if data.Some? then Ok(data.value) else Err(UninitializedInstance)
    }

    /** `initialize_`: the first call instantiates the module and, on
        success, fills the slot and picks up the exported memory; any later
        call returns true without instantiating again. A failed
        instantiation leaves the slot empty. */
    method Initialize(env: ImportGraph.Env, ghost rank: map<ImportGraph.ModuleId, nat>,
                      id: ImportGraph.ModuleId, config: Option<ConfigArg>, initialMemory: seq<byte>)
      returns (ok: bool)
      requires ImportGraph.RankedAcyclic(env, rank) && id in rank
      modifies this
      ensures old(data).Some? ==> ok && data == old(data) && memory == old(memory)
      ensures old(data).None? ==>
                var c := EffectiveConfig(config);
                var o := ImportGraph.Outcome(env, c, rank, id);
                (ok <==> o.Ok?) &&
                (ok ==> data == Some(InstanceData(Core(o.value), id, FreshStore(c)))) &&
                (ok && MemoryExport in o.value.exports ==>
                   memory.Some? && fresh(memory.value) && memory.value[..] == initialMemory) &&
                (ok && MemoryExport !in o.value.exports ==> memory.None?) &&
                (!ok ==> data.None? && memory == old(memory))
    {
      if data.Some? {
        return true;
      }
      var c := EffectiveConfig(config);
      var r, _, _ := ImportGraph.InstantiateWasm(env, c, rank, id, map[]);
      if r.Err? {
        return false;
      }
      data := Some(InstanceData(Core(r.value), id, FreshStore(c)));
      if MemoryExport in r.value.exports {
        var a := new byte[|initialMemory|](k requires 0 <= k < |initialMemory| => initialMemory[k]);
        memory := Some(a);
      } else {
        memory := None;
      }
      return true;
    }

    /** `signal_error(msg)`: the previous message comes back and `msg`
        takes its place; an uninitialized instance answers nothing. */
    method SignalError(msg: string) returns (prev: Option<string>)
      modifies this`data
      ensures old(data).None? ==> prev.None? && data == old(data)
      ensures old(data).Some? ==>
                prev == old(data).value.store.errorSignal &&
                data == Some(old(data).value.(store := old(data).value.store.(errorSignal := Some(msg))))
    {
      if data.None? {
        return None;
      }
      var d := data.value;
      prev := d.store.errorSignal;
      data := Some(d.(store := d.store.(errorSignal := Some(msg))));
    }

    /** `signal_error_cancel`: the previous message comes back and the slot
        is emptied. */
    method SignalErrorCancel() returns (prev: Option<string>)
      modifies this`data
      ensures old(data).None? ==> prev.None? && data == old(data)
      ensures old(data).Some? ==>
                prev == old(data).value.store.errorSignal &&
                data == Some(old(data).value.(store := old(data).value.store.(errorSignal := None)))
    {
      if data.None? {
        return None;
      }
      var d := data.value;
      prev := d.store.errorSignal;
      data := Some(d.(store := d.store.(errorSignal := None)));
    }

    /** `get_memory` + `read_memory`: the instance must be initialized and
        export a memory, and `[i, i + n)` must lie inside it. */
    function ReadMemory(i: nat, n: nat): (r: Result<seq<byte>, InstError>)
      reads this, MemFrame()
      ensures data.None? ==> r == Err(UninitializedInstance)
      ensures data.Some? && memory.None? ==> r == Err(NoMemoryExported)
      ensures data.Some? && memory.Some? ==>
                (r.Ok? <==> i + n <= memory.value.Length) &&
                (r.Ok? ==> r.value == memory.value[i..i + n]) &&
                (r.Err? ==> r.error == Memory(LinearMemory.IndexOutOfBound(i, i + n)))
    {
      if data.None? then Err(UninitializedInstance)
      else if memory.None? then Err(NoMemoryExported)
      else
        match LinearMemory.ReadRange(memory.value[..], i, n)
        case Ok(s) => Ok(s)
        case Err(e) => Err(Memory(e))
    }

    /** Whether `[i, i + n)` can be accessed at all. */
    predicate Accessible(i: nat, n: nat)
      reads this
    {
      data.Some? && memory.Some? && i + n <= memory.value.Length
    }

    /** `memory_size`: the byte length, or 0 when there is no memory. */
    function MemorySize(): (n: nat)
      reads this
      ensures data.Some? && memory.Some? ==> n == memory.value.Length
      ensures data.None? || memory.None? ==> n == 0
    {
      if data.Some? && memory.Some? then memory.value.Length else 0
    }

    /** `memory_read(i, n)`: the bytes, or the empty default on failure. */
    function MemoryRead(i: i64, n: i64): (s: seq<byte>)
      reads this, MemFrame()
      ensures Accessible(ToUsize(i), ToUsize(n)) ==> s == memory.value[ToUsize(i)..ToUsize(i) + ToUsize(n)]
      ensures !Accessible(ToUsize(i), ToUsize(n)) ==> s == []
    {
      match ReadMemory(ToUsize(i), ToUsize(n))
      case Ok(b) => b
      case Err(_) => []
    }

    /** `get_8`, `get_16`, `get_32`: the unsigned little-endian value of
        the `w` bytes at `i`, or 0 when they cannot be read. */
    function GetUnsigned(i: i64, w: nat): (v: int)
      reads this, MemFrame()
      ensures Accessible(ToUsize(i), w) ==> v == LeDecode(memory.value[ToUsize(i)..ToUsize(i) + w])
      ensures !Accessible(ToUsize(i), w) ==> v == 0
      ensures 0 <= v < Pow256(w)
    {
      match ReadMemory(ToUsize(i), w)
      case Ok(b) => LeDecode(b)
      case Err(_) => 0
    }

    /** `get_64`: the signed little-endian value of the 8 bytes at `i`, or 0. */
    function Get64(i: i64): (v: int)
      reads this, MemFrame()
      ensures Accessible(ToUsize(i), 8) ==> v == LeDecodeSigned(memory.value[ToUsize(i)..ToUsize(i) + 8])
      ensures !Accessible(ToUsize(i), 8) ==> v == 0
      ensures -0x8000_0000_0000_0000 <= v < 0x8000_0000_0000_0000
    {
      match ReadMemory(ToUsize(i), 8)
      case Ok(b) => LeDecodeSigned(b)
      case Err(_) => 0
    }

    /** `write_memory` with a full copy: `memory_write`, and every `put_N`
        with the bytes it stores. Nothing is written unless the whole range
        is accessible. */
    method WriteBytes(i: nat, src: seq<byte>) returns (ok: bool)
      modifies MemFrame()
      ensures ok <==> Accessible(i, |src|)
      ensures ok ==> memory.value[..] == LinearMemory.Splice(old(memory.value[..]), i, src)
      ensures !ok && memory.Some? ==> memory.value[..] == old(memory.value[..])
    {
      if data.None? || memory.None? {
        return false;
      }
      var r := LinearMemory.WriteMemory(memory.value, i, src);
      ok := r.Ok?;
    }

    /** `memory_write(i, a)`. */
    method MemoryWrite(i: i64, a: seq<byte>) returns (ok: bool)
      modifies MemFrame()
      ensures ok <==> Accessible(ToUsize(i), |a|)
      ensures ok ==> memory.value[..] == LinearMemory.Splice(old(memory.value[..]), ToUsize(i), a)
      ensures ok ==> ReadMemory(ToUsize(i), |a|) == Ok(a)
      ensures !ok && memory.Some? ==> memory.value[..] == old(memory.value[..])
    {
      ok := WriteBytes(ToUsize(i), a);
      if ok {
        LinearMemory.ReadAfterWrite(old(memory.value[..]), ToUsize(i), a);
      }
    }

    /** `put_8`, `put_16`, `put_32`: `v` masked to `w` bytes, little-endian.
        A later `get` of the same width reads `v` modulo `256^w`. */
    method PutUnsigned(i: i64, v: i64, w: nat) returns (ok: bool)
      requires w == 1 || w == 2 || w == 4
      modifies MemFrame()
      ensures ok <==> Accessible(ToUsize(i), w)
      ensures ok ==> memory.value[..] == LinearMemory.Splice(old(memory.value[..]), ToUsize(i), LeEncode(v, w))
      ensures ok ==> GetUnsigned(i, w) == v % Pow256(w)
      ensures !ok && memory.Some? ==> memory.value[..] == old(memory.value[..])
    {
      var bytes := LeEncode(LinearMemory.Mask(v, w), w);
      LinearMemory.EncodeMasked(v, w);
      ok := WriteBytes(ToUsize(i), bytes);
      if ok {
        LinearMemory.ScalarRoundTrip(old(memory.value[..]), ToUsize(i), v, w);
        assert memory.value[ToUsize(i)..ToUsize(i) + w] == bytes;
      }
    }

    /** `put_64`: the eight two's-complement bytes of `v`; `get_64` then
        reads back exactly `v`. */
    method Put64(i: i64, v: i64) returns (ok: bool)
      modifies MemFrame()
      ensures ok <==> Accessible(ToUsize(i), 8)
      ensures ok ==> memory.value[..] == LinearMemory.Splice(old(memory.value[..]), ToUsize(i), LeEncode(v, 8))
      ensures ok ==> Get64(i) == v
      ensures !ok && memory.Some? ==> memory.value[..] == old(memory.value[..])
    {
      var bytes := LeEncode(v, 8);
      ok := WriteBytes(ToUsize(i), bytes);
      if ok {
        LinearMemory.ReadAfterWrite(old(memory.value[..]), ToUsize(i), bytes);
        assert memory.value[ToUsize(i)..ToUsize(i) + 8] == bytes;
        SignedRoundTrip(v, 8);
      }
    }

    /** `put_array(i, v)`. */
    method PutArray(i: i64, v: LinearMemory.HostValue) returns (ok: bool)
      requires v.Packed? ==> LinearMemory.Shaped(v.arr.kind, v.arr.elems)
      modifies MemFrame()
      ensures v.OtherValue? ==> !ok
      ensures v.Packed? ==>
                (ok <==> Accessible(ToUsize(i), |v.arr.elems| * LinearMemory.RecordWidth(v.arr.kind)))
      ensures ok ==>
                memory.value[..] ==
                LinearMemory.Splice(old(memory.value[..]), ToUsize(i),
                                    LinearMemory.EncodeRecords(v.arr.kind, v.arr.elems))
      ensures !ok && memory.Some? ==> memory.value[..] == old(memory.value[..])
    {
      if data.None? || memory.None? {
        return false;
      }
      var r := LinearMemory.PutArray(memory.value, ToUsize(i), v);
      ok := r.Ok?;
    }

    /** `get_array(i, n, t)`: the packed array, or no value on any error.
        The end of the range is computed without wrap-around, so a count
        whose byte size overflows is out of bound. */
    function GetArray(i: i64, n: i64, t: int): (r: Result<LinearMemory.PackedArray, InstError>)
      reads this, MemFrame()
      ensures data.None? ==> r == Err(UninitializedInstance)
      ensures data.Some? && memory.None? ==> r == Err(NoMemoryExported)
      ensures data.Some? && memory.Some? ==>
                match LinearMemory.GetArray(memory.value[..], ToUsize(i), ToUsize(n), t)
                case Ok(a) => r == Ok(a)
                case Err(e) => r == Err(Memory(e))
    {
      if data.None? then Err(UninitializedInstance)
      else if memory.None? then Err(NoMemoryExported)
      else
        match LinearMemory.GetArray(memory.value[..], ToUsize(i), ToUsize(n), t)
        case Ok(a) => Ok(a)
        case Err(e) => Err(Memory(e))
    }

    /** `call_wasm(name, args)` up to the guest call: the export is looked
        up on the core instance, the buffer is built leniently, and the
        epoch deadline is armed when the store has a timeout. */
    method CallWasm<T, A, R>(name: string, exportTypes: map<string, ExportType<T>>, args: seq<A>,
                             toRaw: (T, A) -> Result<R, string>, zero: R)
      returns (r: Result<seq<R>, InstError>)
      requires data.Some? && data.value.instance.Core? ==> exportTypes.Keys == data.value.instance.inst.exports
      modifies this`data
      ensures old(data).None? ==> r == Err(UninitializedInstance)
      ensures old(data).Some? && old(data).value.instance.Component? ==> r == Err(InstanceIsComponent)
      ensures old(data).Some? && old(data).value.instance.Core? ==>
                (name !in exportTypes ==> r == Err(NoSuchExport(name))) &&
                (name in exportTypes && exportTypes[name].OtherExport? ==> r == Err(NotAFunction(name))) &&
                (name in exportTypes && exportTypes[name].FuncExport? ==>
                   var b := CallArgs.ArgBuffer(CallArgs.Lenient, exportTypes[name].params,
                                               exportTypes[name].results, args, toRaw, zero);
                   (b.Ok? ==> r == Ok(b.value)) && (b.Err? ==> r == Err(Call(b.error))))
      ensures r.Ok? ==> data == Some(old(data).value.(store := ArmDeadline(old(data).value.store)))
      ensures r.Err? ==> data == old(data)
    {
      if data.None? {
        return Err(UninitializedInstance);
      }
      var d := data.value;
      var core := GetCore(d.instance);
      if core.Err? {
        return Err(core.error);
      }
      if name !in exportTypes {
        return Err(NoSuchExport(name));
      }
      match exportTypes[name] {
        case OtherExport =>
          return Err(NotAFunction(name));
        case FuncExport(params, results) =>
          var b := CallArgs.BuildArgBuffer(CallArgs.Lenient, params, results, args, toRaw, zero);
          if b.Err? {
            return Err(Call(b.error));
          }
          data := Some(d.(store := ArmDeadline(d.store)));
          return Ok(b.value);
      }
    }

    /** `WasmCallable::invoke(args)` up to the guest call: the same buffer,
        built strictly. */
    method Invoke<T, A, R>(params: seq<T>, results: seq<T>, args: seq<A>,
                           toRaw: (T, A) -> Result<R, string>, zero: R)
      returns (r: Result<seq<R>, InstError>)
      modifies this`data
      ensures old(data).None? ==> r == Err(UninitializedInstance)
      ensures old(data).Some? ==>
                var b := CallArgs.ArgBuffer(CallArgs.Strict, params, results, args, toRaw, zero);
                (b.Ok? ==> r == Ok(b.value)) && (b.Err? ==> r == Err(Call(b.error)))
      ensures r.Ok? ==> data == Some(old(data).value.(store := ArmDeadline(old(data).value.store)))
      ensures r.Err? ==> data == old(data)
    {
      if data.None? {
        return Err(UninitializedInstance);
      }
      var d := data.value;
      var b := CallArgs.BuildArgBuffer(CallArgs.Strict, params, results, args, toRaw, zero);
      if b.Err? {
        return Err(Call(b.error));
      }
      data := Some(d.(store := ArmDeadline(d.store)));
      return Ok(b.value);
    }
  }

  /** `set_epoch_deadline` runs only for a timeout of at least 1. */
  function ArmDeadline(s: StoreData): (s': StoreData)
    ensures s'.errorSignal == s.errorSignal && s'.epochTimeout == s.epochTimeout
    ensures s'.registryEnabled == s.registryEnabled
    ensures s.epochTimeout >= 1 ==> s'.deadline == Some(s.epochTimeout)
    ensures s.epochTimeout == 0 ==> s'.deadline == s.deadline
  {
    match CallArgs.EpochDeadline(s.epochTimeout)
    case Some(t) => s.(deadline := Some(t))
    case None => s
  }

  /** A signal followed by a cancel hands back first the earlier message,
      then `msg`, and leaves the slot empty. */
  method SignalThenCancel(w: WasmInstance, msg: string) returns (first: Option<string>, second: Option<string>)
    requires w.data.Some?
    modifies w`data
    ensures first == old(w.data.value.store.errorSignal)
    ensures second == Some(msg)
    ensures w.data.Some? && w.data.value.store.errorSignal.None?
    ensures w.data.value.store.(errorSignal := old(w.data.value.store.errorSignal)) == old(w.data.value.store)
  {
    first := w.SignalError(msg);
    second := w.SignalErrorCancel();
  }
}
