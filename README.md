# godot-wasm core, modelled in Dafny

This project models the core of godot-wasm. godot-wasm is a Godot extension that loads WebAssembly modules with Wasmtime and lets scripts and guests exchange data. The model covers six areas:

- **Resource limiter** (`limiter.dfy`). Two allowance counters, where `u64::MAX` means "no limit". Each granted growth delta is deducted from its counter.
- **Import resolution** (`imports.dfy`). `instantiate_wasm` resolves each declared import from the first source that provides it, in this order: the host table, a bridge namespace, WASI, then the module bound to the namespace. Dependency modules are instantiated on demand and kept in a memo table.
- **Linear memory** (`le_bytes.dfy`, `memory.dfy`):
  - bounds-checked reads and writes;
  - little-endian scalar access (`get_8` … `put_64`);
  - the `put_array` / `get_array` record codec.
- **Call paths** (`calls.dfy`). The argument buffer that `call_wasm` and `WasmCallable::invoke` build: converted parameters, an arity check, then padding with zeros. `call_wasm`'s count check is lenient and `invoke`'s is strict.
- **`WasmInstance`** (`instance.dfy`). This is a class that ties the above together:
  - the one-shot data slot;
  - the exported memory as an `array<byte>`;
  - the error signal;
  - the epoch deadline.
- **Godot bridges**:
  - `externref.dfy`: the `godot` namespace of extern-reference functions. It covers variant conversion, type tests, in-place array operations, dictionary iteration and `str.create`.
  - `packed_array.dfy`: the packed-array component interfaces. These are eleven operations that one generic definition provides for nine element types. Each operation checks the capability filter first.

`wrappers.dfy` holds `Option`, `Result` and the machine-integer types. `config.dfy` holds the configuration fields the core reads.

The `i64`-to-`usize` casts are modelled explicitly as reduction modulo 2^64 (`MachineInts.ToUsize`). An `i64` handed to `get_8` and the other accessors therefore lands where the cast puts it. Floats are carried as IEEE bit patterns. Packed-array searches use IEEE equality on those patterns: NaN equals nothing, and +0 equals −0.

## Model

| member | source | states |
|---|---|---|
| ResourceLimit.Grow | src/wasm_instance.rs:250-290 | Checks run in this order: the guest maximum, then the unlimited sentinel, then the allowance. A grant deducts exactly `desired - current`. A refusal leaves the counter unchanged. |
| ResourceLimit.BudgetRespected | src/wasm_instance.rs:250-269 | For any sequence of requests on a finite counter, the granted deltas plus what remains equal the initial allowance. The counter never becomes the sentinel. |
| ResourceLimit.UnlimitedStaysUnlimited | src/wasm_instance.rs:258-260 | An unlimited counter stays unlimited across any sequence of requests. |
| ResourceLimit.MemoryLimit.Default | src/wasm_instance.rs:225-232 | Both counters start unlimited. |
| ResourceLimit.MemoryLimit.FromConfig | src/wasm_instance.rs:235-246 | A configured cap replaces the sentinel, independently for memory and for table entries. |
| ResourceLimit.MemoryLimit.MemoryGrowing | src/wasm_instance.rs:250-269 | The answer and the new memory counter are those of `Grow`. A request above the guest maximum is never granted. |
| ResourceLimit.MemoryLimit.TableGrowing | src/wasm_instance.rs:271-290 | The same rule as `MemoryGrowing`, for `u32` table sizes, on the table-entry counter. |
| LittleEndian.DecodeEncode | src/wasm_instance.rs:1125-1153 | Decoding the `w` little-endian bytes of `v` gives `v mod 256^w`. |
| LittleEndian.EncodeDecode | src/wasm_instance.rs:1125-1160 | Encoding the decoding of a byte string gives the same bytes back. |
| LittleEndian.UnsignedRoundTrip | src/wasm_instance.rs:1125-1153 | Any residue below `256^w` survives encoding followed by decoding. |
| LittleEndian.SignedRoundTrip | src/wasm_instance.rs:1157-1168 | Any value in the signed range of `w` bytes survives two's-complement encoding followed by signed decoding. |
| LinearMemory.ReadRange | src/wasm_instance.rs:659-670 | `Ok` exactly when `i + n <= len`, holding bytes `[i, i+n)`. Otherwise the error is `IndexOutOfBound(i, i+n)`. |
| LinearMemory.ReadAfterWrite | src/wasm_instance.rs:659-684 | Reading a range just written gives the written bytes. |
| LinearMemory.ReadDisjointFromWrite | src/wasm_instance.rs:659-684 | A write leaves every disjoint range unchanged. |
| LinearMemory.WriteMemory | src/wasm_instance.rs:672-684 | A write with an in-range end splices exactly `[i, i+|src|)`. An out-of-range write changes nothing and reports `IndexOutOfBound(i, i+n)`. |
| LinearMemory.Mask | src/wasm_instance.rs:1116-1153 | `v & (2^(8w)-1)` is a value below `256^w`. |
| LinearMemory.EncodeMasked | src/wasm_instance.rs:1116-1153 | Masking before the `to_le_bytes` encoding changes nothing in the stored bytes. |
| LinearMemory.ScalarRoundTrip | src/wasm_instance.rs:1109-1153 | After `put_N`, the range reads back as the encoding of `v`, which decodes to `v` masked. All other bytes are unchanged. |
| LinearMemory.KindOfTypeId | src/wasm_instance.rs:1298-1363 | The type IDs 29–33 and 35–37 select the eight element kinds. Any other ID up to 37 is "unsupported"; an ID above 37 is "unknown". |
| LinearMemory.KindOfTypeIdInverse | src/wasm_instance.rs:1298-1363 | Every element kind's type ID decodes back to that kind. |
| LinearMemory.FieldsRoundTrip | src/wasm_instance.rs:1249-1267 | Decoding the little-endian fields of one record gives the record back. This covers the component layouts of vectors and colours. |
| LinearMemory.RecordsRoundTrip | src/wasm_instance.rs:1204-1220 | Decoding the contiguous run of encoded records gives the records back. |
| LinearMemory.GetArray | src/wasm_instance.rs:1276-1365 | The type ID is checked before memory is read. The result is `Ok` exactly when `i + n*N <= len`, and it holds the `n` records decoded from exactly the bytes `[i, i+n*N)`. |
| LinearMemory.GetArrayRecordAt | src/wasm_instance.rs:1276-1292 | Record `j` of a successful result is the decoding of its own bytes `[i+jN, i+jN+N)`. |
| LinearMemory.GetArrayWrapping | src/wasm_instance.rs:1283-1290 | The code as written, with release-build wrap-around of `i + n*N` and `par_chunks_exact` on the resulting range. |
| LinearMemory.GetArrayWrappingAgrees | src/wasm_instance.rs:1283-1290 | When the end of the range does not overflow, the code as written equals `GetArray`. |
| LinearMemory.GetArrayWrapsOnHugeCount | src/wasm_instance.rs:1283-1290 | Counterexample: `n = 2^62` with type 30 returns an empty array, where `GetArray` reports out of bound. |
| LinearMemory.PutArray | src/wasm_instance.rs:1203-1273 | Any value that is not a packed array is "Unknown value type". The whole range is checked before any byte is written. On success the memory is the old memory with the encoded records spliced in. On failure it is unchanged. |
| LinearMemory.WriteChunks | src/wasm_instance.rs:1210-1217 | The chunks land back to back from `i`: the new memory is the old memory with their concatenation spliced in. |
| LinearMemory.RecordChunks | src/wasm_instance.rs:1215-1217 | One chunk per record, chunk `j` being record `j`'s encoding. Laid end to end they are the encoded run. |
| LinearMemory.GetArrayAfterPutArray | src/wasm_instance.rs:1203-1365 | `get_array` with the array's own type ID and length returns exactly what `put_array` stored. |
| ImportGraph.SourceOf | src/wasm_instance.rs:413-488 | Each source is chosen exactly when it provides the import and no earlier source does. The order is the host entry, then the registry bridge, then the externref bridge, then WASI, then the namespace's module. A bridge counts only under its extern-binding mode and only for functions in its table. WASI counts only when enabled. An import none of them provides is unresolved. |
| ImportGraph.NoBindingNoBridge | src/wasm_instance.rs:423-450 | With no extern binding, no import is taken from either bridge table. |
| ImportGraph.HostShadowsAll | src/wasm_instance.rs:414-421 | A usable host entry shadows every other source. |
| ImportGraph.ResolveImports | src/wasm_instance.rs:413-494 | All imports resolve exactly when each one has a source that provides it. The externs follow the declaration order. A failure reports the first import that fails. |
| ImportGraph.FirstFailureUnique | src/wasm_instance.rs:413-494 | The first failing import is unique. |
| ImportGraph.ResolveImport | src/wasm_instance.rs:413-494 | One import is resolved against the memo table. A missing dependency is instantiated first and inserted. |
| ImportGraph.InstantiateWasm | src/wasm_instance.rs:395-497 | The result equals the memo-free reference outcome, whatever the memo table held. Entries already memoized are kept unchanged. Each newly instantiated module appears once and was not memoized before. |
| CallArgs.ConvertPrefix | src/wasm_instance.rs:761-763 | The `zip` loop converts arguments in order and stops at the first failure, whose error it reports. |
| CallArgs.ArgBuffer | src/wasm_instance.rs:842-858 | Conversion errors come first. The lenient check fails exactly when fewer arguments than parameters arrive; the strict check fails whenever the counts differ. An accepted buffer has `max(params, results)` slots: the converted parameters, then zeros. |
| CallArgs.StrictImpliesLenient | src/wasm_instance.rs:751-858 | A buffer `invoke` accepts is accepted by `call_wasm` with the same contents. |
| CallArgs.ExtraArgumentsIgnored | src/wasm_instance.rs:761-766 | `call_wasm` ignores extra arguments. `invoke` rejects them as a count mismatch. |
| CallArgs.ConvertPrefixAgrees | src/wasm_instance.rs:761-763 | Converting a prefix reads only the first `n` arguments. |
| CallArgs.PrefixErrorPersists | src/wasm_instance.rs:761-763 | Once a prefix fails, every longer prefix fails with the same error. |
| CallArgs.BuildArgBuffer | src/wasm_instance.rs:751-770 | Its two loops build exactly `ArgBuffer`. |
| CallArgs.EpochDeadline | src/wasm_instance.rs:772-775 | A deadline is armed exactly when the timeout is at least 1. |
| Instance.GetCore | src/wasm_instance.rs:87-97 | `Ok` exactly for a core instance. A component is an error. |
| Instance.EffectiveConfig | src/wasm_instance.rs:613-623 | A readable configuration is used. An absent or unreadable one falls back to the default. |
| Instance.FreshStore | src/wasm_instance.rs:171-192 | A new store has no error signal and no deadline. It takes the configured timeout, and its registry is on exactly under the registry binding. |
| Instance.ArmDeadline | src/wasm_instance.rs:850-863 | Only the deadline changes, and only for a timeout of at least 1. |
| Instance.WasmInstance.constructor | src/wasm_instance.rs:62-70 | A new instance has no data and no memory. |
| Instance.WasmInstance.GetData | src/wasm_instance.rs:570-576 | `Ok` exactly when the slot is filled. Otherwise the error is "Uninitialized instance". |
| Instance.WasmInstance.Initialize | src/wasm_instance.rs:605-645 | A filled slot returns true and changes nothing. Otherwise the result is true exactly when instantiation succeeds. The slot is then filled with the instance, and the memory is kept exactly when the module exports `memory`. A failure leaves the slot empty. |
| Instance.WasmInstance.SignalError | src/wasm_instance.rs:905-915 | Returns the previous message and stores the new one. An uninitialized instance answers nothing. |
| Instance.WasmInstance.SignalErrorCancel | src/wasm_instance.rs:919-926 | Returns the previous message and empties the slot. |
| Instance.SignalThenCancel | src/wasm_instance.rs:905-926 | A signal followed by a cancel returns the old message, then the new one. The store ends as it started, except that the signal is empty. |
| Instance.WasmInstance.ReadMemory | src/wasm_instance.rs:647-670 | The errors are, in order: uninitialized, no memory exported, out of bound. Otherwise it returns exactly the bytes `[i, i+n)`. |
| Instance.WasmInstance.MemorySize | src/wasm_instance.rs:1086-1090 | The memory length, or 0 when there is no memory. |
| Instance.WasmInstance.MemoryRead | src/wasm_instance.rs:1092-1096 | The bytes at the cast offsets, or the empty default. |
| Instance.WasmInstance.GetUnsigned | src/wasm_instance.rs:1108-1146 | `get_8/16/32`: the unsigned little-endian value, below `256^w`, or 0 when the range is not readable. |
| Instance.WasmInstance.Get64 | src/wasm_instance.rs:1156-1160 | The signed 8-byte value, or 0. |
| Instance.WasmInstance.WriteBytes | src/wasm_instance.rs:672-684 | Writes all bytes or none. Success means the range is accessible. |
| Instance.WasmInstance.MemoryWrite | src/wasm_instance.rs:1098-1106 | After success, reading the range back gives the array written. |
| Instance.WasmInstance.PutUnsigned | src/wasm_instance.rs:1115-1153 | `put_8/16/32` store `v` masked. A later `get` of that width reads `v mod 256^w`. |
| Instance.WasmInstance.Put64 | src/wasm_instance.rs:1162-1169 | A later `get_64` reads back exactly `v`. |
| Instance.WasmInstance.PutArray | src/wasm_instance.rs:1202-1273 | Succeeds exactly when the whole encoded range is accessible. The memory then holds the encoded records. |
| Instance.WasmInstance.GetArray | src/wasm_instance.rs:1275-1365 | Uninitialized first, then no memory. Otherwise the corrected `LinearMemory.GetArray` result at the cast offsets: the array, or the memory error. |
| Instance.WasmInstance.CallWasm | src/wasm_instance.rs:829-879 | The errors are, in order: no data, component, missing export, non-function export. Then comes the lenient buffer, and the deadline is armed only on success. |
| Instance.WasmInstance.Invoke | src/wasm_instance.rs:750-795 | The strict buffer. The deadline is armed only on success. |
| ExternrefBridge.VariantToExternref | src/wasm_externref_godot.rs:10-16 | Yields null exactly for nil. Every other variant is wrapped as it is. |
| ExternrefBridge.ExternrefToVariant | src/wasm_externref_godot.rs:19-29 | Null becomes nil. Foreign data is "not a Godot variant". |
| ExternrefBridge.ExternrefToVariantNonnull | src/wasm_externref_godot.rs:32-39 | Null is "Null value". Anything else converts as above. |
| ExternrefBridge.ExternrefRoundTrip | src/wasm_externref_godot.rs:10-39 | Every variant survives the trip through an extern reference. |
| ExternrefBridge.VariantRoundTrip | src/wasm_externref_godot.rs:10-29 | A decodable reference re-encodes to itself. The one exception is a wrapped nil, which becomes null. |
| ExternrefBridge.IsVar | src/wasm_externref_godot.rs:113-116 | 1 exactly for a reference to a Godot variant. |
| ExternrefBridge.IsType | src/wasm_externref_godot.rs:75-86 | 1 exactly when the variant has the tested type. Null and foreign data give 0. |
| ExternrefBridge.FromBool | src/wasm_externref_godot.rs:132-134 | Any non-zero integer is true. |
| ExternrefBridge.ToBool | src/wasm_externref_godot.rs:135-137 | 1 or 0 for a boolean variant. Null, foreign data and other types are errors. |
| ExternrefBridge.BoolRoundTrip | src/wasm_externref_godot.rs:132-137 | `to_bool(from_bool(v))` is `v != 0` as 1 or 0. |
| ExternrefBridge.FromI64 | src/wasm_externref_godot.rs:47-53 | `var.from_i64` wraps the integer. |
| ExternrefBridge.ToI64 | src/wasm_externref_godot.rs:41-53 | The integer of an integer variant. Other types are a type error. |
| ExternrefBridge.IntRoundTrip | src/wasm_externref_godot.rs:41-53 | `to_i64(from_i64(v)) == v`. |
| ExternrefBridge.DecodeArray | src/wasm_externref_godot.rs:41-45 | The array a non-null array reference names. Any other reference is an error. |
| ExternrefBridge.DecodeDict | src/wasm_externref_godot.rs:41-45 | The dictionary a non-null dictionary reference names. |
| ExternrefBridge.ArrSize | src/wasm_externref_godot.rs:151-153 | The array's length. |
| ExternrefBridge.ArrGet | src/wasm_externref_godot.rs:155-161 | Decodes the array first. The result is `Ok` exactly when `0 <= i < len`. It is then `variant_to_externref` of element `i`, so a nil element is null, and it converts back to that element. |
| ExternrefBridge.ArrSet | src/wasm_externref_godot.rs:163-170 | The array is decoded, then `x`, then the bounds are checked. On success only element `i` changes. On failure nothing changes. |
| ExternrefBridge.ArrFill | src/wasm_externref_godot.rs:185-193 | The bounds are checked before `x` is decoded. On success exactly `[i, i+n)` is set to `x`. |
| ExternrefBridge.ArrGrow | src/wasm_externref_godot.rs:172-183 | A positive `n` appends `n` copies of `x`. A negative `n` appends `-n` nils. The new length is returned. |
| ExternrefBridge.Resize | src/wasm_externref_godot.rs:180 | Truncates, or pads with nil. |
| ExternrefBridge.ZeroRun | src/wasm_externref_godot.rs:225-231 | The number of leading entries the callback answers with 0. |
| ExternrefBridge.DictIter | src/wasm_externref_godot.rs:219-232 | The errors are, in order: the dictionary, a null function, a wrong signature. Then the callback is called on the entries in order. Iteration stops right after the first non-zero answer, or at the first trap, which it returns. |
| ExternrefBridge.StrCreate | src/wasm_externref_godot.rs:234-252 | The errors are, in order: no exported memory, then out of bound exactly when `s + n > len`. Otherwise it returns a string decoded from bytes `[s, s+n)`. |
| PackedArrays.Filter | src/godot_component/core/packed_array.rs:30 | The operation is allowed exactly when its (interface, operation) pair is not denied. |
| PackedArrays.GetValue | src/godot_component/core/packed_array.rs:36 | The array behind a handle. Unknown handles and other variant types are errors. |
| PackedArrays.SetIntoVar | src/godot_component/core/packed_array.rs:31 | Stores the value under a fresh handle and leaves old handles alone. |
| PackedArrays.From | src/godot_component/core/packed_array.rs:134-137 | The filter comes first. Then the sequence projected by `e1` is stored under a new handle. |
| PackedArrays.To | src/godot_component/core/packed_array.rs:139-143 | The filter, then the handle. The result is every element projected by `e2`. |
| PackedArrays.Slice | src/godot_component/core/packed_array.rs:145-157 | `Ok` exactly when `begin <= end <= len`, holding elements `[begin, end)`. |
| PackedArrays.Len | src/godot_component/core/packed_array.rs:159-162 | The length, truncated to `u32`. |
| PackedArrays.IsEmpty | src/godot_component/core/packed_array.rs:164-167 | True exactly for the empty array. |
| PackedArrays.Get | src/godot_component/core/packed_array.rs:169-176 | `Ok` exactly when `i < len`, holding element `i` projected by `e2`. |
| PackedArrays.CountEq | src/godot_component/core/packed_array.rs:183-186 | The count is 0 exactly when nothing matches, and equals the length exactly when everything matches. |
| PackedArrays.FindFrom | src/godot_component/core/packed_array.rs:188-196 | The first match at or after `from`, or none exactly when nothing matches there. |
| PackedArrays.FindBack | src/godot_component/core/packed_array.rs:198-206 | The last match at or before `i`, or none exactly when nothing matches there. |
| PackedArrays.RFindFrom | src/godot_component/core/packed_array.rs:198-206 | A missing or past-the-end `from` starts the scan at the last element. |
| PackedArrays.Contains | src/godot_component/core/packed_array.rs:178-181 | True exactly when some element equals `e1(val)`. |
| PackedArrays.Count | src/godot_component/core/packed_array.rs:183-186 | The count of `e1(val)`. |
| PackedArrays.Find | src/godot_component/core/packed_array.rs:188-196 | The first match of `e1(val)` from `from`, or from 0 when none is given. |
| PackedArrays.RFind | src/godot_component/core/packed_array.rs:198-206 | The last match of `e1(val)` at or before the clamped start. |
| PackedArrays.Subarray | src/godot_component/core/packed_array.rs:208-217 | Godot's `subarray` result, stored under a new handle. |
| PackedArrays.ToAfterFrom | src/godot_component/core/packed_array.rs:134-143 | For a family whose projections undo each other, `to(from(s)) == s`. |
| PackedArrays.FromPreservesOthers | src/godot_component/core/packed_array.rs:134-137 | Creating an array leaves every existing handle's value unchanged. |
| PackedArrays.DeniedFailsFirst | src/godot_component/core/packed_array.rs:135-214 | With the interface denied, all eleven operations fail, and the context is unchanged. |
| PackedArrays.SliceAgreesWithGet | src/godot_component/core/packed_array.rs:145-176 | `slice(i, i+1)` is `[get(i)]`, and they fail together. |
| PackedArrays.SearchesAgree | src/godot_component/core/packed_array.rs:178-206 | `contains` agrees with `find` from the start, with `rfind` from the end, and with `count > 0`. |
| PackedArrays.FamiliesLawful | src/godot_component/core/packed_array.rs:222-230 | All nine element types round-trip through their projections and their variant embedding. |
| PackedArrays.FamiliesDisjoint | src/godot_component/core/packed_array.rs:222-230 | A handle made by the byte-array family is a type error for each of the other eight families. |
| PackedArrays.NaNNeverFound | src/godot_component/core/packed_array.rs:178-181 | A NaN is never found in a float array. |

## Left out

- Lock handling. The store mutex, `acquire_store` and `release_store` (src/wasm_instance.rs:504-551) are concurrency. Every operation here sees the store directly.
- The WASI context, stdin pipes, `stdin_add_line` and `stdin_close` (src/wasm_instance.rs:305-360, 1055-1084). These are I/O. WASI is only a set of functions the linker provides.
- `config_store_common` is not part of this model. `FreshStore` takes the epoch timeout from the configuration.
- `InstanceWasm::new` is taken to succeed once every import resolves. Link-time type mismatches are not modelled.
- The guest call: `call_unchecked`, `from_raw`, `to_raw` and `store.gc()`. These are foreign calls. Value conversion is a parameter, and the model stops at the buffer handed to the guest.
- `get_float`, `put_float`, `get_double`, `put_double`, `read_struct` and `write_struct` (src/wasm_instance.rs:1172-1200, 1368-1380). These involve floating-point rounding and a struct-format parser.
- `bind_wasm_callable`, `register_object`, `registry_get`, `registry_set`, `unregister_object`, `has_memory`, `memory_set_name`, `reset_epoch`, `get_module` and the `initialize` wrapper. These are Godot-facing glue around the modelled operations.
- Rayon parallelism in `put_array` and `get_array`. `put_array` is modelled as a sequential loop over the record chunks, which gives the same bytes because the chunks are disjoint. `get_array` is modelled as a sequential decode.
- ImportGraph.InstantiateWasm: requires an acyclic dependency graph, given as a ghost rank. The source has no cycle detection, and a cycle would recurse without end.
- ImportGraph.SourceOf: the host table, the bridge tables and the namespace strings are parameters. The module names live in a file that is not part of this model.
- Instance.WasmInstance.GetArray: uses the corrected `LinearMemory.GetArray` of the Findings row. A count whose byte size wraps modulo 2^64 is therefore promised to fail out of bound, where a release build of the code as written returns a short or empty array. `LinearMemory.GetArrayWrapping` models that behaviour.
- Instance.WasmInstance.Initialize: the memory is kept whenever the module exports the name `memory`. The export's kind is not checked, although `get_memory` yields nothing when that export is not a memory. The `MEMORY_EXPORT` constant lives in a file that is not part of this model and is taken to be `memory`.
- LinearMemory.PutArray: the product `len * N` is unbounded. It cannot overflow for an array that exists in host memory.
- ExternrefBridge.VariantToExternref: extern-reference identity and garbage collection are not modelled. References are compared by value.
- ExternrefBridge.ArrFill: requires that `i + n` does not overflow `i32`.
- ExternrefBridge.ArrGrow: requires that the new length fits in `i32`.
- ExternrefBridge.StrCreate: requires that `s + n` does not overflow `u32`. UTF-8 lossy decoding is a parameter.
- ExternrefBridge.ToI64: the `i32`, `f32`, `f64`, `Vector2` and `Vector3` conversions of `variant_convert!` are not modelled. Their range checks live in gdnative.
- ExternrefBridge.DictIter: the callback is a pure function of its arguments. Its effects on the instance are not modelled.
- The other bridge functions: `arr.create`, `dict.create`, the two `duplicate`s, `dict.size`, `dict.key_in`, `dict.get`, `dict.set`, `dict.delete`, `dict.clear`, `str.read`, `str.len` and the object-call functions (src/wasm_externref_godot.rs:141-149, 195-217, 254-354). These are thin wrappers over Godot containers.
- PackedArrays.FindFrom, PackedArrays.RFindFrom, PackedArrays.Find, PackedArrays.RFind: the source passes `from` straight to the godot crate's `find` and `rfind`. The search rules modelled are assumed Godot semantics, not code in this repository: a missing `from` starts `find` at 0, a missing or past-the-end `from` makes `rfind` start at the last element, and equality is IEEE equality on the values' bit patterns.
- PackedArrays.Subarray: Godot's `subarray` range semantics are a parameter, because the source delegates them without a check.
- PackedArrays.Filter: the capability filter is reduced to a set of denied (interface, operation) pairs.
- PackedArrays.GetValue: handles are read, not consumed.
- PackedArrays.StringArray: the conversion between Rust `String` and Godot `GString` is taken to round-trip.

## Findings

| source | as written | input that shows it | evidently intended | confidence | as-written member | corrected member |
|---|---|---|---|---|---|---|
| src/wasm_instance.rs:1283-1292 | `get_array` computes the end `i + n * N` in `usize`. A release build wraps it modulo 2^64. | `get_array(0, 2^62, 30)` wraps `n * 4` to 0 and returns an empty `PackedInt32Array` with no error. A debug build panics. | A count whose byte range cannot exist is reported as out of bound. | not executed; high that it wraps, medium that a release build is the one in use | LinearMemory.GetArrayWrapsOnHugeCount | LinearMemory.GetArray |
