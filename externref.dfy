/** The host functions of the `godot` import namespace that trade Godot
    variants through extern references: the two conversions, type tests,
    booleans, the in-place array functions, dictionary iteration and string
    creation from guest memory. Godot arrays and dictionaries are shared by
    reference, so they are classes here. */
module ExternrefBridge {
  import opened Wrappers
  import opened MachineInts
  import opened LittleEndian

  /** The import namespace the functions are registered under. */
  const GodotModule: string := "godot"

  /** A Godot variant. Floats are carried as their bit patterns. */
  datatype Variant =
    | Nil
    | Bool(b: bool)
    | I64(i: i64)
    | F64(bits: u64)
    | Str(text: string)
    | Vector2(x: u32, y: u32)
    | Vector3(x: u32, y: u32, z: u32)
    | Array(arr: VariantArray)
    | Dictionary(dict: VariantDict)
    | Object(id: nat)

  datatype VariantType = NilType | BoolType | IntType | FloatType | StringType
                       | Vector2Type | Vector3Type | ArrayType | DictionaryType | ObjectType

  function TypeOf(v: Variant): VariantType {
    match v
    case Nil => NilType
    case Bool(_) => BoolType
    case I64(_) => IntType
    case F64(_) => FloatType
    case Str(_) => StringType
    case Vector2(_, _) => Vector2Type
    case Vector3(_, _, _) => Vector3Type
    case Array(_) => ArrayType
    case Dictionary(_) => DictionaryType
    case Object(_) => ObjectType
  }

  class VariantArray {
    var elems: seq<Variant>
    constructor (elems: seq<Variant>)
      ensures this.elems == elems
    {
      this.elems := elems;
    }
  }

  class VariantDict {
    var entries: seq<(Variant, Variant)>
    constructor (entries: seq<(Variant, Variant)>)
      ensures this.entries == entries
    {
      this.entries := entries;
    }
  }

  /** The payload of an extern reference: a Godot variant, or data some
      other host code put there. */
  datatype ExternRef = HostVariant(v: Variant) | ForeignData

  datatype Trap =
    | NullValue
    | NotAGodotVariant
    | WrongVariantType(expected: VariantType)
    | OutOfBound
    | FunctionIsNull
    | SignatureMismatch
    | NoMemoryExported
    | GuestTrap(msg: string)

  /** `variant_to_externref`: nil becomes the null reference. */
  function VariantToExternref(v: Variant): (r: Option<ExternRef>)
    ensures r.None? <==> v.Nil?
    ensures r.Some? ==> r.value == HostVariant(v)
  {
    if v.Nil? then None else Some(HostVariant(v))
  }

  /** `externref_to_variant`: the null reference becomes nil. */
  function ExternrefToVariant(e: Option<ExternRef>): (r: Result<Variant, Trap>)
    ensures e.None? ==> r == Ok(Nil)
    ensures e.Some? && e.value.HostVariant? ==> r == Ok(e.value.v)
    ensures e.Some? && e.value.ForeignData? ==> r == Err(NotAGodotVariant)
  {
    match e
    case None => Ok(Nil)
    case Some(HostVariant(v)) => Ok(v)
    case Some(ForeignData) => Err(NotAGodotVariant)
  }

  /** `externref_to_variant_nonnull`: as above, but null is an error. */
  function ExternrefToVariantNonnull(e: Option<ExternRef>): (r: Result<Variant, Trap>)
    ensures e.None? ==> r == Err(NullValue)
    ensures e.Some? ==> r == ExternrefToVariant(e)
  {
    match e
    case None => Err(NullValue)
    case Some(_) => ExternrefToVariant(e)
  }

  /** Every variant survives the trip through an extern reference. */
  lemma ExternrefRoundTrip(v: Variant)
    ensures ExternrefToVariant(VariantToExternref(v)) == Ok(v)
    ensures !v.Nil? ==> ExternrefToVariantNonnull(VariantToExternref(v)) == Ok(v)
  {
  }

  /** Every extern reference the bridge can decode is re-encoded to itself. */
  lemma VariantRoundTrip(e: Option<ExternRef>)
    requires ExternrefToVariant(e).Ok?
    ensures VariantToExternref(ExternrefToVariant(e).value) == e || e == Some(HostVariant(Nil))
  {
  }

  /** `var.is_var`: 1 for a reference to a Godot variant, 0 otherwise. */
  function IsVar(e: Option<ExternRef>): (r: int)
    ensures r == 1 <==> e.Some? && e.value.HostVariant?
    ensures r == 0 || r == 1
  {
    if e.Some? && e.value.HostVariant? then 1 else 0
  }

  /** `var.is_int`, `var.is_float`, ...: 1 when the referenced variant has
      type `t`; a null or foreign reference is 0. */
  function IsType(e: Option<ExternRef>, t: VariantType): (r: int)
    ensures r == 1 <==> e.Some? && e.value.HostVariant? && TypeOf(e.value.v) == t
    ensures r == 0 || r == 1
    ensures e.None? ==> r == 0
  {
    match e
    case Some(HostVariant(v)) => if TypeOf(v) == t then 1 else 0
    case _ => 0
  }

  /** `var.from_bool`: any non-zero input is true. */
  function FromBool(v: i32): (r: Option<ExternRef>)
    ensures r == Some(HostVariant(Bool(v != 0)))
  {
    VariantToExternref(Bool(v != 0))
  }

  /** `var.to_bool`: 1 or 0 for a boolean variant. */
  function ToBool(e: Option<ExternRef>): (r: Result<int, Trap>)
    ensures ExternrefToVariantNonnull(e).Err? ==> r == Err(ExternrefToVariantNonnull(e).error)
    ensures ExternrefToVariantNonnull(e).Ok? && !ExternrefToVariantNonnull(e).value.Bool? ==>
              r == Err(WrongVariantType(BoolType))
    ensures r.Ok? ==> e == Some(HostVariant(Bool(r.value == 1))) && (r.value == 0 || r.value == 1)
  {
    match ExternrefToVariantNonnull(e)
    case Err(t) => Err(t)
    case Ok(v) => if v.Bool? then Ok(if v.b then 1 else 0) else Err(WrongVariantType(BoolType))
  }

  /** The boolean the guest hands over comes back as 1 or 0. */
  lemma BoolRoundTrip(v: i32)
    ensures ToBool(FromBool(v)) == Ok(if v != 0 then 1 else 0)
  {
  }

  /** `var.from_i64`. */
  function FromI64(v: i64): (r: Option<ExternRef>)
    ensures r == Some(HostVariant(I64(v)))
  {
    VariantToExternref(I64(v))
  }

  /** `var.to_i64`: the integer of an integer variant. */
  function ToI64(e: Option<ExternRef>): (r: Result<i64, Trap>)
    ensures ExternrefToVariantNonnull(e).Err? ==> r == Err(ExternrefToVariantNonnull(e).error)
    ensures ExternrefToVariantNonnull(e).Ok? && !ExternrefToVariantNonnull(e).value.I64? ==>
              r == Err(WrongVariantType(IntType))
    ensures r.Ok? ==> e == Some(HostVariant(I64(r.value)))
  {
    match ExternrefToVariantNonnull(e)
    case Err(t) => Err(t)
    case Ok(v) => if v.I64? then Ok(v.i) else Err(WrongVariantType(IntType))
  }

  lemma IntRoundTrip(v: i64)
    ensures ToI64(FromI64(v)) == Ok(v)
  {
  }

  /** `externref_to_object::<VariantArray>`: the array the reference names. */
  function DecodeArray(e: Option<ExternRef>): (r: Result<VariantArray, Trap>)
    ensures ExternrefToVariantNonnull(e).Err? ==> r == Err(ExternrefToVariantNonnull(e).error)
    ensures ExternrefToVariantNonnull(e).Ok? ==>
              (r.Ok? <==> ExternrefToVariantNonnull(e).value.Array?) &&
              (r.Ok? ==> r.value == ExternrefToVariantNonnull(e).value.arr) &&
              (r.Err? ==> r.error == WrongVariantType(ArrayType))
  {
    match ExternrefToVariantNonnull(e)
    case Err(t) => Err(t)
    case Ok(v) => if v.Array? then Ok(v.arr) else Err(WrongVariantType(ArrayType))
  }

  /** `externref_to_object::<Dictionary>`. */
  function DecodeDict(e: Option<ExternRef>): (r: Result<VariantDict, Trap>)
    ensures ExternrefToVariantNonnull(e).Err? ==> r == Err(ExternrefToVariantNonnull(e).error)
    ensures ExternrefToVariantNonnull(e).Ok? ==>
              (r.Ok? <==> ExternrefToVariantNonnull(e).value.Dictionary?) &&
              (r.Ok? ==> r.value == ExternrefToVariantNonnull(e).value.dict) &&
              (r.Err? ==> r.error == WrongVariantType(DictionaryType))
  {
    match ExternrefToVariantNonnull(e)
    case Err(t) => Err(t)
    case Ok(v) => if v.Dictionary? then Ok(v.dict) else Err(WrongVariantType(DictionaryType))
  }

  function ArrFrame(e: Option<ExternRef>): set<object> {
    if DecodeArray(e).Ok? then {DecodeArray(e).value} else {}
  }

  /** `arr.size`. */
  function ArrSize(e: Option<ExternRef>): (r: Result<int, Trap>)
    reads ArrFrame(e)
    ensures DecodeArray(e).Err? ==> r == Err(DecodeArray(e).error)
    ensures DecodeArray(e).Ok? ==> r == Ok(|DecodeArray(e).value.elems|)
  {
    match DecodeArray(e)
    case Err(t) => Err(t)
    case Ok(a) => Ok(|a.elems|)
  }

  /** `arr.get(v, i)`: element `i` as an extern reference, when `0 <= i < len`. */
  function ArrGet(e: Option<ExternRef>, i: i32): (r: Result<Option<ExternRef>, Trap>)
    reads ArrFrame(e)
    ensures DecodeArray(e).Err? ==> r == Err(DecodeArray(e).error)
    ensures DecodeArray(e).Ok? ==>
              var a := DecodeArray(e).value;
              (r.Ok? <==> 0 <= i < |a.elems|) &&
              (r.Ok? ==> r.value == VariantToExternref(a.elems[i])) &&
              (r.Ok? ==> ExternrefToVariant(r.value) == Ok(a.elems[i])) &&
              (r.Err? ==> r.error == OutOfBound)
  {
    match DecodeArray(e)
    case Err(t) => Err(t)
    case Ok(a) =>
      if i < 0 || i >= |a.elems| then Err(OutOfBound)
      else
        ExternrefRoundTrip(a.elems[i]);
        Ok(VariantToExternref(a.elems[i]))
  }

  /** `arr.set(v, i, x)`: `x` is decoded before the bounds check; only
      element `i` changes. */
  method ArrSet(e: Option<ExternRef>, i: i32, x: Option<ExternRef>) returns (r: Result<(), Trap>)
    modifies ArrFrame(e)
    ensures DecodeArray(e).Err? ==> r == Err(DecodeArray(e).error)
    ensures DecodeArray(e).Ok? && ExternrefToVariant(x).Err? ==> r == Err(ExternrefToVariant(x).error)
    ensures DecodeArray(e).Ok? && ExternrefToVariant(x).Ok? ==>
              var a := DecodeArray(e).value;
              (r.Ok? <==> 0 <= i < |old(a.elems)|) &&
              (r.Err? ==> r.error == OutOfBound) &&
              (r.Ok? ==> a.elems == old(a.elems)[i := ExternrefToVariant(x).value])
    ensures r.Err? && DecodeArray(e).Ok? ==> unchanged(DecodeArray(e).value)
  {
    var d := DecodeArray(e);
    if d.Err? {
      return Err(d.error);
    }
    var a := d.value;
    var xv := ExternrefToVariant(x);
    if xv.Err? {
      return Err(xv.error);
    }
    if i < 0 || i >= |a.elems| {
      return Err(OutOfBound);
    }
    a.elems := a.elems[i := xv.value];
    return Ok(());
  }

  /** `arr.fill(v, i, x, n)`: the range `[i, i + n)` is checked before `x`
      is decoded, then set element by element. */
  method ArrFill(e: Option<ExternRef>, i: i32, x: Option<ExternRef>, n: i32) returns (r: Result<(), Trap>)
    requires i as int + n as int < 0x8000_0000
    modifies ArrFrame(e)
    ensures DecodeArray(e).Err? ==> r == Err(DecodeArray(e).error)
    ensures DecodeArray(e).Ok? ==>
              var a := DecodeArray(e).value;
              (n < 0 || i < 0 || i + n > |old(a.elems)| ==> r == Err(OutOfBound)) &&
              (0 <= n && 0 <= i && i + n <= |old(a.elems)| && ExternrefToVariant(x).Err? ==>
                 r == Err(ExternrefToVariant(x).error)) &&
              (0 <= n && 0 <= i && i + n <= |old(a.elems)| && ExternrefToVariant(x).Ok? ==> r.Ok?) &&
              (r.Ok? ==>
                 |a.elems| == |old(a.elems)| &&
                 (forall j :: i <= j < i + n ==> a.elems[j] == ExternrefToVariant(x).value) &&
                 (forall j :: 0 <= j < |a.elems| && !(i <= j < i + n) ==> a.elems[j] == old(a.elems[j])))
    ensures r.Err? && DecodeArray(e).Ok? ==> unchanged(DecodeArray(e).value)
  {
    var d := DecodeArray(e);
    if d.Err? {
      return Err(d.error);
    }
    var a := d.value;
    if n < 0 || i < 0 || i + n > |a.elems| {
      return Err(OutOfBound);
    }
    var xv := ExternrefToVariant(x);
    if xv.Err? {
      return Err(xv.error);
    }
    for j := i to i + n
      invariant |a.elems| == |old(a.elems)|
      invariant forall k :: i <= k < j ==> a.elems[k] == xv.value
      invariant forall k :: 0 <= k < |a.elems| && !(i <= k < j) ==> a.elems[k] == old(a.elems[k])
    {
      a.elems := a.elems[j := xv.value];
    }
    return Ok(());
  }

  /** `arr.grow(v, x, n)`: a positive `n` appends `n` copies of `x`; a
      negative `n` resizes to `len - n`, which grows the array by `|n|`
      nil elements; the new length is returned. */
  method ArrGrow(e: Option<ExternRef>, x: Option<ExternRef>, n: i32) returns (r: Result<int, Trap>)
    requires DecodeArray(e).Ok? ==> |DecodeArray(e).value.elems| + (if n < 0 then -(n as int) else n as int) < 0x8000_0000
    modifies ArrFrame(e)
    ensures DecodeArray(e).Err? ==> r == Err(DecodeArray(e).error)
    ensures DecodeArray(e).Ok? && ExternrefToVariant(x).Err? ==> r == Err(ExternrefToVariant(x).error)
    ensures DecodeArray(e).Ok? && ExternrefToVariant(x).Ok? ==>
              var a := DecodeArray(e).value;
              r == Ok(|a.elems|) &&
              (n > 0 ==> a.elems == old(a.elems) + seq(n, _ => ExternrefToVariant(x).value)) &&
              (n < 0 ==> a.elems == old(a.elems) + seq(-n, _ => Nil)) &&
              (n == 0 ==> a.elems == old(a.elems))
    ensures r.Err? && DecodeArray(e).Ok? ==> unchanged(DecodeArray(e).value)
  {
    var d := DecodeArray(e);
    if d.Err? {
      return Err(d.error);
    }
    var a := d.value;
    var xv := ExternrefToVariant(x);
    if xv.Err? {
      return Err(xv.error);
    }
    if n > 0 {
      var k := 0;
      while k < n
        invariant 0 <= k <= n
        invariant a.elems == old(a.elems) + seq(k, _ => xv.value)
      {
        a.elems := a.elems + [xv.value];
        k := k + 1;
      }
    } else if n < 0 {
      a.elems := Resize(a.elems, |a.elems| - n);
    }
    return Ok(|a.elems|);
  }

  /** Godot's `resize`: truncate, or pad with nil. */
  function Resize(s: seq<Variant>, len: nat): (r: seq<Variant>)
    ensures |r| == len
    ensures forall j :: 0 <= j < len && j < |s| ==> r[j] == s[j]
    ensures forall j :: |s| <= j < len ==> r[j] == Nil
  {
    if len <= |s| then s[..len] else s + seq(len - |s|, _ => Nil)
  }

  /** A guest callback `(externref, externref) -> i32`. Its effects on the
      rest of the system are not modelled; only what it returns. */
  datatype Callback = Callback(typed: bool, call: (Option<ExternRef>, Option<ExternRef>) -> Result<int, string>)

  /** The answer of the callback to entry `j`. */
  function CallAt(f: Callback, entries: seq<(Variant, Variant)>, j: nat): Result<int, string>
    requires j < |entries|
  {
    f.call(VariantToExternref(entries[j].0), VariantToExternref(entries[j].1))
  }

  /** The number of leading entries the callback accepts with 0. */
  function ZeroRun(f: Callback, entries: seq<(Variant, Variant)>): (k: nat)
    ensures k <= |entries|
    ensures forall j :: 0 <= j < k ==> CallAt(f, entries, j) == Ok(0)
    ensures k < |entries| ==> CallAt(f, entries, k) != Ok(0)
  {
    if entries == [] then 0
    else if CallAt(f, entries, 0) != Ok(0) then 0
    else
      var k := ZeroRun(f, entries[1..]);
      assert forall j :: 1 <= j < 1 + k ==> CallAt(f, entries, j) == CallAt(f, entries[1..], j - 1);
      assert k < |entries| - 1 ==> CallAt(f, entries[1..], k) == CallAt(f, entries, k + 1);
      1 + k
  }

  /** `dict.iter(d, f)`: a null callback fails before any call, a callback
      of the wrong signature next; then entries are passed in order, and
      iteration stops right after the first non-zero answer or at the first
      trap. `called` is the number of calls made. */
  method DictIter(e: Option<ExternRef>, f: Option<Callback>) returns (r: Result<(), Trap>, ghost called: nat)
    ensures DecodeDict(e).Err? ==> r == Err(DecodeDict(e).error)
    ensures DecodeDict(e).Ok? && f.None? ==> r == Err(FunctionIsNull)
    ensures DecodeDict(e).Ok? && f.Some? && !f.value.typed ==> r == Err(SignatureMismatch)
    ensures DecodeDict(e).Ok? && f.Some? && f.value.typed ==>
              var es := DecodeDict(e).value.entries;
              var k := ZeroRun(f.value, es);
              (k < |es| && CallAt(f.value, es, k).Err? ==> r == Err(GuestTrap(CallAt(f.value, es, k).error))) &&
              (k == |es| || CallAt(f.value, es, k).Ok? ==> r == Ok(()))
    ensures called == if DecodeDict(e).Ok? && f.Some? && f.value.typed then
                        var es := DecodeDict(e).value.entries;
                        var k := ZeroRun(f.value, es);
                        if k < |es| then k + 1 else k
                      else 0
  {
    called := 0;
    var d := DecodeDict(e);
    if d.Err? {
      return Err(d.error), called;
    }
    if f.None? {
      return Err(FunctionIsNull), called;
    }
    var cb := f.value;
    if !cb.typed {
      return Err(SignatureMismatch), called;
    }
    var es := d.value.entries;
    var j := 0;
    while j < |es|
      invariant 0 <= j <= |es|
      invariant forall k :: 0 <= k < j ==> CallAt(cb, es, k) == Ok(0)
      invariant called == j
    {
      var res := cb.call(VariantToExternref(es[j].0), VariantToExternref(es[j].1));
      assert res == CallAt(cb, es, j);
      called := called + 1;
      if res.Err? {
        assert ZeroRun(cb, es) == j;
        return Err(GuestTrap(res.error)), called;
      }
      if res.value != 0 {
        assert ZeroRun(cb, es) == j;
        return Ok(()), called;
      }
      j := j + 1;
    }
    assert ZeroRun(cb, es) == j;
    return Ok(()), called;
  }

  /** `str.create(s, n)` on the caller's exported memory: the bytes
      `[s, s + n)` decoded by `decode` (UTF-8 with replacement characters). */
  function StrCreate(memory: Option<seq<byte>>, s: u32, n: u32, decode: seq<byte> -> string): (r: Result<Option<ExternRef>, Trap>)
    requires s + n < TWO_32
    ensures memory.None? ==> r == Err(NoMemoryExported)
    ensures memory.Some? ==>
              (r.Ok? <==> s + n <= |memory.value|) &&
              (r.Err? ==> r.error == OutOfBound) &&
              (r.Ok? ==> r.value == Some(HostVariant(Str(decode(memory.value[s..s + n])))))
  {
    match memory
    case None => Err(NoMemoryExported)
    case Some(m) =>
      if s + n <= |m| then Ok(VariantToExternref(Str(decode(m[s..s + n])))) else Err(OutOfBound)
  }
}
