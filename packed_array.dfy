/** The packed-array host interfaces of the Godot component binding: one
    set of eleven operations (`from`, `to`, `slice`, `len`, `is-empty`,
    `get`, `contains`, `count`, `find`, `rfind`, `subarray`) instantiated
    for nine element types. Each element type is a `Family`: the guest wire
    type `H`, the Godot element type `G`, the projection pair `e1: H -> G`,
    `e2: G -> H` (the identity for the plain numeric arrays), Godot's element
    equality, and the way a packed array sits inside a variant. The context
    holds the capability filter and the resource table of variants. */
module PackedArrays {
  import opened Wrappers
  import opened MachineInts
  import opened LittleEndian

  /** Godot-side element types. Floats are IEEE bit patterns. */
  datatype GVector2 = GVector2(x: u32, y: u32)
  datatype GVector3 = GVector3(x: u32, y: u32, z: u32)
  datatype GColor = GColor(r: u32, g: u32, b: u32, a: u32)
  datatype GString = GString(chars: seq<char>)

  /** Guest-side (wire) records of the vector and color interfaces. */
  datatype WireVector2 = WireVector2(x: u32, y: u32)
  datatype WireVector3 = WireVector3(x: u32, y: u32, z: u32)
  datatype WireColor = WireColor(r: u32, g: u32, b: u32, a: u32)

  /** A variant held in the resource table. */
  datatype Value =
    | PackedBytes(bytes: seq<byte>)
    | PackedInt32s(i32s: seq<i32>)
    | PackedInt64s(i64s: seq<i64>)
    | PackedFloat32s(f32s: seq<u32>)
    | PackedFloat64s(f64s: seq<u64>)
    | PackedVector2s(v2s: seq<GVector2>)
    | PackedVector3s(v3s: seq<GVector3>)
    | PackedColors(colors: seq<GColor>)
    | PackedStrings(strings: seq<GString>)
    | OtherVariant

  datatype Family<!G, !H> = Family(
    iface: string,
    e1: H -> G,
    e2: G -> H,
    eq: (G, G) -> bool,
    wrap: seq<G> -> Value,
    unwrap: Value -> Option<seq<G>>)

  /** A family whose projections and variant embedding undo each other. */
  ghost predicate Lawful<G(!new), H(!new)>(f: Family<G, H>) {
    (forall h: H :: f.e2(f.e1(h)) == h) &&
    (forall s: seq<G> :: f.unwrap(f.wrap(s)) == Some(s))
  }

  /** The host context: the capability filter as the set of denied
      (interface, operation) pairs, and the resource table. */
  datatype Ctx = Ctx(denied: set<(string, string)>, table: map<nat, Value>, next: nat)

  /** Every handle in the table was issued before `next`. */
  ghost predicate CtxValid(c: Ctx) {
    forall h :: h in c.table ==> h < c.next
  }

  datatype PackedError =
    | Denied(iface: string, op: string)
    | UnknownResource(handle: nat)
    | WrongVariantType
    | RangeOutOfBound(begin: u32, end: u32)
    | IndexOutOfBound(index: u32)

  function Allowed<G, H>(c: Ctx, f: Family<G, H>, op: string): bool {
    (f.iface, op) !in c.denied
  }

  /** The filter check every operation performs first. */
  function Filter<G, H>(c: Ctx, f: Family<G, H>, op: string): (r: Result<(), PackedError>)
    ensures r.Ok? <==> Allowed(c, f, op)
    ensures r.Err? ==> r.error == Denied(f.iface, op)
  {
    if Allowed(c, f, op) then Ok(()) else Err(Denied(f.iface, op))
  }

  function MapSeq<X, Y>(g: X -> Y, s: seq<X>): (r: seq<Y>)
    ensures |r| == |s|
    ensures forall i :: 0 <= i < |s| ==> r[i] == g(s[i])
  {
    seq(|s|, i requires 0 <= i < |s| => g(s[i]))
  }

  /** `get_value`: the packed array behind a handle. */
  function GetValue<G, H>(c: Ctx, f: Family<G, H>, h: nat): (r: Result<seq<G>, PackedError>)
    ensures h !in c.table ==> r == Err(UnknownResource(h))
    ensures h in c.table ==>
              (r.Ok? <==> f.unwrap(c.table[h]).Some?) &&
              (r.Ok? ==> r.value == f.unwrap(c.table[h]).value) &&
              (r.Err? ==> r.error == WrongVariantType)
  {
    if h !in c.table then Err(UnknownResource(h))
    else match f.unwrap(c.table[h])
      case None => Err(WrongVariantType)
      case Some(s) => Ok(s)
  }

  /** `set_into_var`: store a new variant under a fresh handle. */
  function SetIntoVar(c: Ctx, v: Value): (r: (nat, Ctx))
    ensures r.0 == c.next && r.1.next == c.next + 1
    ensures r.1.table == c.table[c.next := v] && r.1.denied == c.denied
    ensures CtxValid(c) ==> CtxValid(r.1) && r.0 !in c.table
  {
    (c.next, Ctx(c.denied, c.table[c.next := v], c.next + 1))
  }

  /** `from`: the guest sequence, projected by `e1`, becomes a new array. */
  function From<G, H>(c: Ctx, f: Family<G, H>, val: seq<H>): (r: (Result<nat, PackedError>, Ctx))
    ensures !Allowed(c, f, "from") ==> r == (Err(Denied(f.iface, "from")), c)
    ensures Allowed(c, f, "from") ==>
              r.0 == Ok(c.next) && r.1.next == c.next + 1 && r.1.denied == c.denied &&
              r.1.table == c.table[c.next := f.wrap(MapSeq(f.e1, val))]
  {
    match Filter(c, f, "from")
    case Err(e) => (Err(e), c)
    case Ok(_) =>
      var (h, c') := SetIntoVar(c, f.wrap(MapSeq(f.e1, val)));
      (Ok(h), c')
  }

  /** `to`: the whole array, projected by `e2`. */
  function To<G, H>(c: Ctx, f: Family<G, H>, h: nat): (r: Result<seq<H>, PackedError>)
    ensures !Allowed(c, f, "to") ==> r == Err(Denied(f.iface, "to"))
    ensures Allowed(c, f, "to") && GetValue(c, f, h).Err? ==> r == Err(GetValue(c, f, h).error)
    ensures Allowed(c, f, "to") && GetValue(c, f, h).Ok? ==>
              r.Ok? && |r.value| == |GetValue(c, f, h).value| &&
              forall i :: 0 <= i < |r.value| ==> r.value[i] == f.e2(GetValue(c, f, h).value[i])
  {
    match Filter(c, f, "to")
    case Err(e) => Err(e)
    case Ok(_) =>
      match GetValue(c, f, h)
      case Err(e) => Err(e)
      case Ok(s) => Ok(MapSeq(f.e2, s))
  }

  /** `slice(begin, end)`: elements `[begin, end)`, or out of bound unless
      `begin <= end <= len`. */
  function Slice<G, H>(c: Ctx, f: Family<G, H>, h: nat, begin: u32, end: u32): (r: Result<seq<H>, PackedError>)
    ensures !Allowed(c, f, "slice") ==> r == Err(Denied(f.iface, "slice"))
    ensures Allowed(c, f, "slice") && GetValue(c, f, h).Err? ==> r == Err(GetValue(c, f, h).error)
    ensures Allowed(c, f, "slice") && GetValue(c, f, h).Ok? ==>
              var s := GetValue(c, f, h).value;
              (r.Ok? <==> begin <= end <= |s|) &&
              (r.Err? ==> r.error == RangeOutOfBound(begin, end)) &&
              (r.Ok? ==> |r.value| == end - begin) &&
              (r.Ok? ==> forall k :: 0 <= k < |r.value| ==> r.value[k] == f.e2(s[begin + k]))
  {
    match Filter(c, f, "slice")
    case Err(e) => Err(e)
    case Ok(_) =>
      match GetValue(c, f, h)
      case Err(e) => Err(e)
      case Ok(s) =>
        if begin <= end <= |s| then Ok(MapSeq(f.e2, s[begin..end]))
        else Err(RangeOutOfBound(begin, end))
  }

  /** `len`: the length, truncated to `u32` by the `as` cast. */
  function Len<G, H>(c: Ctx, f: Family<G, H>, h: nat): (r: Result<u32, PackedError>)
    ensures !Allowed(c, f, "len") ==> r == Err(Denied(f.iface, "len"))
    ensures Allowed(c, f, "len") && GetValue(c, f, h).Err? ==> r == Err(GetValue(c, f, h).error)
    ensures Allowed(c, f, "len") && GetValue(c, f, h).Ok? ==>
              r.Ok? && (|GetValue(c, f, h).value| < TWO_32 ==> r.value == |GetValue(c, f, h).value|)
  {
    match Filter(c, f, "len")
    case Err(e) => Err(e)
    case Ok(_) =>
      match GetValue(c, f, h)
      case Err(e) => Err(e)
      case Ok(s) => Ok(|s| % TWO_32)
  }

  /** `is-empty`. */
  function IsEmpty<G, H>(c: Ctx, f: Family<G, H>, h: nat): (r: Result<bool, PackedError>)
    ensures !Allowed(c, f, "is-empty") ==> r == Err(Denied(f.iface, "is-empty"))
    ensures Allowed(c, f, "is-empty") && GetValue(c, f, h).Err? ==> r == Err(GetValue(c, f, h).error)
    ensures Allowed(c, f, "is-empty") && GetValue(c, f, h).Ok? ==>
              r == Ok(GetValue(c, f, h).value == [])
  {
    match Filter(c, f, "is-empty")
    case Err(e) => Err(e)
    case Ok(_) =>
      match GetValue(c, f, h)
      case Err(e) => Err(e)
      case Ok(s) => Ok(|s| == 0)
  }

  /** `get(i)`: element `i` projected by `e2`, or out of bound iff `i >= len`. */
  function Get<G, H>(c: Ctx, f: Family<G, H>, h: nat, i: u32): (r: Result<H, PackedError>)
    ensures !Allowed(c, f, "get") ==> r == Err(Denied(f.iface, "get"))
    ensures Allowed(c, f, "get") && GetValue(c, f, h).Err? ==> r == Err(GetValue(c, f, h).error)
    ensures Allowed(c, f, "get") && GetValue(c, f, h).Ok? ==>
              (r.Ok? <==> i < |GetValue(c, f, h).value|) &&
              (r.Ok? ==> r.value == f.e2(GetValue(c, f, h).value[i])) &&
              (r.Err? ==> r.error == IndexOutOfBound(i))
  {
    match Filter(c, f, "get")
    case Err(e) => Err(e)
    case Ok(_) =>
      match GetValue(c, f, h)
      case Err(e) => Err(e)
      case Ok(s) => if i < |s| then Ok(f.e2(s[i])) else Err(IndexOutOfBound(i))
  }

  /** Godot's `count`: how many elements equal `x`. */
  function CountEq<G>(s: seq<G>, x: G, eq: (G, G) -> bool): (n: nat)
    ensures n <= |s|
    ensures n == 0 <==> forall j :: 0 <= j < |s| ==> !eq(s[j], x)
    ensures n == |s| <==> forall j :: 0 <= j < |s| ==> eq(s[j], x)
  {
    if s == [] then 0
    else
      var rest := CountEq(s[1..], x, eq);
      assert forall j :: 1 <= j < |s| ==> s[j] == s[1..][j - 1];
      (if eq(s[0], x) then 1 else 0) + rest
  }

  /** Godot's `find(value, from)`: the first match at or after `from`. */
  function FindFrom<G>(s: seq<G>, x: G, eq: (G, G) -> bool, from: nat): (r: Option<nat>)
    ensures r.Some? ==> from <= r.value < |s| && eq(s[r.value], x) &&
                        forall j :: from <= j < r.value ==> !eq(s[j], x)
    ensures r.None? <==> forall j :: from <= j < |s| ==> !eq(s[j], x)
    decreases |s| - from
  {
    if from >= |s| then None
    else if eq(s[from], x) then Some(from)
    else FindFrom(s, x, eq, from + 1)
  }

  /** Godot's backward scan from index `i` down to 0. */
  function FindBack<G>(s: seq<G>, x: G, eq: (G, G) -> bool, i: int): (r: Option<nat>)
    requires i < |s|
    ensures r.Some? ==> r.value <= i && eq(s[r.value], x) &&
                        forall j :: r.value < j <= i ==> !eq(s[j], x)
    ensures r.None? <==> forall j :: 0 <= j <= i ==> !eq(s[j], x)
    decreases i + 1
  {
    if i < 0 then None
    else if eq(s[i], x) then Some(i)
    else FindBack(s, x, eq, i - 1)
  }

  /** Godot's `rfind(value, from)`: a missing `from` or one past the end
      starts the scan at the last element. */
  function RFindFrom<G>(s: seq<G>, x: G, eq: (G, G) -> bool, from: Option<nat>): (r: Option<nat>)
    ensures from.Some? && from.value < |s| ==> r == FindBack(s, x, eq, from.value)
    ensures from.None? || from.value >= |s| ==> r == FindBack(s, x, eq, |s| - 1)
  {
    if from.Some? && from.value < |s| then FindBack(s, x, eq, from.value)
    else FindBack(s, x, eq, |s| - 1)
  }

  /** `contains(val)`: `val` is converted by `e1`, then searched. */
  function Contains<G, H>(c: Ctx, f: Family<G, H>, h: nat, val: H): (r: Result<bool, PackedError>)
    ensures !Allowed(c, f, "contains") ==> r == Err(Denied(f.iface, "contains"))
    ensures Allowed(c, f, "contains") && GetValue(c, f, h).Err? ==> r == Err(GetValue(c, f, h).error)
    ensures Allowed(c, f, "contains") && GetValue(c, f, h).Ok? ==>
              var s := GetValue(c, f, h).value;
              r.Ok? && (r.value <==> exists j :: 0 <= j < |s| && f.eq(s[j], f.e1(val)))
  {
    match Filter(c, f, "contains")
    case Err(e) => Err(e)
    case Ok(_) =>
      match GetValue(c, f, h)
      case Err(e) => Err(e)
      case Ok(s) => Ok(FindFrom(s, f.e1(val), f.eq, 0).Some?)
  }

  /** `count(val)`, truncated to `u32`. */
  function Count<G, H>(c: Ctx, f: Family<G, H>, h: nat, val: H): (r: Result<u32, PackedError>)
    ensures !Allowed(c, f, "count") ==> r == Err(Denied(f.iface, "count"))
    ensures Allowed(c, f, "count") && GetValue(c, f, h).Err? ==> r == Err(GetValue(c, f, h).error)
    ensures Allowed(c, f, "count") && GetValue(c, f, h).Ok? ==>
              var s := GetValue(c, f, h).value;
              r.Ok? && (|s| < TWO_32 ==> r.value == CountEq(s, f.e1(val), f.eq))
  {
    match Filter(c, f, "count")
    case Err(e) => Err(e)
    case Ok(_) =>
      match GetValue(c, f, h)
      case Err(e) => Err(e)
      case Ok(s) => Ok(CountEq(s, f.e1(val), f.eq) % TWO_32)
  }

  function OptToU32(o: Option<nat>): Option<u32> {
    match o
    case None => None
    case Some(v) => Some(v % TWO_32)
  }

  /** `find(val, from)`: a missing `from` searches from the start. */
  function Find<G, H>(c: Ctx, f: Family<G, H>, h: nat, val: H, from: Option<u32>): (r: Result<Option<u32>, PackedError>)
    ensures !Allowed(c, f, "find") ==> r == Err(Denied(f.iface, "find"))
    ensures Allowed(c, f, "find") && GetValue(c, f, h).Err? ==> r == Err(GetValue(c, f, h).error)
    ensures Allowed(c, f, "find") && GetValue(c, f, h).Ok? ==>
              var s := GetValue(c, f, h).value;
              var start: nat := if from.Some? then from.value else 0;
              r.Ok? && (r.value.None? <==> forall j :: start <= j < |s| ==> !f.eq(s[j], f.e1(val))) &&
              (|s| < TWO_32 && r.value.Some? ==>
                 start <= r.value.value < |s| && f.eq(s[r.value.value], f.e1(val)) &&
                 forall j :: start <= j < r.value.value ==> !f.eq(s[j], f.e1(val)))
  {
    match Filter(c, f, "find")
    case Err(e) => Err(e)
    case Ok(_) =>
      match GetValue(c, f, h)
      case Err(e) => Err(e)
      case Ok(s) => Ok(OptToU32(FindFrom(s, f.e1(val), f.eq, if from.Some? then from.value else 0)))
  }

  /** `rfind(val, from)`: the last match at or before the clamped start. */
  function RFind<G, H>(c: Ctx, f: Family<G, H>, h: nat, val: H, from: Option<u32>): (r: Result<Option<u32>, PackedError>)
    ensures !Allowed(c, f, "rfind") ==> r == Err(Denied(f.iface, "rfind"))
    ensures Allowed(c, f, "rfind") && GetValue(c, f, h).Err? ==> r == Err(GetValue(c, f, h).error)
    ensures Allowed(c, f, "rfind") && GetValue(c, f, h).Ok? ==>
              var s := GetValue(c, f, h).value;
              var start: int := if from.Some? && from.value < |s| then from.value else |s| - 1;
              r.Ok? && (r.value.None? <==> forall j :: 0 <= j <= start ==> !f.eq(s[j], f.e1(val))) &&
              (|s| < TWO_32 && r.value.Some? ==>
                 r.value.value <= start && f.eq(s[r.value.value], f.e1(val)) &&
                 forall j :: r.value.value < j <= start ==> !f.eq(s[j], f.e1(val)))
  {
    match Filter(c, f, "rfind")
    case Err(e) => Err(e)
    case Ok(_) =>
      match GetValue(c, f, h)
      case Err(e) => Err(e)
      case Ok(s) =>
        var fr: Option<nat> := if from.Some? then Some(from.value as nat) else None;
        Ok(OptToU32(RFindFrom(s, f.e1(val), f.eq, fr)))
  }

  /** `subarray(begin, end)`: Godot's own `subarray` (a parameter here)
      applied to the array, stored under a fresh handle. */
  function Subarray<G, H>(c: Ctx, f: Family<G, H>, h: nat, begin: u32, end: u32,
                          godotSub: (seq<G>, int, int) -> seq<G>): (r: (Result<nat, PackedError>, Ctx))
    ensures !Allowed(c, f, "subarray") ==> r == (Err(Denied(f.iface, "subarray")), c)
    ensures Allowed(c, f, "subarray") && GetValue(c, f, h).Err? ==> r == (Err(GetValue(c, f, h).error), c)
    ensures Allowed(c, f, "subarray") && GetValue(c, f, h).Ok? ==>
              r.0 == Ok(c.next) && r.1.next == c.next + 1 && r.1.denied == c.denied &&
              r.1.table == c.table[c.next := f.wrap(godotSub(GetValue(c, f, h).value, begin, end))]
  {
    match Filter(c, f, "subarray")
    case Err(e) => (Err(e), c)
    case Ok(_) =>
      match GetValue(c, f, h)
      case Err(e) => (Err(e), c)
      case Ok(s) =>
        var (h', c') := SetIntoVar(c, f.wrap(godotSub(s, begin, end)));
        (Ok(h'), c')
  }

  /** Reading the array `from` just created gives the guest sequence back. */
  lemma ToAfterFrom<G(!new), H(!new)>(c: Ctx, f: Family<G, H>, val: seq<H>)
    requires Lawful(f)
    requires Allowed(c, f, "from") && Allowed(c, f, "to")
    ensures From(c, f, val).0.Ok?
    ensures To(From(c, f, val).1, f, From(c, f, val).0.value) == Ok(val)
  {
    var (r, c') := From(c, f, val);
    var s := MapSeq(f.e1, val);
    assert f.unwrap(f.wrap(s)) == Some(s);
    assert GetValue(c', f, c.next) == Ok(s);
    var back := MapSeq(f.e2, s);
    assert forall i :: 0 <= i < |val| ==> back[i] == f.e2(f.e1(val[i])) == val[i];
    assert back == val;
  }

  /** Creating an array leaves every existing handle as it was. */
  lemma FromPreservesOthers<G, H, G2, H2>(c: Ctx, f: Family<G, H>, val: seq<H>, g: Family<G2, H2>, h: nat)
    requires CtxValid(c) && h in c.table
    ensures GetValue(From(c, f, val).1, g, h) == GetValue(c, g, h)
  {
  }

  /** A denied operation fails and leaves the context as it was, whatever
      its arguments. */
  lemma DeniedFailsFirst<G, H>(c: Ctx, f: Family<G, H>, h: nat, val: H, vals: seq<H>, i: u32, from: Option<u32>,
                               godotSub: (seq<G>, int, int) -> seq<G>)
    requires forall op :: op in Ops ==> (f.iface, op) in c.denied
    ensures From(c, f, vals) == (Err(Denied(f.iface, "from")), c)
    ensures To(c, f, h).Err? && Slice(c, f, h, i, i).Err? && Len(c, f, h).Err? && IsEmpty(c, f, h).Err?
    ensures Get(c, f, h, i).Err? && Contains(c, f, h, val).Err? && Count(c, f, h, val).Err?
    ensures Find(c, f, h, val, from).Err? && RFind(c, f, h, val, from).Err?
    ensures Subarray(c, f, h, i, i, godotSub) == (Err(Denied(f.iface, "subarray")), c)
  {
    assert "from" in Ops && "to" in Ops && "slice" in Ops && "len" in Ops && "is-empty" in Ops;
    assert "get" in Ops && "contains" in Ops && "count" in Ops && "find" in Ops && "rfind" in Ops;
    assert "subarray" in Ops;
  }

  /** The operation names the filter is keyed by. */
  const Ops: seq<string> := ["from", "to", "slice", "len", "is-empty", "get", "contains", "count", "find", "rfind", "subarray"]

  /** A one-element slice is the element `get` returns. */
  lemma SliceAgreesWithGet<G, H>(c: Ctx, f: Family<G, H>, h: nat, i: u32)
    requires Allowed(c, f, "slice") && Allowed(c, f, "get")
    requires i < TWO_32 - 1
    ensures Get(c, f, h, i).Ok? <==> Slice(c, f, h, i, i + 1).Ok?
    ensures Get(c, f, h, i).Ok? ==> Slice(c, f, h, i, i + 1) == Ok([Get(c, f, h, i).value])
  {
    if Get(c, f, h, i).Ok? {
      var sl := Slice(c, f, h, i, i + 1).value;
      assert sl == [sl[0]];
    }
  }

  /** `contains` is true exactly when `find` from the start and `rfind`
      from the end succeed, and exactly when `count` is positive. */
  lemma SearchesAgree<G, H>(c: Ctx, f: Family<G, H>, h: nat, val: H)
    requires Allowed(c, f, "contains") && Allowed(c, f, "find") && Allowed(c, f, "rfind") && Allowed(c, f, "count")
    requires GetValue(c, f, h).Ok? && |GetValue(c, f, h).value| < TWO_32
    ensures Contains(c, f, h, val).value == Find(c, f, h, val, None).value.Some?
    ensures Contains(c, f, h, val).value == RFind(c, f, h, val, None).value.Some?
    ensures Contains(c, f, h, val).value == (Count(c, f, h, val).value > 0)
  {
    var s := GetValue(c, f, h).value;
    var x := f.e1(val);
    if Contains(c, f, h, val).value {
      var j :| 0 <= j < |s| && f.eq(s[j], x);
      assert !(forall k :: 0 <= k <= |s| - 1 ==> !f.eq(s[k], x));
    }
  }

  // IEEE 754 equality on bit patterns: NaN equals nothing, the two zeros
  // are equal.

  predicate IsNaN32(b: u32) {
    (b / 0x80_0000) % 0x100 == 0xFF && b % 0x80_0000 != 0
  }

  predicate FloatEq32(a: u32, b: u32)
    ensures FloatEq32(a, b) ==> !IsNaN32(a) && !IsNaN32(b)
  {
    !IsNaN32(a) && !IsNaN32(b) && (a == b || (a % 0x8000_0000 == 0 && b % 0x8000_0000 == 0))
  }

  predicate IsNaN64(b: u64) {
    (b / 0x10_0000_0000_0000) % 0x800 == 0x7FF && b % 0x10_0000_0000_0000 != 0
  }

  predicate FloatEq64(a: u64, b: u64)
    ensures FloatEq64(a, b) ==> !IsNaN64(a) && !IsNaN64(b)
  {
    !IsNaN64(a) && !IsNaN64(b) && (a == b || (a % 0x8000_0000_0000_0000 == 0 && b % 0x8000_0000_0000_0000 == 0))
  }

  const ByteArray: Family<byte, byte> := Family(
    "byte_array", x => x, x => x, (a, b) => a == b,
    (s) => PackedBytes(s), (v: Value) => if v.PackedBytes? then Some(v.bytes) else None)

  const Int32Array: Family<i32, i32> := Family(
    "int32_array", x => x, x => x, (a, b) => a == b,
    (s) => PackedInt32s(s), (v: Value) => if v.PackedInt32s? then Some(v.i32s) else None)

  const Int64Array: Family<i64, i64> := Family(
    "int64_array", x => x, x => x, (a, b) => a == b,
    (s) => PackedInt64s(s), (v: Value) => if v.PackedInt64s? then Some(v.i64s) else None)

  const Float32Array: Family<u32, u32> := Family(
    "float32_array", x => x, x => x, FloatEq32,
    (s) => PackedFloat32s(s), (v: Value) => if v.PackedFloat32s? then Some(v.f32s) else None)

  const Float64Array: Family<u64, u64> := Family(
    "float64_array", x => x, x => x, FloatEq64,
    (s) => PackedFloat64s(s), (v: Value) => if v.PackedFloat64s? then Some(v.f64s) else None)

  const Vector2Array: Family<GVector2, WireVector2> := Family(
    "vector2_array",
    (v: WireVector2) => GVector2(v.x, v.y),
    (v: GVector2) => WireVector2(v.x, v.y),
    (a: GVector2, b: GVector2) => FloatEq32(a.x, b.x) && FloatEq32(a.y, b.y),
    (s) => PackedVector2s(s), (v: Value) => if v.PackedVector2s? then Some(v.v2s) else None)

  const Vector3Array: Family<GVector3, WireVector3> := Family(
    "vector3_array",
    (v: WireVector3) => GVector3(v.x, v.y, v.z),
    (v: GVector3) => WireVector3(v.x, v.y, v.z),
    (a: GVector3, b: GVector3) => FloatEq32(a.x, b.x) && FloatEq32(a.y, b.y) && FloatEq32(a.z, b.z),
    (s) => PackedVector3s(s), (v: Value) => if v.PackedVector3s? then Some(v.v3s) else None)

  const ColorArray: Family<GColor, WireColor> := Family(
    "color_array",
    (v: WireColor) => GColor(v.r, v.g, v.b, v.a),
    (v: GColor) => WireColor(v.r, v.g, v.b, v.a),
    (a: GColor, b: GColor) => FloatEq32(a.r, b.r) && FloatEq32(a.g, b.g) && FloatEq32(a.b, b.b) && FloatEq32(a.a, b.a),
    (s) => PackedColors(s), (v: Value) => if v.PackedColors? then Some(v.colors) else None)

  const StringArray: Family<GString, string> := Family(
    "string_array",
    (v: string) => GString(v),
    (v: GString) => v.chars,
    (a: GString, b: GString) => a == b,
    (s) => PackedStrings(s), (v: Value) => if v.PackedStrings? then Some(v.strings) else None)

  /** All nine element types round-trip, so `to(from(s)) == s` for each. */
  lemma FamiliesLawful()
    ensures Lawful(ByteArray) && Lawful(Int32Array) && Lawful(Int64Array)
    ensures Lawful(Float32Array) && Lawful(Float64Array)
    ensures Lawful(Vector2Array) && Lawful(Vector3Array) && Lawful(ColorArray) && Lawful(StringArray)
  {
  }

  /** Element types are not interchangeable: a handle made by the byte
      family is a type error for each of the other eight. */
  lemma FamiliesDisjoint(c: Ctx, s: seq<byte>)
    requires Allowed(c, ByteArray, "from")
    ensures GetValue(From(c, ByteArray, s).1, Int32Array, c.next) == Err(WrongVariantType)
    ensures GetValue(From(c, ByteArray, s).1, Int64Array, c.next) == Err(WrongVariantType)
    ensures GetValue(From(c, ByteArray, s).1, Float32Array, c.next) == Err(WrongVariantType)
    ensures GetValue(From(c, ByteArray, s).1, Float64Array, c.next) == Err(WrongVariantType)
    ensures GetValue(From(c, ByteArray, s).1, Vector2Array, c.next) == Err(WrongVariantType)
    ensures GetValue(From(c, ByteArray, s).1, Vector3Array, c.next) == Err(WrongVariantType)
    ensures GetValue(From(c, ByteArray, s).1, ColorArray, c.next) == Err(WrongVariantType)
    ensures GetValue(From(c, ByteArray, s).1, StringArray, c.next) == Err(WrongVariantType)
  {
  }

  /** A NaN is never found in a float array, even in an array holding that
      very bit pattern. */
  lemma NaNNeverFound(c: Ctx, h: nat, x: u32)
    requires IsNaN32(x) && Allowed(c, Float32Array, "contains")
    requires GetValue(c, Float32Array, h).Ok?
    ensures Contains(c, Float32Array, h, x) == Ok(false)
  {
  }
}
