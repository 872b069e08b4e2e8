/** The linear-memory access layer below `WasmInstance`: bounds-checked
    reads and writes of a byte buffer (`read_memory` / `write_memory`) and the
    bulk record codec behind `put_array` / `get_array`. Offsets here are
    already `usize` values; the instance layer does the casts. */
module LinearMemory {
  import opened Wrappers
  import MachineInts
  import opened LittleEndian

  datatype MemError =
    | IndexOutOfBound(start: nat, end: nat)
    | UnknownValueType
    | UnsupportedTypeId(id: int)
    | UnknownType(id: int)

  /** `data.get(i..i + n)`: the bytes at `[i, i + n)` or a bounds error. */
  function ReadRange(mem: seq<byte>, i: nat, n: nat): (r: Result<seq<byte>, MemError>)
    ensures r.Ok? <==> i + n <= |mem|
    ensures r.Ok? ==> |r.value| == n && forall j :: 0 <= j < n ==> r.value[j] == mem[i + j]
    ensures r.Err? ==> r.error == IndexOutOfBound(i, i + n)
  {
    if i + n <= |mem| then Ok(mem[i..i + n]) else Err(IndexOutOfBound(i, i + n))
  }

  /** The buffer after `src` is copied over `[i, i + |src|)`. */
  function Splice(mem: seq<byte>, i: nat, src: seq<byte>): (r: seq<byte>)
    requires i + |src| <= |mem|
    ensures |r| == |mem|
  {
    mem[..i] + src + mem[i + |src|..]
  }

  /** Byte by byte: `src` lands at `[i, i + |src|)` and nothing else moves. */
  lemma SplicePointwise(mem: seq<byte>, i: nat, src: seq<byte>)
    requires i + |src| <= |mem|
    ensures forall j :: 0 <= j < |src| ==> Splice(mem, i, src)[i + j] == src[j]
    ensures forall j :: 0 <= j < |mem| && !(i <= j < i + |src|) ==> Splice(mem, i, src)[j] == mem[j]
  {
  }

  /** Reading back the range just written yields what was written. */
  lemma ReadAfterWrite(mem: seq<byte>, i: nat, src: seq<byte>)
    requires i + |src| <= |mem|
    ensures ReadRange(Splice(mem, i, src), i, |src|) == Ok(src)
  {
    var m := Splice(mem, i, src);
    assert m[i..i + |src|] == src;
  }

  /** Reading a range that does not overlap the write yields the old bytes. */
  lemma ReadDisjointFromWrite(mem: seq<byte>, i: nat, src: seq<byte>, k: nat, n: nat)
    requires i + |src| <= |mem|
    requires k + n <= i || i + |src| <= k
    ensures ReadRange(Splice(mem, i, src), k, n) == ReadRange(mem, k, n)
  {
    if k + n <= |mem| {
      var m := Splice(mem, i, src);
      assert m[k..k + n] == mem[k..k + n];
    }
  }

  /** `write_memory` with a `copy_from_slice` body: the whole range is checked
      first, and a failed write changes no byte. */
  method WriteMemory(mem: array<byte>, i: nat, src: seq<byte>) returns (r: Result<(), MemError>)
    modifies mem
    ensures r.Ok? <==> i + |src| <= mem.Length
    ensures r.Err? ==> r.error == IndexOutOfBound(i, i + |src|)
    ensures r.Ok? ==> mem[..] == Splice(old(mem[..]), i, src)
    ensures r.Err? ==> mem[..] == old(mem[..])
  {
    if i + |src| > mem.Length {
      return Err(IndexOutOfBound(i, i + |src|));
    }
    var k := 0;
    while k < |src|
      invariant 0 <= k <= |src|
      invariant forall j :: 0 <= j < k ==> mem[i + j] == src[j]
      invariant forall j :: 0 <= j < mem.Length && !(i <= j < i + k) ==> mem[j] == old(mem[j])
    {
      mem[i + k] := src[k];
      k := k + 1;
    }
    assert mem[..] == Splice(old(mem[..]), i, src);
    return Ok(());
  }

  // ---------------------------------------------------------------------
  // Scalars

  /** `v & (256^w - 1)`: on two's-complement values the mask is the
      Euclidean remainder, for negative `v` as well. */
  function Mask(v: int, w: nat): (m: nat)
    ensures m < Pow256(w)
  {
    v % Pow256(w)
  }

  /** Masking before encoding changes no byte: `put_64`'s unmasked
      `to_le_bytes` and the masked `put_8`/`put_16`/`put_32` agree. */
  lemma EncodeMasked(v: int, w: nat)
    ensures LeEncode(Mask(v, w), w) == LeEncode(v, w)
  {
    DecodeEncode(v, w);
    EncodeDecode(LeEncode(v, w));
  }

  /** Reading `w` bytes back after writing the little-endian bytes of `v`
      gives `v` modulo `256^w`, and every byte outside `[i, i + w)` keeps
      its value. */
  lemma ScalarRoundTrip(mem: seq<byte>, i: nat, v: int, w: nat)
    requires i + w <= |mem|
    ensures ReadRange(Splice(mem, i, LeEncode(v, w)), i, w) == Ok(LeEncode(v, w))
    ensures LeDecode(LeEncode(v, w)) == Mask(v, w)
    ensures forall j :: 0 <= j < |mem| && !(i <= j < i + w) ==> Splice(mem, i, LeEncode(v, w))[j] == mem[j]
  {
    ReadAfterWrite(mem, i, LeEncode(v, w));
    DecodeEncode(v, w);
  }

  // ---------------------------------------------------------------------
  // Bulk records

  /** The element types `put_array` / `get_array` move. Floating-point
      fields are carried as their IEEE-754 bit patterns. */
  datatype ElemKind = ByteK | Int32K | Int64K | Float32K | Float64K | Vector2K | Vector3K | ColorK

  function FieldCount(k: ElemKind): (c: nat)
    ensures c > 0
  {
    match k
    case Vector2K => 2
    case Vector3K => 3
    case ColorK => 4
    case _ => 1
  }

  function FieldWidth(k: ElemKind): (w: nat)
    ensures w > 0
  {
    match k
    case ByteK => 1
    case Int64K => 8
    case Float64K => 8
    case _ => 4
  }

  /** Only the integer arrays decode fields as two's complement. */
  predicate Signed(k: ElemKind) {
    k == Int32K || k == Int64K
  }

  /** `N`, the byte width of one record. */
  function RecordWidth(k: ElemKind): (n: nat)
    ensures n > 0
  {
    match k
    case ByteK => 1
    case Int32K => 4
    case Int64K => 8
    case Float32K => 4
    case Float64K => 8
    case Vector2K => 8
    case Vector3K => 12
    case ColorK => 16
  }

  /** A record is its fields laid side by side. */
  lemma RecordWidthIsFields(k: ElemKind)
    ensures RecordWidth(k) == FieldCount(k) * FieldWidth(k)
  {
  }

  /** The host's variant type IDs of the packed arrays. */
  function TypeId(k: ElemKind): int {
    match k
    case ByteK => 29
    case Int32K => 30
    case Int64K => 31
    case Float32K => 32
    case Float64K => 33
    case Vector2K => 35
    case Vector3K => 36
    case ColorK => 37
  }

  /** The `get_array` dispatch on a type ID. */
  function KindOfTypeId(t: int): (r: Result<ElemKind, MemError>)
    ensures r.Ok? <==> t in {29, 30, 31, 32, 33, 35, 36, 37}
    ensures r.Ok? ==> TypeId(r.value) == t
    ensures r.Err? && t <= 37 ==> r.error == UnsupportedTypeId(t)
    ensures r.Err? && t > 37 ==> r.error == UnknownType(t)
  {
    match t
    case 29 => Ok(ByteK)
    case 30 => Ok(Int32K)
    case 31 => Ok(Int64K)
    case 32 => Ok(Float32K)
    case 33 => Ok(Float64K)
    case 35 => Ok(Vector2K)
    case 36 => Ok(Vector3K)
    case 37 => Ok(ColorK)
    case _ => if t <= 37 then Err(UnsupportedTypeId(t)) else Err(UnknownType(t))
  }

  lemma KindOfTypeIdInverse(k: ElemKind)
    ensures KindOfTypeId(TypeId(k)) == Ok(k)
  {
  }

  /** A field value the element type can hold. */
  predicate FieldFits(k: ElemKind, v: int) {
    if Signed(k) then -((Pow256(FieldWidth(k)) / 2) as int) <= v < Pow256(FieldWidth(k)) / 2
    else 0 <= v < Pow256(FieldWidth(k))
  }

  predicate WellFormedRecord(k: ElemKind, rec: seq<int>) {
    |rec| == FieldCount(k) && forall j :: 0 <= j < |rec| ==> FieldFits(k, rec[j])
  }

  predicate WellFormedRecords(k: ElemKind, recs: seq<seq<int>>) {
    forall j :: 0 <= j < |recs| ==> WellFormedRecord(k, recs[j])
  }

  /** Every record has the field count of its element type; the values
      themselves may be anything. */
  predicate Shaped(k: ElemKind, recs: seq<seq<int>>) {
    forall j :: 0 <= j < |recs| ==> |recs[j]| == FieldCount(k)
  }

  /** A packed host array: its element type and its records. */
  datatype PackedArray = PackedArray(kind: ElemKind, elems: seq<seq<int>>)

  /** The value `put_array` receives: a packed array or any other variant. */
  datatype HostValue = Packed(arr: PackedArray) | OtherValue

  function DecodeField(k: ElemKind, b: seq<byte>): int
    requires |b| == FieldWidth(k)
  {
    if Signed(k) then LeDecodeSigned(b) else LeDecode(b)
  }

  /** The fields of one record, each `FieldWidth` little-endian bytes. */
  function EncodeFields(k: ElemKind, rec: seq<int>): (s: seq<byte>)
    ensures |s| == |rec| * FieldWidth(k)
  {
    if rec == [] then [] else LeEncode(rec[0], FieldWidth(k)) + EncodeFields(k, rec[1..])
  }

  function DecodeFields(k: ElemKind, b: seq<byte>, count: nat): (rec: seq<int>)
    requires |b| == count * FieldWidth(k)
    ensures |rec| == count
  {
    if count == 0 then []
    else
      var w := FieldWidth(k);
      [DecodeField(k, b[..w])] + DecodeFields(k, b[w..], count - 1)
  }

  /** A concatenation splits back into its two parts. */
  lemma SplitConcat(x: seq<byte>, y: seq<byte>)
    ensures (x + y)[..|x|] == x && (x + y)[|x|..] == y
  {
  }

  lemma {:induction false} FieldsRoundTrip(k: ElemKind, rec: seq<int>)
    requires forall j :: 0 <= j < |rec| ==> FieldFits(k, rec[j])
    ensures DecodeFields(k, EncodeFields(k, rec), |rec|) == rec
  {
    if rec != [] {
      var w := FieldWidth(k);
      SplitConcat(LeEncode(rec[0], w), EncodeFields(k, rec[1..]));
      FieldRoundTrip(k, rec[0]);
      FieldsRoundTrip(k, rec[1..]);
    }
  }

  /** One field decodes back to the value it was encoded from. */
  lemma FieldRoundTrip(k: ElemKind, v: int)
    requires FieldFits(k, v)
    ensures DecodeField(k, LeEncode(v, FieldWidth(k))) == v
  {
    if Signed(k) {
      SignedRoundTrip(v, FieldWidth(k));
    } else {
      UnsignedRoundTrip(v, FieldWidth(k));
    }
  }

  /** The contiguous little-endian run of `recs`, one record after another. */
  function EncodeRecords(k: ElemKind, recs: seq<seq<int>>): (s: seq<byte>)
    requires Shaped(k, recs)
    ensures |s| == |recs| * RecordWidth(k)
  {
    if recs == [] then []
    else
      RecordWidthIsFields(k);
      EncodeFields(k, recs[0]) + EncodeRecords(k, recs[1..])
  }

  /** `par_chunks_exact(N).map(decode)`, sequentially: `n` records of `N` bytes. */
  function DecodeRecords(k: ElemKind, b: seq<byte>, n: nat): (recs: seq<seq<int>>)
    requires |b| == n * RecordWidth(k)
    ensures |recs| == n
  {
    if n == 0 then []
    else
      var w := RecordWidth(k);
      RecordWidthIsFields(k);
      [DecodeFields(k, b[..w], FieldCount(k))] + DecodeRecords(k, b[w..], n - 1)
  }

  lemma {:induction false} EncodeRecordsSnoc(k: ElemKind, recs: seq<seq<int>>, rec: seq<int>)
    requires Shaped(k, recs) && |rec| == FieldCount(k)
    ensures Shaped(k, recs + [rec])
    ensures EncodeRecords(k, recs + [rec]) == EncodeRecords(k, recs) + EncodeFields(k, rec)
  {
    if recs != [] {
      assert (recs + [rec])[1..] == recs[1..] + [rec];
      EncodeRecordsSnoc(k, recs[1..], rec);
    } else {
      assert ([] + [rec])[1..] == [];
    }
  }

  /** Decoding the encoded run gives back the records. */
  lemma {:induction false} RecordsRoundTrip(k: ElemKind, recs: seq<seq<int>>)
    requires WellFormedRecords(k, recs)
    ensures DecodeRecords(k, EncodeRecords(k, recs), |recs|) == recs
  {
    if recs != [] {
      RecordWidthIsFields(k);
      SplitConcat(EncodeFields(k, recs[0]), EncodeRecords(k, recs[1..]));
      FieldsRoundTrip(k, recs[0]);
      RecordsRoundTrip(k, recs[1..]);
    }
  }
  /** Arithmetic on record offsets. */
  lemma MulStep(j: nat, w: nat)
    ensures (j + 1) * w == j * w + w
  {
  }

  lemma MulMono(a: nat, b: nat, w: nat)
    requires a <= b
    ensures a * w <= b * w
  {
  }

  /** Record `j` of a decoded run is the decoding of bytes `[j*N, j*N + N)`. */
  lemma {:induction false} DecodeRecordsAt(k: ElemKind, b: seq<byte>, n: nat, j: nat)
    requires |b| == n * RecordWidth(k) && j < n
    decreases j, 1
    ensures j * RecordWidth(k) + RecordWidth(k) <= |b|
    ensures DecodeRecords(k, b, n)[j] ==
            DecodeFields(k, b[j * RecordWidth(k)..j * RecordWidth(k) + RecordWidth(k)], FieldCount(k))
  {
    var w := RecordWidth(k);
    MulStep(j, w);
    MulMono(j + 1, n, w);
    if j == 0 {
      assert b[0..w] == b[..w];
    } else {
      DecodeRecordsAtStep(k, b, n, j);
    }
  }

  lemma {:induction false} DecodeRecordsAtStep(k: ElemKind, b: seq<byte>, n: nat, j: nat)
    requires |b| == n * RecordWidth(k) && 0 < j < n
    ensures j * RecordWidth(k) + RecordWidth(k) <= |b|
    ensures DecodeRecords(k, b, n)[j] ==
            DecodeFields(k, b[j * RecordWidth(k)..j * RecordWidth(k) + RecordWidth(k)], FieldCount(k))
    decreases j, 0
  {
    var w := RecordWidth(k);
    MulStep(j, w);
    MulMono(j + 1, n, w);
    MulStep(n - 1, w);
    MulStep(j - 1, w);
    DecodeRecordsAt(k, b[w..], n - 1, j - 1);
    SliceOfSuffix(b, w, (j - 1) * w, w);
  }

  /** A window of a suffix is a window of the whole. */
  lemma SliceOfSuffix(b: seq<byte>, d: nat, p: nat, w: nat)
    requires d + p + w <= |b|
    ensures b[d..][p..p + w] == b[d + p..d + p + w]
  {
  }

  /** A window of a range is a window of the whole. */
  lemma SliceOfRange(b: seq<byte>, d: nat, e: nat, p: nat, w: nat)
    requires d <= e <= |b| && p + w <= e - d
    ensures b[d..e][p..p + w] == b[d + p..d + p + w]
  {
    var x, y := b[d..e][p..p + w], b[d + p..d + p + w];
    forall t | 0 <= t < w
      ensures x[t] == y[t]
    {
    }
  }

  /** `get_array(i, n, t)`: the type ID is dispatched before memory is read,
      and the `n` records of the element type come back decoded from exactly
      the bytes at `[i, i + n*N)`. */
  function GetArray(mem: seq<byte>, i: nat, n: nat, t: int): (r: Result<PackedArray, MemError>)
    ensures KindOfTypeId(t).Err? ==> r == Err(KindOfTypeId(t).error)
    ensures KindOfTypeId(t).Ok? ==>
              var k := KindOfTypeId(t).value;
              var e := i + n * RecordWidth(k);
              (r.Ok? <==> e <= |mem|) &&
              (r.Err? ==> r.error == IndexOutOfBound(i, e)) &&
              (r.Ok? ==> r.value.kind == k && |r.value.elems| == n &&
                         r.value.elems == DecodeRecords(k, mem[i..e], n))
  {
    match KindOfTypeId(t)
    case Err(e) => Err(e)
    case Ok(k) =>
      match ReadRange(mem, i, n * RecordWidth(k))
      case Err(e) => Err(e)
      case Ok(b) => Ok(PackedArray(k, DecodeRecords(k, b, n)))
  }

  /** Record `j` of a successful `get_array` is decoded from its own `N`
      bytes at `i + j*N`. */
  lemma GetArrayRecordAt(mem: seq<byte>, i: nat, n: nat, t: int, j: nat)
    requires GetArray(mem, i, n, t).Ok? && j < n
    ensures var k := KindOfTypeId(t).value;
            var w := RecordWidth(k);
            i + j * w + w <= |mem| &&
            GetArray(mem, i, n, t).value.elems[j] == DecodeFields(k, mem[i + j * w..i + j * w + w], FieldCount(k))
  {
    var k := KindOfTypeId(t).value;
    DecodedRecordInPlace(k, mem, i, n, mem[i..i + n * RecordWidth(k)], j);
  }

  /** `get_array` as written: in a release build `i + n * N` wraps modulo
      2^64, and `par_chunks_exact(N)` then yields as many records as fit in
      whatever range the wrapped end leaves. */
  function GetArrayWrapping(mem: seq<byte>, i: nat, n: nat, t: int): (r: Result<PackedArray, MemError>)
    requires i < MachineInts.TWO_64 && n < MachineInts.TWO_64
    ensures KindOfTypeId(t).Err? ==> r == Err(KindOfTypeId(t).error)
    ensures r.Ok? ==> r.value.kind == KindOfTypeId(t).value
  {
    match KindOfTypeId(t)
    case Err(e) => Err(e)
    case Ok(k) =>
      var w := RecordWidth(k);
      var e := (i + (n * w) % MachineInts.TWO_64) % MachineInts.TWO_64;
      if i <= e <= |mem| then
        var count := (e - i) / w;
        ChunksFit(e - i, w);
        Ok(PackedArray(k, DecodeRecords(k, mem[i..i + count * w], count)))
      else Err(IndexOutOfBound(i, e))
  }

  lemma ChunksFit(len: nat, w: nat)
    requires w > 0
    ensures (len / w) * w <= len
  {
  }

  lemma ExactChunks(n: nat, w: nat)
    requires w > 0
    ensures (n * w) / w == n
  {
    var q0, r0 := (n * w) / w, (n * w) % w;
    assert n * w == w * q0 + r0;
    assert w * (n - q0) == r0 by {
      assert w * (n - q0) == w * n - w * q0;
    }
    MulSmall(w, n - q0);
  }

  /** Without overflow the code as written is `GetArray`. */
  lemma GetArrayWrappingAgrees(mem: seq<byte>, i: nat, n: nat, t: int)
    requires i < MachineInts.TWO_64 && n < MachineInts.TWO_64
    requires KindOfTypeId(t).Ok? ==> i + n * RecordWidth(KindOfTypeId(t).value) < MachineInts.TWO_64
    ensures GetArrayWrapping(mem, i, n, t) == GetArray(mem, i, n, t)
  {
    if KindOfTypeId(t).Ok? {
      var k := KindOfTypeId(t).value;
      var w := RecordWidth(k);
      assert (n * w) % MachineInts.TWO_64 == n * w;
      assert (i + n * w) % MachineInts.TWO_64 == i + n * w;
      ExactChunks(n, w);
    }
  }

  /** With a count of 2^62 four-byte records the product wraps to 0, and
      the code as written returns an empty array with no error, where
      `GetArray` reports the range as out of bound. */
  lemma GetArrayWrapsOnHugeCount()
    ensures GetArrayWrapping([], 0, 0x4000_0000_0000_0000, 30) == Ok(PackedArray(Int32K, []))
    ensures GetArray([], 0, 0x4000_0000_0000_0000, 30) == Err(IndexOutOfBound(0, 0x1_0000_0000_0000_0000))
  {
    assert KindOfTypeId(30) == Ok(Int32K);
    assert RecordWidth(Int32K) == 4;
  }

  lemma DecodedRecordInPlace(k: ElemKind, mem: seq<byte>, i: nat, n: nat, b: seq<byte>, j: nat)
    requires i + n * RecordWidth(k) <= |mem| && b == mem[i..i + n * RecordWidth(k)] && j < n
    ensures i + j * RecordWidth(k) + RecordWidth(k) <= |mem|
    ensures DecodeRecords(k, b, n)[j] ==
            DecodeFields(k, mem[i + j * RecordWidth(k)..i + j * RecordWidth(k) + RecordWidth(k)], FieldCount(k))
  {
    var w := RecordWidth(k);
    DecodeRecordsAt(k, b, n, j);
    SliceOfRange(mem, i, i + n * w, j * w, w);
  }

  /** `put_array(i, v)`: a packed array is checked against the whole range
      `[i, i + len*N)` before any byte moves, then each record is encoded
      into its own `N`-byte chunk of that range. */
  method PutArray(mem: array<byte>, i: nat, v: HostValue) returns (r: Result<(), MemError>)
    requires v.Packed? ==> Shaped(v.arr.kind, v.arr.elems)
    modifies mem
    ensures v.OtherValue? ==> r == Err(UnknownValueType)
    ensures v.Packed? ==>
              var w := RecordWidth(v.arr.kind);
              (r.Ok? <==> i + |v.arr.elems| * w <= mem.Length) &&
              (r.Err? ==> r.error == IndexOutOfBound(i, i + |v.arr.elems| * w))
    ensures r.Ok? ==> mem[..] == Splice(old(mem[..]), i, EncodeRecords(v.arr.kind, v.arr.elems))
    ensures r.Err? ==> mem[..] == old(mem[..])
  {
    if v.OtherValue? {
      return Err(UnknownValueType);
    }
    var e := i + |v.arr.elems| * RecordWidth(v.arr.kind);
    if e > mem.Length {
      return Err(IndexOutOfBound(i, e));
    }
    var chunks := RecordChunks(v.arr.kind, v.arr.elems);
    WriteChunks(mem, i, chunks);
    return Ok(());
  }

  /** Each record's encoding, one chunk per record. */
  function RecordChunks(k: ElemKind, elems: seq<seq<int>>): (cs: seq<seq<byte>>)
    requires Shaped(k, elems)
    ensures |cs| == |elems|
    ensures forall j :: 0 <= j < |elems| ==> cs[j] == EncodeFields(k, elems[j])
    ensures Flatten(cs) == EncodeRecords(k, elems)
  {
    if elems == [] then []
    else [EncodeFields(k, elems[0])] + RecordChunks(k, elems[1..])
  }

  /** The chunks laid end to end. */
  function Flatten(cs: seq<seq<byte>>): (s: seq<byte>)
  {
    if cs == [] then [] else cs[0] + Flatten(cs[1..])
  }

  lemma {:induction false} FlattenSnoc(cs: seq<seq<byte>>, c: seq<byte>)
    ensures Flatten(cs + [c]) == Flatten(cs) + c
  {
    if cs != [] {
      assert (cs + [c])[1..] == cs[1..] + [c];
      FlattenSnoc(cs[1..], c);
    } else {
      assert ([] + [c])[1..] == [];
    }
  }

  /** The buffer once the first `j` chunks are written back to back from `i`. */
  ghost function Written(before: seq<byte>, i: nat, chunks: seq<seq<byte>>, j: nat): (m: seq<byte>)
    requires j <= |chunks| && i + |Flatten(chunks)| <= |before|
  {
    FlattenPrefix(chunks, j);
    before[..i] + Flatten(chunks[..j]) + before[i + |Flatten(chunks[..j])|..]
  }

  lemma {:induction false} FlattenPrefix(cs: seq<seq<byte>>, j: nat)
    requires j <= |cs|
    ensures |Flatten(cs[..j])| <= |Flatten(cs)|
    decreases |cs| - j
  {
    if j < |cs| {
      FlattenPrefix(cs, j + 1);
      assert cs[..j + 1] == cs[..j] + [cs[j]];
      FlattenSnoc(cs[..j], cs[j]);
    } else {
      assert cs[..j] == cs;
    }
  }

  /** Chunk `j` fits right after the first `j`, and writing it there extends
      the written run by that chunk. */
  lemma WriteChunkStep(before: seq<byte>, i: nat, chunks: seq<seq<byte>>, j: nat)
    requires j < |chunks| && i + |Flatten(chunks)| <= |before|
    ensures i + |Flatten(chunks[..j])| + |chunks[j]| <= |before|
    ensures |Flatten(chunks[..j + 1])| == |Flatten(chunks[..j])| + |chunks[j]|
    ensures Splice(Written(before, i, chunks, j), i + |Flatten(chunks[..j])|, chunks[j]) ==
            Written(before, i, chunks, j + 1)
  {
    FlattenPrefix(chunks, j + 1);
    assert chunks[..j + 1] == chunks[..j] + [chunks[j]];
    FlattenSnoc(chunks[..j], chunks[j]);
  }

  /** With every chunk written, the run is the whole flattened sequence. */
  lemma WriteChunksDone(before: seq<byte>, i: nat, chunks: seq<seq<byte>>)
    requires i + |Flatten(chunks)| <= |before|
    ensures Written(before, i, chunks, |chunks|) == Splice(before, i, Flatten(chunks))
  {
    assert chunks[..|chunks|] == chunks;
  }

  /** The parallel chunk copy of `put_array`, one chunk after another: the
      chunks land back to back from `i`, and nothing outside moves. */
  method WriteChunks(mem: array<byte>, i: nat, chunks: seq<seq<byte>>)
    requires i + |Flatten(chunks)| <= mem.Length
    modifies mem
    ensures mem[..] == Splice(old(mem[..]), i, Flatten(chunks))
  {
    ghost var before := mem[..];
    var j, off := 0, i;
    while j < |chunks|
      invariant j <= |chunks| && |before| == mem.Length
      invariant off == i + |Flatten(chunks[..j])|
      invariant mem[..] == Written(before, i, chunks, j)
    {
      WriteChunkStep(before, i, chunks, j);
      var _ := WriteMemory(mem, off, chunks[j]);
      j, off := j + 1, off + |chunks[j]|;
    }
    WriteChunksDone(before, i, chunks);
  }

  /** What `put_array` stores, `get_array` with the array's type ID reads
      back unchanged. */
  lemma GetArrayAfterPutArray(mem: seq<byte>, i: nat, a: PackedArray)
    requires WellFormedRecords(a.kind, a.elems)
    requires i + |a.elems| * RecordWidth(a.kind) <= |mem|
    ensures GetArray(Splice(mem, i, EncodeRecords(a.kind, a.elems)), i, |a.elems|, TypeId(a.kind)) == Ok(a)
  {
    var src := EncodeRecords(a.kind, a.elems);
    KindOfTypeIdInverse(a.kind);
    ReadAfterWrite(mem, i, src);
    RecordsRoundTrip(a.kind, a.elems);
  }
}
