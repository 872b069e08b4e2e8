/** Little-endian byte encodings, the wire format of every scalar and record
    the memory layer moves (`to_le_bytes` / `from_le_bytes`). */
module LittleEndian {

  type byte = x: int | 0 <= x < 256

  function Pow256(w: nat): (p: nat)
    ensures p > 0
  {
    if w == 0 then 1 else 256 * Pow256(w - 1)
  }

  /** The `w` low-order bytes of `v`, least significant first. For a
      negative `v` these are its two's-complement bytes, so the encoding of
      `v` is the encoding of `v & (256^w - 1)`; Dafny's `%` and `/` are
      Euclidean, hence `v % 256` is the low byte for either sign. */
  function LeEncode(v: int, w: nat): (s: seq<byte>)
    ensures |s| == w
    decreases w
  {
    if w == 0 then [] else [v % 256] + LeEncode(v / 256, w - 1)
  }

  /** `uN::from_le_bytes`: the unsigned value of a little-endian run. */
  function LeDecode(s: seq<byte>): (v: nat)
    ensures v < Pow256(|s|)
  {
    if s == [] then 0 else s[0] + 256 * LeDecode(s[1..])
  }

  /** `iN::from_le_bytes`: the two's-complement value of a non-empty run. */
  function LeDecodeSigned(s: seq<byte>): (v: int)
    requires |s| > 0
    ensures -((Pow256(|s|) / 2) as int) <= v < Pow256(|s|) / 2
  {
    HalfPow(|s|);
    var u := LeDecode(s);
    if u < Pow256(|s|) / 2 then u else u - Pow256(|s|)
  }

  lemma HalfPow(w: nat)
    requires w > 0
    ensures Pow256(w) == 2 * (Pow256(w) / 2)
  {
    assert Pow256(w) == 256 * Pow256(w - 1);
  }

  /** Euclidean division split into two steps: the remainder modulo `a * b`
      is the remainder modulo `a` plus `a` times the next digit. */
  lemma ModSplit(v: int, a: nat, b: nat)
    requires a > 0 && b > 0
    ensures v % (a * b) == v % a + a * ((v / a) % b)
  {
    var q, r := v / a, v % a;
    var q2, r2 := q / b, q % b;
    assert v == a * q + r;
    assert q == b * q2 + r2;
    assert v == (a * b) * q2 + (a * r2 + r) by {
      calc {
        v;
        a * q + r;
        a * (b * q2 + r2) + r;
        { assert a * (b * q2 + r2) == (a * b) * q2 + a * r2; }
        (a * b) * q2 + (a * r2 + r);
      }
    }
    assert 0 <= a * r2 + r < a * b by {
      assert r2 <= b - 1;
      assert a * r2 <= a * (b - 1);
      assert a * (b - 1) == a * b - a;
    }
    ModUnique(v, a * b, q2, a * r2 + r);
  }

  /** The remainder is determined by any decomposition with a remainder in range. */
  lemma ModUnique(v: int, m: nat, q: int, r: int)
    requires m > 0 && v == m * q + r && 0 <= r < m
    ensures v % m == r
  {
    var q0, r0 := v / m, v % m;
    assert v == m * q0 + r0;
    assert m * (q - q0) == r0 - r by {
      assert m * (q - q0) == m * q - m * q0;
    }
    MulSmall(m, q - q0);
  }

  /** A multiple of `m` strictly between `-m` and `m` is zero. */
  lemma MulSmall(m: nat, d: int)
    requires m > 0 && -(m as int) < m * d < m
    ensures d == 0
  {
  }

  /** Decoding what was encoded gives the value reduced modulo 256^w: this is
      `get_N` after `put_N` returning `v` masked to N bits. */
  lemma {:induction false} DecodeEncode(v: int, w: nat)
    ensures LeDecode(LeEncode(v, w)) == v % Pow256(w)
    decreases w
  {
    if w > 0 {
      var s := LeEncode(v, w);
      assert s[1..] == LeEncode(v / 256, w - 1);
      DecodeEncode(v / 256, w - 1);
      ModSplit(v, 256, Pow256(w - 1));
    }
  }

  /** Encoding what was decoded gives back the bytes: a read followed by a
      write of the same width changes nothing. */
  lemma {:induction false} EncodeDecode(s: seq<byte>)
    ensures LeEncode(LeDecode(s), |s|) == s
  {
    if s != [] {
      var v := LeDecode(s);
      var rest := LeDecode(s[1..]);
      assert v == s[0] + 256 * rest;
      assert v % 256 == s[0] by { ModUnique(v, 256, rest, s[0]); }
      assert v / 256 == rest by {
        var q := v / 256;
        assert v == 256 * q + v % 256;
      }
      EncodeDecode(s[1..]);
    }
  }

  /** A value already within `w` unsigned bytes survives the round trip. */
  lemma UnsignedRoundTrip(v: int, w: nat)
    requires 0 <= v < Pow256(w)
    ensures LeDecode(LeEncode(v, w)) == v
  {
    DecodeEncode(v, w);
    ModUnique(v, Pow256(w), 0, v);
  }

  /** A value within the `w`-byte two's-complement range survives the round
      trip through the signed decoder: `i64::from_le_bytes(v.to_le_bytes()) == v`. */
  lemma SignedRoundTrip(v: int, w: nat)
    requires w > 0
    requires -((Pow256(w) / 2) as int) <= v < Pow256(w) / 2
    ensures LeDecodeSigned(LeEncode(v, w)) == v
  {
    HalfPow(w);
    DecodeEncode(v, w);
    if v >= 0 {
      ModUnique(v, Pow256(w), 0, v);
    } else {
      ModUnique(v, Pow256(w), -1, v + Pow256(w));
    }
  }
}
