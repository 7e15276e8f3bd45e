/**
 * Go's fixed-width integer types and the little-endian codec of
 * encoding/binary, shared by every binary format of the pipeline
 * (AGG3 blobs, the QIDX index, feature files).
 */
module Bytes {

  type byte = b: int | 0 <= b < 256

  const U16_LIMIT: int := 0x1_0000
  const U32_LIMIT: int := 0x1_0000_0000
  const U64_LIMIT: int := 0x1_0000_0000_0000_0000
  const I64_LIMIT: int := 0x8000_0000_0000_0000

  type u16 = x: int | 0 <= x < 0x1_0000
  type u32 = x: int | 0 <= x < 0x1_0000_0000
  type u64 = x: int | 0 <= x < 0x1_0000_0000_0000_0000
  type i64 = x: int | -0x8000_0000_0000_0000 <= x < 0x8000_0000_0000_0000

  function Pow256(k: nat): (p: nat)
    ensures p >= 1
  {
    if k == 0 then 1 else 256 * Pow256(k - 1)
  }

  lemma Pow256Limits()
    ensures Pow256(2) == U16_LIMIT && Pow256(4) == U32_LIMIT && Pow256(8) == U64_LIMIT
  {
    assert Pow256(1) == 256;
    assert Pow256(2) == 0x1_0000;
    assert Pow256(3) == 0x100_0000;
    assert Pow256(4) == 0x1_0000_0000;
    assert Pow256(5) == 0x100_0000_0000;
    assert Pow256(6) == 0x1_0000_0000_0000;
    assert Pow256(7) == 0x100_0000_0000_0000;
  }

  /** Go's uint64(x) of a signed or wider value: the two's-complement wrap. */
  function ToU64(x: int): u64
  {
    x % U64_LIMIT
  }

  lemma ToU64Small(x: int)
    requires 0 <= x < U64_LIMIT
    ensures ToU64(x) == x
  {
  }

  lemma ToU16Small(x: int)
    requires 0 <= x < U16_LIMIT
    ensures ToU16(x) == x
  {
  }

  /** Go's uint16(x): keeps the low 16 bits. */
  function ToU16(x: int): u16
  {
    x % U16_LIMIT
  }

  /** Go's uint32(x): keeps the low 32 bits. */
  function ToU32(x: int): u32
  {
    x % U32_LIMIT
  }

  /** Go's int64(u) of a uint64: reinterprets the bit pattern. */
  function ToI64(u: u64): i64
  {
    if u < I64_LIMIT then u else u - U64_LIMIT
  }

  /** A Go int or int64 computed in 64 bits: the two's-complement wrap of
      the exact value. */
  function WrapI64(x: int): i64
  {
    ToI64(ToU64(x))
  }

  /** Wrapping part-way through n * 10 + d changes nothing: a value and
      its wrap agree modulo 2^64. */
  lemma WrapStep(x: int, d: int)
    ensures WrapI64(WrapI64(x) * 10 + d) == WrapI64(x * 10 + d)
  {
    var k := if ToU64(x) < I64_LIMIT then x / U64_LIMIT else x / U64_LIMIT + 1;
    assert WrapI64(x) == x - U64_LIMIT * k;
    var y := x * 10 + d;
    DivModUnique(WrapI64(x) * 10 + d, U64_LIMIT, y / U64_LIMIT - 10 * k, y % U64_LIMIT);
  }

  lemma {:induction false} I64RoundTrip(x: i64, u: u64)
    ensures ToI64(ToU64(x)) == x
    ensures ToU64(ToI64(u)) == u
  {
  }

  /** PutUintN: the k low-order bytes of v, least significant first. */
  function LE(v: nat, k: nat): (s: seq<byte>)
    ensures |s| == k
  {
    if k == 0 then [] else [v % 256] + LE(v / 256, k - 1)
  }

  /** UintN: the value of bytes read least significant first. */
  function FromLE(s: seq<byte>): nat
  {
    if s == [] then 0 else s[0] + 256 * FromLE(s[1..])
  }

  lemma {:induction false} FromLEBound(s: seq<byte>)
    ensures FromLE(s) < Pow256(|s|)
  {
    if s != [] {
      FromLEBound(s[1..]);
    }
  }

  lemma MulAtLeast(d: nat, k: int)
    requires k >= 1
    ensures d * k >= d
  {
    assert d * k == d + d * (k - 1);
  }

  /** Euclidean division is unique: a decomposition v == d * q + r with
      0 <= r < d is the one / and % compute. */
  lemma DivModUnique(v: int, d: int, q: int, r: int)
    requires d > 0 && v == d * q + r && 0 <= r < d
    ensures v / d == q && v % d == r
  {
    var q0, r0 := v / d, v % d;
    assert v == d * q0 + r0;
    assert d * (q - q0) == r0 - r;
    if q - q0 >= 1 {
      MulAtLeast(d, q - q0);
    } else if q0 - q >= 1 {
      MulAtLeast(d, q0 - q);
    }
  }

  lemma DivModSplit(v: nat, p: nat)
    requires p >= 1
    ensures v % (256 * p) == v % 256 + 256 * ((v / 256) % p)
  {
    var q := v / 256;
    var r := v % 256;
    var q2 := q / p;
    var r2 := q % p;
    assert q == p * q2 + r2;
    assert v == 256 * q + r;
    assert 256 * q == (256 * p) * q2 + 256 * r2;
    DivModUnique(v, 256 * p, q2, 256 * r2 + r);
  }

  /** Encoding then decoding k bytes keeps v modulo 256^k. */
  lemma {:induction false} FromLE_LE(v: nat, k: nat)
    ensures FromLE(LE(v, k)) == v % Pow256(k)
  {
    if k > 0 {
      var s := LE(v, k);
      assert s[1..] == LE(v / 256, k - 1);
      FromLE_LE(v / 256, k - 1);
      DivModSplit(v, Pow256(k - 1));
    }
  }

  /** Decoding then encoding |s| bytes gives the same bytes back. */
  lemma {:induction false} LE_FromLE(s: seq<byte>)
    ensures LE(FromLE(s), |s|) == s
  {
    if s != [] {
      LE_FromLE(s[1..]);
      var v := FromLE(s);
      assert v % 256 == s[0];
      assert v / 256 == FromLE(s[1..]);
    }
  }

  /** Decoding an encoded value that fits in k bytes returns it unchanged. */
  lemma LERoundTrip(v: nat, k: nat)
    requires v < Pow256(k)
    ensures FromLE(LE(v, k)) == v
  {
    FromLE_LE(v, k);
  }

  /** A read of k bytes at offset off. */
  function GetLE(buf: seq<byte>, off: nat, k: nat): nat
    requires off + k <= |buf|
  {
    FromLE(buf[off..off + k])
  }

  function GetU16(buf: seq<byte>, off: nat): u16
    requires off + 2 <= |buf|
  {
    FromLEBound(buf[off..off + 2]);
    Pow256Limits();
    GetLE(buf, off, 2)
  }

  function GetU32(buf: seq<byte>, off: nat): u32
    requires off + 4 <= |buf|
  {
    FromLEBound(buf[off..off + 4]);
    Pow256Limits();
    GetLE(buf, off, 4)
  }

  function GetU64(buf: seq<byte>, off: nat): u64
    requires off + 8 <= |buf|
  {
    FromLEBound(buf[off..off + 8]);
    Pow256Limits();
    GetLE(buf, off, 8)
  }

  /** buf with the bytes at off.. replaced by part (an in-place PutUintN). */
  function Splice(buf: seq<byte>, off: nat, part: seq<byte>): (r: seq<byte>)
    requires off + |part| <= |buf|
    ensures |r| == |buf|
  {
    buf[..off] + part + buf[off + |part|..]
  }

  /** Two puts side by side are one put of both parts. */
  lemma SpliceAdjacent(buf: seq<byte>, off: nat, p: seq<byte>, q: seq<byte>)
    requires off + |p| + |q| <= |buf|
    ensures Splice(Splice(buf, off, p), off + |p|, q) == Splice(buf, off, p + q)
  {
  }

  /** A put followed by a put just before it is one put of both parts. */
  lemma SpliceAdjacentBefore(buf: seq<byte>, off: nat, p: seq<byte>, q: seq<byte>)
    requires off + |p| + |q| <= |buf|
    ensures Splice(Splice(buf, off + |p|, q), off, p) == Splice(buf, off, p + q)
  {
  }

  /** After a put at off, a read at off returns the value put, and a read of
      any disjoint range returns what it did before. */
  lemma GetAfterSplice(buf: seq<byte>, off: nat, v: nat, k: nat, off2: nat, k2: nat)
    requires off + k <= |buf| && off2 + k2 <= |buf|
    ensures GetLE(Splice(buf, off, LE(v, k)), off, k) == v % Pow256(k)
    ensures off2 + k2 <= off || off + k <= off2 ==>
      GetLE(Splice(buf, off, LE(v, k)), off2, k2) == GetLE(buf, off2, k2)
  {
    var r := Splice(buf, off, LE(v, k));
    assert r[off..off + k] == LE(v, k);
    FromLE_LE(v, k);
    if off2 + k2 <= off || off + k <= off2 {
      assert r[off2..off2 + k2] == buf[off2..off2 + k2];
    }
  }

  /** PutUintN(buf[off:], v) on a Go byte slice: writes the k little-endian
      bytes of v at off and nothing else. */
  method PutLE(buf: array<byte>, off: nat, v: nat, k: nat)
    requires off + k <= buf.Length
    modifies buf
    ensures buf[..] == Splice(old(buf[..]), off, LE(v, k))
  {
    var x := v;
    var i := 0;
    while i < k
      invariant 0 <= i <= k
      invariant LE(v, k)[i..] == LE(x, k - i)
      invariant buf[..] == old(buf[..])[..off] + LE(v, k)[..i] + old(buf[..])[off + i..]
    {
      assert LE(x, k - i) == [x % 256] + LE(x / 256, k - i - 1);
      assert LE(v, k)[i] == x % 256;
      assert LE(v, k)[i + 1..] == LE(x / 256, k - i - 1);
      buf[off + i] := x % 256;
      assert LE(v, k)[..i + 1] == LE(v, k)[..i] + [x % 256];
      x := x / 256;
      i := i + 1;
    }
  }

  /** The number of elements of s equal to x. */
  function Count<T(==)>(s: seq<T>, x: T): (n: nat)
    ensures n <= |s|
  {
    if s == [] then 0 else Count(s[..|s| - 1], x) + (if s[|s| - 1] == x then 1 else 0)
  }

  function Zeros(k: nat): (s: seq<byte>)
    ensures |s| == k && forall i :: 0 <= i < k ==> s[i] == 0
  {
    if k == 0 then [] else Zeros(k - 1) + [0]
  }

  /** Go's a / b for a positive divisor: truncates toward zero. */
  function GoDiv(a: int, b: int): int
    requires b > 0
  {
    if a >= 0 then a / b else -((-a) / b)
  }

  /** Go's a % b for a positive divisor: takes the sign of a. */
  function GoRem(a: int, b: int): int
    requires b > 0
  {
    a - b * GoDiv(a, b)
  }

  function Pow10(k: nat): (p: nat)
    ensures p >= 1
  {
    if k == 0 then 1 else 10 * Pow10(k - 1)
  }

  function Min(a: int, b: int): int { if a <= b then a else b }
  function Max(a: int, b: int): int { if a >= b then a else b }
}
