/**
 * The number parsers of data.go. Both read ASCII bytes without checking
 * them: every byte other than '.' contributes c - '0', computed in uint8 and
 * so wrapping below '0', and the accumulator is a uint64 that wraps.
 */
module DataParse {
  import opened Bytes

  const DOT: byte := 0x2E
  const ZERO: byte := 0x30

  predicate IsDigit(c: byte) { 0x30 <= c <= 0x39 }

  predicate AllDigits(s: seq<byte>) { forall i :: 0 <= i < |s| ==> IsDigit(s[i]) }

  /** uint64(c - '0') with c - '0' computed on bytes. */
  function DigitValue(c: byte): byte
  {
    (c - ZERO) % 256
  }

  /** The value of a numeral in exact arithmetic. */
  function Decimal(s: seq<byte>): nat
    requires AllDigits(s)
  {
    if s == [] then 0 else Decimal(s[..|s| - 1]) * 10 + (s[|s| - 1] - ZERO)
  }

  /** The value fastParseUint computes for s, one byte at a time. */
  function ParseUintSpec(s: seq<byte>): u64
  {
    if s == [] then 0
    else (ParseUintSpec(s[..|s| - 1]) * 10 + DigitValue(s[|s| - 1])) % U64_LIMIT
  }

  lemma ModAddMultiple(x: int, k: int, m: int)
    requires m > 0
    ensures (x + m * k) % m == x % m
  {
    var q, r := x / m, x % m;
    assert x + m * k == m * (q + k) + r;
    DivModUnique(x + m * k, m, q + k, r);
  }

  /** Reducing before a multiply-add does not change the result mod m. */
  lemma ModMulAdd(a: int, c: int, d: int, m: int)
    requires m > 0
    ensures ((a % m) * c + d) % m == (a * c + d) % m
  {
    var q := a / m;
    assert a == m * q + a % m;
    assert a * c + d == ((a % m) * c + d) + m * (q * c);
    ModAddMultiple((a % m) * c + d, q * c, m);
  }

  /** For a string of digits, fastParseUint is the decimal value wrapped to
      64 bits. */
  lemma {:induction false} ParseUintIsDecimal(s: seq<byte>)
    requires AllDigits(s)
    ensures ParseUintSpec(s) == Decimal(s) % U64_LIMIT
  {
    if s != [] {
      var p := s[..|s| - 1];
      var d := s[|s| - 1] - ZERO;
      assert AllDigits(p);
      ParseUintIsDecimal(p);
      assert DigitValue(s[|s| - 1]) == d;
      assert ParseUintSpec(s) == (ParseUintSpec(p) * 10 + d) % U64_LIMIT;
      assert Decimal(s) == Decimal(p) * 10 + d;
      ModMulAdd(Decimal(p), 10, d, U64_LIMIT);
    }
  }

  /** fastParseUint (data.go). */
  method FastParseUint(b: seq<byte>) returns (n: u64)
    ensures n == ParseUintSpec(b)
    ensures AllDigits(b) ==> n == Decimal(b) % U64_LIMIT
  {
    n := 0;
    var i := 0;
    while i < |b|
      invariant 0 <= i <= |b|
      invariant n == ParseUintSpec(b[..i])
    {
      assert b[..i + 1][..i] == b[..i];
      n := (n * 10 + DigitValue(b[i])) % U64_LIMIT;
      i := i + 1;
    }
    assert b[..i] == b;
    if AllDigits(b) {
      ParseUintIsDecimal(b);
    }
  }

  /** The state of fastParseFloatFixed's first loop: the digits so far as a
      wrapping uint64, whether a '.' was seen, and the digits after it. */
  datatype FixedScan = FixedScan(n: u64, seenDot: bool, decimals: nat)

  function ScanFixed(s: seq<byte>): FixedScan
  {
    if s == [] then FixedScan(0, false, 0)
    else
      var a := ScanFixed(s[..|s| - 1]);
      var c := s[|s| - 1];
      if c == DOT then a.(seenDot := true)
      else FixedScan((a.n * 10 + DigitValue(c)) % U64_LIMIT, a.seenDot,
                     if a.seenDot then a.decimals + 1 else a.decimals)
  }

  /** `n *= 10`, k times, on a uint64. */
  function TimesTen(n: u64, k: nat): u64
  {
    if k == 0 then n else (TimesTen(n, k - 1) * 10) % U64_LIMIT
  }

  /** `n /= 10`, k times. */
  function TenthOf(n: u64, k: nat): u64
  {
    if k == 0 then n else TenthOf(n, k - 1) / 10
  }

  /** Repeated wrapping multiplication is one multiplication by 10^k,
      wrapped. */
  lemma {:induction false} TimesTenIsPow(n: u64, k: nat)
    ensures TimesTen(n, k) == (n * Pow10(k)) % U64_LIMIT
  {
    if k > 0 {
      TimesTenIsPow(n, k - 1);
      ModMulAdd(n * Pow10(k - 1), 10, 0, U64_LIMIT);
      assert (n * Pow10(k - 1)) * 10 == n * Pow10(k);
    }
  }

  /** Repeated truncating division is one division by 10^k. */
  lemma {:induction false} TenthOfIsPow(n: u64, k: nat)
    ensures TenthOf(n, k) == n / Pow10(k)
  {
    if k > 0 {
      TenthOfIsPow(n, k - 1);
      DivDiv(n, Pow10(k - 1), 10);
      assert Pow10(k - 1) * 10 == Pow10(k);
    }
  }

  /** Rescaling to 8 decimals: multiply by 10 per missing decimal (wrapping),
      or divide by 10, truncating, per extra one. */
  function Rescale(n: u64, decimals: nat): u64
  {
    if decimals < 8 then TimesTen(n, 8 - decimals)
    else if decimals > 8 then TenthOf(n, decimals - 8)
    else n
  }

  function ParseFixedSpec(s: seq<byte>): u64
  {
    var a := ScanFixed(s);
    Rescale(a.n, a.decimals)
  }

  lemma DivDivParts(x: int, a: int, b: int, q1: int, r1: int, q2: int, r2: int)
    requires a >= 1 && 0 <= r1 < a && 0 <= r2 < b
    requires x == a * q1 + r1 && q1 == b * q2 + r2
    ensures x == (a * b) * q2 + (a * r2 + r1) && 0 <= a * r2 + r1 < a * b
  {
    assert a * q1 == a * (b * q2) + a * r2;
    assert a * r2 <= a * (b - 1);
  }

  lemma DivDiv(x: nat, a: nat, b: nat)
    requires a >= 1 && b >= 1
    ensures (x / a) / b == x / (a * b)
  {
    var q1, r1 := x / a, x % a;
    var q2, r2 := q1 / b, q1 % b;
    DivDivParts(x, a, b, q1, r1, q2, r2);
    DivModUnique(x, a * b, q2, a * r2 + r1);
  }

  /** fastParseFloatFixed (data.go). */
  method FastParseFloatFixed(b: seq<byte>) returns (n: u64)
    ensures n == ParseFixedSpec(b)
  {
    n := 0;
    var seenDot := false;
    var decimals := 0;
    var i := 0;
    while i < |b|
      invariant 0 <= i <= |b|
      invariant ScanFixed(b[..i]) == FixedScan(n, seenDot, decimals)
    {
      assert b[..i + 1][..i] == b[..i];
      var c := b[i];
      if c == DOT {
        seenDot := true;
      } else {
        n := (n * 10 + DigitValue(c)) % U64_LIMIT;
        if seenDot {
          decimals := decimals + 1;
        }
      }
      i := i + 1;
    }
    assert b[..i] == b;
    if decimals < 8 {
      n := ScaleUp(n, 8 - decimals);
    } else if decimals > 8 {
      n := ScaleDown(n, decimals - 8);
    }
  }

  /** `for i := 0; i < k; i++ { n *= 10 }` on a uint64; by TimesTenIsPow
      the result is n0 * 10^k wrapped. */
  method ScaleUp(n0: u64, k: nat) returns (n: u64)
    ensures n == TimesTen(n0, k)
  {
    n := n0;
    var j := 0;
    while j < k
      invariant 0 <= j <= k
      invariant n == TimesTen(n0, j)
    {
      n := (n * 10) % U64_LIMIT;
      j := j + 1;
    }
  }

  /** `for i := 0; i < k; i++ { n /= 10 }`; by TenthOfIsPow the result is
      n0 / 10^k. */
  method ScaleDown(n0: u64, k: nat) returns (n: u64)
    ensures n == TenthOf(n0, k)
  {
    n := n0;
    var j := 0;
    while j < k
      invariant 0 <= j <= k
      invariant n == TenthOf(n0, j)
    {
      n := n / 10;
      j := j + 1;
    }
  }

  lemma ShiftDigit(x: int, p: int, y: int, d: int)
    ensures (x * p + y) * 10 + d == x * (p * 10) + (y * 10 + d)
  {
  }

  lemma {:induction false} DecimalAppend(a: seq<byte>, b: seq<byte>)
    requires AllDigits(a) && AllDigits(b)
    ensures AllDigits(a + b) && Decimal(a + b) == Decimal(a) * Pow10(|b|) + Decimal(b)
  {
    if b == [] {
      assert a + b == a;
    } else {
      var b' := b[..|b| - 1];
      var d := b[|b| - 1] - ZERO;
      assert (a + b)[..|a + b| - 1] == a + b';
      DecimalAppend(a, b');
      assert Decimal(a + b) == Decimal(a + b') * 10 + d;
      assert Decimal(b) == Decimal(b') * 10 + d;
      assert Pow10(|b|) == Pow10(|b'|) * 10;
      ShiftDigit(Decimal(a), Pow10(|b'|), Decimal(b'), d);
    }
  }

  /** One more digit: the wrapped accumulator still tracks the exact
      value mod 2^64. */
  lemma DigitStep(p: seq<byte>, c: byte)
    requires AllDigits(p) && IsDigit(c)
    ensures AllDigits(p + [c])
    ensures ((Decimal(p) % U64_LIMIT) * 10 + DigitValue(c)) % U64_LIMIT == Decimal(p + [c]) % U64_LIMIT
  {
    assert (p + [c])[..|p|] == p;
    assert DigitValue(c) == c - ZERO;
    ModMulAdd(Decimal(p), 10, c - ZERO, U64_LIMIT);
  }

  lemma {:induction false} ScanFixedInteger(s: seq<byte>)
    requires AllDigits(s)
    ensures ScanFixed(s) == FixedScan(Decimal(s) % U64_LIMIT, false, 0)
  {
    if s != [] {
      var p := s[..|s| - 1];
      ScanFixedInteger(p);
      DigitStep(p, s[|s| - 1]);
      assert p + [s[|s| - 1]] == s;
    }
  }

  lemma {:induction false} ScanFixedFraction(i: seq<byte>, f: seq<byte>)
    requires AllDigits(i) && AllDigits(f)
    ensures AllDigits(i + f)
    ensures ScanFixed(i + [DOT] + f) == FixedScan(Decimal(i + f) % U64_LIMIT, true, |f|)
  {
    DecimalAppend(i, f);
    var s := i + [DOT] + f;
    if f == [] {
      assert s[..|s| - 1] == i && s[|s| - 1] == DOT;
      assert i + f == i;
      ScanFixedInteger(i);
    } else {
      var f' := f[..|f| - 1];
      var c := f[|f| - 1];
      assert s[..|s| - 1] == i + [DOT] + f' && s[|s| - 1] == c && c != DOT;
      ScanFixedFraction(i, f');
      var a := ScanFixed(i + [DOT] + f');
      assert ScanFixed(s) == FixedScan((a.n * 10 + DigitValue(c)) % U64_LIMIT, true, a.decimals + 1);
      assert (i + f') + [c] == i + f;
      DigitStep(i + f', c);
    }
  }

  /** A numeral "I.F" with up to 8 decimals becomes the value of its
      digits I ++ F (that is, I * 10^|F| + F, by DecimalAppend) times
      10^(8 - |F|), wrapped to 64 bits: "123.45" is 12345000000. */
  lemma ParseFixedScales(i: seq<byte>, f: seq<byte>)
    requires AllDigits(i) && AllDigits(f) && |f| <= 8
    ensures AllDigits(i + f)
    ensures ParseFixedSpec(i + [DOT] + f) == (Decimal(i + f) * Pow10(8 - |f|)) % U64_LIMIT
  {
    ScanFixedFraction(i, f);
    RescaleUp(Decimal(i + f), |f|);
  }

  /** The worked example of data.go's comment: "123.45" -> 12345000000. */
  lemma ParseFixedExample()
    ensures ParseFixedSpec([0x31, 0x32, 0x33, DOT, 0x34, 0x35]) == 12345000000
  {
    var i: seq<byte> := [0x31, 0x32, 0x33];
    var f: seq<byte> := [0x34, 0x35];
    assert i + [DOT] + f == [0x31, 0x32, 0x33, DOT, 0x34, 0x35];
    ParseFixedScales(i, f);
    var d: seq<byte> := [0x31, 0x32, 0x33, 0x34, 0x35];
    assert i + f == d;
    assert d[..1][..0] == [];
    assert Decimal(d[..1]) == 1;
    assert d[..2][..1] == d[..1];
    assert Decimal(d[..2]) == 12;
    assert d[..3][..2] == d[..2];
    assert Decimal(d[..3]) == 123;
    assert d[..4][..3] == d[..3];
    assert Decimal(d[..4]) == 1234;
    assert d[..5] == d && d[..4] == d[..|d| - 1];
    assert Decimal(d) == 12345;
    assert Pow10(2) == 100;
    assert Pow10(6) == 1000000;
  }

  lemma RescaleUp(v: nat, d: nat)
    requires d <= 8
    ensures Rescale(v % U64_LIMIT, d) == (v * Pow10(8 - d)) % U64_LIMIT
  {
    ModMulAdd(v, Pow10(8 - d), 0, U64_LIMIT);
    TimesTenIsPow(v % U64_LIMIT, 8 - d);
    if d == 8 {
      assert Pow10(0) == 1;
    }
  }

  lemma {:induction false} PowSplit(a: nat, b: nat)
    ensures Pow10(a) * Pow10(b) == Pow10(a + b)
  {
    if a > 0 {
      PowSplit(a - 1, b);
    }
  }

  /** More than 8 decimals: the digits (wrapped to 64 bits) are divided
      down, truncating the extra decimals. */
  lemma ParseFixedTruncates(i: seq<byte>, f: seq<byte>)
    requires AllDigits(i) && AllDigits(f) && |f| > 8
    ensures AllDigits(i + f)
    ensures ParseFixedSpec(i + [DOT] + f) == (Decimal(i + f) % U64_LIMIT) / Pow10(|f| - 8)
  {
    ScanFixedFraction(i, f);
    TenthOfIsPow(Decimal(i + f) % U64_LIMIT, |f| - 8);
  }

  /** A numeral without a '.' is scaled by 10^8. */
  lemma ParseFixedWhole(i: seq<byte>)
    requires AllDigits(i)
    ensures ParseFixedSpec(i) == (Decimal(i) * Pow10(8)) % U64_LIMIT
  {
    ScanFixedInteger(i);
    ModMulAdd(Decimal(i), Pow10(8), 0, U64_LIMIT);
    TimesTenIsPow(Decimal(i) % U64_LIMIT, 8);
  }
}
