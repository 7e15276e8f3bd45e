/**
 * The integer formatting of Go's fmt verbs %d and %0Nd, used in the status
 * lines the builders print and the keys the studies build.
 */
module Text {
  import opened Bytes

  datatype Option<T> = None | Some(value: T)

  const DIGITS: string := "0123456789"

  predicate IsDigitChar(c: char) { '0' <= c <= '9' }

  predicate AllDigitChars(s: string) { forall i :: 0 <= i < |s| ==> IsDigitChar(s[i]) }

  /** strings.HasPrefix. */
  predicate HasPrefix(s: string, prefix: string)
  {
    |prefix| <= |s| && s[..|prefix|] == prefix
  }

  /** %d of a non-negative value: its decimal digits, no leading zero. */
  function Itoa(n: nat): (s: string)
    ensures |s| >= 1 && AllDigitChars(s)
    ensures n > 0 ==> s[0] != '0'
  {
    if n < 10 then [DIGITS[n]] else Itoa(n / 10) + [DIGITS[n % 10]]
  }

  /** The value of a string of decimal digits. */
  function DecimalValue(s: string): nat
    requires AllDigitChars(s)
  {
    if s == [] then 0 else 10 * DecimalValue(s[..|s| - 1]) + (s[|s| - 1] as int - '0' as int)
  }

  /** Reading the digits back gives the number printed. */
  lemma {:induction false} ItoaRoundTrip(n: nat)
    ensures DecimalValue(Itoa(n)) == n
  {
    if n >= 10 {
      ItoaRoundTrip(n / 10);
      var s := Itoa(n);
      assert s[..|s| - 1] == Itoa(n / 10);
    }
  }

  /** %d of any int: a minus sign before the digits of a negative value. */
  function FormatInt(x: int): (s: string)
    ensures x >= 0 ==> s == Itoa(x)
    ensures x < 0 ==> s == "-" + Itoa(-x)
  {
    if x < 0 then "-" + Itoa(-x) else Itoa(x)
  }

  function Repeat(c: char, k: nat): (s: string)
    ensures |s| == k && forall i :: 0 <= i < k ==> s[i] == c
  {
    if k == 0 then [] else Repeat(c, k - 1) + [c]
  }

  /** %0Nd of a non-negative value: zeros in front of the digits up to
      width N; wider values are printed in full. */
  function ZeroPad(n: nat, width: nat): (s: string)
    ensures |s| == if |Itoa(n)| >= width then |Itoa(n)| else width
    ensures AllDigitChars(s) && s[|s| - |Itoa(n)|..] == Itoa(n)
  {
    var d := Itoa(n);
    if |d| >= width then d else Repeat('0', width - |d|) + d
  }

  /** Leading zeros do not change the value read back. */
  lemma {:induction false} ZeroPadValue(n: nat, width: nat)
    ensures DecimalValue(ZeroPad(n, width)) == n
  {
    var d := Itoa(n);
    ItoaRoundTrip(n);
    if |d| < width {
      LeadingZeros(width - |d|, d);
    }
  }

  lemma {:induction false} LeadingZeros(k: nat, d: string)
    requires AllDigitChars(d)
    ensures AllDigitChars(Repeat('0', k) + d)
    ensures DecimalValue(Repeat('0', k) + d) == DecimalValue(d)
    decreases |d|
  {
    var z := Repeat('0', k);
    if d == [] {
      assert z + d == z;
      ZerosValue(k);
    } else {
      var init := d[..|d| - 1];
      assert (z + d)[..|z + d| - 1] == z + init;
      LeadingZeros(k, init);
    }
  }

  lemma {:induction false} ZerosValue(k: nat)
    ensures DecimalValue(Repeat('0', k)) == 0
  {
    if k > 0 {
      assert Repeat('0', k)[..k - 1] == Repeat('0', k - 1);
      ZerosValue(k - 1);
    }
  }

  /** %0Nd of any int: a negative value's minus sign counts toward the
      width, so -5 at width 4 is "-005". */
  function PadInt(x: int, width: nat): (s: string)
    requires width >= 1
    ensures x >= 0 ==> s == ZeroPad(x, width)
    ensures x < 0 ==> s == "-" + ZeroPad(-x, width - 1)
  {
    if x < 0 then "-" + ZeroPad(-x, width - 1) else ZeroPad(x, width)
  }

  /** strconv.Atoi: an optional sign, at least one decimal digit, and a
      value within int64; anything else is an error. */
  function Atoi(s: string): (r: Option<int>)
    ensures r.Some? ==> -I64_LIMIT <= r.value < I64_LIMIT
    ensures r.Some? ==> |s| >= 1
  {
    var neg := |s| > 0 && s[0] == '-';
    var digits := if |s| > 0 && (s[0] == '+' || s[0] == '-') then s[1..] else s;
    if |digits| == 0 || !AllDigitChars(digits) then None
    else
      var v: int := if neg then -(DecimalValue(digits) as int) else DecimalValue(digits);
      if -I64_LIMIT <= v < I64_LIMIT then Some(v) else None
  }

  /** What %d prints, strconv.Atoi reads back. */
  lemma AtoiFormatInt(x: i64)
    ensures Atoi(FormatInt(x)) == Some(x)
  {
    var s := FormatInt(x);
    if x < 0 {
      var y: nat := -(x as int);
      ItoaRoundTrip(y);
      assert s[0] == '-' && s[1..] == Itoa(y);
    } else {
      ItoaRoundTrip(x);
      assert s[0] != '+' && s[0] != '-';
    }
  }

  /** A string with a character other than a digit after its sign is
      rejected. */
  lemma AtoiRejects(s: string, i: nat)
    requires 0 < i < |s| && !IsDigitChar(s[i])
    ensures Atoi(s) == None
  {
    var digits := if s[0] == '+' || s[0] == '-' then s[1..] else s;
    if s[0] == '+' || s[0] == '-' {
      assert digits[i - 1] == s[i];
    } else {
      assert digits[i] == s[i];
    }
  }

  /** %0wd of a value below 10^w is exactly w digits that read back as it. */
  lemma PaddedField(n: nat, w: nat)
    requires w >= 1 && n < Pow10(w)
    ensures |PadInt(n, w)| == w
    ensures AllDigitChars(PadInt(n, w)) && DecimalValue(PadInt(n, w)) == n
  {
    ItoaWidth(n, w);
    ZeroPadValue(n, w);
  }

  /** A value below 10^w prints in at most w digits. */
  lemma {:induction false} ItoaWidth(n: nat, w: nat)
    requires w >= 1 && n < Pow10(w)
    ensures |Itoa(n)| <= w
  {
    if n >= 10 {
      ItoaWidth(n / 10, w - 1);
    }
  }

  /** A numeral of k digits is below 10^k. */
  lemma {:induction false} DecimalBound(s: string)
    requires AllDigitChars(s)
    ensures DecimalValue(s) < Pow10(|s|)
  {
    if s != [] {
      DecimalBound(s[..|s| - 1]);
    }
  }

  /** Reading two numerals written side by side. */
  lemma {:induction false} DecimalConcat(a: string, b: string)
    requires AllDigitChars(a) && AllDigitChars(b)
    ensures AllDigitChars(a + b)
    ensures DecimalValue(a + b) == DecimalValue(a) * Pow10(|b|) + DecimalValue(b)
    decreases |b|
  {
    if b == [] {
      assert a + b == a;
    } else {
      var b0 := b[..|b| - 1];
      var ab := a + b;
      assert ab[..|ab| - 1] == a + b0;
      assert ab[|ab| - 1] == b[|b| - 1];
      DecimalConcat(a, b0);
      ShiftDigit(DecimalValue(a), Pow10(|b0|), DecimalValue(b0), DecimalValue(a + b0), b[|b| - 1] as int - '0' as int);
    }
  }

  lemma ShiftDigit(x: int, p: int, v: int, xv: int, c: int)
    requires xv == x * p + v
    ensures 10 * xv + c == x * (10 * p) + (10 * v + c)
  {
  }

  // ---------------------------------------------------------------------
  // strings.Split on a one-character separator
  // ---------------------------------------------------------------------

  /** The pieces of s between occurrences of sep, in order; none of them
      holds the separator. */
  function Split(s: string, sep: char): (parts: seq<string>)
    ensures |parts| >= 1
    ensures forall k :: 0 <= k < |parts| ==> sep !in parts[k]
  {
    if s == [] then [[]]
    else
      var p := Split(s[..|s| - 1], sep);
      var c := s[|s| - 1];
      if c == sep then p + [[]]
      else p[..|p| - 1] + [p[|p| - 1] + [c]]
  }

  /** strings.Join: the pieces with the separator between them. */
  function JoinWith(parts: seq<string>, sep: char): string
    requires |parts| >= 1
  {
    if |parts| == 1 then parts[0]
    else JoinWith(parts[..|parts| - 1], sep) + [sep] + parts[|parts| - 1]
  }

  /** Joining the pieces gives the string back. */
  lemma {:induction false} SplitJoinWith(s: string, sep: char)
    ensures JoinWith(Split(s, sep), sep) == s
  {
    if s != [] {
      var s' := s[..|s| - 1];
      var c := s[|s| - 1];
      SplitJoinWith(s', sep);
      assert s == s' + [c];
      if c == sep {
        JoinEmptyPiece(Split(s', sep), sep);
      } else {
        JoinLongerPiece(Split(s', sep), c, sep);
      }
    }
  }

  /** A separator and a piece free of it add that piece at the end. */
  lemma {:induction false} SplitAppend(s: string, d: string, sep: char)
    requires sep !in d
    ensures Split(s + [sep] + d, sep) == Split(s, sep) + [d]
  {
    var t := s + [sep] + d;
    if d == [] {
      assert t[..|t| - 1] == s;
    } else {
      var d', c := d[..|d| - 1], d[|d| - 1];
      SplitAppend(s, d', sep);
      assert t[..|t| - 1] == s + [sep] + d';
      assert d' + [c] == d;
    }
  }

  lemma JoinEmptyPiece(p: seq<string>, sep: char)
    requires |p| >= 1
    ensures JoinWith(p + [[]], sep) == JoinWith(p, sep) + [sep]
  {
    var q := p + [[]];
    assert q[..|q| - 1] == p;
    assert JoinWith(p, sep) + [sep] + [] == JoinWith(p, sep) + [sep];
  }

  lemma JoinLongerPiece(p: seq<string>, c: char, sep: char)
    requires |p| >= 1
    ensures JoinWith(p[..|p| - 1] + [p[|p| - 1] + [c]], sep) == JoinWith(p, sep) + [c]
  {
    var q := p[..|p| - 1] + [p[|p| - 1] + [c]];
    if |p| > 1 {
      assert q[..|q| - 1] == p[..|p| - 1];
      var j := JoinWith(p[..|p| - 1], sep);
      assert j + [sep] + (p[|p| - 1] + [c]) == j + [sep] + p[|p| - 1] + [c];
    }
  }
}
