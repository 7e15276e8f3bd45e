/**
 * ofistudy.go: the study of the per-variant feature files. Modelled here:
 * fastAtoi and parseOOSBoundary, the YYYYMMDD split and file name of a
 * study day, the day discovery, the index lookup and raw-day decode of
 * loadRawDay, the shape check, de-interleave and result keys of
 * processStudyDay, the horizon alignment of AlignVectors, the counters of
 * CalcMomentsVectors and the in-sample / out-of-sample split of the days.
 */
module OfiStudy {
  import opened Bytes
  import opened Layout
  import opened GoIo
  import Data
  import Build
  import Ofi
  import Sorting
  import Text

  const OosDateStr: string := "2024-01-01"
  const FeatureNames: seq<string> := ["f1_Z", "f2_SFA", "f3_Elast", "f4_Coh", "f5_Align"]

  // ---------------------------------------------------------------------
  // fastAtoi, parseOOSBoundary
  // ---------------------------------------------------------------------

  /** The decimal digits of s in order; fastAtoi skips every byte that is not a digit. */
  function DigitsOf(s: string): (d: string)
    ensures Text.AllDigitChars(d) && |d| <= |s|
  {
    if s == [] then []
    else DigitsOf(s[..|s| - 1]) + (if Text.IsDigitChar(s[|s| - 1]) then [s[|s| - 1]] else [])
  }

  /** What fastAtoi computes: the digits of s read in decimal in Go's 64-bit
      int, so a numeral of 19 or more digits wraps. */
  function AtoiValue(s: string): (n: i64)
    ensures Text.DecimalValue(DigitsOf(s)) < I64_LIMIT ==> n == Text.DecimalValue(DigitsOf(s))
  {
    WrapI64(Text.DecimalValue(DigitsOf(s)))
  }

  /** A string of digits is its own digit sequence. */
  lemma {:induction false} DigitsOfDigits(s: string)
    requires Text.AllDigitChars(s)
    ensures DigitsOf(s) == s
  {
    if s != [] {
      DigitsOfDigits(s[..|s| - 1]);
    }
  }

  /** At most k digits read below 10^k, so a short field never wraps. */
  lemma AtoiSmall(s: string)
    requires |s| <= 18
    ensures Text.DecimalValue(DigitsOf(s)) < Pow10(|s|) <= Pow10(18) < I64_LIMIT
    ensures 0 <= AtoiValue(s) < Pow10(|s|)
  {
    var d := DigitsOf(s);
    Text.DecimalBound(d);
    Pow10Mono(|d|, |s|);
    Pow10Mono(|s|, 18);
    assert Pow10(18) == 1_000_000_000_000_000_000 by {
      assert Pow10(6) == 1_000_000;
      assert Pow10(12) == 1_000_000_000_000 by {
        Pow10Add(6, 6);
      }
      Pow10Add(12, 6);
    }
  }

  lemma {:induction false} Pow10Mono(a: nat, b: nat)
    requires a <= b
    ensures Pow10(a) <= Pow10(b)
    decreases b
  {
    if a < b {
      Pow10Mono(a, b - 1);
    }
  }

  lemma {:induction false} Pow10Add(a: nat, b: nat)
    ensures Pow10(a + b) == Pow10(a) * Pow10(b)
    decreases b
  {
    if b > 0 {
      Pow10Add(a, b - 1);
      assert Pow10(a) * Pow10(b) == 10 * (Pow10(a) * Pow10(b - 1));
    }
  }

  /** One more byte: a digit is appended to the digits read, anything else
      leaves them as they were. */
  lemma DigitsOfSnoc(s: string, c: char)
    ensures DigitsOf(s + [c]) == DigitsOf(s) + (if Text.IsDigitChar(c) then [c] else [])
    ensures Text.IsDigitChar(c) ==>
      Text.DecimalValue(DigitsOf(s + [c])) == 10 * Text.DecimalValue(DigitsOf(s)) + (c as int - '0' as int)
  {
    assert (s + [c])[..|s|] == s;
    var d := DigitsOf(s);
    assert (d + [c])[..|d|] == d;
  }

  /** fastAtoi: one pass over the bytes, n = n*10 + digit on each digit. */
  method FastAtoi(s: string) returns (n: i64)
    ensures n == AtoiValue(s)
  {
    n := 0;
    for i := 0 to |s|
      invariant n == AtoiValue(s[..i])
    {
      var c := s[i];
      AtoiStep(s, i, n);
      if '0' <= c <= '9' {
        n := WrapI64(n * 10 + (c as int - '0' as int));
      }
    }
    assert s[..|s|] == s;
  }

  /** One byte of fastAtoi: a digit c turns n into n * 10 + c (wrapped),
      any other byte leaves n as it is. */
  lemma AtoiStep(s: string, i: nat, n: i64)
    requires i < |s| && n == AtoiValue(s[..i])
    ensures Text.IsDigitChar(s[i]) ==> WrapI64(n * 10 + (s[i] as int - '0' as int)) == AtoiValue(s[..i + 1])
    ensures !Text.IsDigitChar(s[i]) ==> n == AtoiValue(s[..i + 1])
  {
    var c := s[i];
    assert s[..i + 1] == s[..i] + [c];
    DigitsOfSnoc(s[..i], c);
    var x := Text.DecimalValue(DigitsOf(s[..i]));
    assert n == WrapI64(x);
    if Text.IsDigitChar(c) {
      WrapStep(x, c as int - '0' as int);
      assert AtoiValue(s[..i + 1]) == WrapI64(x * 10 + (c as int - '0' as int));
    } else {
      assert DigitsOf(s[..i + 1]) == DigitsOf(s[..i]);
    }
  }

  /** parseOOSBoundary: the digits of the year, month and day fields of a
      "YYYY-MM-DD" date as the number YYYYMMDD; the separators at 4 and 7
      are never looked at, and the result never wraps. */
  function ParseOosBoundary(d: string): (r: int)
    requires |d| >= 10
    ensures 0 <= r < 100_000_000
  {
    FieldBounds(d);
    JoinBound(AtoiValue(d[0..4]), AtoiValue(d[5..7]), AtoiValue(d[8..10]));
    AtoiValue(d[0..4]) * 10000 + AtoiValue(d[5..7]) * 100 + AtoiValue(d[8..10])
  }

  /** The year field reads below 10^4, the month and day fields below 100. */
  lemma FieldBounds(d: string)
    requires |d| >= 10
    ensures 0 <= AtoiValue(d[0..4]) < 10000
    ensures 0 <= AtoiValue(d[5..7]) < 100 && 0 <= AtoiValue(d[8..10]) < 100
  {
    var y, m, dd := d[0..4], d[5..7], d[8..10];
    assert |y| == 4 && |m| == 2 && |dd| == 2;
    assert Pow10(4) == 10000 && Pow10(2) == 100 by {
      assert Pow10(1) == 10 && Pow10(3) == 1000;
    }
    AtoiSmall(y);
    AtoiSmall(m);
    AtoiSmall(dd);
  }

  lemma JoinBound(y: int, m: int, d: int)
    requires 0 <= y < 10000 && 0 <= m < 100 && 0 <= d < 100
    ensures 0 <= y * 10000 + m * 100 + d < 100_000_000
  {
  }

  /** When the three fields are digits, the boundary is the numeral the
      fields spell side by side. */
  lemma ParseOosBoundaryReads(d: string)
    requires |d| >= 10
    requires Text.AllDigitChars(d[0..4]) && Text.AllDigitChars(d[5..7]) && Text.AllDigitChars(d[8..10])
    ensures ParseOosBoundary(d) == Text.DecimalValue(d[0..4] + d[5..7] + d[8..10])
  {
    var y, m, dd := d[0..4], d[5..7], d[8..10];
    FieldValue(y);
    FieldValue(m);
    FieldValue(dd);
    assert Pow10(2) == 100 by {
      assert Pow10(1) == 10;
    }
    Text.DecimalConcat(y, m);
    Text.DecimalConcat(y + m, dd);
    JoinFields(Text.DecimalValue(y), Text.DecimalValue(m), Text.DecimalValue(dd),
      Text.DecimalValue(y + m), Text.DecimalValue(y + m + dd));
  }

  /** A short field of digits reads as its numeral. */
  lemma FieldValue(s: string)
    requires Text.AllDigitChars(s) && |s| <= 18
    ensures AtoiValue(s) == Text.DecimalValue(s)
  {
    DigitsOfDigits(s);
    AtoiSmall(s);
  }

  lemma JoinFields(y: int, m: int, d: int, ym: int, ymd: int)
    requires ym == y * 100 + m && ymd == ym * 100 + d
    ensures ymd == y * 10000 + m * 100 + d
  {
  }

  /** The constant boundary: 2024-01-01 reads as 20240101. */
  lemma OosBoundaryValue()
    ensures ParseOosBoundary(OosDateStr) == 20240101
  {
    var d := OosDateStr;
    assert d == ['2', '0', '2', '4', '-', '0', '1', '-', '0', '1'];
    assert d[0..4] == "2024";
    assert d[5..7] == "01";
    assert d[8..10] == "01";
    assert Text.DecimalValue("2024") == 2024 by {
      assert "2024"[..3] == "202" && "202"[..2] == "20" && "20"[..1] == "2" && "2"[..0] == "";
    }
    assert Text.DecimalValue("01") == 1 by {
      assert "01"[..1] == "0" && "0"[..0] == "";
    }
    FieldValue("2024");
    FieldValue("01");
  }

  // ---------------------------------------------------------------------
  // Study days: YYYYMMDD numbers, file names, discovery, OOS split
  // ---------------------------------------------------------------------

  datatype Ymd = Ymd(y: int, m: int, d: int)

  /** processStudyDay's split of dayInt with Go's truncating / and %: for
      a non-negative day number the three fields recompose it. */
  function SplitYmd(dayInt: int): (r: Ymd)
    ensures dayInt >= 0 ==>
      0 <= r.y && 0 <= r.m < 100 && 0 <= r.d < 100 && r.y * 10000 + r.m * 100 + r.d == dayInt
  {
    Ymd(GoDiv(dayInt, 10000), GoDiv(GoRem(dayInt, 10000), 100), GoRem(dayInt, 100))
  }

  /** Splitting the number of a date gives the date back. */
  lemma YmdRoundTrip(y: nat, m: nat, d: nat)
    requires m < 100 && d < 100
    ensures SplitYmd(y * 10000 + m * 100 + d) == Ymd(y, m, d)
  {
    var v := y * 10000 + m * 100 + d;
    DivModUnique(v, 10000, y, m * 100 + d);
    DivModUnique(m * 100 + d, 100, m, d);
    DivModUnique(v, 100, y * 100 + m, d);
  }

  /** The feature file name of a day: fmt's "%04d%02d%02d" of the split
      fields, then ".bin". */
  function DayFileName(dayInt: int): string
  {
    var r := SplitYmd(dayInt);
    Text.PadInt(r.y, 4) + Text.PadInt(r.m, 2) + Text.PadInt(r.d, 2) + ".bin"
  }

  /** The day a directory entry names: a name ending in ".bin" whose
      other bytes hold digits of a positive value. */
  function StudyDayOf(name: string): (r: Text.Option<int>)
    ensures r.Some? ==> r.value > 0
  {
    if |name| >= 4 && name[|name| - 4..] == ".bin" && AtoiValue(name[..|name| - 4]) > 0
    then Text.Some(AtoiValue(name[..|name| - 4]) as int)
    else Text.None
  }

  /** The eight digits of a day's file name read as the day. */
  lemma DayDigits(dayInt: int)
    requires 0 < dayInt < 100_000_000
    ensures var r := SplitYmd(dayInt);
      var s := Text.PadInt(r.y, 4) + Text.PadInt(r.m, 2) + Text.PadInt(r.d, 2);
      |s| == 8 && Text.AllDigitChars(s) && Text.DecimalValue(s) == dayInt
  {
    var r := SplitYmd(dayInt);
    assert Pow10(2) == 100 && Pow10(4) == 10000 by {
      assert Pow10(1) == 10 && Pow10(3) == 1000;
    }
    Text.PaddedField(r.y, 4);
    Text.PaddedField(r.m, 2);
    Text.PaddedField(r.d, 2);
    var ys, ms, ds := Text.PadInt(r.y, 4), Text.PadInt(r.m, 2), Text.PadInt(r.d, 2);
    var ym := Text.DecimalValue(ys + ms);
    assert ym == r.y * 100 + r.m by {
      Text.DecimalConcat(ys, ms);
    }
    assert Text.DecimalValue(ys + ms + ds) == ym * 100 + r.d by {
      Text.DecimalConcat(ys + ms, ds);
    }
    JoinFields(r.y, r.m, r.d, ym, Text.DecimalValue(ys + ms + ds));
  }

  /** The file processStudyDay opens for a day is the one discovery read
      that day from: the name of each day 1 .. 99999999 reads back as it. */
  lemma DayFileRoundTrip(dayInt: int)
    requires 0 < dayInt < 100_000_000
    ensures StudyDayOf(DayFileName(dayInt)) == Text.Some(dayInt)
  {
    var r := SplitYmd(dayInt);
    var s := Text.PadInt(r.y, 4) + Text.PadInt(r.m, 2) + Text.PadInt(r.d, 2);
    DayDigits(dayInt);
    var name := DayFileName(dayInt);
    assert name == s + ".bin";
    assert name[..|name| - 4] == s && name[|name| - 4..] == ".bin";
    FieldValue(s);
  }

  /** The days a variant directory lists, in listing order. */
  function StudyDays(names: seq<string>): (days: seq<int>)
    ensures forall k :: 0 <= k < |days| ==> days[k] > 0
  {
    if names == [] then []
    else
      var last := StudyDayOf(names[|names| - 1]);
      StudyDays(names[..|names| - 1]) + (if last.Some? then [last.value] else [])
  }

  /** discoverStudyDays: the days of the listing's ".bin" files, in
      ascending order. The listing of the directory is the input. */
  method DiscoverStudyDays(names: seq<string>) returns (days: seq<int>)
    ensures multiset(days) == multiset(StudyDays(names))
    ensures forall i, j :: 0 <= i < j < |days| ==> days[i] <= days[j]
    ensures forall k :: 0 <= k < |days| ==> days[k] > 0
  {
    days := [];
    for i := 0 to |names|
      invariant days == StudyDays(names[..i])
    {
      StudyDaysStep(names, i);
      var name := names[i];
      if |name| >= 4 && name[|name| - 4..] == ".bin" {
        var val := FastAtoi(name[..|name| - 4]);
        if val > 0 {
          days := days + [val];
        }
      }
    }
    assert names[..|names|] == names;
    SortedDays(days);
    days := Sorting.SortBy(days, Ofi.IntLe());
  }

  lemma StudyDaysStep(names: seq<string>, i: nat)
    requires i < |names|
    ensures StudyDays(names[..i + 1]) == StudyDays(names[..i])
      + (if StudyDayOf(names[i]).Some? then [StudyDayOf(names[i]).value] else [])
  {
    assert names[..i + 1][..i] == names[..i];
  }

  /** sort.Ints on the days: ascending, the same days, still positive. */
  lemma SortedDays(days: seq<int>)
    requires forall k :: 0 <= k < |days| ==> days[k] > 0
    ensures multiset(Sorting.SortBy(days, Ofi.IntLe())) == multiset(days)
    ensures forall i, j :: 0 <= i < j < |Sorting.SortBy(days, Ofi.IntLe())| ==>
      Sorting.SortBy(days, Ofi.IntLe())[i] <= Sorting.SortBy(days, Ofi.IntLe())[j]
    ensures forall k :: 0 <= k < |Sorting.SortBy(days, Ofi.IntLe())| ==> Sorting.SortBy(days, Ofi.IntLe())[k] > 0
  {
    Sorting.IntLeIsTotalPreorder();
    var sorted := Sorting.SortBy(days, Ofi.IntLe());
    assert Sorting.SortedBy(sorted, Ofi.IntLe());
    assert forall k :: 0 <= k < |sorted| ==> sorted[k] in multiset(days);
  }

  /** Each discovered day comes from a file of the listing named for it. */
  lemma {:induction false} StudyDaysFrom(names: seq<string>, v: int)
    requires v in StudyDays(names)
    ensures exists k :: 0 <= k < |names| && StudyDayOf(names[k]) == Text.Some(v)
  {
    var init := names[..|names| - 1];
    if v in StudyDays(init) {
      StudyDaysFrom(init, v);
      var k :| 0 <= k < |init| && StudyDayOf(init[k]) == Text.Some(v);
      assert names[k] == init[k];
    } else {
      assert StudyDayOf(names[|names| - 1]) == Text.Some(v);
    }
  }

  /** The out-of-sample test of runStudy: a day is OOS iff its number is
      not below the boundary. */
  predicate IsOos(ymd: int)
  {
    ymd >= ParseOosBoundary(OosDateStr)
  }

  /** On dates the number order is the calendar order, so a day is OOS
      iff it is 2024-01-01 or later. */
  lemma IsOosIffLater(y: nat, m: nat, d: nat)
    requires m < 100 && d < 100
    ensures IsOos(y * 10000 + m * 100 + d) <==> (y > 2024 || (y == 2024 && (m > 1 || (m == 1 && d >= 1))))
  {
    OosBoundaryValue();
    if y > 2024 {
      assert y * 10000 >= 2025 * 10000;
    } else if y < 2024 {
      assert y * 10000 <= 2023 * 10000;
    }
  }

  // ---------------------------------------------------------------------
  // loadRawDay: findBlobOffset, the blob read, the row decode
  // ---------------------------------------------------------------------

  /** findBlobOffset on the index file: like findBlobOFI, a short header or
      a failed row read gives (0, 0), but the magic is not checked. */
  function FindBlobOffsetSpec(idx: Opened, day: int): (u64, u64)
  {
    match idx
    case OpenFailed => (0, 0)
    case Opened(c) =>
      var h := FullRead(c, 0, Zeros(IdxHeaderSize));
      if h.err != NoErr then (0, 0)
      else Ofi.FindRowsOfi(c, h.pos, Zeros(IdxRowSize), 0, GetU64(h.buf, 8), day)
  }

  /** On an index with a header and count rows, whatever its magic,
      findBlobOffset is the first row with the day; with the QIDX magic it
      agrees with findBlobOFI; a file shorter than the header gives (0, 0). */
  lemma FindBlobOffsetCases(idx: seq<byte>, day: int)
    ensures Data.Shaped(idx) ==>
      FindBlobOffsetSpec(Opened(idx), day) == Build.FirstMatch(Build.Entries(idx, Data.IndexCount(idx)), 0, day)
    ensures |idx| >= IdxHeaderSize && idx[..4] == IdxMagic ==>
      FindBlobOffsetSpec(Opened(idx), day) == Ofi.FindBlobOfiSpec(Opened(idx), day)
    ensures |idx| < IdxHeaderSize ==> FindBlobOffsetSpec(Opened(idx), day) == (0, 0)
  {
    var h := FullRead(idx, 0, Zeros(IdxHeaderSize));
    if |idx| >= IdxHeaderSize {
      assert h.buf == idx[..IdxHeaderSize] && h.pos == IdxHeaderSize;
      assert h.buf[..4] == idx[..4];
    }
    if Data.Shaped(idx) {
      var rows := Build.Entries(idx, Data.IndexCount(idx));
      forall j | 0 <= j < |rows|
        ensures IdxHeaderSize + IdxRowSize * (j + 1) <= |idx| && Data.IndexRow(idx, j) == rows[j]
      {
        Data.MulMono(IdxRowSize, j + 1, |rows|);
      }
      assert GetU64(h.buf, 8) == Data.IndexCount(idx) by {
        assert h.buf[8..16] == idx[8..16];
      }
      Ofi.FindRowsOfiShaped(idx, rows, Zeros(IdxRowSize), 0, day);
    }
  }

  /** findBlobOffset: the header read, then up to count row reads, leaving
      the loop on the first failed read. */
  method FindBlobOffset(idx: Opened, day: int) returns (offset: u64, length: u64)
    ensures (offset, length) == FindBlobOffsetSpec(idx, day)
  {
    if idx.OpenFailed? {
      return 0, 0;
    }
    var f := new File(idx.contents);
    var hdr := new byte[IdxHeaderSize](_ => 0);
    assert hdr[..] == Zeros(IdxHeaderSize);
    var err := f.ReadFull(hdr);
    if err != NoErr {
      return 0, 0;
    }
    var count := GetU64(hdr[..], 8);
    var row := new byte[IdxRowSize](_ => 0);
    assert row[..] == Zeros(IdxRowSize);
    var i := 0;
    while i < count
      invariant 0 <= i <= count && row.Length == IdxRowSize
      invariant FindBlobOffsetSpec(idx, day) == Ofi.FindRowsOfi(idx.contents, f.pos, row[..], i, count, day)
      decreases count - i
    {
      err := f.ReadFull(row);
      if err != NoErr {
        break;
      }
      if GetU16(row[..], 0) == day {
        return GetU64(row[..], 2), GetU64(row[..], 10);
      }
      i := i + 1;
    }
    return 0, 0;
  }

  /** A day's trade rows as loadRawDay returns them: the body after the
      48-byte header and the header's row count. */
  datatype RawDay = RawDay(body: seq<byte>, rowCount: u64)

  /** loadRawDay: the index lookup, Seek(int64(offset)) in the data file,
      a full read of length bytes, zlib and io.ReadAll (any error fails
      the day), and a blob of at least the header. */
  function LoadRawDay(idx: Opened, data: Opened, day: int, inflate: seq<byte> -> Build.Inflation): (r: Text.Option<RawDay>)
    ensures FindBlobOffsetSpec(idx, day).1 == 0 || data.OpenFailed? ==> r.None?
  {
    var (offset, length) := FindBlobOffsetSpec(idx, day);
    if length == 0 || data.OpenFailed? || ToI64(offset) < 0 then Text.None
    else
      var comp := FullRead(data.contents, offset, Zeros(length));
      if comp.err != NoErr then Text.None
      else match inflate(comp.buf)
        case NotZlib => Text.None
        case Inflated(raw, complete) =>
          if !complete || |raw| < HeaderSize then Text.None
          else Text.Some(RawDay(raw[HeaderSize..], GetU64(raw, 8)))
  }

  /** A loaded day is the inflated image of exactly the bytes the index row
      points at: its body follows that blob's header and its row count is
      the header's. */
  lemma LoadRawDayReads(idx: Opened, data: Opened, day: int, inflate: seq<byte> -> Build.Inflation)
    requires LoadRawDay(idx, data, day, inflate).Some?
    ensures FindBlobOffsetSpec(idx, day).1 > 0 && data.Opened?
    ensures FindBlobOffsetSpec(idx, day).0 + FindBlobOffsetSpec(idx, day).1 <= |data.contents|
    ensures BlobAt(data.contents, FindBlobOffsetSpec(idx, day), inflate) ==
      Build.Inflated(BlobAt(data.contents, FindBlobOffsetSpec(idx, day), inflate).blob, true)
    ensures |BlobAt(data.contents, FindBlobOffsetSpec(idx, day), inflate).blob| >= HeaderSize
    ensures LoadRawDay(idx, data, day, inflate).value == RawDay(
      BlobAt(data.contents, FindBlobOffsetSpec(idx, day), inflate).blob[HeaderSize..],
      GetU64(BlobAt(data.contents, FindBlobOffsetSpec(idx, day), inflate).blob, 8))
  {
    var (offset, length) := FindBlobOffsetSpec(idx, day);
    var comp := FullRead(data.contents, offset, Zeros(length));
    assert comp.buf == data.contents[offset..offset + length];
  }

  /** What zlib makes of the bytes at an index row's place in a data file. */
  function BlobAt(data: seq<byte>, place: (u64, u64), inflate: seq<byte> -> Build.Inflation): Build.Inflation
    requires place.0 + place.1 <= |data|
  {
    inflate(data[place.0..place.0 + place.1])
  }

  /** A row's u64 fields sit at the row's offset plus their own. */
  lemma FieldAt(body: seq<byte>, off: nat, k: nat)
    requires off + k + 8 <= |body|
    ensures GetU64(body[off..], k) == GetU64(body, off + k)
  {
    assert body[off..][k..k + 8] == body[off + k..off + k + 8];
  }

  /** The decode loop of processStudyDay over a day whose header claims
      rowCount rows: n is int(rowCount), and slicing the buffers to a
      negative n panics; otherwise the price at byte 8 and the time stamp at
      byte 38 of each of the n rows are read at 48-byte steps, and a row
      whose first 46 bytes run past the body panics. */
  method DecodeDay(body: seq<byte>, rowCount: u64) returns (panicked: bool, prices: seq<real>, times: seq<i64>)
    ensures var n := ToI64(rowCount);
      panicked <==> n < 0 || (n > 0 && RowSize * (n - 1) + 46 > |body|)
    ensures !panicked ==> |prices| == rowCount && |times| == rowCount
    ensures !panicked ==> forall i :: 0 <= i < rowCount ==>
      prices[i] == Build.RowAt(body, i).px as real && times[i] == Build.RowAt(body, i).ts
  {
    var n := ToI64(rowCount);
    prices, times := [], [];
    if n < 0 {
      return true, prices, times;
    }
    for i := 0 to n
      invariant |prices| == i && |times| == i
      invariant i == 0 || RowSize * (i - 1) + 46 <= |body|
      invariant forall k :: 0 <= k < i ==>
        prices[k] == Build.RowAt(body, k).px as real && times[k] == Build.RowAt(body, k).ts
    {
      var off := i * RowSize;
      if off + 46 > |body| {
        return true, prices, times;
      }
      FieldAt(body, off, 8);
      FieldAt(body, off, 38);
      prices := prices + [GetU64(body, off + 8) as real];
      times := times + [ToI64(GetU64(body, off + 38))];
    }
    return false, prices, times;
  }

  /** Rows written by PutRow decode to the trades written: the prices and
      time stamps of a day are those of its trades. */
  lemma DecodeDayOfTrades(body: seq<byte>, i: nat, t: Trade)
    requires RowSize * i + 46 <= |body| && body[RowSize * i..RowSize * i + 46] == RowImage(t)
    ensures Build.RowAt(body, i).px == t.px && Build.RowAt(body, i).ts == t.ts
  {
    var off := RowSize * i;
    assert body[off..] == RowImage(t) + body[off + 46..];
    TradeRoundTrip(t, body[off + 46..]);
  }

  // ---------------------------------------------------------------------
  // processStudyDay: feature-file shape, de-interleave, result keys
  // ---------------------------------------------------------------------

  /** The dimensions of a variant's feature file of byteSize bytes for a
      day of n rows: the size must be a multiple of n*8 and the quotient
      between 1 and 5; otherwise the variant is skipped (None). */
  function FeatureDims(byteSize: nat, n: nat): (r: Text.Option<nat>)
    ensures r.Some? ==> 1 <= r.value <= 5 && byteSize == r.value * (n * 8)
  {
    if n == 0 || byteSize % (n * 8) != 0 then Text.None
    else
      var dims := byteSize / (n * 8);
      if dims < 1 || dims > 5 then Text.None else Text.Some(dims)
  }

  /** A file is used exactly when it holds 1 to 5 words of 8 bytes per
      row, and then dims is that number. */
  lemma FeatureDimsIff(byteSize: nat, n: nat, dims: nat)
    ensures FeatureDims(byteSize, n) == Text.Some(dims) <==>
      n > 0 && 1 <= dims <= 5 && byteSize == dims * (n * 8)
  {
    if n > 0 && byteSize == dims * (n * 8) {
      DivModUnique(byteSize, n * 8, dims, 0);
    }
  }

  /** Word (i, dim) of an interleaved file: row i's value of dimension dim,
      read at byte (i*dims + dim)*8. */
  function FeatureWord(raw: seq<byte>, n: nat, dims: nat, dim: nat, i: nat): u64
    requires |raw| == dims * (n * 8) && dim < dims && i < n
  {
    WordInFile(n, dims, dim, i);
    GetU64(raw, (i * dims + dim) * 8)
  }

  /** The words of the rows before i and the dimensions before dim come
      first, so (i, dim) lies inside the file. */
  lemma WordInFile(n: nat, dims: nat, dim: nat, i: nat)
    requires dim < dims && i < n
    ensures (i * dims + dim) * 8 + 8 <= dims * (n * 8)
  {
    assert i * dims + dims <= n * dims by {
      assert (i + 1) * dims <= n * dims by {
        Data.MulMono(dims, i + 1, n);
      }
    }
  }

  /** Every word of the file belongs to exactly one (row, dimension): word
      q is dimension q mod dims of row q div dims. */
  lemma WordOwner(n: nat, dims: nat, q: nat)
    requires 0 < dims && q < n * dims
    ensures q / dims < n && q % dims < dims && (q / dims) * dims + q % dims == q
  {
    if q / dims >= n {
      Data.MulMono(dims, n, q / dims);
    }
  }

  /** The de-interleave loop of one dimension: target[i] is the float64
      whose bits are word (i, dim). */
  method Deinterleave(raw: seq<byte>, n: nat, dims: nat, dim: nat, fromBits: u64 -> real) returns (target: seq<real>)
    requires |raw| == dims * (n * 8) && dim < dims
    ensures |target| == n
    ensures forall i :: 0 <= i < n ==> target[i] == fromBits(FeatureWord(raw, n, dims, dim, i))
  {
    target := [];
    for i := 0 to n
      invariant |target| == i
      invariant forall k :: 0 <= k < i ==> target[k] == fromBits(FeatureWord(raw, n, dims, dim, k))
    {
      WordInFile(n, dims, dim, i);
      var offset := (i * dims + dim) * 8;
      target := target + [fromBits(GetU64(raw, offset))];
    }
  }

  /** The result key of dimension dim of a variant: the variant's name for
      a one-dimensional file, else the name and the dimension's suffix. */
  function FeatureKey(v: string, dims: nat, dim: nat): (k: string)
    ensures dims <= 1 ==> k == v
    ensures dims > 1 ==> |k| >= |v| + 3 && k[..|v|] == v && k[|v|] == '_'
  {
    if dims > 1 then v + KeySuffix(dim) else v
  }

  /** "_" and the feature's name, or "_d" and the 1-based dimension past
      the named ones. */
  function KeySuffix(dim: nat): (s: string)
    ensures |s| >= 3
  {
    if dim < |FeatureNames| then "_" + FeatureNames[dim] else "_d" + Text.Itoa(dim + 1)
  }

  /** The suffixes of different dimensions differ: the named ones in their
      digit, the numbered ones in their number. */
  lemma KeySuffixDistinct(a: nat, b: nat)
    requires a != b
    ensures KeySuffix(a) != KeySuffix(b)
  {
    if a < 5 {
      NamedSuffix(a);
    } else {
      NumberedSuffix(a);
    }
    if b < 5 {
      NamedSuffix(b);
    } else {
      NumberedSuffix(b);
    }
  }

  /** The numbered suffixes are "_d" and a numeral of the 1-based
      dimension. */
  lemma NumberedSuffix(k: nat)
    requires k >= 5
    ensures KeySuffix(k)[1] == 'd' && Text.AllDigitChars(KeySuffix(k)[2..])
    ensures Text.DecimalValue(KeySuffix(k)[2..]) == k + 1
  {
    assert KeySuffix(k)[2..] == Text.Itoa(k + 1);
    Text.ItoaRoundTrip(k + 1);
  }

  /** The named suffixes are "_f" and the 1-based dimension digit. */
  lemma NamedSuffix(k: nat)
    requires k < 5
    ensures KeySuffix(k)[1] == 'f' && KeySuffix(k)[2] as int - '0' as int == k + 1
  {
    if k == 0 {
      assert KeySuffix(k) == "_f1_Z";
    } else if k == 1 {
      assert KeySuffix(k) == "_f2_SFA";
    } else if k == 2 {
      assert KeySuffix(k) == "_f3_Elast";
    } else if k == 3 {
      assert KeySuffix(k) == "_f4_Coh";
    } else {
      assert KeySuffix(k) == "_f5_Align";
    }
  }

  /** The dimensions of one file get distinct keys. */
  lemma FeatureKeysDistinct(v: string, dims: nat, a: nat, b: nat)
    requires dims > 1 && a != b
    ensures FeatureKey(v, dims, a) != FeatureKey(v, dims, b)
  {
    KeySuffixDistinct(a, b);
    assert (v + KeySuffix(a))[|v|..] == KeySuffix(a);
    assert (v + KeySuffix(b))[|v|..] == KeySuffix(b);
  }

  // ---------------------------------------------------------------------
  // AlignVectors
  // ---------------------------------------------------------------------

  /** The (entry, exit) index pairs AlignVectors yields from tick i on,
      with the exit cursor at j: ticks with a zero signal or a price <= 0
      are skipped; the cursor moves to the first tick after i whose time
      reaches times[i] + hMs (int64 arithmetic); when none is left the
      sequence ends for good; a pair is yielded when the exit price is
      positive. */
  function AlignFrom(sig: seq<real>, prices: seq<real>, ts: seq<i64>, tg: seq<int>, i: nat, j: nat): (ps: seq<(nat, nat)>)
    requires |ts| == |tg| == |sig| <= |prices| && i <= |sig| && j <= |sig|
    ensures |ps| <= |sig| - i
    decreases |sig| - i
  {
    if i == |sig| then []
    else if sig[i] == 0.0 || prices[i] <= 0.0 then AlignFrom(sig, prices, ts, tg, i + 1, j)
    else
      var e := Ofi.First(ts, Max(j, i + 1), tg[i]);
      if e == |sig| then []
      else (if prices[e] > 0.0 then [(i, e)] else []) + AlignFrom(sig, prices, ts, tg, i + 1, e)
  }

  /** Every pair enters at or after i at a tick with a signal and a
      positive price, and exits later, at a positive price, at a tick
      whose time reaches the entry's target. */
  ghost predicate SoundPairs(sig: seq<real>, prices: seq<real>, ts: seq<i64>, tg: seq<int>, i: nat, ps: seq<(nat, nat)>)
    requires |ts| == |tg| == |sig| <= |prices|
  {
    forall k :: 0 <= k < |ps| ==>
      Tradable(sig, prices, ps[k]) && i <= ps[k].0 && ts[ps[k].1] >= tg[ps[k].0]
  }

  /** The entries strictly increase. */
  ghost predicate Increasing(ps: seq<(nat, nat)>)
  {
    forall k, l :: 0 <= k < l < |ps| ==> ps[k].0 < ps[l].0
  }

  /** An entry before entries that all come later keeps the order. */
  lemma IncreasingCons(head: seq<(nat, nat)>, rest: seq<(nat, nat)>, i: nat)
    requires |head| <= 1 && (forall k :: 0 <= k < |head| ==> head[k].0 == i)
    requires Increasing(rest) && forall k :: 0 <= k < |rest| ==> i < rest[k].0
    ensures Increasing(head + rest)
  {
    var ps := head + rest;
    forall k, l | 0 <= k < l < |ps|
      ensures ps[k].0 < ps[l].0
    {
      assert ps[l] == rest[l - |head|];
      if k >= |head| {
        assert ps[k] == rest[k - |head|];
      }
    }
  }

  /** Every pair enters at or after i at a tick with a signal and a
      positive price, and exits later, at a positive price, at a tick
      whose time reaches the entry's target. */
  lemma {:induction false} AlignFromSound(sig: seq<real>, prices: seq<real>, ts: seq<i64>, tg: seq<int>, i: nat, j: nat)
    requires |ts| == |tg| == |sig| <= |prices| && i <= |sig| && j <= |sig|
    ensures SoundPairs(sig, prices, ts, tg, i, AlignFrom(sig, prices, ts, tg, i, j))
    decreases |sig| - i
  {
    var ps := AlignFrom(sig, prices, ts, tg, i, j);
    if i < |sig| {
      if sig[i] == 0.0 || prices[i] <= 0.0 {
        AlignFromSound(sig, prices, ts, tg, i + 1, j);
        assert ps == AlignFrom(sig, prices, ts, tg, i + 1, j);
      } else {
        var e := Ofi.First(ts, Max(j, i + 1), tg[i]);
        if e < |sig| {
          AlignFromSound(sig, prices, ts, tg, i + 1, e);
          var rest := AlignFrom(sig, prices, ts, tg, i + 1, e);
          var head: seq<(nat, nat)> := if prices[e] > 0.0 then [(i, e)] else [];
          assert ps == head + rest;
          forall k | 0 <= k < |ps|
            ensures Tradable(sig, prices, ps[k]) && i <= ps[k].0 && ts[ps[k].1] >= tg[ps[k].0]
          {
            if k >= |head| {
              assert ps[k] == rest[k - |head|];
            }
          }
        }
      }
    }
  }

  /** The entries strictly increase: no tick enters twice. */
  lemma {:induction false} AlignFromIncreasing(sig: seq<real>, prices: seq<real>, ts: seq<i64>, tg: seq<int>, i: nat, j: nat)
    requires |ts| == |tg| == |sig| <= |prices| && i <= |sig| && j <= |sig|
    ensures Increasing(AlignFrom(sig, prices, ts, tg, i, j))
    decreases |sig| - i
  {
    var ps := AlignFrom(sig, prices, ts, tg, i, j);
    if i < |sig| {
      if sig[i] == 0.0 || prices[i] <= 0.0 {
        AlignFromIncreasing(sig, prices, ts, tg, i + 1, j);
        assert ps == AlignFrom(sig, prices, ts, tg, i + 1, j);
      } else {
        var e := Ofi.First(ts, Max(j, i + 1), tg[i]);
        if e < |sig| {
          AlignFromIncreasing(sig, prices, ts, tg, i + 1, e);
          AlignFromSound(sig, prices, ts, tg, i + 1, e);
          var rest := AlignFrom(sig, prices, ts, tg, i + 1, e);
          var head: seq<(nat, nat)> := if prices[e] > 0.0 then [(i, e)] else [];
          assert ps == head + rest;
          IncreasingCons(head, rest, i);
        }
      }
    }
  }

  /** The exit cursor AlignVectors carries into tick i: at most i + 1, or
      where the scan of an earlier entry q stopped. */
  ghost predicate CursorFrom(ts: seq<i64>, tg: seq<int>, i: nat, j: nat, q: int)
  {
    j <= i + 1 || (0 <= q < i && q < |ts| && q < |tg| && j == Ofi.First(ts, q + 1, tg[q]))
  }

  /** Targets that never decrease along the ticks. */
  ghost predicate Rising(tg: seq<int>)
  {
    forall a, b :: 0 <= a <= b < |tg| ==> tg[a] <= tg[b]
  }

  /** With rising targets the carried cursor changes nothing: the scan
      from it finds the first tick after i that reaches i's target. */
  lemma CursorFirst(ts: seq<i64>, tg: seq<int>, i: nat, j: nat, q: int)
    requires i < |ts| == |tg| && j <= |ts| && Rising(tg) && CursorFrom(ts, tg, i, j, q)
    ensures Ofi.First(ts, Max(j, i + 1), tg[i]) == Ofi.First(ts, i + 1, tg[i])
  {
    if j > i + 1 {
      Ofi.CarriedCursor(ts, q + 1, i + 1, tg[q], tg[i]);
    }
  }

  /** A later scan for a later target stops no earlier. */
  lemma FirstMono(ts: seq<i64>, a: nat, b: nat, t1: int, t2: int)
    requires a <= b <= |ts| && t1 <= t2
    ensures Ofi.First(ts, a, t1) <= Ofi.First(ts, b, t2)
  {
    Ofi.CarriedCursor(ts, a, b, t1, t2);
  }

  /** Each pair exits at the first tick after its entry that reaches the
      entry's target. */
  ghost predicate ExitsFirst(ts: seq<i64>, tg: seq<int>, ps: seq<(nat, nat)>)
  {
    forall k :: 0 <= k < |ps| ==>
      ps[k].0 < |ts| && ps[k].0 < |tg| && ps[k].1 == Ofi.First(ts, ps[k].0 + 1, tg[ps[k].0])
  }

  lemma ExitsConcat(ts: seq<i64>, tg: seq<int>, a: seq<(nat, nat)>, b: seq<(nat, nat)>)
    requires ExitsFirst(ts, tg, a) && ExitsFirst(ts, tg, b)
    ensures ExitsFirst(ts, tg, a + b)
  {
    forall k | 0 <= k < |a + b|
      ensures (a + b)[k].0 < |ts| && (a + b)[k].0 < |tg|
        && (a + b)[k].1 == Ofi.First(ts, (a + b)[k].0 + 1, tg[(a + b)[k].0])
    {
      if k >= |a| {
        assert (a + b)[k] == b[k - |a|];
      }
    }
  }

  /** When the timestamps' targets rise (sorted times, no int64
      overflow), the cursor AlignVectors carries from entry to entry is
      only a shortcut: every exit is the first tick after the entry that
      reaches the entry's target. */
  lemma {:induction false} AlignFromExits(sig: seq<real>, prices: seq<real>, ts: seq<i64>, tg: seq<int>, i: nat, j: nat, q: int)
    requires |ts| == |tg| == |sig| <= |prices| && i <= |sig| && j <= |sig|
    requires Rising(tg) && CursorFrom(ts, tg, i, j, q)
    ensures ExitsFirst(ts, tg, AlignFrom(sig, prices, ts, tg, i, j))
    decreases |sig| - i
  {
    if i < |sig| {
      if sig[i] == 0.0 || prices[i] <= 0.0 {
        AlignFromExits(sig, prices, ts, tg, i + 1, j, q);
      } else {
        var e := Ofi.First(ts, Max(j, i + 1), tg[i]);
        if e < |sig| {
          AlignFromExits(sig, prices, ts, tg, i + 1, e, i);
          ExitsTake(sig, prices, ts, tg, i, j, q, e);
        }
      }
    }
  }

  /** The step of AlignFromExits at an entry whose scan finds an exit. */
  lemma ExitsTake(sig: seq<real>, prices: seq<real>, ts: seq<i64>, tg: seq<int>, i: nat, j: nat, q: int, e: nat)
    requires |ts| == |tg| == |sig| <= |prices| && i < |sig| && j <= |sig|
    requires Rising(tg) && CursorFrom(ts, tg, i, j, q)
    requires sig[i] != 0.0 && prices[i] > 0.0
    requires e == Ofi.First(ts, Max(j, i + 1), tg[i]) && e < |sig|
    requires ExitsFirst(ts, tg, AlignFrom(sig, prices, ts, tg, i + 1, e))
    ensures ExitsFirst(ts, tg, AlignFrom(sig, prices, ts, tg, i, j))
  {
    CursorFirst(ts, tg, i, j, q);
    var rest := AlignFrom(sig, prices, ts, tg, i + 1, e);
    var head: seq<(nat, nat)> := if prices[e] > 0.0 then [(i, e)] else [];
    assert AlignFrom(sig, prices, ts, tg, i, j) == head + rest;
    assert ExitsFirst(ts, tg, head);
    ExitsConcat(ts, tg, head, rest);
  }

  /** Conversely, when the targets rise, every tick from i on with a
      signal and a positive price whose first exit exists and has a
      positive price is paired with that exit: stopping at the first
      entry without an exit loses nothing, since no later entry has one. */
  lemma {:induction false} AlignFromComplete(sig: seq<real>, prices: seq<real>, ts: seq<i64>, tg: seq<int>, i: nat, j: nat, q: int, x: nat)
    requires |ts| == |tg| == |sig| <= |prices| && i <= x < |sig| && j <= |sig|
    requires Rising(tg) && CursorFrom(ts, tg, i, j, q)
    requires sig[x] != 0.0 && prices[x] > 0.0
    requires Ofi.First(ts, x + 1, tg[x]) < |sig|
    requires prices[Ofi.First(ts, x + 1, tg[x])] > 0.0
    ensures (x, Ofi.First(ts, x + 1, tg[x])) in AlignFrom(sig, prices, ts, tg, i, j)
    decreases x - i
  {
    if sig[i] == 0.0 || prices[i] <= 0.0 {
      AlignFromComplete(sig, prices, ts, tg, i + 1, j, q, x);
      PairsSkip(sig, prices, ts, tg, i, j);
    } else {
      var e := CompleteScan(ts, tg, i, j, q, x);
      if i < x {
        AlignFromComplete(sig, prices, ts, tg, i + 1, e, i, x);
      }
      CompleteTaken(sig, prices, ts, tg, i, j, x, e);
    }
  }

  /** The scan of a taken entry i <= x under rising targets: it finds the
      first tick after i reaching i's target, no later than x's exit. */
  lemma CompleteScan(ts: seq<i64>, tg: seq<int>, i: nat, j: nat, q: int, x: nat) returns (e: nat)
    requires |ts| == |tg| && i <= x < |ts| && j <= |ts|
    requires Rising(tg) && CursorFrom(ts, tg, i, j, q)
    ensures e == Ofi.First(ts, Max(j, i + 1), tg[i]) && e == Ofi.First(ts, i + 1, tg[i])
    ensures e <= Ofi.First(ts, x + 1, tg[x])
    ensures i == x ==> e == Ofi.First(ts, x + 1, tg[x])
  {
    e := Ofi.First(ts, Max(j, i + 1), tg[i]);
    CursorFirst(ts, tg, i, j, q);
    FirstMono(ts, i + 1, x + 1, tg[i], tg[x]);
  }

  /** The step of AlignFromComplete at a taken entry i <= x, whose scan
      finds the exit e: x's pair is the one yielded here, or one of those
      yielded after. */
  lemma CompleteTaken(sig: seq<real>, prices: seq<real>, ts: seq<i64>, tg: seq<int>, i: nat, j: nat, x: nat, e: nat)
    requires |ts| == |tg| == |sig| <= |prices| && i <= x < |sig| && j <= |sig|
    requires sig[i] != 0.0 && prices[i] > 0.0
    requires e == Ofi.First(ts, Max(j, i + 1), tg[i]) && e < |sig|
    requires i == x ==> e == Ofi.First(ts, x + 1, tg[x]) && prices[e] > 0.0
    requires i < x ==> (x, Ofi.First(ts, x + 1, tg[x])) in AlignFrom(sig, prices, ts, tg, i + 1, e)
    ensures (x, Ofi.First(ts, x + 1, tg[x])) in AlignFrom(sig, prices, ts, tg, i, j)
  {
    PairsTake(sig, prices, ts, tg, i, j, e);
    var head: seq<(nat, nat)> := if prices[e] > 0.0 then [(i, e)] else [];
    InConcat(head, AlignFrom(sig, prices, ts, tg, i + 1, e), (x, Ofi.First(ts, x + 1, tg[x])));
  }

  /** An entry that is taken and whose scan finds an exit at e. */
  lemma PairsTake(sig: seq<real>, prices: seq<real>, ts: seq<i64>, tg: seq<int>, i: nat, j: nat, e: nat)
    requires |ts| == |tg| == |sig| <= |prices| && i < |sig| && j <= |sig|
    requires sig[i] != 0.0 && prices[i] > 0.0
    requires e == Ofi.First(ts, Max(j, i + 1), tg[i]) && e < |sig|
    ensures AlignFrom(sig, prices, ts, tg, i, j)
      == (if prices[e] > 0.0 then [(i, e)] else []) + AlignFrom(sig, prices, ts, tg, i + 1, e)
  {
  }

  /** An entry that is skipped. */
  lemma PairsSkip(sig: seq<real>, prices: seq<real>, ts: seq<i64>, tg: seq<int>, i: nat, j: nat)
    requires |ts| == |tg| == |sig| <= |prices| && i < |sig| && j <= |sig|
    requires sig[i] == 0.0 || prices[i] <= 0.0
    ensures AlignFrom(sig, prices, ts, tg, i, j) == AlignFrom(sig, prices, ts, tg, i + 1, j)
  {
  }

  lemma InConcat(a: seq<(nat, nat)>, b: seq<(nat, nat)>, p: (nat, nat))
    requires p in b || (|a| > 0 && p == a[0])
    ensures p in a + b
  {
  }

  /** A pair AlignVectors may yield: entry before exit, a nonzero signal
      and positive prices at both ends. */
  predicate Tradable(sig: seq<real>, prices: seq<real>, p: (nat, nat))
    requires |sig| <= |prices|
  {
    p.0 < p.1 < |sig| && sig[p.0] != 0.0 && prices[p.0] > 0.0 && prices[p.1] > 0.0
  }

  /** The exit target of every tick: its time plus the horizon, in int64
      arithmetic. */
  function Targets(ts: seq<i64>, h: i64): (tg: seq<int>)
    ensures |tg| == |ts| && forall k :: 0 <= k < |ts| ==> tg[k] == Ofi.Target(ts, h, k)
  {
    seq(|ts|, k requires 0 <= k < |ts| => Ofi.Target(ts, h, k) as int)
  }

  /** All pairs AlignVectors yields over the first len(sig) ticks. */
  function AlignPairs(sig: seq<real>, prices: seq<real>, times: seq<i64>, h: i64): seq<(nat, nat)>
    requires |sig| <= |prices| && |sig| <= |times|
  {
    var ts := times[..|sig|];
    AlignFrom(sig, prices, ts, Targets(ts, h), 0, 0)
  }

  /** Each pair AlignVectors yields is tradable, its exit time reaches
      the entry time plus the horizon (int64 arithmetic), and no tick
      enters twice. */
  lemma AlignPairsSound(sig: seq<real>, prices: seq<real>, times: seq<i64>, h: i64)
    requires |sig| <= |prices| && |sig| <= |times|
    ensures forall k :: 0 <= k < |AlignPairs(sig, prices, times, h)| ==>
      var p := AlignPairs(sig, prices, times, h)[k];
      Tradable(sig, prices, p) && times[p.1] >= WrapI64(times[p.0] as int + h as int)
    ensures Increasing(AlignPairs(sig, prices, times, h))
  {
    var ts := times[..|sig|];
    var tg := Targets(ts, h);
    AlignFromSound(sig, prices, ts, tg, 0, 0);
    AlignFromIncreasing(sig, prices, ts, tg, 0, 0);
    var ps := AlignPairs(sig, prices, times, h);
    forall k | 0 <= k < |ps|
      ensures Tradable(sig, prices, ps[k]) && times[ps[k].1] >= WrapI64(times[ps[k].0] as int + h as int)
    {
      assert ts[ps[k].1] == times[ps[k].1] && ts[ps[k].0] == times[ps[k].0];
      assert tg[ps[k].0] == Ofi.Target(ts, h, ps[k].0);
    }
  }

  /** The exit of tick x: the first later tick whose time reaches x's
      time plus the horizon, or |ts| when none does. */
  ghost function Exit(ts: seq<i64>, h: i64, x: nat): (e: nat)
    requires x < |ts|
    ensures x < e <= |ts|
  {
    Ofi.First(ts, x + 1, Ofi.Target(ts, h, x))
  }

  /** With rising targets (sorted times, no int64 overflow) the pairs
      AlignVectors yields are exactly the tradable pairs whose exit is the
      first tick to reach the entry's target: the carried cursor and the
      stop at the first entry without an exit lose nothing. */
  lemma AlignPairsExact(sig: seq<real>, prices: seq<real>, times: seq<i64>, h: i64)
    requires |sig| <= |prices| && |sig| <= |times|
    requires Ofi.TargetsRise(times[..|sig|], h)
    ensures forall p :: p in AlignPairs(sig, prices, times, h) <==>
      Tradable(sig, prices, p) && p.1 == Exit(times[..|sig|], h, p.0)
  {
    var ts := times[..|sig|];
    var tg := Targets(ts, h);
    var ps := AlignPairs(sig, prices, times, h);
    AlignFromSound(sig, prices, ts, tg, 0, 0);
    AlignFromExits(sig, prices, ts, tg, 0, 0, -1);
    forall p | p in ps
      ensures Tradable(sig, prices, p) && p.1 == Exit(ts, h, p.0)
    {
      var k :| 0 <= k < |ps| && ps[k] == p;
    }
    forall p | Tradable(sig, prices, p) && p.1 == Exit(ts, h, p.0)
      ensures p in ps
    {
      AlignFromComplete(sig, prices, ts, tg, 0, 0, -1, p.0);
    }
  }

  /** The return of a pair: (pEnd - pStart) / pStart. */
  function Return(pStart: real, pEnd: real): real
    requires pStart > 0.0
  {
    (pEnd - pStart) / pStart
  }

  /** The (signal, return) values AlignVectors yields from tick i on,
      with the exit cursor at j: the same walk as AlignFrom, yielding the
      entry's signal and the return to the exit. */
  function YieldFrom(sig: seq<real>, prices: seq<real>, ts: seq<i64>, tg: seq<int>, i: nat, j: nat): seq<(real, real)>
    requires |ts| == |tg| == |sig| <= |prices| && i <= |sig| && j <= |sig|
    decreases |sig| - i
  {
    if i == |sig| then []
    else if sig[i] == 0.0 || prices[i] <= 0.0 then YieldFrom(sig, prices, ts, tg, i + 1, j)
    else
      var e := Ofi.First(ts, Max(j, i + 1), tg[i]);
      if e == |sig| then []
      else
        (if prices[e] > 0.0 then [(sig[i], Return(prices[i], prices[e]))] else [])
        + YieldFrom(sig, prices, ts, tg, i + 1, e)
  }

  /** The (signal, return) values AlignVectors yields over the first
      len(sig) ticks. */
  function AlignValues(sig: seq<real>, prices: seq<real>, times: seq<i64>, h: i64): seq<(real, real)>
    requires |sig| <= |prices| && |sig| <= |times|
  {
    var ts := times[..|sig|];
    YieldFrom(sig, prices, ts, Targets(ts, h), 0, 0)
  }

  /** The (signal, return) values of tradable pairs, in order. */
  function PairValues(sig: seq<real>, prices: seq<real>, ps: seq<(nat, nat)>): (vs: seq<(real, real)>)
    requires |sig| <= |prices|
    requires forall k :: 0 <= k < |ps| ==> Tradable(sig, prices, ps[k])
    ensures |vs| == |ps|
    ensures forall k :: 0 <= k < |ps| ==>
      Tradable(sig, prices, ps[k]) && vs[k] == (sig[ps[k].0], Return(prices[ps[k].0], prices[ps[k].1]))
  {
    if ps == [] then []
    else
      assert Tradable(sig, prices, ps[0]);
      [(sig[ps[0].0], Return(prices[ps[0].0], prices[ps[0].1]))] + PairValues(sig, prices, ps[1..])
  }

  /** The values yielded are those of the pairs AlignFrom walks: the k-th
      value is the signal at the k-th entry and the return from that entry
      to its exit. */
  lemma {:induction false} YieldFromPairs(sig: seq<real>, prices: seq<real>, ts: seq<i64>, tg: seq<int>, i: nat, j: nat)
    requires |ts| == |tg| == |sig| <= |prices| && i <= |sig| && j <= |sig|
    ensures SoundPairs(sig, prices, ts, tg, i, AlignFrom(sig, prices, ts, tg, i, j))
    ensures YieldFrom(sig, prices, ts, tg, i, j) == PairValues(sig, prices, AlignFrom(sig, prices, ts, tg, i, j))
    decreases |sig| - i
  {
    AlignFromSound(sig, prices, ts, tg, i, j);
    if i < |sig| {
      if sig[i] == 0.0 || prices[i] <= 0.0 {
        YieldFromPairs(sig, prices, ts, tg, i + 1, j);
      } else {
        var e := Ofi.First(ts, Max(j, i + 1), tg[i]);
        if e < |sig| {
          YieldFromPairs(sig, prices, ts, tg, i + 1, e);
          var rest := AlignFrom(sig, prices, ts, tg, i + 1, e);
          if prices[e] > 0.0 {
            assert ([(i, e)] + rest)[1..] == rest;
          } else {
            assert [] + rest == rest;
          }
        }
      }
    }
  }

  /** What AlignVectors yields, pair by pair. */
  lemma AlignValuesArePairs(sig: seq<real>, prices: seq<real>, times: seq<i64>, h: i64)
    requires |sig| <= |prices| && |sig| <= |times|
    ensures forall k :: 0 <= k < |AlignPairs(sig, prices, times, h)| ==>
      Tradable(sig, prices, AlignPairs(sig, prices, times, h)[k])
    ensures AlignValues(sig, prices, times, h) == PairValues(sig, prices, AlignPairs(sig, prices, times, h))
  {
    var ts := times[..|sig|];
    YieldFromPairs(sig, prices, ts, Targets(ts, h), 0, 0);
  }

  /** One tick of AlignVectors where the entry is taken and an exit is
      found at e. */
  lemma YieldTake(sig: seq<real>, prices: seq<real>, ts: seq<i64>, tg: seq<int>, i: nat, j: nat, e: nat)
    requires |ts| == |tg| == |sig| <= |prices| && i < |sig| && j <= |sig|
    requires sig[i] != 0.0 && prices[i] > 0.0
    requires e == Ofi.First(ts, Max(j, i + 1), tg[i]) && e < |sig|
    ensures prices[e] > 0.0 ==>
      YieldFrom(sig, prices, ts, tg, i, j) == [(sig[i], Return(prices[i], prices[e]))] + YieldFrom(sig, prices, ts, tg, i + 1, e)
    ensures prices[e] <= 0.0 ==> YieldFrom(sig, prices, ts, tg, i, j) == YieldFrom(sig, prices, ts, tg, i + 1, e)
  {
    if prices[e] <= 0.0 {
      assert [] + YieldFrom(sig, prices, ts, tg, i + 1, e) == YieldFrom(sig, prices, ts, tg, i + 1, e);
    }
  }

  /** A tick that is skipped, or whose exit runs off the end. */
  lemma YieldSkip(sig: seq<real>, prices: seq<real>, ts: seq<i64>, tg: seq<int>, i: nat, j: nat)
    requires |ts| == |tg| == |sig| <= |prices| && i < |sig| && j <= |sig|
    ensures sig[i] == 0.0 || prices[i] <= 0.0 ==>
      YieldFrom(sig, prices, ts, tg, i, j) == YieldFrom(sig, prices, ts, tg, i + 1, j)
    ensures (sig[i] != 0.0 && prices[i] > 0.0
      && Ofi.First(ts, Max(j, i + 1), tg[i]) == |sig|) ==>
      YieldFrom(sig, prices, ts, tg, i, j) == []
  {
  }

  lemma ValuesAssoc(a: seq<(real, real)>, b: seq<(real, real)>, c: seq<(real, real)>)
    ensures (a + b) + c == a + (b + c) && a + [] == a
  {
  }

  /** AlignVectors: the sequence of (signal, return) pairs the iterator
      yields to a consumer that takes them all, as processStudyDay's does
      when it fills the signal and return vectors. */
  method AlignVectors(sig: seq<real>, prices: seq<real>, times: seq<i64>, h: i64) returns (out: seq<(real, real)>)
    requires |sig| <= |prices| && |sig| <= |times|
    ensures out == AlignValues(sig, prices, times, h)
  {
    var n := |sig|;
    var ts := times[..n];
    ghost var tg := Targets(ts, h);
    out := [];
    var j := 0;
    var i := 0;
    while i < n
      invariant 0 <= i <= n && j <= n && |ts| == n
      invariant out + YieldFrom(sig, prices, ts, tg, i, j) == AlignValues(sig, prices, times, h)
    {
      var s := sig[i];
      var pStart := prices[i];
      if s != 0.0 && pStart > 0.0 {
        var target := Ofi.Target(ts, h, i);
        ghost var j0 := j;
        j := Ofi.Advance(ts, if j < i + 1 then i + 1 else j, target);
        if j >= n {
          YieldEnd(out, sig, prices, ts, tg, i, j0, AlignValues(sig, prices, times, h));
          break;
        }
        YieldNext(out, sig, prices, ts, tg, i, j0, j, AlignValues(sig, prices, times, h));
        var pEnd := prices[j];
        if pEnd > 0.0 {
          var r := Return(pStart, pEnd);
          out := out + [(s, r)];
        }
      } else {
        YieldSkip(sig, prices, ts, tg, i, j);
      }
      i := i + 1;
    }
    ValuesAssoc(out, [], []);
  }

  /** The loop of AlignVectors stops at an entry with no exit: nothing
      more is yielded. */
  lemma YieldEnd(out: seq<(real, real)>, sig: seq<real>, prices: seq<real>, ts: seq<i64>, tg: seq<int>, i: nat, j: nat,
                 total: seq<(real, real)>)
    requires |ts| == |tg| == |sig| <= |prices| && i < |sig| && j <= |sig|
    requires sig[i] != 0.0 && prices[i] > 0.0 && Ofi.First(ts, Max(j, i + 1), tg[i]) >= |sig|
    requires out + YieldFrom(sig, prices, ts, tg, i, j) == total
    ensures out == total
  {
    YieldSkip(sig, prices, ts, tg, i, j);
    ValuesAssoc(out, [], []);
  }

  /** The loop of AlignVectors at an entry whose exit e exists: the pair is
      yielded when the exit price is positive, and the walk goes on from
      the next entry with the cursor at e. */
  lemma YieldNext(out: seq<(real, real)>, sig: seq<real>, prices: seq<real>, ts: seq<i64>, tg: seq<int>, i: nat, j: nat,
                  e: nat, total: seq<(real, real)>)
    requires |ts| == |tg| == |sig| <= |prices| && i < |sig| && j <= |sig|
    requires sig[i] != 0.0 && prices[i] > 0.0
    requires e == Ofi.First(ts, Max(j, i + 1), tg[i]) && e < |sig|
    requires out + YieldFrom(sig, prices, ts, tg, i, j) == total
    ensures prices[e] > 0.0 ==>
      out + [(sig[i], Return(prices[i], prices[e]))] + YieldFrom(sig, prices, ts, tg, i + 1, e) == total
    ensures prices[e] <= 0.0 ==> out + YieldFrom(sig, prices, ts, tg, i + 1, e) == total
  {
    YieldTake(sig, prices, ts, tg, i, j, e);
    ValuesAssoc(out, [(sig[i], Return(prices[i], prices[e]))], YieldFrom(sig, prices, ts, tg, i + 1, e));
  }

  // ---------------------------------------------------------------------
  // CalcMomentsVectors
  // ---------------------------------------------------------------------

  /** The running sums and counters of a (signal, return) series. The
      sums are exact real sums: float64 rounding is not modelled. */
  datatype Moments = Moments(
    count: nat, validHits: nat, hits: nat,
    sumSig: real, sumRet: real, sumSqSig: real, sumSqRet: real,
    sumProd: real, sumPnL: real, sumSqPnL: real,
    turnover: real, sumProdLag: real, sumSqSigLag: real)

  /** The sum of a[k] * b[k] over the first n entries. */
  function SumProducts(a: seq<real>, b: seq<real>, n: nat): real
    requires n <= |a| && n <= |b|
  {
    if n == 0 then 0.0 else SumProducts(a, b, n - 1) + a[n - 1] * b[n - 1]
  }

  /** The sum of the first n entries. */
  function SumOf(a: seq<real>, n: nat): real
    requires n <= |a|
  {
    if n == 0 then 0.0 else SumOf(a, n - 1) + a[n - 1]
  }

  /** The sum of the squared products (a[k] * b[k])^2 over the first n entries. */
  function SumSqProducts(a: seq<real>, b: seq<real>, n: nat): real
    requires n <= |a| && n <= |b|
  {
    if n == 0 then 0.0 else SumSqProducts(a, b, n - 1) + (a[n - 1] * b[n - 1]) * (a[n - 1] * b[n - 1])
  }

  /** The sum over 0 < k < n of a[k] * a[k - 1] and of a[k - 1]^2: the lag-one
      cross products and the squares of the lagged signal. */
  function SumLagProducts(a: seq<real>, n: nat): real
    requires n <= |a|
  {
    if n <= 1 then 0.0 else SumLagProducts(a, n - 1) + a[n - 1] * a[n - 2]
  }

  function SumLagSquares(a: seq<real>, n: nat): real
    requires n <= |a|
  {
    if n <= 1 then 0.0 else SumLagSquares(a, n - 1) + a[n - 2] * a[n - 2]
  }

  function Abs(x: real): (r: real)
    ensures r >= 0.0 && (r == x || r == -x)
  {
    if x < 0.0 then -x else x
  }

  /** The total absolute change |a[k] - a[k - 1]| over 0 < k < n. */
  function Turnover(a: seq<real>, n: nat): (r: real)
    requires n <= |a|
  {
    if n <= 1 then 0.0 else Turnover(a, n - 1) + Abs(a[n - 1] - a[n - 2])
  }

  /** The number of k < n whose PnL a[k] * b[k] is nonzero. */
  function NonzeroPnLCount(a: seq<real>, b: seq<real>, n: nat): nat
    requires n <= |a| && n <= |b|
  {
    if n == 0 then 0 else NonzeroPnLCount(a, b, n - 1) + (if a[n - 1] * b[n - 1] != 0.0 then 1 else 0)
  }

  /** The number of k < n whose PnL a[k] * b[k] is positive. */
  function PositivePnLCount(a: seq<real>, b: seq<real>, n: nat): nat
    requires n <= |a| && n <= |b|
  {
    if n == 0 then 0 else PositivePnLCount(a, b, n - 1) + (if a[n - 1] * b[n - 1] > 0.0 then 1 else 0)
  }

  /** A valid pair (both values nonzero) is one whose PnL is nonzero, and a
      hit (same sign) one whose PnL is positive. */
  lemma SignsOfProduct(s: real, r: real)
    ensures (s != 0.0 && r != 0.0) <==> s * r != 0.0
    ensures ((s > 0.0 && r > 0.0) || (s < 0.0 && r < 0.0)) <==> s * r > 0.0
  {
    if s > 0.0 && r < 0.0 {
      assert s * (-r) > 0.0;
    } else if s < 0.0 && r > 0.0 {
      assert (-s) * r > 0.0;
    } else if s < 0.0 && r < 0.0 {
      assert (-s) * (-r) > 0.0;
    }
  }

  /** What CalcMomentsVectors has accumulated after the first n pairs:
      the counters, the plain sums and the lag-one sums. */
  ghost predicate MomentsAfter(m: Moments, sigs: seq<real>, rets: seq<real>, n: nat)
    requires n <= |sigs| && n <= |rets|
  {
    CountsAfter(m, sigs, rets, n) && SumsAfter(m, sigs, rets, n) && LagsAfter(m, sigs, n)
  }

  ghost predicate CountsAfter(m: Moments, sigs: seq<real>, rets: seq<real>, n: nat)
    requires n <= |sigs| && n <= |rets|
  {
    m.count == n
    && m.validHits == NonzeroPnLCount(sigs, rets, n)
    && m.hits == PositivePnLCount(sigs, rets, n)
  }

  ghost predicate SumsAfter(m: Moments, sigs: seq<real>, rets: seq<real>, n: nat)
    requires n <= |sigs| && n <= |rets|
  {
    m.sumSig == SumOf(sigs, n) && m.sumRet == SumOf(rets, n)
    && m.sumSqSig == SumProducts(sigs, sigs, n) && m.sumSqRet == SumProducts(rets, rets, n)
    && m.sumProd == SumProducts(sigs, rets, n) && m.sumPnL == SumProducts(sigs, rets, n)
    && m.sumSqPnL == SumSqProducts(sigs, rets, n)
  }

  ghost predicate LagsAfter(m: Moments, sigs: seq<real>, n: nat)
    requires n <= |sigs|
  {
    m.turnover == Turnover(sigs, n)
    && m.sumProdLag == SumLagProducts(sigs, n) && m.sumSqSigLag == SumLagSquares(sigs, n)
  }

  /** CalcMomentsVectors: one pass over the pairs. Count is the number of
      pairs, ValidHits the number with both values nonzero, Hits the
      number with both of one sign; Turnover and the lag sums run over
      consecutive signals. */
  method CalcMomentsVectors(sigs: seq<real>, rets: seq<real>) returns (m: Moments)
    requires |sigs| <= |rets|
    ensures MomentsAfter(m, sigs, rets, |sigs|)
  {
    m := Moments(0, 0, 0, 0.0, 0.0, 0.0, 0.0, 0.0, 0.0, 0.0, 0.0, 0.0, 0.0);
    var prevSig := 0.0;
    var n := |sigs|;
    var i := 0;
    while i < n
      invariant 0 <= i <= n
      invariant MomentsAfter(m, sigs, rets, i)
      invariant i > 0 ==> prevSig == sigs[i - 1]
    {
      var s := sigs[i];
      var r := rets[i];
      ghost var m0 := m;
      var pnl := s * r;
      m := m.(count := m.count + 1, sumSig := m.sumSig + s, sumRet := m.sumRet + r,
        sumSqSig := m.sumSqSig + s * s, sumSqRet := m.sumSqRet + r * r,
        sumProd := m.sumProd + s * r, sumPnL := m.sumPnL + pnl, sumSqPnL := m.sumSqPnL + pnl * pnl);
      if s != 0.0 && r != 0.0 {
        m := m.(validHits := m.validHits + 1);
        if (s > 0.0 && r > 0.0) || (s < 0.0 && r < 0.0) {
          m := m.(hits := m.hits + 1);
        }
      }
      if i > 0 {
        var d := s - prevSig;
        if d < 0.0 {
          d := -d;
        }
        m := m.(turnover := m.turnover + d, sumProdLag := m.sumProdLag + s * prevSig,
          sumSqSigLag := m.sumSqSigLag + prevSig * prevSig);
      }
      MomentsNext(m0, m, sigs, rets, i, s, r, pnl, prevSig);
      prevSig := s;
      i := i + 1;
    }
  }

  /** One step of CalcMomentsVectors: the pair i added to the sums of the
      first i pairs gives the sums of the first i + 1. */
  lemma MomentsNext(m0: Moments, m: Moments, sigs: seq<real>, rets: seq<real>, i: nat, s: real, r: real, pnl: real, prev: real)
    requires i < |sigs| && i < |rets| && MomentsAfter(m0, sigs, rets, i)
    requires s == sigs[i] && r == rets[i] && pnl == s * r && (i > 0 ==> prev == sigs[i - 1])
    requires m.count == m0.count + 1
    requires m.sumSig == m0.sumSig + s && m.sumRet == m0.sumRet + r
    requires m.sumSqSig == m0.sumSqSig + s * s && m.sumSqRet == m0.sumSqRet + r * r
    requires m.sumProd == m0.sumProd + s * r && m.sumPnL == m0.sumPnL + pnl
    requires m.sumSqPnL == m0.sumSqPnL + pnl * pnl
    requires m.validHits == m0.validHits + (if s != 0.0 && r != 0.0 then 1 else 0)
    requires m.hits == m0.hits + (if (s > 0.0 && r > 0.0) || (s < 0.0 && r < 0.0) then 1 else 0)
    requires i == 0 ==> m.turnover == m0.turnover && m.sumProdLag == m0.sumProdLag && m.sumSqSigLag == m0.sumSqSigLag
    requires i > 0 ==>
      m.turnover == m0.turnover + Abs(s - prev)
      && m.sumProdLag == m0.sumProdLag + s * prev
      && m.sumSqSigLag == m0.sumSqSigLag + prev * prev
    ensures MomentsAfter(m, sigs, rets, i + 1)
  {
    CountsNext(m0.count, m0.validHits, m0.hits, m, sigs, rets, i);
    SumsNext(m0, m, sigs, rets, i, s, r, pnl);
    LagsNext(m0, m, sigs, i, s, prev);
  }

  lemma SumsNext(m0: Moments, m: Moments, sigs: seq<real>, rets: seq<real>, i: nat, s: real, r: real, pnl: real)
    requires i < |sigs| && i < |rets| && SumsAfter(m0, sigs, rets, i)
    requires s == sigs[i] && r == rets[i] && pnl == s * r
    requires m.sumSig == m0.sumSig + s && m.sumRet == m0.sumRet + r
    requires m.sumSqSig == m0.sumSqSig + s * s && m.sumSqRet == m0.sumSqRet + r * r
    requires m.sumProd == m0.sumProd + s * r && m.sumPnL == m0.sumPnL + pnl
    requires m.sumSqPnL == m0.sumSqPnL + pnl * pnl
    ensures SumsAfter(m, sigs, rets, i + 1)
  {
  }

  lemma LagsNext(m0: Moments, m: Moments, sigs: seq<real>, i: nat, s: real, prev: real)
    requires i < |sigs| && LagsAfter(m0, sigs, i)
    requires s == sigs[i] && (i > 0 ==> prev == sigs[i - 1])
    requires i == 0 ==> m.turnover == m0.turnover && m.sumProdLag == m0.sumProdLag && m.sumSqSigLag == m0.sumSqSigLag
    requires i > 0 ==>
      m.turnover == m0.turnover + Abs(s - prev)
      && m.sumProdLag == m0.sumProdLag + s * prev
      && m.sumSqSigLag == m0.sumSqSigLag + prev * prev
    ensures LagsAfter(m, sigs, i + 1)
  {
  }

  /** The counters' step: a pair is valid iff its PnL is nonzero and a hit
      iff its PnL is positive. */
  lemma CountsNext(count: nat, validHits: nat, hits: nat, m: Moments, sigs: seq<real>, rets: seq<real>, i: nat)
    requires i < |sigs| && i < |rets|
    requires count == i && validHits == NonzeroPnLCount(sigs, rets, i) && hits == PositivePnLCount(sigs, rets, i)
    requires m.count == count + 1
    requires m.validHits == validHits + (if sigs[i] != 0.0 && rets[i] != 0.0 then 1 else 0)
    requires m.hits == hits + (if (sigs[i] > 0.0 && rets[i] > 0.0) || (sigs[i] < 0.0 && rets[i] < 0.0) then 1 else 0)
    ensures CountsAfter(m, sigs, rets, i + 1)
  {
    SignsOfProduct(sigs[i], rets[i]);
  }

  /** Every hit is a valid pair and every valid pair is counted:
      Hits <= ValidHits <= Count. */
  lemma {:induction false} CountersOrdered(sigs: seq<real>, rets: seq<real>, n: nat)
    requires n <= |sigs| && n <= |rets|
    ensures PositivePnLCount(sigs, rets, n) <= NonzeroPnLCount(sigs, rets, n) <= n
  {
    if n > 0 {
      CountersOrdered(sigs, rets, n - 1);
    }
  }

  /** The turnover never decreases from one pair to the next and is never
      negative. */
  lemma {:induction false} TurnoverGrows(a: seq<real>, n: nat, k: nat)
    requires k <= n <= |a|
    ensures 0.0 <= Turnover(a, k) <= Turnover(a, n)
    decreases n
  {
    if n > k {
      TurnoverGrows(a, n - 1, k);
    } else if k > 1 {
      TurnoverGrows(a, k - 1, k - 1);
    }
  }

  /** The turnover is zero exactly when the signal never changes. */
  lemma {:induction false} TurnoverZeroIffFlat(a: seq<real>, n: nat)
    requires n <= |a|
    ensures Turnover(a, n) == 0.0 <==> forall k :: 0 < k < n ==> a[k] == a[k - 1]
  {
    if n > 1 {
      TurnoverZeroIffFlat(a, n - 1);
      TurnoverGrows(a, n - 1, n - 1);
    }
  }
}
