/**
 * sanity.go: the consistency check of every month directory of the
 * symbol. For each month, validateMonth opens the index and the data file,
 * checks the index header, then walks the index rows and counts one issue
 * per row whose blob cannot be read, inflated, checksummed or whose AGG3
 * header and size do not hold up.
 */
module Sanity {
  import opened Bytes
  import opened Layout
  import opened GoIo
  import Build
  import Data
  import Text

  /** The size check as sanity.go writes it: HeaderSize + int(rowCount) *
      RowSize in Go ints, compared with the blob's length. */
  predicate SizeMatchesAsWritten(blobLen: nat, rowCount: u64)
  {
    WrapI64(HeaderSize + ToI64(rowCount) * RowSize) == blobLen
  }

  /** The intended size check: the blob is the header and rowCount rows. */
  predicate SizeMatches(blobLen: nat, rowCount: u64)
  {
    blobLen == HeaderSize + rowCount * RowSize
  }

  /** The check as written accepts a bare 48-byte header that claims 2^60
      rows: 48 + 2^60 * 48 wraps to 48. */
  lemma SanitySizeWraps()
    ensures SizeMatchesAsWritten(HeaderSize, 0x1000_0000_0000_0000)
    ensures !SizeMatches(HeaderSize, 0x1000_0000_0000_0000)
  {
    assert HeaderSize + 0x1000_0000_0000_0000 * RowSize == HeaderSize + 3 * U64_LIMIT;
    DivModUnique(HeaderSize + 3 * U64_LIMIT, U64_LIMIT, 3, HeaderSize);
  }

  /** For every row count below 2^57 (blobs below 2^63 bytes) the two
      checks agree. */
  lemma SizeChecksAgree(blobLen: nat, rowCount: u64)
    requires rowCount < 0x200_0000_0000_0000 && blobLen < I64_LIMIT
    ensures SizeMatchesAsWritten(blobLen, rowCount) <==> SizeMatches(blobLen, rowCount)
  {
    ToU64Small(HeaderSize + rowCount * RowSize);
  }

  /** The intended check is processBuildDay's: a blob sanity accepts, the
      builder accepts. */
  lemma SizeMatchesIsBuildCheck(blob: seq<byte>)
    requires |blob| >= HeaderSize
    ensures SizeMatches(|blob|, GetU64(blob, 8)) <==> Build.Passes(blob)
  {
  }

  /** Why a row counts as an issue, in the order validateMonth checks. */
  datatype RowFault = BadLength | SeekFails | ShortRead | NotZlib | BadStream
                    | BadChecksum | ShortHeader | BadAggMagic | BadSize

  /** The checks of one index row against the data file: int(length) > 0,
      Seek(int64(offset)), io.ReadFull of the compressed bytes, zlib, the
      checksum (the first 8 bytes of the blob's SHA-256, little-endian),
      then the AGG3 header and the size. */
  function RowFaultOf(data: seq<byte>, e: IndexEntry, inflate: seq<byte> -> Build.Inflation,
                      sum8: seq<byte> -> u64): Text.Option<RowFault>
  {
    var offset := ToI64(e.offset);
    var length := ToI64(e.length);
    if length <= 0 then Text.Some(BadLength)
    else if offset < 0 then Text.Some(SeekFails)
    else if Avail(data, offset) < length then Text.Some(ShortRead)
    else match inflate(data[offset..offset + length])
      case NotZlib => Text.Some(NotZlib)
      case Inflated(blob, complete) =>
        if !complete then Text.Some(BadStream)
        else if sum8(blob) != e.checksum then Text.Some(BadChecksum)
        else if |blob| < HeaderSize then Text.Some(ShortHeader)
        else if blob[..4] != AggMagic then Text.Some(BadAggMagic)
        else if !SizeMatchesAsWritten(|blob|, GetU64(blob, 8)) then Text.Some(BadSize)
        else Text.None
  }

  /** The issues of the row scan from file offset pos with `left` rows still
      to read: a row that cannot be read in full is one issue and ends the
      scan; every other row adds one issue at most. */
  function ScanIssues(idx: seq<byte>, pos: nat, left: nat, data: seq<byte>,
                      inflate: seq<byte> -> Build.Inflation, sum8: seq<byte> -> u64): nat
    decreases left
  {
    if left == 0 then 0
    else if Avail(idx, pos) < IdxRowSize then 1
    else
      (if RowFaultOf(data, DecodeIndexRow(idx[pos..pos + IdxRowSize]), inflate, sum8).Some? then 1 else 0)
      + ScanIssues(idx, pos + IdxRowSize, left - 1, data, inflate, sum8)
  }

  /** How validateMonth ends: one of the four FAIL lines, or the scan with
      its issue count. */
  datatype Verdict = NoIndex | NoData | HeaderReadError(err: ReadErr) | BadIndexMagic | Checked(issues: nat)

  function ValidateMonthSpec(idx: Opened, data: Opened, inflate: seq<byte> -> Build.Inflation,
                             sum8: seq<byte> -> u64): Verdict
  {
    if idx.OpenFailed? then NoIndex
    else if data.OpenFailed? then NoData
    else if |idx.contents| < IdxHeaderSize then HeaderReadError(FullRead(idx.contents, 0, Zeros(IdxHeaderSize)).err)
    else if idx.contents[..4] != IdxMagic then BadIndexMagic
    else Checked(ScanIssues(idx.contents, IdxHeaderSize, GetU64(idx.contents, 8), data.contents, inflate, sum8))
  }

  /** The checks of one row, on the open data file. */
  method CheckRow(fData: File, e: IndexEntry, inflate: seq<byte> -> Build.Inflation, sum8: seq<byte> -> u64)
    returns (issue: bool)
    modifies fData
    ensures issue == RowFaultOf(fData.data, e, inflate, sum8).Some?
  {
    var offset := ToI64(e.offset);
    var length := ToI64(e.length);
    if length <= 0 {
      return true;
    }
    var ok := fData.Seek(offset);
    if !ok {
      return true;
    }
    var comp := new byte[length](_ => 0);
    var err := fData.ReadFull(comp);
    if err != NoErr {
      return true;
    }
    match inflate(comp[..]) {
      case NotZlib =>
        return true;
      case Inflated(aggBlob, complete) =>
        if !complete {
          return true;
        }
        if sum8(aggBlob) != e.checksum {
          return true;
        }
        if |aggBlob| < HeaderSize {
          return true;
        }
        if aggBlob[..4] != AggMagic {
          return true;
        }
        var rowCount := GetU64(aggBlob, 8);
        if !SizeMatchesAsWritten(|aggBlob|, rowCount) {
          return true;
        }
        return false;
    }
  }

  /** validateMonth: the open, header and magic checks, then the row scan. */
  method ValidateMonth(idx: Opened, data: Opened, inflate: seq<byte> -> Build.Inflation, sum8: seq<byte> -> u64)
    returns (v: Verdict)
    ensures v == ValidateMonthSpec(idx, data, inflate, sum8)
  {
    if idx.OpenFailed? {
      return NoIndex;
    }
    if data.OpenFailed? {
      return NoData;
    }
    var fIdx := new File(idx.contents);
    var fData := new File(data.contents);
    var hdr := new byte[IdxHeaderSize](_ => 0);
    assert hdr[..] == Zeros(IdxHeaderSize);
    var err := fIdx.ReadFull(hdr);
    if err != NoErr {
      return HeaderReadError(err);
    }
    if hdr[..4] != IdxMagic {
      assert hdr[..4] == idx.contents[..4];
      return BadIndexMagic;
    }
    var count := GetU64(hdr[..], 8);
    assert hdr[..][8..16] == idx.contents[8..16];
    assert fIdx.pos == IdxHeaderSize;
    var issues := ScanRows(fIdx, fData, count, inflate, sum8);
    return Checked(issues);
  }

  /** The row loop of validateMonth over the open index and data files. */
  method ScanRows(fIdx: File, fData: File, count: u64, inflate: seq<byte> -> Build.Inflation, sum8: seq<byte> -> u64)
    returns (issues: nat)
    requires fIdx != fData
    modifies fIdx, fData
    ensures issues == ScanIssues(fIdx.data, old(fIdx.pos), count, fData.data, inflate, sum8)
  {
    ghost var total := ScanIssues(fIdx.data, fIdx.pos, count, fData.data, inflate, sum8);
    var row := new byte[IdxRowSize](_ => 0);
    issues := 0;
    var i := 0;
    while i < count
      invariant i <= count
      invariant issues + ScanIssues(fIdx.data, fIdx.pos, count - i, fData.data, inflate, sum8) == total
      modifies fIdx, fData, row
    {
      ghost var pos := fIdx.pos;
      var err := fIdx.ReadFull(row);
      if err != NoErr {
        issues := issues + 1;
        assert issues == total;
        break;
      }
      assert row[..] == fIdx.data[pos..pos + IdxRowSize];
      var bad := CheckRow(fData, DecodeIndexRow(row[..]), inflate, sum8);
      if bad {
        issues := issues + 1;
      }
      i := i + 1;
    }
  }

  /** A row scan adds at most one issue per row it is asked to read. */
  lemma {:induction false} IssuesPerRow(idx: seq<byte>, pos: nat, left: nat, data: seq<byte>,
                                        inflate: seq<byte> -> Build.Inflation, sum8: seq<byte> -> u64)
    ensures ScanIssues(idx, pos, left, data, inflate, sum8) <= left
    decreases left
  {
    if left > 0 && Avail(idx, pos) >= IdxRowSize {
      IssuesPerRow(idx, pos + IdxRowSize, left - 1, data, inflate, sum8);
    }
  }

  /** The complete 26-byte rows the index holds from offset pos on. */
  function FullRows(idx: seq<byte>, pos: nat): nat
    decreases |idx| - pos
  {
    if Avail(idx, pos) < IdxRowSize then 0 else 1 + FullRows(idx, pos + IdxRowSize)
  }

  /** How many of the k complete rows from offset pos fail a check. */
  function FaultyRows(idx: seq<byte>, pos: nat, k: nat, data: seq<byte>,
                      inflate: seq<byte> -> Build.Inflation, sum8: seq<byte> -> u64): nat
    requires k <= FullRows(idx, pos)
    decreases k
  {
    if k == 0 then 0
    else
      (if RowFaultOf(data, DecodeIndexRow(idx[pos..pos + IdxRowSize]), inflate, sum8).Some? then 1 else 0)
      + FaultyRows(idx, pos + IdxRowSize, k - 1, data, inflate, sum8)
  }

  /** The issue count of a row scan: one per faulty row among the rows it
      reads, plus one if the index ends before the count says, at which
      point the scan stops. */
  lemma {:induction false} ScanCounts(idx: seq<byte>, pos: nat, left: nat, data: seq<byte>,
                                      inflate: seq<byte> -> Build.Inflation, sum8: seq<byte> -> u64)
    ensures ScanIssues(idx, pos, left, data, inflate, sum8)
      == FaultyRows(idx, pos, Min(left, FullRows(idx, pos)), data, inflate, sum8)
         + (if FullRows(idx, pos) < left then 1 else 0)
    decreases left
  {
    if left > 0 && Avail(idx, pos) >= IdxRowSize {
      ScanCounts(idx, pos + IdxRowSize, left - 1, data, inflate, sum8);
    }
  }

  /** An index whose length is the header plus count rows reads in full, so
      the month's issues are exactly its faulty rows. */
  lemma ShapedIndexIssues(idx: seq<byte>, data: seq<byte>, inflate: seq<byte> -> Build.Inflation,
                          sum8: seq<byte> -> u64)
    requires Data.Shaped(idx)
    ensures FullRows(idx, IdxHeaderSize) == Data.IndexCount(idx)
    ensures ScanIssues(idx, IdxHeaderSize, Data.IndexCount(idx), data, inflate, sum8)
      == FaultyRows(idx, IdxHeaderSize, Data.IndexCount(idx), data, inflate, sum8)
  {
    RowsLeft(idx, Data.IndexCount(idx), 0);
    ScanCounts(idx, IdxHeaderSize, Data.IndexCount(idx), data, inflate, sum8);
  }

  /** With the header and count rows in the file, k rows in, count - k
      complete rows are left. */
  lemma {:induction false} RowsLeft(idx: seq<byte>, count: nat, k: nat)
    requires k <= count && |idx| == IdxHeaderSize + IdxRowSize * count
    ensures FullRows(idx, IdxHeaderSize + IdxRowSize * k) == count - k
    decreases count - k
  {
    if k < count {
      RowsLeft(idx, count, k + 1);
      assert IdxHeaderSize + IdxRowSize * (k + 1) == IdxHeaderSize + IdxRowSize * k + IdxRowSize;
    }
  }

  /** A day as data.go stores it passes every check: processDay appends
      the compressed blob to the data file and indexes it with the file's
      old size, the compressed length and the checksum of the blob, and the
      blob fastZipToAgg3 packs has the "AGG3" magic and exactly its row
      count of rows. Inflating the stored bytes is assumed to give the blob
      back, and the data file and the blob to stay below 2^63 bytes (fewer
      than 2^57 rows), as a Go slice does. */
  lemma PackedRowClean(day: int, csv: seq<byte>, data: seq<byte>, comp: seq<byte>,
                       inflate: seq<byte> -> Build.Inflation, sum8: seq<byte> -> u64)
    requires 0 < Data.BodyScan(csv).count < 0x200_0000_0000_0000
    requires inflate(comp) == Build.Inflated(Data.CsvToAgg3(day, csv).blob, true)
    requires 0 < |comp| && |data| + |comp| < I64_LIMIT
    ensures RowFaultOf(data + comp, Data.DayEntry(day, data, comp, sum8(Data.CsvToAgg3(day, csv).blob)),
                       inflate, sum8) == Text.None
  {
    var blob := Data.CsvToAgg3(day, csv).blob;
    Build.PackedBlobPassesChecks(day, csv);
    Data.CsvBlobShape(day, csv);
    assert blob[..4] == DecodeHeader(blob).magic == AggMagic;
    SizeChecksAgree(|blob|, GetU64(blob, 8));
    ToU64Small(|data|);
    ToU64Small(|comp|);
    assert (data + comp)[|data|..|data| + |comp|] == comp;
  }

  /** A month directory's two files as os.Open finds them, with the text
      of the error each open failure prints. */
  datatype MonthFiles = MonthFiles(idx: Opened, data: Opened, idxErr: string, dataErr: string)

  /** The line validateMonth prints for a month directory, if any. */
  function MonthLine(dir: string, v: Verdict, f: MonthFiles): Text.Option<string>
  {
    match v
    case NoIndex => Text.Some("FAIL: " + dir + " (No Index: " + f.idxErr + ")")
    case NoData => Text.Some("FAIL: " + dir + " (No Data: " + f.dataErr + ")")
    case HeaderReadError(e) => Text.Some("FAIL: " + dir + " (Header Read Error: " + ReadErrText(e) + ")")
    case BadIndexMagic => Text.Some("FAIL: " + dir + " (Bad Index Magic)")
    case Checked(n) =>
      if n > 0 then Text.Some("ISSUES: " + dir + " (" + Text.Itoa(n) + " errors)") else Text.None
  }

  /** A month is silent exactly when every row it read was clean; the
      ISSUES line, when printed, reads the issue count back. */
  lemma MonthLineSilent(dir: string, v: Verdict, f: MonthFiles)
    ensures MonthLine(dir, v, f).None? <==> v == Checked(0)
    ensures v.Checked? && v.issues > 0 ==>
      MonthLine(dir, v, f).value == "ISSUES: " + dir + " (" + Text.Itoa(v.issues) + " errors)"
      && Text.DecimalValue(Text.Itoa(v.issues)) == v.issues
  {
    if v.Checked? {
      Text.ItoaRoundTrip(v.issues);
    }
  }

  /** The lines printed for the month directories, in order. */
  function MonthLines(dirs: seq<string>, files: string -> MonthFiles,
                      inflate: seq<byte> -> Build.Inflation, sum8: seq<byte> -> u64): (ls: seq<string>)
    ensures |ls| <= |dirs|
  {
    if dirs == [] then []
    else
      var d := dirs[|dirs| - 1];
      var f := files(d);
      var line := MonthLine(d, ValidateMonthSpec(f.idx, f.data, inflate, sum8), f);
      MonthLines(dirs[..|dirs| - 1], files, inflate, sum8) + (if line.Some? then [line.value] else [])
  }

  /** runSanity over the month directories found: the count line, then
      each month's line. The months are validated one after the other,
      which is one of the orders the worker pool can print them in. */
  method RunSanity(dirs: seq<string>, files: string -> MonthFiles,
                   inflate: seq<byte> -> Build.Inflation, sum8: seq<byte> -> u64)
    returns (lines: seq<string>)
    ensures lines == ["SANITY CHECK: " + Symbol + " (" + Text.Itoa(|dirs|) + " months)"]
      + MonthLines(dirs, files, inflate, sum8)
  {
    lines := ["SANITY CHECK: " + Symbol + " (" + Text.Itoa(|dirs|) + " months)"];
    if |dirs| == 0 {
      return;
    }
    ghost var head := lines;
    for i := 0 to |dirs|
      invariant lines == head + MonthLines(dirs[..i], files, inflate, sum8)
    {
      assert dirs[..i + 1][..i] == dirs[..i];
      var f := files(dirs[i]);
      var v := ValidateMonth(f.idx, f.data, inflate, sum8);
      var line := MonthLine(dirs[i], v, f);
      if line.Some? {
        lines := lines + [line.value];
      }
    }
    assert dirs[..|dirs|] == dirs;
  }
}
