/**
 * data.go around the CSV scan: picking the CSV entry of a daily zip
 * archive and packing it into an AGG3 blob (fastZipToAgg3), the QIDX month
 * index a day is appended to (processDay), and the lookup that decides
 * whether a day is already there (isIndexed).
 *
 * The zip reader, the download, zlib and SHA-256 are not modelled: the
 * archive arrives as its list of entries, the download as its outcome, and
 * compression and checksum are functions passed in.
 */
module Data {
  import opened Bytes
  import opened Layout
  import opened DataCsv
  import opened GoIo

  // ---------------------------------------------------------------------
  // fastZipToAgg3
  // ---------------------------------------------------------------------

  /** What opening and reading one archive entry gives. */
  datatype EntryBody = OpenFails | ReadFails | Contents(data: seq<byte>)

  datatype ZipEntry = ZipEntry(name: string, body: EntryBody)

  /** zip.NewReader either fails or lists the entries in archive order. */
  datatype Archive = Corrupt | Archive(files: seq<ZipEntry>)

  datatype AggErr = ZipErr | ReadErr | NoCsv

  /** fastZipToAgg3's three results: an error, or the blob and its row
      count (nil and 0 when there are no rows). */
  datatype Agg3 = Agg3Err(err: AggErr) | Agg3(blob: seq<byte>, count: u64)

  function HasSuffix(s: string, suffix: string): bool
  {
    |suffix| <= |s| && s[|s| - |suffix|..] == suffix
  }

  /** The header of a day's blob: "AGG3", version 1, the day as uint8,
      zlib level 3, the row count, the time-stamp bounds, zero padding. */
  function DayHeader(day: int, count: u64, minTs: i64, maxTs: i64): (h: AggHeader)
    ensures WellShaped(h)
  {
    AggHeader(AggMagic, 1, day % 256, 3, count, minTs, maxTs, Zeros(16))
  }

  /** The blob one CSV file becomes. */
  function CsvToAgg3(day: int, data: seq<byte>): Agg3
  {
    var s := ScanBody(data[BodyStart(data)..]);
    if s.count == 0 then Agg3([], 0)
    else
      var count := ToU64(s.count);
      Agg3(EncodeHeader(DayHeader(day, count, s.acc.minTs, s.acc.maxTs)) + s.blob, count)
  }

  /** The entries from the first .csv one that opens: its contents are
      packed, a read error is returned; other entries are skipped. */
  function FirstCsv(day: int, files: seq<ZipEntry>): Agg3
  {
    if files == [] then Agg3Err(NoCsv)
    else
      var f := files[0];
      if !HasSuffix(f.name, ".csv") || f.body == OpenFails then FirstCsv(day, files[1..])
      else if f.body == ReadFails then Agg3Err(ReadErr)
      else CsvToAgg3(day, f.body.data)
  }

  function ZipToAgg3(day: int, zip: Archive): Agg3
  {
    if zip == Corrupt then Agg3Err(ZipErr) else FirstCsv(day, zip.files)
  }

  /** A header after `prefix` is written into still-zero bytes. */
  lemma WriteAfterPrefix(prefix: seq<byte>, x: seq<byte>, k: nat)
    requires |x| <= k
    ensures Splice(prefix + Zeros(k), |prefix|, x) == prefix + x + Zeros(k - |x|)
  {
    var s := prefix + Zeros(k);
    assert s[..|prefix|] == prefix;
    assert s[|prefix| + |x|..] == Zeros(k - |x|);
  }

  /** A write just after the part of a zeroed buffer already filled in:
      PutUintN of k bytes, or hdr[off] = v when k is 1. */
  method PutNext(buf: array<byte>, ghost p: seq<byte>, off: nat, v: nat, k: nat)
    requires off == |p| && off + k <= buf.Length && buf[..] == p + Zeros(buf.Length - off)
    modifies buf
    ensures buf[..] == (p + LE(v, k)) + Zeros(buf.Length - |p| - k)
  {
    PutLE(buf, off, v, k);
    WriteAfterPrefix(p, LE(v, k), buf.Length - |p|);
  }

  /** copy(hdr[0:], AggMagic); hdr[4] = 1; hdr[5] = uint8(day). */
  method PutIdent(buf: array<byte>, day: int)
    requires buf.Length == HeaderSize && buf[..] == [] + Zeros(HeaderSize)
    modifies buf
    ensures buf[..] == (AggMagic + [1, day % 256]) + Zeros(42)
  {
    PutNext(buf, [], 0, FromLE(AggMagic), 4);
    LE_FromLE(AggMagic);
    assert [] + LE(FromLE(AggMagic), 4) == AggMagic;
    PutNext(buf, AggMagic, 4, 1, 1);
    PutNext(buf, AggMagic + [1], 5, day % 256, 1);
    assert AggMagic + [1] + [day % 256] == AggMagic + [1, day % 256];
  }

  /** The zlib level, the count and the two time-stamp bounds. */
  method PutFields(buf: array<byte>, ghost p: seq<byte>, count: u64, minTs: i64, maxTs: i64)
    requires buf.Length == HeaderSize && |p| == 6 && buf[..] == p + Zeros(42)
    modifies buf
    ensures buf[..] == p + LE(3, 2) + LE(count, 8) + LE(ToU64(minTs), 8) + LE(ToU64(maxTs), 8) + Zeros(16)
  {
    PutNext(buf, p, 6, 3, 2);
    PutNext(buf, p + LE(3, 2), 8, count, 8);
    PutNext(buf, p + LE(3, 2) + LE(count, 8), 16, ToU64(minTs), 8);
    PutNext(buf, p + LE(3, 2) + LE(count, 8) + LE(ToU64(minTs), 8), 24, ToU64(maxTs), 8);
  }

  /** The header construction: a zeroed 48-byte buffer, the magic, version
      and day bytes, then the little-endian fields. */
  method BuildHeader(day: int, count: u64, minTs: i64, maxTs: i64) returns (hdr: seq<byte>)
    ensures hdr == EncodeHeader(DayHeader(day, count, minTs, maxTs))
  {
    var buf := new byte[HeaderSize](_ => 0);
    assert buf[..] == [] + Zeros(48);
    PutIdent(buf, day);
    PutFields(buf, AggMagic + [1, day % 256], count, minTs, maxTs);
    hdr := buf[..];
  }

  /** Packing one CSV file: the scan, then nil for no rows, else the
      header followed by the rows. */
  method PackCsv(day: int, data: seq<byte>) returns (r: Agg3)
    ensures r == CsvToAgg3(day, data)
  {
    var blob, count, minTs, maxTs := ScanCsv(data);
    if count == 0 {
      return Agg3([], 0);
    }
    var hdr := BuildHeader(day, ToU64(count), minTs, maxTs);
    r := Agg3(hdr + blob, ToU64(count));
  }

  /** fastZipToAgg3 (data.go) over the listed entries. */
  method FastZipToAgg3(day: int, zip: Archive) returns (r: Agg3)
    ensures r == ZipToAgg3(day, zip)
  {
    if zip == Corrupt {
      return Agg3Err(ZipErr);
    }
    var files := zip.files;
    var i := 0;
    while i < |files|
      invariant 0 <= i <= |files|
      invariant FirstCsv(day, files[i..]) == ZipToAgg3(day, zip)
    {
      var f := files[i];
      assert files[i..][0] == f && files[i..][1..] == files[i + 1..];
      if HasSuffix(f.name, ".csv") && f.body != OpenFails {
        if f.body == ReadFails {
          return Agg3Err(ReadErr);
        }
        r := PackCsv(day, f.body.data);
        return;
      }
      i := i + 1;
    }
    return Agg3Err(NoCsv);
  }

  // ---------------------------------------------------------------------
  // Properties of the packed blob
  // ---------------------------------------------------------------------

  /** The CSV text after its header line, and what the scan makes of it. */
  function Body(data: seq<byte>): seq<byte>
  {
    data[BodyStart(data)..]
  }

  function BodyScan(data: seq<byte>): (s: Scan)
    ensures |s.blob| == RowSize * s.count
  {
    ScanBody(Body(data))
  }

  /** Only the first 48 bytes of a blob are its header. */
  lemma DecodeHeaderPrefix(e: seq<byte>, b: seq<byte>)
    requires |e| == HeaderSize
    ensures DecodeHeader(e + b) == DecodeHeader(e)
  {
    var s := e + b;
    assert s[0..4] == e[0..4] && s[6..8] == e[6..8] && s[8..16] == e[8..16];
    assert s[16..24] == e[16..24] && s[24..32] == e[24..32] && s[32..48] == e[32..48];
  }

  lemma SliceAfter(e: seq<byte>, b: seq<byte>, i: nat, j: nat)
    requires i <= j <= |b|
    ensures (e + b)[|e| + i..|e| + j] == b[i..j]
  {
  }

  /** No rows gives (nil, 0); otherwise the blob is the 48-byte header
      followed by one 48-byte row per row counted, and the header decodes
      to "AGG3", version 1, the day, level 3, the count and the bounds. */
  lemma CsvBlobShape(day: int, data: seq<byte>)
    ensures CsvToAgg3(day, data).Agg3?
    ensures BodyScan(data).count == 0 <==> CsvToAgg3(day, data).blob == []
    ensures BodyScan(data).count > 0 ==>
      |CsvToAgg3(day, data).blob| == HeaderSize + RowSize * BodyScan(data).count
    ensures CsvToAgg3(day, data).count == ToU64(BodyScan(data).count)
    ensures BodyScan(data).count > 0 ==>
      DecodeHeader(CsvToAgg3(day, data).blob)
        == DayHeader(day, ToU64(BodyScan(data).count), BodyScan(data).acc.minTs, BodyScan(data).acc.maxTs)
  {
    var s := BodyScan(data);
    if s.count > 0 {
      var h := DayHeader(day, ToU64(s.count), s.acc.minTs, s.acc.maxTs);
      HeaderRoundTrip(h);
      DecodeHeaderPrefix(EncodeHeader(h), s.blob);
    }
  }

  lemma CsvBlobSplit(day: int, data: seq<byte>)
    requires BodyScan(data).count > 0
    ensures CsvToAgg3(day, data).blob == EncodeHeader(DayHeader(
      day, ToU64(BodyScan(data).count), BodyScan(data).acc.minTs, BodyScan(data).acc.maxTs)) + BodyScan(data).blob
  {
  }

  /** Every newline-terminated line of seven or more columns of the body
      is a row of the blob that decodes to its trade, and its time stamp
      lies between the header's bounds. */
  lemma CsvBlobRow(day: int, data: seq<byte>, k: nat)
    requires k < |SplitOn(Body(data), NEWLINE)| - 1
    requires |SplitOn(SplitOn(Body(data), NEWLINE)[k], COMMA)| >= 7
    ensures HeaderSize + RowSize * (k + 1) <= |CsvToAgg3(day, data).blob|
    ensures DecodeTrade(CsvToAgg3(day, data).blob[HeaderSize + RowSize * k..HeaderSize + RowSize * (k + 1)])
      == LineTrade(SplitOn(Body(data), NEWLINE)[k])
    ensures DecodeHeader(CsvToAgg3(day, data).blob).minTs
      <= LineTrade(SplitOn(Body(data), NEWLINE)[k]).ts
      <= DecodeHeader(CsvToAgg3(day, data).blob).maxTs
  {
    var body := Body(data);
    var s := BodyScan(data);
    var t := LineTrade(SplitOn(body, NEWLINE)[k]);
    assert RowSize * (k + 1) <= |s.blob|
      && DecodeTrade(s.blob[RowSize * k..RowSize * (k + 1)]) == t
      && s.acc.minTs <= t.ts <= s.acc.maxTs by {
      BodyRow(body, k);
    }
    var h := DayHeader(day, ToU64(s.count), s.acc.minTs, s.acc.maxTs);
    var e := EncodeHeader(h);
    CsvBlobSplit(day, data);
    SliceAfter(e, s.blob, RowSize * k, RowSize * (k + 1));
    HeaderRoundTrip(h);
    DecodeHeaderPrefix(e, s.blob);
  }

  // ---------------------------------------------------------------------
  // The QIDX month index
  // ---------------------------------------------------------------------

  /** The row count field of an index file (bytes 8..16). */
  function IndexCount(idx: seq<byte>): u64
    requires |idx| >= IdxHeaderSize
  {
    GetU64(idx, 8)
  }

  /** An index as processDay leaves it: the header, then exactly as many
      26-byte rows as the count says. */
  predicate WellFormedIndex(idx: seq<byte>)
  {
    Shaped(idx) && idx[..4] == IdxMagic
  }

  /** A header and exactly as many rows as its count, whatever the magic. */
  predicate Shaped(idx: seq<byte>)
  {
    |idx| >= IdxHeaderSize && |idx| == IdxHeaderSize + IdxRowSize * IndexCount(idx)
  }

  /** Row k of an index. */
  function IndexRow(idx: seq<byte>, k: nat): IndexEntry
    requires IdxHeaderSize + IdxRowSize * (k + 1) <= |idx|
  {
    DecodeIndexRow(idx[IdxHeaderSize + IdxRowSize * k..])
  }

  /** What the index file holds before the row is written: a new header
      when the file was empty, else the file as it was. */
  function IndexBase(idx: seq<byte>): (b: seq<byte>)
    ensures |b| >= |idx| && |b| >= 1
  {
    if |idx| == 0 then IndexHeaderImage(0) else idx
  }

  /** processDay's index update: the new row written at the end, then the
      count at 8 read back and rewritten plus one (wrapping like uint64). */
  function IndexAppend(idx: seq<byte>, e: IndexEntry): (r: seq<byte>)
    ensures |r| == |IndexBase(idx)| + IdxRowSize
  {
    var grown := IndexBase(idx) + IndexRowImage(e);
    Splice(grown, 8, LE(ToU64(GetU64(grown, 8) + 1), 8))
  }

  /** The rewrite touches bytes 8..16 only: the magic and version stay,
      the count goes up by one, and the rows are the old rows then e. */
  lemma CountAfterAppend(idx: seq<byte>, e: IndexEntry)
    requires |idx| >= IdxHeaderSize
    ensures IndexAppend(idx, e)[..8] == idx[..8]
    ensures IndexCount(IndexAppend(idx, e)) == ToU64(IndexCount(idx) + 1)
    ensures IndexAppend(idx, e)[IdxHeaderSize..] == idx[IdxHeaderSize..] + IndexRowImage(e)
  {
    var grown := idx + IndexRowImage(e);
    var v := ToU64(GetU64(grown, 8) + 1);
    assert GetU64(grown, 8) == IndexCount(idx) by {
      assert grown[8..16] == idx[8..16];
    }
    var r := IndexAppend(idx, e);
    assert r == Splice(grown, 8, LE(v, 8));
    SpliceParts(grown, 8, LE(v, 8));
    assert grown[..8] == idx[..8];
    assert grown[16..] == idx[16..] + IndexRowImage(e);
    assert IndexCount(r) == v by {
      Pow256Limits();
      LERoundTrip(v, 8);
    }
  }

  lemma SpliceParts(buf: seq<byte>, off: nat, part: seq<byte>)
    requires off + |part| <= |buf|
    ensures Splice(buf, off, part)[..off] == buf[..off]
    ensures Splice(buf, off, part)[off..off + |part|] == part
    ensures Splice(buf, off, part)[off + |part|..] == buf[off + |part|..]
  {
  }

  /** A new index file is a well-formed index with no rows, and appending
      to an empty file is appending to it. */
  lemma EmptyIndexHeader(e: IndexEntry)
    ensures WellFormedIndex(IndexHeaderImage(0)) && IndexCount(IndexHeaderImage(0)) == 0
    ensures IndexAppend([], e) == IndexAppend(IndexHeaderImage(0), e)
  {
    var h := IndexHeaderImage(0);
    Pow256Limits();
    assert h[8..16] == LE(0, 8);
    LERoundTrip(0, 8);
  }

  /** A row decodes from its first 26 bytes alone. */
  lemma RowPrefix(a: seq<byte>, b: seq<byte>)
    requires |a| >= IdxRowSize && |b| >= IdxRowSize && a[..IdxRowSize] == b[..IdxRowSize]
    ensures DecodeIndexRow(a) == DecodeIndexRow(b)
  {
    assert a[0..2] == b[0..2] && a[2..10] == b[2..10];
    assert a[10..18] == b[10..18] && a[18..26] == b[18..26];
  }

  /** Rows before the end are kept when bytes are added after them. */
  lemma RowKept(idx: seq<byte>, r: seq<byte>, img: seq<byte>, k: nat)
    requires |idx| >= IdxHeaderSize + IdxRowSize * (k + 1)
    requires |r| >= IdxHeaderSize && r[IdxHeaderSize..] == idx[IdxHeaderSize..] + img
    ensures IdxHeaderSize + IdxRowSize * (k + 1) <= |r|
    ensures IndexRow(r, k) == IndexRow(idx, k)
  {
    var o := IdxHeaderSize + IdxRowSize * k;
    assert r[o..][..IdxRowSize] == r[IdxHeaderSize..][IdxRowSize * k..IdxRowSize * (k + 1)];
    assert idx[o..][..IdxRowSize] == idx[IdxHeaderSize..][IdxRowSize * k..IdxRowSize * (k + 1)];
    RowPrefix(r[o..], idx[o..]);
  }

  /** The row added last is the entry written. */
  lemma RowAdded(idx: seq<byte>, r: seq<byte>, e: IndexEntry, n: nat)
    requires |idx| == IdxHeaderSize + IdxRowSize * n
    requires |r| >= IdxHeaderSize && r[IdxHeaderSize..] == idx[IdxHeaderSize..] + IndexRowImage(e)
    ensures IdxHeaderSize + IdxRowSize * (n + 1) <= |r|
    ensures IndexRow(r, n) == e
  {
    assert r[IdxHeaderSize + IdxRowSize * n..] == IndexRowImage(e);
    IndexRowRoundTrip(e);
  }

  /** Appending to a well-formed index with fewer than 2^64 - 1 rows keeps
      it well formed: the count goes up by one, the earlier rows stay, and
      the new row is last. */
  lemma AppendKeepsIndex(idx: seq<byte>, e: IndexEntry)
    requires WellFormedIndex(idx) && IndexCount(idx) + 1 < U64_LIMIT
    ensures WellFormedIndex(IndexAppend(idx, e))
    ensures IndexCount(IndexAppend(idx, e)) == IndexCount(idx) + 1
    ensures IndexRow(IndexAppend(idx, e), IndexCount(idx)) == e
    ensures forall k :: 0 <= k < IndexCount(idx) ==> IndexRow(IndexAppend(idx, e), k) == IndexRow(idx, k)
  {
    var r := IndexAppend(idx, e);
    CountAfterAppend(idx, e);
    assert r[..4] == r[..8][..4];
    RowAdded(idx, r, e, IndexCount(idx));
    forall k | 0 <= k < IndexCount(idx)
      ensures IndexRow(r, k) == IndexRow(idx, k)
    {
      RowKept(idx, r, IndexRowImage(e), k);
    }
  }

  // ---------------------------------------------------------------------
  // isIndexed
  // ---------------------------------------------------------------------

  /** The row scan of isIndexed from row i on: each f.Read(row) goes into
      the same 26-byte buffer; an error ends the scan with false. */
  function ScanRows(file: seq<byte>, pos: nat, row: seq<byte>, i: nat, count: nat, day: int): bool
    requires |row| == IdxRowSize
    decreases count - i
  {
    if i >= count then false
    else
      var r := FileRead(file, pos, row);
      if r.err != NoErr then false
      else if GetU16(r.buf, 0) == day then true
      else ScanRows(file, r.pos, r.buf, i + 1, count, day)
  }

  /** isIndexed on the contents of the index file (a missing file reads as
      empty: both give false). The header is one f.Read into 16 zero
      bytes, so a short file leaves zeros in the count. */
  function IndexedSpec(file: seq<byte>, day: int): bool
  {
    var h := FileRead(file, 0, Zeros(IdxHeaderSize));
    if h.err != NoErr then false
    else if h.buf[..4] != IdxMagic then false
    else ScanRows(file, h.pos, Zeros(IdxRowSize), 0, GetU64(h.buf, 8), day)
  }

  /** Reading row i of a well-formed index with i below the count: a full
      26-byte read of that row. */
  lemma ReadRow(idx: seq<byte>, row: seq<byte>, i: nat)
    requires Shaped(idx) && i < IndexCount(idx) && |row| == IdxRowSize
    ensures IdxHeaderSize + IdxRowSize * (i + 1) <= |idx|
    ensures FileRead(idx, IdxHeaderSize + IdxRowSize * i, row).err == NoErr
    ensures FileRead(idx, IdxHeaderSize + IdxRowSize * i, row).pos == IdxHeaderSize + IdxRowSize * (i + 1)
    ensures DecodeIndexRow(FileRead(idx, IdxHeaderSize + IdxRowSize * i, row).buf) == IndexRow(idx, i)
    ensures GetU16(FileRead(idx, IdxHeaderSize + IdxRowSize * i, row).buf, 0) == IndexRow(idx, i).day
    ensures GetU64(FileRead(idx, IdxHeaderSize + IdxRowSize * i, row).buf, 2) == IndexRow(idx, i).offset
    ensures GetU64(FileRead(idx, IdxHeaderSize + IdxRowSize * i, row).buf, 10) == IndexRow(idx, i).length
  {
    var pos := IdxHeaderSize + IdxRowSize * i;
    MulMono(IdxRowSize, i + 1, IndexCount(idx));
    var r := FileRead(idx, pos, row);
    assert r.buf == idx[pos..pos + IdxRowSize];
    RowPrefix(r.buf, idx[pos..]);
  }

  /** The row scan over a well-formed index finds exactly the days of its
      rows from i on. */
  lemma {:induction false} ScanRowsWellFormed(idx: seq<byte>, row: seq<byte>, i: nat, day: int)
    requires WellFormedIndex(idx) && i <= IndexCount(idx) && |row| == IdxRowSize
    ensures ScanRows(idx, IdxHeaderSize + IdxRowSize * i, row, i, IndexCount(idx), day)
      <==> exists k :: i <= k < IndexCount(idx) && IndexRow(idx, k).day == day
    decreases IndexCount(idx) - i
  {
    var n := IndexCount(idx);
    if i < n {
      var r := FileRead(idx, IdxHeaderSize + IdxRowSize * i, row);
      assert r.err == NoErr && GetU16(r.buf, 0) == IndexRow(idx, i).day
        && r.pos == IdxHeaderSize + IdxRowSize * (i + 1) by {
        ReadRow(idx, row, i);
      }
      ScanRowsWellFormed(idx, r.buf, i + 1, day);
      if IndexRow(idx, i).day != day {
        forall k | i <= k < n && IndexRow(idx, k).day == day
          ensures i + 1 <= k
        {
        }
      }
    }
  }

  lemma MulMono(a: nat, b: nat, c: nat)
    requires b <= c
    ensures a * b <= a * c
  {
  }

  /** isIndexed on a well-formed index is true iff one of its rows has the
      day; on a file without the magic it is false. */
  lemma IndexedIff(idx: seq<byte>, day: int)
    ensures WellFormedIndex(idx) ==>
      (IndexedSpec(idx, day) <==> exists k :: 0 <= k < IndexCount(idx) && IndexRow(idx, k).day == day)
    ensures |idx| >= 4 && idx[..4] != IdxMagic ==> !IndexedSpec(idx, day)
  {
    var h := FileRead(idx, 0, Zeros(IdxHeaderSize));
    if WellFormedIndex(idx) {
      assert h.buf == idx[..IdxHeaderSize] && h.pos == IdxHeaderSize && h.err == NoErr;
      assert h.buf[..4] == idx[..4];
      assert GetU64(h.buf, 8) == IndexCount(idx) by {
        assert h.buf[8..16] == idx[8..16];
      }
      ScanRowsWellFormed(idx, Zeros(IdxRowSize), 0, day);
    }
    if |idx| >= 4 && idx[..4] != IdxMagic && h.err == NoErr {
      assert h.buf[..4] == idx[..4];
    }
  }

  /** isIndexed (data.go): the header read, the magic check, then up to
      count row reads into one reused buffer. */
  method IsIndexed(contents: seq<byte>, day: int) returns (found: bool)
    ensures found == IndexedSpec(contents, day)
  {
    var f := new File(contents);
    var hdr := new byte[IdxHeaderSize](_ => 0);
    assert hdr[..] == Zeros(IdxHeaderSize);
    var _, err := f.Read(hdr);
    if err != NoErr {
      return false;
    }
    if hdr[..4] != IdxMagic {
      return false;
    }
    var count := GetU64(hdr[..], 8);
    var row := new byte[IdxRowSize](_ => 0);
    assert row[..] == Zeros(IdxRowSize);
    var i := 0;
    while i < count
      invariant 0 <= i <= count && row.Length == IdxRowSize
      invariant IndexedSpec(contents, day) == ScanRows(contents, f.pos, row[..], i, count, day)
      decreases count - i
    {
      var _, err := f.Read(row);
      if err != NoErr {
        break;
      }
      if GetU16(row[..], 0) == day {
        return true;
      }
      i := i + 1;
    }
    return false;
  }

  // ---------------------------------------------------------------------
  // processDay
  // ---------------------------------------------------------------------

  /** download's three outcomes: 404, any other failure, or the bytes of
      the zip (listed as its entries). */
  datatype Download = NotFound | DlFailed | Got(zip: Archive)

  /** Which file-system step fails, if any, once the day is packed. */
  datatype Fault = NoFault | MkdirFails | DataOpenFails | DataWriteFails
                 | IdxOpenFails | IdxSeekFails | IdxWriteFails

  /** The status strings processDay returns. */
  datatype DayStatus = Skip | Missing | ErrorDl | ErrorParse | Empty | SkipRace
                     | ErrorMkdir | ErrorIo | ErrorWrite | ErrorIdx | ErrorIdxSeek
                     | ErrorIdxWrite | Ok

  /** A month directory: the contents of index.quantdev and data.quantdev
      (a file that does not exist reads as empty). */
  datatype Month = Month(index: seq<byte>, data: seq<byte>)

  datatype Outcome = Outcome(status: DayStatus, month: Month)

  /** The unlocked middle of processDay: the download and the packing
      either end the day with a status or give a non-empty blob. */
  datatype Fetched = Stop(status: DayStatus) | Packed(blob: seq<byte>)

  function Fetch(day: int, dl: Download): (f: Fetched)
    ensures f.Stop? ==> f.status in {Missing, ErrorDl, ErrorParse, Empty}
  {
    if dl == NotFound then Stop(Missing)
    else if dl == DlFailed then Stop(ErrorDl)
    else
      var r := ZipToAgg3(day, dl.zip);
      if r.Agg3Err? then Stop(ErrorParse)
      else if r.count == 0 then Stop(Empty)
      else Packed(r.blob)
  }

  /** The index row of a day: uint16(day), the data file's size before the
      append, the compressed length, the checksum. */
  function DayEntry(day: int, data: seq<byte>, comp: seq<byte>, sum: u64): IndexEntry
  {
    IndexEntry(ToU16(day), ToU64(|data|), ToU64(|comp|), sum)
  }

  /** The index part of the locked write, after the blob was appended: the
      file opened, a header if it was empty, the row at the end, then the
      count. */
  function IndexStep(m: Month, e: IndexEntry, fault: Fault): Outcome
  {
    if fault == IdxOpenFails then Outcome(ErrorIdx, m)
    else if fault == IdxSeekFails then Outcome(ErrorIdxSeek, m.(index := IndexBase(m.index)))
    else if fault == IdxWriteFails then Outcome(ErrorIdxWrite, m.(index := IndexBase(m.index)))
    else Outcome(Ok, m.(index := IndexAppend(m.index, e)))
  }

  /** The locked write after the re-check: the directory, the data
      append, then the index. */
  function WriteSpec(m: Month, day: int, comp: seq<byte>, sum: u64, fault: Fault): Outcome
  {
    if fault == MkdirFails then Outcome(ErrorMkdir, m)
    else if fault == DataOpenFails then Outcome(ErrorIo, m)
    else if fault == DataWriteFails then Outcome(ErrorWrite, m)
    else IndexStep(Month(m.index, m.data + comp), DayEntry(day, m.data, comp, sum), fault)
  }

  /** The second locked section of processDay: the re-check, then the
      write. */
  function CommitSpec(m: Month, day: int, comp: seq<byte>, sum: u64, fault: Fault): Outcome
  {
    if IndexedSpec(m.index, day) then Outcome(SkipRace, m) else WriteSpec(m, day, comp, sum, fault)
  }

  /** processDay for one day of a month: compress is zlib at BestSpeed and
      sum8 the first 8 bytes of SHA-256 read little-endian. */
  function ProcessDaySpec(m: Month, day: int, dl: Download, compress: seq<byte> -> seq<byte>,
                          sum8: seq<byte> -> u64, fault: Fault): Outcome
  {
    if IndexedSpec(m.index, day) then Outcome(Skip, m)
    else
      var f := Fetch(day, dl);
      if f.Stop? then Outcome(f.status, m)
      else CommitSpec(m, day, compress(f.blob), sum8(f.blob), fault)
  }

  /** The two files of a month directory, updated by processDay. */
  class MonthStore {
    var index: seq<byte>
    var data: seq<byte>

    function Contents(): Month
      reads this
    {
      Month(index, data)
    }

    constructor (m: Month)
      ensures Contents() == m
    {
      index := m.index;
      data := m.data;
    }

    /** Opening index.quantdev onwards. */
    method WriteIndex(e: IndexEntry, fault: Fault) returns (st: DayStatus)
      modifies this
      ensures Outcome(st, Contents()) == IndexStep(old(Contents()), e, fault)
    {
      if fault == IdxOpenFails {
        return ErrorIdx;
      }
      if |index| == 0 {
        index := IndexHeaderImage(0);
      }
      if fault == IdxSeekFails {
        return ErrorIdxSeek;
      }
      if fault == IdxWriteFails {
        return ErrorIdxWrite;
      }
      index := index + IndexRowImage(e);
      var current: int := GetU64(index, 8);
      index := Splice(index, 8, LE(ToU64(current + 1), 8));
      st := Ok;
    }

    /** MkdirAll, the data append at the file's size, then the index. */
    method Write(day: int, comp: seq<byte>, sum: u64, fault: Fault) returns (st: DayStatus)
      modifies this
      ensures Outcome(st, Contents()) == WriteSpec(old(Contents()), day, comp, sum, fault)
    {
      if fault == MkdirFails {
        return ErrorMkdir;
      }
      if fault == DataOpenFails {
        return ErrorIo;
      }
      var offset := |data|;
      if fault == DataWriteFails {
        return ErrorWrite;
      }
      data := data + comp;
      var e := IndexEntry(ToU16(day), ToU64(offset), ToU64(|comp|), sum);
      st := WriteIndex(e, fault);
    }

    /** The locked write: re-check, then write. */
    method Commit(day: int, comp: seq<byte>, sum: u64, fault: Fault) returns (st: DayStatus)
      modifies this
      ensures Outcome(st, Contents()) == CommitSpec(old(Contents()), day, comp, sum, fault)
    {
      var indexed := IsIndexed(index, day);
      if indexed {
        return SkipRace;
      }
      st := Write(day, comp, sum, fault);
    }

    method ProcessDay(day: int, dl: Download, compress: seq<byte> -> seq<byte>,
                      sum8: seq<byte> -> u64, fault: Fault) returns (st: DayStatus)
      modifies this
      ensures Outcome(st, Contents()) == ProcessDaySpec(old(Contents()), day, dl, compress, sum8, fault)
    {
      var indexed := IsIndexed(index, day);
      if indexed {
        return Skip;
      }
      if dl == NotFound {
        return Missing;
      }
      if dl == DlFailed {
        return ErrorDl;
      }
      var r := FastZipToAgg3(day, dl.zip);
      if r.Agg3Err? {
        return ErrorParse;
      }
      if r.count == 0 {
        return Empty;
      }
      var comp := compress(r.blob);
      var sum := sum8(r.blob);
      st := Commit(day, comp, sum, fault);
    }
  }

  // ---------------------------------------------------------------------
  // Properties of processDay
  // ---------------------------------------------------------------------

  /** An index processDay can extend: empty, or well formed with room in
      its u64 count. */
  predicate Extendable(idx: seq<byte>)
  {
    |idx| == 0 || (WellFormedIndex(idx) && IndexCount(idx) + 1 < U64_LIMIT)
  }

  /** The rows an index file says it has (none for an empty file). */
  function RowsOf(idx: seq<byte>): nat
  {
    if |idx| >= IdxHeaderSize then IndexCount(idx) else 0
  }

  /** Run alone, processDay never reports the race: the re-check sees the
      index the first check saw. */
  lemma NoRaceAlone(m: Month, day: int, dl: Download, compress: seq<byte> -> seq<byte>,
                    sum8: seq<byte> -> u64, fault: Fault)
    ensures ProcessDaySpec(m, day, dl, compress, sum8, fault).status != SkipRace
  {
  }

  /** The write: failures before the data append leave both files as they
      were; failures after it leave the blob appended and no row added. */
  lemma WriteFailures(m: Month, day: int, comp: seq<byte>, sum: u64, fault: Fault)
    ensures WriteSpec(m, day, comp, sum, fault).status in {ErrorMkdir, ErrorIo, ErrorWrite} ==>
      WriteSpec(m, day, comp, sum, fault).month == m
    ensures WriteSpec(m, day, comp, sum, fault).status in {ErrorIdx, ErrorIdxSeek, ErrorIdxWrite} ==>
      WriteSpec(m, day, comp, sum, fault).month.data == m.data + comp
    ensures WriteSpec(m, day, comp, sum, fault).status in {ErrorIdx, ErrorIdxSeek, ErrorIdxWrite} ==>
      RowsOf(WriteSpec(m, day, comp, sum, fault).month.index) == RowsOf(m.index)
    ensures WriteSpec(m, day, comp, sum, fault).status == Ok <==> fault == NoFault
  {
    if fault in {IdxSeekFails, IdxWriteFails} && |m.index| == 0 {
      EmptyIndexHeader(IndexEntry(0, 0, 0, 0));
    }
  }

  /** Every status before the data write leaves both files as they were;
      a failure after it leaves the blob appended but no row for it. */
  lemma FailuresKeepIndex(m: Month, day: int, dl: Download, compress: seq<byte> -> seq<byte>,
                          sum8: seq<byte> -> u64, fault: Fault)
    ensures ProcessDaySpec(m, day, dl, compress, sum8, fault).status !in {Ok, ErrorIdx, ErrorIdxSeek, ErrorIdxWrite}
      ==> ProcessDaySpec(m, day, dl, compress, sum8, fault).month == m
    ensures ProcessDaySpec(m, day, dl, compress, sum8, fault).status in {ErrorIdx, ErrorIdxSeek, ErrorIdxWrite} ==>
      ProcessDaySpec(m, day, dl, compress, sum8, fault).month.data[..|m.data|] == m.data
    ensures ProcessDaySpec(m, day, dl, compress, sum8, fault).status in {ErrorIdx, ErrorIdxSeek, ErrorIdxWrite} ==>
      RowsOf(ProcessDaySpec(m, day, dl, compress, sum8, fault).month.index) == RowsOf(m.index)
  {
    var f := Fetch(day, dl);
    if !IndexedSpec(m.index, day) && f.Packed? {
      WriteFailures(m, day, compress(f.blob), sum8(f.blob), fault);
    }
  }

  /** Appending an entry to an extendable index: it is then well formed
      with one more row, the new one last, and the earlier rows kept. */
  lemma AppendExtendable(idx: seq<byte>, e: IndexEntry)
    requires Extendable(idx)
    ensures WellFormedIndex(IndexAppend(idx, e))
    ensures IndexCount(IndexAppend(idx, e)) == RowsOf(idx) + 1
    ensures IndexRow(IndexAppend(idx, e), RowsOf(idx)) == e
    ensures forall k :: 0 <= k < RowsOf(idx) ==> IndexRow(IndexAppend(idx, e), k) == IndexRow(idx, k)
  {
    EmptyIndexHeader(e);
    AppendKeepsIndex(IndexBase(idx), e);
  }

  /** A day written to an extendable index is found there by isIndexed. */
  lemma AppendedDayIsIndexed(idx: seq<byte>, e: IndexEntry)
    requires Extendable(idx)
    ensures IndexedSpec(IndexAppend(idx, e), e.day)
  {
    AppendExtendable(idx, e);
    IndexedIff(IndexAppend(idx, e), e.day);
    assert IndexRow(IndexAppend(idx, e), RowsOf(idx)).day == e.day;
  }

  /** The successful path of processDay: the packed blob's compressed
      bytes appended to the data file and its entry to the index. */
  lemma ProcessDayCommits(m: Month, day: int, dl: Download, compress: seq<byte> -> seq<byte>,
                          sum8: seq<byte> -> u64, fault: Fault)
    requires ProcessDaySpec(m, day, dl, compress, sum8, fault).status == Ok
    ensures fault == NoFault && dl.Got? && Fetch(day, dl).Packed?
    ensures ZipToAgg3(day, dl.zip) == Agg3(Fetch(day, dl).blob, ZipToAgg3(day, dl.zip).count)
    ensures ZipToAgg3(day, dl.zip).count > 0
    ensures ProcessDaySpec(m, day, dl, compress, sum8, fault).month == Month(
      IndexAppend(m.index, DayEntry(day, m.data, compress(Fetch(day, dl).blob), sum8(Fetch(day, dl).blob))),
      m.data + compress(Fetch(day, dl).blob))
  {
    var f := Fetch(day, dl);
    WriteFailures(m, day, compress(f.blob), sum8(f.blob), fault);
  }

  /** What a successful processDay leaves: the blob appended to the data
      file, the index well formed with one more row, the earlier rows
      unchanged, and the new row holding the day, where the compressed blob
      starts in the data file, its length and the checksum of the blob. */
  lemma ProcessDayOk(m: Month, day: int, dl: Download, compress: seq<byte> -> seq<byte>,
                     sum8: seq<byte> -> u64, fault: Fault)
    requires Extendable(m.index) && 0 <= day < U16_LIMIT
    requires ProcessDaySpec(m, day, dl, compress, sum8, fault).status == Ok
    ensures dl.Got? && ZipToAgg3(day, dl.zip).Agg3? && ZipToAgg3(day, dl.zip).count > 0
    ensures ProcessDaySpec(m, day, dl, compress, sum8, fault).month.data
      == m.data + compress(ZipToAgg3(day, dl.zip).blob)
    ensures WellFormedIndex(ProcessDaySpec(m, day, dl, compress, sum8, fault).month.index)
    ensures IndexCount(ProcessDaySpec(m, day, dl, compress, sum8, fault).month.index) == RowsOf(m.index) + 1
    ensures forall k :: 0 <= k < RowsOf(m.index) ==>
      IndexRow(ProcessDaySpec(m, day, dl, compress, sum8, fault).month.index, k) == IndexRow(m.index, k)
    ensures IndexRow(ProcessDaySpec(m, day, dl, compress, sum8, fault).month.index, RowsOf(m.index))
      == IndexEntry(day, ToU64(|m.data|), ToU64(|compress(ZipToAgg3(day, dl.zip).blob)|),
                    sum8(ZipToAgg3(day, dl.zip).blob))
  {
    ProcessDayCommits(m, day, dl, compress, sum8, fault);
    var blob := Fetch(day, dl).blob;
    var e := DayEntry(day, m.data, compress(blob), sum8(blob));
    assert e.day == day by {
      ToU16Small(day);
    }
    AppendExtendable(m.index, e);
  }

  /** Processing a day again after it was stored is a "skip" that leaves
      the month as it is. */
  lemma ProcessDayIdempotent(m: Month, day: int, dl: Download, dl2: Download,
                             compress: seq<byte> -> seq<byte>, sum8: seq<byte> -> u64, fault2: Fault)
    requires Extendable(m.index) && 0 <= day < U16_LIMIT
    requires ProcessDaySpec(m, day, dl, compress, sum8, NoFault).status == Ok
    ensures ProcessDaySpec(ProcessDaySpec(m, day, dl, compress, sum8, NoFault).month, day, dl2, compress, sum8, fault2)
      == Outcome(Skip, ProcessDaySpec(m, day, dl, compress, sum8, NoFault).month)
  {
    ProcessDayCommits(m, day, dl, compress, sum8, NoFault);
    var blob := Fetch(day, dl).blob;
    var e := DayEntry(day, m.data, compress(blob), sum8(blob));
    assert e.day == day by {
      ToU16Small(day);
    }
    AppendedDayIsIndexed(m.index, e);
  }

  /** The new row locates the compressed blob in the data file, as long as
      the file stays below 2^64 bytes. */
  lemma NewRowLocatesBlob(m: Month, day: int, comp: seq<byte>, sum: u64)
    requires |m.data| + |comp| < U64_LIMIT
    ensures DayEntry(day, m.data, comp, sum).offset + DayEntry(day, m.data, comp, sum).length
      == |WriteSpec(m, day, comp, sum, NoFault).month.data|
    ensures WriteSpec(m, day, comp, sum, NoFault).month.data[
      DayEntry(day, m.data, comp, sum).offset..DayEntry(day, m.data, comp, sum).offset
        + DayEntry(day, m.data, comp, sum).length] == comp
  {
    var e := DayEntry(day, m.data, comp, sum);
    assert e.offset == |m.data| && e.length == |comp| by {
      ToU64Small(|m.data|);
      ToU64Small(|comp|);
    }
    assert WriteSpec(m, day, comp, sum, NoFault).month.data == m.data + comp;
    SliceAfter(m.data, comp, 0, |comp|);
  }
}
