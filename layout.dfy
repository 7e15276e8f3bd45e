/**
 * The binary layouts shared by the downloader, the builders and the
 * checkers: the constants of common.go (re-declared verbatim in shared.go),
 * the 48-byte AGG3 blob header, the 48-byte trade row written by PutRow,
 * and the QIDX month index (a 16-byte header followed by 26-byte rows).
 */
module Layout {
  import opened Bytes

  const HeaderSize: nat := 48
  const RowSize: nat := 48
  const FeatureSize: nat := 24

  /** The number of worker chunks a day's rows are split into. */
  const CPUThreads: nat := 24

  /** The traded symbol and the data root every path starts from. */
  const Symbol: string := "BTCUSDT"
  const BaseDir: string := "data"

  /** The month the single-month tools work on. */
  const TargetYear: int := 2024
  const TargetMonth: int := 1

  /** "AGG3" and "QIDX" as bytes. */
  const AggMagic: seq<byte> := [0x41, 0x47, 0x47, 0x33]
  const IdxMagic: seq<byte> := [0x51, 0x49, 0x44, 0x58]
  const IdxVersion: nat := 1

  /** The index header is magic, a u32 version and a u64 row count. */
  const IdxHeaderSize: nat := 16
  /** An index row is day u16, offset u64, length u64, checksum u64. */
  const IdxRowSize: nat := 26

  /** The AggHeader struct: magic, version, day, zlib level, row count,
      first and last trade time, padding. */
  datatype AggHeader = AggHeader(
    magic: seq<byte>, version: byte, day: byte, zLevel: u16,
    rowCount: u64, minTs: i64, maxTs: i64, padding: seq<byte>)

  predicate WellShaped(h: AggHeader)
  {
    |h.magic| == 4 && |h.padding| == 16
  }

  /** The header's bytes, fields in declaration order, little-endian. */
  function EncodeHeader(h: AggHeader): (s: seq<byte>)
    requires WellShaped(h)
    ensures |s| == HeaderSize
  {
    h.magic + [h.version, h.day] + LE(h.zLevel, 2) + LE(h.rowCount, 8)
      + LE(ToU64(h.minTs), 8) + LE(ToU64(h.maxTs), 8) + h.padding
  }

  function DecodeHeader(s: seq<byte>): (h: AggHeader)
    requires |s| >= HeaderSize
    ensures WellShaped(h)
  {
    AggHeader(s[0..4], s[4], s[5], GetU16(s, 6), GetU64(s, 8),
              ToI64(GetU64(s, 16)), ToI64(GetU64(s, 24)), s[32..48])
  }

  /** The header fields occupy the 48 bytes with nothing lost: decoding an
      encoded header gives it back. */
  lemma {:induction false} HeaderRoundTrip(h: AggHeader)
    requires WellShaped(h)
    ensures DecodeHeader(EncodeHeader(h)) == h
  {
    Pow256Limits();
    var e := EncodeHeader(h);
    assert e[6..8] == LE(h.zLevel, 2);
    assert e[8..16] == LE(h.rowCount, 8);
    assert e[16..24] == LE(ToU64(h.minTs), 8);
    assert e[24..32] == LE(ToU64(h.maxTs), 8);
    LERoundTrip(h.zLevel, 2);
    LERoundTrip(h.rowCount, 8);
    LERoundTrip(ToU64(h.minTs), 8);
    LERoundTrip(ToU64(h.maxTs), 8);
    I64RoundTrip(h.minTs, 0);
    I64RoundTrip(h.maxTs, 0);
    assert e[0..4] == h.magic && e[32..48] == h.padding;
  }

  /** Every 48-byte string is the encoding of the header it decodes to. */
  lemma {:induction false} HeaderBytesRoundTrip(s: seq<byte>)
    requires |s| == HeaderSize
    ensures EncodeHeader(DecodeHeader(s)) == s
  {
    var d := DecodeHeader(s);
    LE_FromLE(s[6..8]);
    LE_FromLE(s[8..16]);
    I64RoundTrip(0, GetU64(s, 16));
    LE_FromLE(s[16..24]);
    I64RoundTrip(0, GetU64(s, 24));
    LE_FromLE(s[24..32]);
    assert LE(d.zLevel, 2) == s[6..8];
    assert LE(d.rowCount, 8) == s[8..16];
    assert LE(ToU64(d.minTs), 8) == s[16..24];
    assert LE(ToU64(d.maxTs), 8) == s[24..32];
    assert s == s[0..4] + [s[4], s[5]] + s[6..8] + s[8..16] + s[16..24] + s[24..32] + s[32..48];
  }

  /** The fields PutRow packs into one trade row. */
  datatype Trade = Trade(
    tradeId: u64, px: u64, qty: u64, firstId: u64, count: u32, flags: u16, ts: i64)

  /** The 46 bytes PutRow writes: tid@0, px@8, qty@16, fid@24 (u64),
      cnt@32 (u32), flags@36 (u16), uint64(ts)@38. Bytes 46 and 47 of a
      48-byte row are not written. */
  function RowImage(t: Trade): (s: seq<byte>)
    ensures |s| == 46
  {
    LE(t.tradeId, 8) + LE(t.px, 8) + LE(t.qty, 8) + LE(t.firstId, 8)
      + LE(t.count, 4) + LE(t.flags, 2) + LE(ToU64(t.ts), 8)
  }

  /** How the readers (build, ofi, study) decode a row. */
  function DecodeTrade(row: seq<byte>): Trade
    requires |row| >= 46
  {
    Trade(GetU64(row, 0), GetU64(row, 8), GetU64(row, 16), GetU64(row, 24),
          GetU32(row, 32), GetU16(row, 36), ToI64(GetU64(row, 38)))
  }

  /** Every field PutRow packs is read back unchanged, the signed time
      stamp included, whatever follows the 46 bytes. */
  lemma {:induction false} TradeRoundTrip(t: Trade, rest: seq<byte>)
    ensures DecodeTrade(RowImage(t) + rest) == t
  {
    Pow256Limits();
    var e := RowImage(t) + rest;
    assert e[0..8] == LE(t.tradeId, 8);
    assert e[8..16] == LE(t.px, 8);
    assert e[16..24] == LE(t.qty, 8);
    assert e[24..32] == LE(t.firstId, 8);
    assert e[32..36] == LE(t.count, 4);
    assert e[36..38] == LE(t.flags, 2);
    assert e[38..46] == LE(ToU64(t.ts), 8);
    LERoundTrip(t.tradeId, 8);
    LERoundTrip(t.px, 8);
    LERoundTrip(t.qty, 8);
    LERoundTrip(t.firstId, 8);
    LERoundTrip(t.count, 4);
    LERoundTrip(t.flags, 2);
    LERoundTrip(ToU64(t.ts), 8);
    I64RoundTrip(t.ts, 0);
  }

  /** One QIDX row: which day, where its compressed blob starts in the
      month's data file, how long it is, and the first 8 bytes of the
      SHA-256 of the uncompressed blob as a little-endian u64. */
  datatype IndexEntry = IndexEntry(day: u16, offset: u64, length: u64, checksum: u64)

  function IndexRowImage(e: IndexEntry): (s: seq<byte>)
    ensures |s| == IdxRowSize
  {
    LE(e.day, 2) + LE(e.offset, 8) + LE(e.length, 8) + LE(e.checksum, 8)
  }

  function DecodeIndexRow(row: seq<byte>): IndexEntry
    requires |row| >= IdxRowSize
  {
    IndexEntry(GetU16(row, 0), GetU64(row, 2), GetU64(row, 10), GetU64(row, 18))
  }

  lemma {:induction false} IndexRowRoundTrip(e: IndexEntry)
    ensures DecodeIndexRow(IndexRowImage(e)) == e
  {
    Pow256Limits();
    var s := IndexRowImage(e);
    assert s[0..2] == LE(e.day, 2);
    assert s[2..10] == LE(e.offset, 8);
    assert s[10..18] == LE(e.length, 8);
    assert s[18..26] == LE(e.checksum, 8);
    LERoundTrip(e.day, 2);
    LERoundTrip(e.offset, 8);
    LERoundTrip(e.length, 8);
    LERoundTrip(e.checksum, 8);
  }

  /** The header a new index gets: magic, version 1, the row count. */
  function IndexHeaderImage(count: u64): (s: seq<byte>)
    ensures |s| == IdxHeaderSize
  {
    IdxMagic + LE(IdxVersion, 4) + LE(count, 8)
  }

  /** One 24-byte feature record: the trade's time stamp and the IEEE-754
      bit patterns of its price and of the signal. */
  datatype Feature = Feature(ts: i64, px: u64, sig: u64)

  /** PutUint64 of uint64(ts), Float64bits(px), Float64bits(sig). */
  function FeatureImage(f: Feature): (s: seq<byte>)
    ensures |s| == FeatureSize
  {
    LE(ToU64(f.ts), 8) + LE(f.px, 8) + LE(f.sig, 8)
  }

  /** The records written one after the other. */
  function FeaturesImage(fs: seq<Feature>): (s: seq<byte>)
    ensures |s| == FeatureSize * |fs|
  {
    if fs == [] then [] else FeaturesImage(fs[..|fs| - 1]) + FeatureImage(fs[|fs| - 1])
  }

  /** How the feature readers decode the record at the start of s. */
  function DecodeFeature(s: seq<byte>): Feature
    requires |s| >= FeatureSize
  {
    Feature(ToI64(GetU64(s, 0)), GetU64(s, 8), GetU64(s, 16))
  }

  /** The readers take len / 24 records and ignore a trailing remainder. */
  function DecodeFeatures(s: seq<byte>): (fs: seq<Feature>)
    ensures |fs| == |s| / FeatureSize
  {
    seq(|s| / FeatureSize, k requires 0 <= k < |s| / FeatureSize => DecodeFeature(s[FeatureSize * k..]))
  }

  lemma {:induction false} FeatureRoundTrip(f: Feature, rest: seq<byte>)
    ensures DecodeFeature(FeatureImage(f) + rest) == f
  {
    Pow256Limits();
    var e := FeatureImage(f) + rest;
    assert e[0..8] == LE(ToU64(f.ts), 8);
    assert e[8..16] == LE(f.px, 8);
    assert e[16..24] == LE(f.sig, 8);
    LERoundTrip(ToU64(f.ts), 8);
    LERoundTrip(f.px, 8);
    LERoundTrip(f.sig, 8);
    I64RoundTrip(f.ts, 0);
  }

  lemma {:induction false} FeaturesImageAppend(a: seq<Feature>, b: seq<Feature>)
    ensures FeaturesImage(a + b) == FeaturesImage(a) + FeaturesImage(b)
    decreases |b|
  {
    if b == [] {
      assert a + b == a;
    } else {
      var b0 := b[..|b| - 1];
      assert (a + b)[..|a + b| - 1] == a + b0;
      FeaturesImageAppend(a, b0);
      assert FeaturesImage(b) == FeaturesImage(b0) + FeatureImage(b[|b| - 1]);
    }
  }

  /** Record k of the image starts at byte 24 * k. */
  lemma {:induction false} FeaturesImageAt(fs: seq<Feature>, k: nat)
    requires k < |fs|
    ensures FeaturesImage(fs)[FeatureSize * k..] == FeatureImage(fs[k]) + FeaturesImage(fs[k + 1..])
  {
    var p, x, r := fs[..k], fs[k], fs[k + 1..];
    assert fs == (p + [x]) + r;
    assert (p + [x])[..|p|] == p;
    assert FeaturesImage(p + [x]) == FeaturesImage(p) + FeatureImage(x);
    FeaturesImageAppend(p + [x], r);
    assert FeaturesImage(fs) == FeaturesImage(p) + (FeatureImage(x) + FeaturesImage(r));
  }

  /** Decoding the written records gives them back, in order. */
  lemma FeaturesRoundTrip(fs: seq<Feature>)
    ensures DecodeFeatures(FeaturesImage(fs)) == fs
  {
    var s := FeaturesImage(fs);
    var d := DecodeFeatures(s);
    forall k | 0 <= k < |fs|
      ensures d[k] == fs[k]
    {
      FeaturesImageAt(fs, k);
      FeatureRoundTrip(fs[k], FeaturesImage(fs[k + 1..]));
    }
  }
}
