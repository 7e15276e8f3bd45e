/**
 * common.go: the row packer shared by the downloader and the readers. The
 * constants and the AggHeader struct declared there live in Layout; the
 * float helpers (Mean, StdDev, Correlation), which shared.go repeats, are
 * modelled once, in Shared.
 */
module Common {
  import opened Bytes
  import opened Layout

  /** PutRow packs one trade into the first 46 bytes of buf; bytes from 46
      on are left as they were. Decoding the written bytes gives the same
      trade back (Layout.TradeRoundTrip). */
  method PutRow(buf: array<byte>, tid: u64, px: u64, qty: u64, fid: u64, cnt: u32, flags: u16, ts: i64)
    requires buf.Length >= 46
    modifies buf
    ensures buf[..] == RowImage(Trade(tid, px, qty, fid, cnt, flags, ts)) + old(buf[..])[46..]
    ensures DecodeTrade(buf[..]) == Trade(tid, px, qty, fid, cnt, flags, ts)
  {
    ghost var b0 := buf[..];
    ghost var t := Trade(tid, px, qty, fid, cnt, flags, ts);
    PutLE(buf, 0, tid, 8);
    PutLE(buf, 8, px, 8);
    SpliceAdjacent(b0, 0, LE(tid, 8), LE(px, 8));
    PutLE(buf, 16, qty, 8);
    SpliceAdjacent(b0, 0, LE(tid, 8) + LE(px, 8), LE(qty, 8));
    PutLE(buf, 24, fid, 8);
    SpliceAdjacent(b0, 0, LE(tid, 8) + LE(px, 8) + LE(qty, 8), LE(fid, 8));
    PutLE(buf, 32, cnt, 4);
    SpliceAdjacent(b0, 0, LE(tid, 8) + LE(px, 8) + LE(qty, 8) + LE(fid, 8), LE(cnt, 4));
    PutLE(buf, 36, flags, 2);
    SpliceAdjacent(b0, 0, LE(tid, 8) + LE(px, 8) + LE(qty, 8) + LE(fid, 8) + LE(cnt, 4), LE(flags, 2));
    PutLE(buf, 38, ToU64(ts), 8);
    SpliceAdjacent(b0, 0, LE(tid, 8) + LE(px, 8) + LE(qty, 8) + LE(fid, 8) + LE(cnt, 4) + LE(flags, 2),
                   LE(ToU64(ts), 8));
    assert buf[..] == RowImage(t) + b0[46..];
    TradeRoundTrip(t, b0[46..]);
  }
}
