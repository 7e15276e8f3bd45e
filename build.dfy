/**
 * The feature builder of build.go. buildalpha.go carries the same
 * buildChunks, findBlob and processKernel skeleton line for line; both
 * use the members here.
 *
 * A day is located in the month index, its compressed blob read from the
 * data file, inflated and checked, and its rows split into CPUThreads
 * chunks. A kernel runs over each chunk and emits one 24-byte record per
 * row, and the records are concatenated in chunk order.
 *
 * The kernel's five floating-point signals are not modelled value by
 * value. The record's price bits are a function `pxBits` of the raw price.
 * The signal bits are a function `sigBits` of the rows the kernel has
 * consumed so far, which is all its state ever depends on. The integer
 * skeleton is modelled as written: row range, warm-up, the 2048-slot
 * propagator ring, the lambda counter, count clamp, sign bit and output
 * offsets.
 */
module Build {
  import opened Bytes
  import opened Layout
  import opened GoIo
  import Data
  import Sorting
  import Text

  /** Rows before a chunk's first row that only warm the kernel's state up. */
  const Warmup: nat := 5000

  // ---------------------------------------------------------------------
  // buildChunks
  // ---------------------------------------------------------------------

  /** Where chunk i starts: the running start of buildChunks, which adds
      total / n for each earlier chunk, plus one for those among the first
      total % n. Division truncates as in Go, so a negative total gives no
      chunk an extra row. */
  function ChunkStart(total: int, n: int, i: nat): int
    requires n > 0
  {
    if i == 0 then 0
    else ChunkStart(total, n, i - 1) + GoDiv(total, n) + (if i - 1 < GoRem(total, n) then 1 else 0)
  }

  /** The closed form: i shares of total / n, plus one extra row for each
      chunk before i among the first total % n. */
  lemma {:induction false} ChunkStartClosed(total: int, n: int, i: nat)
    requires n > 0
    ensures ChunkStart(total, n, i) == i * GoDiv(total, n) + Min(i, Max(GoRem(total, n), 0))
  {
    if i > 0 {
      ChunkStartClosed(total, n, i - 1);
      MulSucc(i - 1, GoDiv(total, n));
    }
  }

  lemma MulSucc(i: nat, b: int)
    ensures (i + 1) * b == i * b + b
  {
  }

  /** Each chunk is the previous one's end plus total / n, plus one while
      i is below total % n. */
  lemma ChunkStep(total: int, n: int, i: nat)
    requires n > 0
    ensures ChunkStart(total, n, i + 1)
      == ChunkStart(total, n, i) + GoDiv(total, n) + (if i < GoRem(total, n) then 1 else 0)
  {
  }

  /** buildChunks: n ranges filled from a running start. */
  method BuildChunks(total: int, n: int) returns (res: array<(int, int)>)
    requires n > 0
    ensures res.Length == n
    ensures forall i :: 0 <= i < n ==> res[i] == (ChunkStart(total, n, i), ChunkStart(total, n, i + 1))
  {
    res := new (int, int)[n](_ => (0, 0));
    var base, rem := GoDiv(total, n), GoRem(total, n);
    var start := 0;
    for i := 0 to n
      invariant start == ChunkStart(total, n, i)
      invariant forall k :: 0 <= k < i ==> res[k] == (ChunkStart(total, n, k), ChunkStart(total, n, k + 1))
    {
      var len := base;
      if i < rem {
        len := len + 1;
      }
      ChunkStep(total, n, i);
      res[i] := (start, start + len);
      start := start + len;
    }
  }

  /** For a non-negative total the chunks tile [0, total). The first
      starts at 0 and the last ends at total. */
  lemma ChunksCover(total: int, n: int)
    requires n > 0 && total >= 0
    ensures ChunkStart(total, n, 0) == 0 && ChunkStart(total, n, n) == total
  {
    ChunkStartClosed(total, n, n);
    NonNegativeShares(total, n);
  }

  /** The first total % n chunks are total / n + 1 rows long and the rest
      total / n, so any two lengths differ by at most one. */
  lemma ChunkLength(total: int, n: int, i: nat)
    requires n > 0 && total >= 0 && i < n
    ensures ChunkStart(total, n, i + 1) - ChunkStart(total, n, i)
      == total / n + (if i < total % n then 1 else 0)
  {
    NonNegativeShares(total, n);
  }

  /** Every chunk lies inside [0, total] for a non-negative total. With a
      negative total (int(rowCount) past 2^63) no chunk is a non-empty
      range. */
  lemma ChunkBounds(total: int, n: int, i: nat)
    requires n > 0 && i < n
    ensures total >= 0 ==>
      0 <= ChunkStart(total, n, i) <= ChunkStart(total, n, i + 1) <= total
    ensures total < 0 ==> ChunkStart(total, n, i + 1) <= ChunkStart(total, n, i)
  {
    if total >= 0 {
      ChunksCover(total, n);
      StartsGrow(total, n, 0, i);
      StartsGrow(total, n, i, i + 1);
      StartsGrow(total, n, i + 1, n);
    } else {
      NegativeShares(total, n);
    }
  }

  /** For a non-negative total each chunk starts at or after the previous
      one. */
  lemma {:induction false} StartsGrow(total: int, n: int, i: nat, k: nat)
    requires n > 0 && total >= 0 && i <= k
    ensures ChunkStart(total, n, i) <= ChunkStart(total, n, k)
    decreases k - i
  {
    if i < k {
      NonNegativeShares(total, n);
      StartsGrow(total, n, i, k - 1);
    }
  }

  lemma NonNegativeShares(total: int, n: int)
    requires n > 0 && total >= 0
    ensures GoDiv(total, n) == total / n && GoRem(total, n) == total % n
    ensures total == n * (total / n) + total % n
  {
  }

  /** A negative total gives non-positive shares and remainders. */
  lemma NegativeShares(total: int, n: int)
    requires n > 0 && total < 0
    ensures GoDiv(total, n) <= 0 && GoRem(total, n) <= 0
  {
    var q, rr := (-total) / n, (-total) % n;
    assert -total == n * q + rr && q >= 0 && rr >= 0;
    assert GoDiv(total, n) == -q;
    assert n * (-q) == -(n * q);
  }

  // ---------------------------------------------------------------------
  // findBlob
  // ---------------------------------------------------------------------

  /** The row loop of findBlob. It does count reads of 26 bytes into one
      reused buffer, ignores errors, and stops at the first row whose u16
      at 0 is the day. */
  function FindRows(file: seq<byte>, pos: nat, row: seq<byte>, i: nat, count: nat, day: int): (u64, u64)
    requires |row| == IdxRowSize
    decreases count - i
  {
    if i >= count then (0, 0)
    else
      var r := FileRead(file, pos, row);
      if GetU16(r.buf, 0) == day then (GetU64(r.buf, 2), GetU64(r.buf, 10))
      else FindRows(file, r.pos, r.buf, i + 1, count, day)
  }

  /** findBlob on the index file. The header is one read into 16 zero
      bytes, and neither the magic nor any read error is checked. */
  function FindBlobSpec(idx: Opened, day: int): (u64, u64)
  {
    match idx
    case OpenFailed => (0, 0)
    case Opened(c) =>
      var h := FileRead(c, 0, Zeros(IdxHeaderSize));
      FindRows(c, h.pos, Zeros(IdxRowSize), 0, GetU64(h.buf, 8), day)
  }

  /** Rows 0 .. k - 1 of an index, decoded. */
  function Entries(idx: seq<byte>, k: nat): (es: seq<IndexEntry>)
    requires IdxHeaderSize + IdxRowSize * k <= |idx|
    ensures |es| == k
    ensures forall j :: 0 <= j < k ==> es[j] == Data.IndexRow(idx, j)
  {
    if k == 0 then [] else Entries(idx, k - 1) + [Data.IndexRow(idx, k - 1)]
  }

  /** rows are the decoded rows of a shaped index. */
  ghost predicate EntriesOf(idx: seq<byte>, rows: seq<IndexEntry>)
  {
    Data.Shaped(idx) && |rows| == Data.IndexCount(idx)
    && forall j {:trigger Data.IndexRow(idx, j)} :: 0 <= j < |rows| ==>
         IdxHeaderSize + IdxRowSize * (j + 1) <= |idx| && Data.IndexRow(idx, j) == rows[j]
  }

  /** The offset and length of the first of rows i.. with the day, or
      (0, 0) when none has it. */
  function FirstMatch(rows: seq<IndexEntry>, i: nat, day: int): (u64, u64)
    requires i <= |rows|
    decreases |rows| - i
  {
    if i == |rows| then (0, 0)
    else if rows[i].day == day then (rows[i].offset, rows[i].length)
    else FirstMatch(rows, i + 1, day)
  }

  /** One row read of findBlob on a shaped index: the read fills the row
      buffer with row i's bytes, then compares the day. */
  lemma FindRowsStep(idx: seq<byte>, rows: seq<IndexEntry>, row: seq<byte>, i: nat, day: int)
    requires EntriesOf(idx, rows) && i < |rows| && |row| == IdxRowSize
    ensures FindRows(idx, IdxHeaderSize + IdxRowSize * i, row, i, |rows|, day)
      == if rows[i].day == day then (rows[i].offset, rows[i].length)
         else FindRows(idx, IdxHeaderSize + IdxRowSize * (i + 1), FileRead(idx, IdxHeaderSize + IdxRowSize * i, row).buf,
                       i + 1, |rows|, day)
  {
    Data.ReadRow(idx, row, i);
    assert Data.IndexRow(idx, i) == rows[i];
  }

  lemma {:induction false} FindRowsShaped(idx: seq<byte>, rows: seq<IndexEntry>, row: seq<byte>, i: nat, day: int)
    requires EntriesOf(idx, rows) && i <= |rows| && |row| == IdxRowSize
    ensures FindRows(idx, IdxHeaderSize + IdxRowSize * i, row, i, |rows|, day) == FirstMatch(rows, i, day)
    decreases |rows| - i
  {
    if i < |rows| {
      FindRowsStep(idx, rows, row, i, day);
      FindRowsShaped(idx, rows, FileRead(idx, IdxHeaderSize + IdxRowSize * i, row).buf, i + 1, day);
    }
  }

  /** On an index with exactly count rows, findBlob is the first match
      among its rows. This holds whatever the magic says. */
  lemma FindBlobShaped(idx: seq<byte>, day: int)
    requires Data.Shaped(idx)
    ensures FindBlobSpec(Opened(idx), day) == FirstMatch(Entries(idx, Data.IndexCount(idx)), 0, day)
  {
    var rows := Entries(idx, Data.IndexCount(idx));
    forall j | 0 <= j < |rows|
      ensures IdxHeaderSize + IdxRowSize * (j + 1) <= |idx| && Data.IndexRow(idx, j) == rows[j]
    {
      Data.MulMono(IdxRowSize, j + 1, |rows|);
    }
    var h := FileRead(idx, 0, Zeros(IdxHeaderSize));
    assert h.buf == idx[..IdxHeaderSize] && h.pos == IdxHeaderSize;
    assert GetU64(h.buf, 8) == Data.IndexCount(idx) by {
      assert h.buf[8..16] == idx[8..16];
    }
    FindRowsShaped(idx, rows, Zeros(IdxRowSize), 0, day);
  }

  /** The first match is the offset and length of the first row with the
      day. */
  lemma {:induction false} FirstMatchIs(rows: seq<IndexEntry>, i: nat, day: int, k: nat)
    requires i <= k < |rows| && rows[k].day == day
    requires forall j :: i <= j < k ==> rows[j].day != day
    ensures FirstMatch(rows, i, day) == (rows[k].offset, rows[k].length)
    decreases k - i
  {
    if i < k {
      FirstMatchIs(rows, i + 1, day, k);
    }
  }

  /** With no row for the day, the first match is (0, 0). */
  lemma {:induction false} NoMatch(rows: seq<IndexEntry>, i: nat, day: int)
    requires i <= |rows|
    requires forall j :: i <= j < |rows| ==> rows[j].day != day
    ensures FirstMatch(rows, i, day) == (0, 0)
    decreases |rows| - i
  {
    if i < |rows| {
      NoMatch(rows, i + 1, day);
    }
  }

  /** findBlob: the header read, then up to count row reads. */
  method FindBlob(idx: Opened, day: int) returns (offset: u64, length: u64)
    ensures (offset, length) == FindBlobSpec(idx, day)
  {
    if idx.OpenFailed? {
      return 0, 0;
    }
    var f := new File(idx.contents);
    var hdr := new byte[IdxHeaderSize](_ => 0);
    assert hdr[..] == Zeros(IdxHeaderSize);
    var _, _ := f.Read(hdr);
    var count := GetU64(hdr[..], 8);
    var row := new byte[IdxRowSize](_ => 0);
    assert row[..] == Zeros(IdxRowSize);
    var i := 0;
    while i < count
      invariant 0 <= i <= count && row.Length == IdxRowSize
      invariant FindBlobSpec(idx, day) == FindRows(idx.contents, f.pos, row[..], i, count, day)
      decreases count - i
    {
      var _, _ := f.Read(row);
      if GetU16(row[..], 0) == day {
        return GetU64(row[..], 2), GetU64(row[..], 10);
      }
      i := i + 1;
    }
    return 0, 0;
  }

  // ---------------------------------------------------------------------
  // The kernel's integer skeleton
  // ---------------------------------------------------------------------

  /** The count's index into CountPowLook: int(cnt) clamped to [1, 255]. */
  function CountIndex(cnt: u32): (c: int)
    ensures 1 <= c <= 255
    ensures 1 <= cnt <= 255 ==> c == cnt
    ensures cnt == 0 ==> c == 1
    ensures cnt > 255 ==> c == 255
  {
    if cnt < 1 then 1 else if cnt > 255 then 255 else cnt
  }

  /** The trade's sign: -1 when flags bit 0 (buyer is maker) is set. */
  function Sign(flags: u16): (s: int)
    ensures s == 1 || s == -1
  {
    if flags % 2 == 1 then -1 else 1
  }

  /** The sign is -1 exactly when flags & 1 is non-zero. */
  lemma SignIsLowBit(flags: u16)
    ensures Sign(flags) == -1 <==> (flags as bv16) & 1 != 0
  {
  }

  const RingSize: nat := 2048

  /** The slot k steps back from head, (head - k) & 2047, for a head and
      a k inside the ring. */
  function Slot(head: int, k: int): (s: int)
    requires 0 <= head < RingSize && 0 <= k < RingSize
    ensures 0 <= s < RingSize
  {
    if head >= k then head - k else head - k + RingSize
  }

  /** (head + 1) & 2047 for a head inside the ring. */
  function Advance(head: int): (h: int)
    requires 0 <= head < RingSize
    ensures 0 <= h < RingSize && h == (head + 1) % RingSize
    ensures h == 0 <==> head == RingSize - 1
  {
    if head + 1 < RingSize then head + 1 else 0
  }

  /** After the head advances, k steps back from it is k - 1 steps back
      from the old head, and never the new head itself. */
  lemma SlotAfterAdvance(head: int, k: int)
    requires 0 <= head < RingSize && 0 < k < RingSize
    ensures Slot(Advance(head), k) == Slot(head, k - 1) != Advance(head)
  {
  }

  /** Masking with 2047 is reduction modulo 2048 on 64-bit words. */
  lemma MaskIsMod(x: bv64)
    ensures x & 2047 == x % 2048
  {
  }

  /** Slot is the two's-complement mask (head - k) & 2047, i.e. Euclidean
      reduction modulo 2048. */
  lemma SlotIsMask(head: int, k: int)
    requires 0 <= head < RingSize && 0 <= k < RingSize
    ensures Slot(head, k) == (head - k) % RingSize
  {
    if head >= k {
      DivModUnique(head - k, RingSize, 0, head - k);
    } else {
      DivModUnique(head - k, RingSize, -1, head - k + RingSize);
    }
  }

  /** The entry pushed k pushes ago, or the initial zeros before it. */
  function Back(pushed: seq<(int, int)>, k: nat): (int, int)
  {
    if k < |pushed| then pushed[|pushed| - 1 - k] else (0, 0)
  }

  /** The propagator's ring buffers bufS (signs) and bufQ (quantities),
      head at the newest entry. Quantities are kept as the raw fixed-point
      values the float qty is computed from. */
  class Ring {
    var bufS: array<int>
    var bufQ: array<int>
    var head: int
    ghost var pushed: seq<(int, int)>
    ghost var laps: int

    /** Slot (head - k) & 2047 holds the entry pushed k pushes ago, and
        head has advanced once per push, modulo 2048. */
    ghost predicate Valid()
      reads this, bufS, bufQ
    {
      bufS.Length == RingSize && bufQ.Length == RingSize && bufS != bufQ
      && 0 <= head < RingSize && |pushed| == RingSize * laps + head
      && forall k :: 0 <= k < RingSize ==> (bufS[Slot(head, k)], bufQ[Slot(head, k)]) == Back(pushed, k)
    }

    constructor ()
      ensures Valid() && pushed == [] && fresh(bufS) && fresh(bufQ)
    {
      bufS := new int[RingSize](_ => 0);
      bufQ := new int[RingSize](_ => 0);
      head := 0;
      pushed := [];
      laps := 0;
    }

    /** head = (head + 1) & 2047; bufS[head], bufQ[head] = sign, qty. */
    method Push(s: int, q: int)
      requires Valid()
      modifies this, bufS, bufQ
      ensures Valid() && pushed == old(pushed) + [(s, q)]
      ensures bufS == old(bufS) && bufQ == old(bufQ)
    {
      ghost var h0 := head;
      head := Advance(head);
      if head == 0 {
        laps := laps + 1;
      }
      ghost var s0, q0, p0 := bufS[..], bufQ[..], pushed;
      bufS[head] := s;
      bufQ[head] := q;
      pushed := pushed + [(s, q)];
      forall k | 0 <= k < RingSize
        ensures (bufS[Slot(head, k)], bufQ[Slot(head, k)]) == Back(pushed, k)
      {
        if k > 0 {
          SlotAfterAdvance(h0, k);
          assert (s0[Slot(h0, k - 1)], q0[Slot(h0, k - 1)]) == Back(p0, k - 1);
        }
      }
    }

    /** One row pushed: its sign and its raw quantity. */
    method Feed(ghost history: seq<Trade>, t: Trade, sign: int)
      requires Valid() && pushed == Pushes(history) && sign == Sign(t.flags)
      modifies this, bufS, bufQ
      ensures Valid() && pushed == Pushes(history + [t])
      ensures bufS == old(bufS) && bufQ == old(bufQ)
    {
      Push(sign, t.qty);
      PushesSnoc(history, t);
    }

    /** The inner propagator loop's reads: entry k is the slot
        (head - k) & 2047, i.e. the entry pushed k pushes ago. */
    method Taps(n: nat) returns (taps: seq<(int, int)>)
      requires Valid() && n <= RingSize
      ensures |taps| == n
      ensures forall k :: 0 <= k < n ==> taps[k] == Back(pushed, k)
    {
      taps := [];
      for k := 0 to n
        invariant |taps| == k
        invariant forall j :: 0 <= j < k ==> taps[j] == Back(pushed, j)
      {
        var b := (head - k) % RingSize;
        SlotIsMask(head, k);
        taps := taps + [(bufS[b], bufQ[b])];
      }
    }
  }

  // ---------------------------------------------------------------------
  // processKernel
  // ---------------------------------------------------------------------

  /** The rows of a body the kernel can read: row j is read at bytes
      48j .. 48j + 46. */
  function RowsIn(data: seq<byte>): (n: nat)
    ensures RowSize * n <= |data| + 2 < RowSize * (n + 1)
  {
    (|data| + 2) / RowSize
  }

  /** Row j of a blob body, read at the offsets PutRow wrote. */
  function RowAt(data: seq<byte>, j: nat): Trade
    requires RowSize * j + 46 <= |data|
  {
    DecodeTrade(data[RowSize * j..])
  }

  /** Every row of a body the kernel can read, decoded. */
  function BodyRows(data: seq<byte>): (rows: seq<Trade>)
    ensures |rows| == RowsIn(data)
  {
    seq(RowsIn(data), j requires 0 <= j < RowsIn(data) => RowAt(data, j))
  }

  /** The rows a kernel over [lo, hi) reads are in the body. */
  predicate RowsFit(data: seq<byte>, lo: int, hi: int)
  {
    lo < hi ==> 0 <= lo && hi <= RowsIn(data)
  }

  /** The record of row j for a kernel whose state starts at row a: the
      row's time stamp, its price bits, and the signal after rows a..j. */
  function KernelRecord(rows: seq<Trade>, a: nat, j: nat, pxBits: u64 -> u64,
                        sigBits: seq<Trade> -> u64): Feature
    requires a <= j < |rows|
  {
    Record(rows[j], rows[a..j + 1], pxBits, sigBits)
  }

  /** The record written for row t once the kernel has consumed history. */
  function Record(t: Trade, history: seq<Trade>, pxBits: u64 -> u64, sigBits: seq<Trade> -> u64): Feature
  {
    Feature(t.ts, pxBits(t.px), sigBits(history))
  }

  /** The records of rows lo .. hi - 1. */
  function Records(rows: seq<Trade>, a: nat, lo: nat, hi: nat, pxBits: u64 -> u64,
                   sigBits: seq<Trade> -> u64): (fs: seq<Feature>)
    requires a <= lo <= hi <= |rows|
    ensures |fs| == hi - lo
    decreases hi - lo
  {
    if lo == hi then []
    else Records(rows, a, lo, hi - 1, pxBits, sigBits) + [KernelRecord(rows, a, hi - 1, pxBits, sigBits)]
  }

  lemma {:induction false} RecordsAt(rows: seq<Trade>, a: nat, lo: nat, hi: nat, pxBits: u64 -> u64,
                                     sigBits: seq<Trade> -> u64, j: nat)
    requires a <= lo <= j < hi <= |rows|
    ensures Records(rows, a, lo, hi, pxBits, sigBits)[j - lo] == KernelRecord(rows, a, j, pxBits, sigBits)
    decreases hi - lo
  {
    if j < hi - 1 {
      RecordsAt(rows, a, lo, hi - 1, pxBits, sigBits, j);
    }
  }

  /** What processKernel returns for rows [startRow, endRow): nothing for
      an empty range, else one record per row, with state accumulated from
      max(0, startRow - warmup). */
  function KernelFeatures(data: seq<byte>, startRow: int, endRow: int, warmup: int,
                          pxBits: u64 -> u64, sigBits: seq<Trade> -> u64): (fs: seq<Feature>)
    requires warmup >= 0 && RowsFit(data, startRow, endRow)
    ensures |fs| == Max(endRow - startRow, 0)
  {
    if startRow >= endRow then []
    else Records(BodyRows(data), Max(0, startRow - warmup), startRow, endRow, pxBits, sigBits)
  }

  /** Record k carries row startRow + k: its time stamp, its price, and a
      signal that has seen exactly the rows from max(0, startRow - warmup)
      through it. The warm-up rows change state and emit nothing. */
  lemma KernelRecordAt(data: seq<byte>, startRow: int, endRow: int, warmup: int,
                       pxBits: u64 -> u64, sigBits: seq<Trade> -> u64, j: int)
    requires warmup >= 0 && RowsFit(data, startRow, endRow) && startRow <= j < endRow
    ensures KernelFeatures(data, startRow, endRow, warmup, pxBits, sigBits)[j - startRow]
      == KernelRecord(BodyRows(data), Max(0, startRow - warmup), j, pxBits, sigBits)
  {
    RecordsAt(BodyRows(data), Max(0, startRow - warmup), startRow, endRow, pxBits, sigBits, j);
  }

  lemma SliceSnoc<T>(s: seq<T>, a: nat, b: nat)
    requires a <= b < |s|
    ensures s[a..b + 1] == s[a..b] + [s[b]]
  {
  }

  /** The (sign, raw quantity) pairs the ring receives for a run of rows. */
  ghost function Pushes(rows: seq<Trade>): (ps: seq<(int, int)>)
    ensures |ps| == |rows|
  {
    seq(|rows|, k requires 0 <= k < |rows| => (Sign(rows[k].flags), rows[k].qty))
  }

  lemma PushesSnoc(rows: seq<Trade>, t: Trade)
    ensures Pushes(rows + [t]) == Pushes(rows) + [(Sign(t.flags), t.qty)]
  {
  }

  /** After the kernel has consumed rows a .. b - 1, the propagator's tap k
      is row b - 1 - k's sign and quantity, or zeros before row a. */
  lemma RingWindow(rows: seq<Trade>, a: nat, b: nat, k: nat)
    requires a <= b <= |rows|
    ensures Back(Pushes(rows[a..b]), k)
      == if k < b - a then (Sign(rows[b - 1 - k].flags), rows[b - 1 - k].qty) else (0, 0)
  {
  }

  /** A put just past a written prefix extends the prefix by the bytes put. */
  lemma SplicePrefix(s: seq<byte>, off: nat, part: seq<byte>)
    requires off + |part| <= |s|
    ensures Splice(s, off, part)[..off + |part|] == s[..off] + part
  {
  }

  /** The three PutUint64 calls of a record: ts, price bits, signal bits. */
  method EmitRecord(out: array<byte>, off: nat, f: Feature)
    requires off + FeatureSize <= out.Length
    modifies out
    ensures out[..] == Splice(old(out[..]), off, FeatureImage(f))
  {
    ghost var b0 := out[..];
    ghost var ts := LE(ToU64(f.ts), 8);
    ghost var px := LE(f.px, 8);
    ghost var sig := LE(f.sig, 8);
    PutLE(out, off, ToU64(f.ts), 8);
    PutLE(out, off + 8, f.px, 8);
    SpliceAdjacent(b0, off, ts, px);
    PutLE(out, off + 16, f.sig, 8);
    SpliceAdjacent(b0, off, ts + px, sig);
  }

  /** A record appended to the records already written. */
  method EmitNext(out: array<byte>, ghost done: seq<Feature>, off: nat, f: Feature)
    requires off == FeatureSize * |done| && off + FeatureSize <= out.Length
    requires out[..off] == FeaturesImage(done)
    modifies out
    ensures out[..off + FeatureSize] == FeaturesImage(done + [f])
  {
    ghost var b0 := out[..];
    EmitRecord(out, off, f);
    SplicePrefix(b0, off, FeatureImage(f));
    assert (done + [f])[..|done|] == done;
  }

  /** Row idx's record written after the records of rows startRow .. idx - 1. */
  method EmitStep(out: array<byte>, ghost rows: seq<Trade>, a: nat, startRow: nat, idx: nat, t: Trade,
                  history: seq<Trade>, ghost done: seq<Feature>, outPos: nat,
                  pxBits: u64 -> u64, sigBits: seq<Trade> -> u64) returns (ghost done': seq<Feature>, outPos': nat)
    requires a <= startRow <= idx < |rows| && t == rows[idx] && history == rows[a..idx + 1]
    requires done == Records(rows, a, startRow, idx, pxBits, sigBits)
    requires outPos == FeatureSize * (idx - startRow) && outPos + FeatureSize <= out.Length
    requires out[..outPos] == FeaturesImage(done)
    modifies out
    ensures done' == Records(rows, a, startRow, idx + 1, pxBits, sigBits)
    ensures outPos' == outPos + FeatureSize
    ensures out[..outPos'] == FeaturesImage(done')
  {
    var rec := Record(t, history, pxBits, sigBits);
    EmitNext(out, done, outPos, rec);
    done' := done + [rec];
    outPos' := outPos + FeatureSize;
  }

  /** The lambda counter's period. */
  const LambdaEvery: nat := 4000

  /** How many entries the propagator's inner loop reads back. */
  const PropTaps: nat := 2000

  /** Row j of the body is rows[j], for every row the body holds. */
  ghost predicate Decodes(data: seq<byte>, rows: seq<Trade>)
  {
    |rows| == RowsIn(data)
    && forall j {:trigger RowAt(data, j)} :: 0 <= j < |rows| ==> RowSize * j + 46 <= |data| && RowAt(data, j) == rows[j]
  }

  /** processKernel: one pass from max(0, startRow - warmup) to endRow,
      pushing each row into the ring, stepping the lambda counter, and
      writing a record at outPos once the row is at or past startRow. */
  method ProcessKernel(data: seq<byte>, startRow: int, endRow: int, warmup: int,
                       pxBits: u64 -> u64, sigBits: seq<Trade> -> u64) returns (out: array<byte>)
    requires warmup >= 0 && RowsFit(data, startRow, endRow)
    ensures out[..] == FeaturesImage(KernelFeatures(data, startRow, endRow, warmup, pxBits, sigBits))
  {
    if startRow >= endRow {
      out := new byte[0];
      return;
    }
    var actualStart := startRow - warmup;
    if actualStart < 0 {
      actualStart := 0;
    }
    out := KernelPass(data, BodyRows(data), actualStart, startRow, endRow, pxBits, sigBits);
  }

  /** The zero-copy parse of the row at offset 48 * j. */
  method ReadTrade(data: seq<byte>, ghost rows: seq<Trade>, j: nat) returns (t: Trade)
    requires Decodes(data, rows) && j < |rows|
    ensures t == rows[j]
  {
    t := RowAt(data, j);
  }

  /** The state update for row idx: the row's sign and quantity pushed into
      the ring, the propagator's taps read back, the lambda counter stepped,
      and the row added to the history the signal state depends on. */
  method Consume(ring: Ring, ghost rows: seq<Trade>, a: nat, idx: nat, t: Trade, history: seq<Trade>,
                 tradeCtr: int, ghost laps: int)
      returns (history': seq<Trade>, taps: seq<(int, int)>, tradeCtr': int, ghost laps': int)
    requires a <= idx < |rows| && t == rows[idx] && history == rows[a..idx]
    requires ring.Valid() && ring.pushed == Pushes(history)
    requires idx - a == LambdaEvery * laps + tradeCtr && 0 <= tradeCtr < LambdaEvery
    modifies ring, ring.bufS, ring.bufQ
    ensures history' == rows[a..idx + 1]
    ensures ring.Valid() && ring.pushed == Pushes(history')
    ensures ring.bufS == old(ring.bufS) && ring.bufQ == old(ring.bufQ)
    ensures idx + 1 - a == LambdaEvery * laps' + tradeCtr' && 0 <= tradeCtr' < LambdaEvery
    ensures tradeCtr' == (idx + 1 - a) % LambdaEvery
    ensures |taps| == PropTaps && forall k :: 0 <= k < PropTaps ==> taps[k] == Back(Pushes(history'), k)
  {
    var cIdx := CountIndex(t.count);
    var sign := Sign(t.flags);
    ring.Feed(history, t, sign);
    history' := history + [t];
    assert history' == rows[a..idx + 1] by {
      SliceSnoc(rows, a, idx);
    }
    taps := ring.Taps(PropTaps);
    tradeCtr' := tradeCtr + 1;
    laps' := laps;
    if tradeCtr' >= LambdaEvery {
      tradeCtr' := 0;
      laps' := laps + 1;
    }
    DivModUnique(idx + 1 - a, LambdaEvery, laps', tradeCtr');
  }

  /** The kernel's state after rows a .. idx - 1: the history the signal
      depends on, the ring holding their pushes, the lambda counter, and the
      records of the rows from startRow on written at the front of out. */
  ghost predicate Progress(ring: Ring, out: array<byte>, rows: seq<Trade>, a: nat, startRow: nat, endRow: nat,
                           idx: nat, history: seq<Trade>, tradeCtr: int, laps: int, done: seq<Feature>,
                           outPos: nat, pxBits: u64 -> u64, sigBits: seq<Trade> -> u64)
    reads ring, ring.bufS, ring.bufQ, out
  {
    a <= startRow < endRow <= |rows| && a <= idx <= endRow && history == rows[a..idx]
    && ring.Valid() && ring.pushed == Pushes(history)
    && ring.bufS as object != out && ring.bufQ as object != out
    && idx - a == LambdaEvery * laps + tradeCtr && 0 <= tradeCtr < LambdaEvery
    && out.Length == FeatureSize * (endRow - startRow)
    && outPos == FeatureSize * (Max(idx, startRow) - startRow)
    && done == Records(rows, a, startRow, Max(idx, startRow), pxBits, sigBits)
    && outPos <= out.Length && out[..outPos] == FeaturesImage(done)
  }

  lemma OutRoom(startRow: nat, endRow: nat, idx: nat)
    requires startRow <= endRow && idx < endRow
    ensures FeatureSize * (idx + 1 - startRow) <= FeatureSize * (endRow - startRow)
  {
  }

  /** One iteration of the kernel's loop for row idx: the state update, then
      the record if the row is past the warm-up. */
  method KernelRow(ring: Ring, out: array<byte>, ghost rows: seq<Trade>, a: nat, startRow: nat, endRow: nat,
                   idx: nat, t: Trade, history: seq<Trade>, tradeCtr: int, ghost laps: int, ghost done: seq<Feature>,
                   outPos: nat, pxBits: u64 -> u64, sigBits: seq<Trade> -> u64)
    returns (history': seq<Trade>, tradeCtr': int, ghost laps': int, ghost done': seq<Feature>, outPos': nat)
    requires Progress(ring, out, rows, a, startRow, endRow, idx, history, tradeCtr, laps, done, outPos, pxBits, sigBits)
    requires idx < endRow && t == rows[idx]
    modifies ring, ring.bufS, ring.bufQ, out
    ensures ring.bufS == old(ring.bufS) && ring.bufQ == old(ring.bufQ)
    ensures Progress(ring, out, rows, a, startRow, endRow, idx + 1, history', tradeCtr', laps', done', outPos',
                     pxBits, sigBits)
  {
    OutRoom(startRow, endRow, idx);
    // the taps feed the propagator term of the signal, which sigBits
    // computes from the same history
    var taps;
    history', taps, tradeCtr', laps' := Consume(ring, rows, a, idx, t, history, tradeCtr, laps);
    if idx >= startRow {
      done', outPos' := EmitStep(out, rows, a, startRow, idx, t, history', done, outPos, pxBits, sigBits);
    } else {
      done', outPos' := done, outPos;
    }
  }

  /** The kernel's loop over rows actualStart .. endRow - 1. */
  method KernelPass(data: seq<byte>, ghost rows: seq<Trade>, actualStart: nat, startRow: nat, endRow: nat,
                    pxBits: u64 -> u64, sigBits: seq<Trade> -> u64) returns (out: array<byte>)
    requires Decodes(data, rows) && actualStart <= startRow < endRow <= |rows|
    ensures out[..] == FeaturesImage(Records(rows, actualStart, startRow, endRow, pxBits, sigBits))
  {
    out := new byte[FeatureSize * (endRow - startRow)](_ => 0);
    assert out[..0] == FeaturesImage([]);
    var outPos: nat := 0;
    var tradeCtr := 0;
    var ring := new Ring();
    var offset := actualStart * RowSize;
    var limit := endRow * RowSize;
    var idx := actualStart;
    ghost var laps := 0;
    ghost var done: seq<Feature> := [];
    var history: seq<Trade> := [];
    while offset < limit
      invariant offset == RowSize * idx && limit == RowSize * endRow
      invariant fresh(ring) && fresh(ring.bufS) && fresh(ring.bufQ)
      invariant Progress(ring, out, rows, actualStart, startRow, endRow, idx, history, tradeCtr, laps, done, outPos,
                         pxBits, sigBits)
      decreases limit - offset
    {
      var t := ReadTrade(data, rows, idx);
      offset := offset + RowSize;
      history, tradeCtr, laps, done, outPos := KernelRow(ring, out, rows, actualStart, startRow, endRow, idx, t,
                                                         history, tradeCtr, laps, done, outPos, pxBits, sigBits);
      idx := idx + 1;
    }
    assert idx == endRow && outPos == out.Length;
    assert out[..] == out[..outPos];
  }

  // ---------------------------------------------------------------------
  // processBuildDay
  // ---------------------------------------------------------------------

  /** What zlib.NewReader and io.ReadAll make of the compressed bytes: a
      stream header error, or the bytes inflated before the stream ended
      and whether it ended cleanly (processBuildDay ignores the error
      io.ReadAll returns, so a truncated stream gives the bytes inflated so
      far; validateMonth counts it as an issue). */
  datatype Inflation = NotZlib | Inflated(blob: seq<byte>, complete: bool)

  /** processBuildDay's outcomes: no index row for the day (the silent
      return), the ERR_IO, ERR_ZLIB, ERR_HDR and ERR_SIZE statuses, a
      runtime panic in the kernels (which ends the program), or DONE with
      the row count and the bytes written to the day's feature file. */
  datatype BuildResult = NoDay | ErrIo | ErrZlib | ErrHdr | ErrSize | Crashed | Done(rowCount: u64, features: seq<byte>)

  /** The compressed bytes: Seek(int64(offset)) and one Read into a zeroed
      buffer of length bytes. A negative int64(offset) makes Seek fail and
      the read start at 0, and a short read leaves zeros at the end. */
  function ReadComp(data: seq<byte>, offset: u64, length: u64): (comp: seq<byte>)
    ensures |comp| == length
    ensures offset < I64_LIMIT && offset + length <= |data| ==> comp == data[offset..offset + length]
  {
    var pos := if ToI64(offset) >= 0 then ToI64(offset) else 0;
    FileRead(data, pos, Zeros(length)).buf
  }

  /** The size check as written: uint64(len(body)) != rowCount * RowSize,
      with the product wrapping modulo 2^64. */
  predicate SizeOkAsWritten(bodyLen: nat, rowCount: u64)
  {
    ToU64(bodyLen) == ToU64(rowCount * RowSize)
  }

  /** The size check the kernels need: the body holds exactly rowCount
      rows. */
  predicate SizeOk(bodyLen: nat, rowCount: u64)
  {
    bodyLen == rowCount * RowSize
  }

  /** A header-only blob that claims 2^60 rows passes the check as written,
      because 2^60 * 48 is 3 * 2^64 and wraps to 0. Its first chunk then
      asks the kernel for rows the empty body does not have. */
  lemma SizeCheckWraps()
    ensures SizeOkAsWritten(0, 0x1000_0000_0000_0000)
    ensures !SizeOk(0, 0x1000_0000_0000_0000)
    ensures !RowsFit([], ChunkStart(0x1000_0000_0000_0000, CPUThreads, 0),
                     ChunkStart(0x1000_0000_0000_0000, CPUThreads, 1))
  {
    assert 0x1000_0000_0000_0000 * RowSize == 3 * U64_LIMIT;
    DivModUnique(0x1000_0000_0000_0000, CPUThreads, 0xAA_AAAA_AAAA_AAAA, 16);
  }

  /** The exact check implies the one written, and the two agree whenever
      the product does not wrap. */
  lemma SizeOkAgrees(bodyLen: nat, rowCount: u64)
    requires bodyLen < U64_LIMIT
    ensures SizeOk(bodyLen, rowCount) ==> SizeOkAsWritten(bodyLen, rowCount)
    ensures rowCount * RowSize < U64_LIMIT ==> (SizeOk(bodyLen, rowCount) <==> SizeOkAsWritten(bodyLen, rowCount))
  {
    if rowCount * RowSize < U64_LIMIT {
      ToU64Small(rowCount * RowSize);
      ToU64Small(bodyLen);
    }
  }

  /** A body that passes the exact check holds rowCount rows the kernel
      can read, and no more. */
  lemma SizeOkRows(body: seq<byte>, rowCount: u64)
    requires SizeOk(|body|, rowCount)
    ensures RowsIn(body) == rowCount
  {
    DivModUnique(|body| + 2, RowSize, rowCount, 2);
  }

  /** With total within the body's rows, or negative, every chunk's rows are
      in the body. */
  lemma ChunkFits(body: seq<byte>, total: int, i: nat)
    requires i < CPUThreads && (total < 0 || total <= RowsIn(body))
    ensures RowsFit(body, ChunkStart(total, CPUThreads, i), ChunkStart(total, CPUThreads, i + 1))
  {
    ChunkBounds(total, CPUThreads, i);
  }

  /** The first row chunk c's kernel reads: Warmup rows before its start,
      or row 0. */
  function WarmStart(total: int, c: nat): (a: nat)
    ensures a >= ChunkStart(total, CPUThreads, c) - Warmup
  {
    Max(0, ChunkStart(total, CPUThreads, c) - Warmup)
  }

  /** The records processKernel returns for chunk i of total rows. */
  function ChunkFeatures(body: seq<byte>, total: int, i: nat,
                         pxBits: u64 -> u64, sigBits: seq<Trade> -> u64): (fs: seq<Feature>)
    requires i < CPUThreads && (total < 0 || total <= RowsIn(body))
    ensures |fs| == Max(ChunkStart(total, CPUThreads, i + 1) - ChunkStart(total, CPUThreads, i), 0)
  {
    ChunkFits(body, total, i);
    KernelFeatures(body, ChunkStart(total, CPUThreads, i), ChunkStart(total, CPUThreads, i + 1),
                   Warmup, pxBits, sigBits)
  }

  /** The outputs of chunks 0 .. CPUThreads - 1 (the goroutines' results
      slice). */
  function ChunkOutputs(body: seq<byte>, total: int, pxBits: u64 -> u64, sigBits: seq<Trade> -> u64)
    : (outs: seq<seq<Feature>>)
    requires total < 0 || total <= RowsIn(body)
    ensures |outs| == CPUThreads
    ensures forall i :: 0 <= i < CPUThreads ==> outs[i] == ChunkFeatures(body, total, i, pxBits, sigBits)
  {
    seq(CPUThreads, i requires 0 <= i < CPUThreads => ChunkFeatures(body, total, i, pxBits, sigBits))
  }

  /** Byte buffers or records written one after the other. */
  function Concat<T>(ss: seq<seq<T>>): (r: seq<T>)
  {
    if ss == [] then [] else Concat(ss[..|ss| - 1]) + ss[|ss| - 1]
  }

  /** Appending more parts keeps what the first k parts put at j. */
  lemma {:induction false} ConcatPrefix<T>(ss: seq<seq<T>>, k: nat, j: nat)
    requires k <= |ss| && j < |Concat(ss[..k])|
    ensures j < |Concat(ss)| && Concat(ss)[j] == Concat(ss[..k])[j]
    decreases |ss|
  {
    if k < |ss| {
      var init := ss[..|ss| - 1];
      assert init[..k] == ss[..k];
      ConcatPrefix(init, k, j);
    } else {
      assert ss[..k] == ss;
    }
  }

  /** Element j of part c sits at its offset within the concatenation. */
  lemma ConcatAt<T>(ss: seq<seq<T>>, c: nat, j: int)
    requires c < |ss| && |Concat(ss[..c])| <= j < |Concat(ss[..c])| + |ss[c]|
    ensures j < |Concat(ss)| && Concat(ss)[j] == ss[c][j - |Concat(ss[..c])|]
  {
    assert ss[..c + 1][..c] == ss[..c];
    ConcatPrefix(ss, c + 1, j);
  }

  /** The chunk outputs concatenated in chunk order. */
  function Merged(body: seq<byte>, total: int, pxBits: u64 -> u64, sigBits: seq<Trade> -> u64): seq<Feature>
    requires total < 0 || total <= RowsIn(body)
  {
    Concat(ChunkOutputs(body, total, pxBits, sigBits))
  }

  /** The first k chunks give one record per row they cover, and none for a
      negative total. */
  lemma {:induction false} MergedLength(body: seq<byte>, total: int, k: nat,
                                        pxBits: u64 -> u64, sigBits: seq<Trade> -> u64)
    requires k <= CPUThreads && (total < 0 || total <= RowsIn(body))
    ensures total >= 0 ==>
      |Concat(ChunkOutputs(body, total, pxBits, sigBits)[..k])| == ChunkStart(total, CPUThreads, k)
    ensures total < 0 ==> Concat(ChunkOutputs(body, total, pxBits, sigBits)[..k]) == []
  {
    var outs := ChunkOutputs(body, total, pxBits, sigBits);
    if k > 0 {
      assert outs[..k][..k - 1] == outs[..k - 1];
      MergedLength(body, total, k - 1, pxBits, sigBits);
      ChunkBounds(total, CPUThreads, k - 1);
    } else if total >= 0 {
      ChunksCover(total, CPUThreads);
    }
  }

  /** Concatenating the chunks' outputs in chunk order gives one record per
      row, in row order: record j carries row j's time stamp and price, and
      a signal that has seen the rows from its chunk's warm-up start through
      row j. */
  lemma MergedAt(body: seq<byte>, total: int, c: nat, j: int,
                 pxBits: u64 -> u64, sigBits: seq<Trade> -> u64)
    requires 0 <= total <= RowsIn(body) && c < CPUThreads
    requires ChunkStart(total, CPUThreads, c) <= j < ChunkStart(total, CPUThreads, c + 1)
    ensures |Merged(body, total, pxBits, sigBits)| == total
    ensures WarmStart(total, c) <= j < total <= RowsIn(body)
    ensures Merged(body, total, pxBits, sigBits)[j]
      == KernelRecord(BodyRows(body), WarmStart(total, c), j, pxBits, sigBits)
  {
    ChunkBounds(total, CPUThreads, c);
    MergedInChunk(body, total, c, j, pxBits, sigBits);
    ChunkRecordAt(body, total, c, j, pxBits, sigBits);
  }

  /** Position j of the merged output is chunk c's record for row j. */
  lemma MergedInChunk(body: seq<byte>, total: int, c: nat, j: int,
                      pxBits: u64 -> u64, sigBits: seq<Trade> -> u64)
    requires 0 <= total <= RowsIn(body) && c < CPUThreads
    requires 0 <= ChunkStart(total, CPUThreads, c) <= j < ChunkStart(total, CPUThreads, c + 1) <= total
    ensures |Merged(body, total, pxBits, sigBits)| == total
    ensures Merged(body, total, pxBits, sigBits)[j]
      == ChunkFeatures(body, total, c, pxBits, sigBits)[j - ChunkStart(total, CPUThreads, c)]
  {
    var outs := ChunkOutputs(body, total, pxBits, sigBits);
    MergedLength(body, total, CPUThreads, pxBits, sigBits);
    assert outs[..CPUThreads] == outs;
    ChunksCover(total, CPUThreads);
    MergedLength(body, total, c, pxBits, sigBits);
    ConcatAt(outs, c, j);
  }

  /** Record j - lo of chunk c is row j's. */
  lemma ChunkRecordAt(body: seq<byte>, total: int, c: nat, j: int,
                      pxBits: u64 -> u64, sigBits: seq<Trade> -> u64)
    requires 0 <= total <= RowsIn(body) && c < CPUThreads
    requires 0 <= ChunkStart(total, CPUThreads, c) <= j < ChunkStart(total, CPUThreads, c + 1) <= RowsIn(body)
    ensures WarmStart(total, c) <= j
    ensures ChunkFeatures(body, total, c, pxBits, sigBits)[j - ChunkStart(total, CPUThreads, c)]
      == KernelRecord(BodyRows(body), WarmStart(total, c), j, pxBits, sigBits)
  {
    var lo, hi := ChunkStart(total, CPUThreads, c), ChunkStart(total, CPUThreads, c + 1);
    assert ChunkFeatures(body, total, c, pxBits, sigBits) == KernelFeatures(body, lo, hi, Warmup, pxBits, sigBits);
    KernelRecordAt(body, lo, hi, Warmup, pxBits, sigBits, j);
  }

  /** processBuildDay for one day: the index lookup, the read of the
      compressed blob, zlib, then what the checks and the kernels make of
      the inflated blob. */
  function BuildDaySpec(idx: Opened, data: Opened, day: int, inflate: seq<byte> -> Inflation,
                        pxBits: u64 -> u64, sigBits: seq<Trade> -> u64): BuildResult
  {
    var (offset, length) := FindBlobSpec(idx, day);
    if length == 0 then NoDay
    else if data.OpenFailed? then ErrIo
    else match inflate(ReadComp(data.contents, offset, length))
      case NotZlib => ErrZlib
      case Inflated(blob, _) => BlobOutcome(blob, pxBits, sigBits)
  }

  /** Whether the kernels of a blob's chunks stay inside its body: the
      chunk total int(rowCount) is negative (every chunk is then empty) or
      at most the rows the body holds. */
  predicate KernelsFit(blob: seq<byte>)
    requires |blob| >= HeaderSize
  {
    var total := ToI64(GetU64(blob, 8));
    total < 0 || total <= RowsIn(blob[HeaderSize..])
  }

  /** What processBuildDay makes of an inflated blob, with the size check
      as written: ERR_HDR below the header, ERR_SIZE when the wrapped
      product differs from the body's length, a panic when a kernel is
      sent past the end of the body, and otherwise DONE with the chunks'
      records. */
  function BlobOutcome(blob: seq<byte>, pxBits: u64 -> u64, sigBits: seq<Trade> -> u64): BuildResult
  {
    if |blob| < HeaderSize then ErrHdr
    else if !SizeOkAsWritten(|blob| - HeaderSize, GetU64(blob, 8)) then ErrSize
    else if !KernelsFit(blob) then Crashed
    else Done(GetU64(blob, 8), DayFeatures(blob, pxBits, sigBits))
  }

  /** The same with the exact size check: a body of exactly rowCount rows
      is built and every other blob is ERR_SIZE, so no blob sends a kernel
      past its body. */
  function BlobOutcomeExact(blob: seq<byte>, pxBits: u64 -> u64, sigBits: seq<Trade> -> u64): (r: BuildResult)
    ensures r != Crashed
    ensures r.Done? <==> Passes(blob)
    ensures r.Done? ==> RowsIn(blob[HeaderSize..]) == r.rowCount
  {
    if |blob| < HeaderSize then ErrHdr
    else if !SizeOk(|blob| - HeaderSize, GetU64(blob, 8)) then ErrSize
    else
      PassesFits(blob);
      SizeOkRows(blob[HeaderSize..], GetU64(blob, 8));
      Done(GetU64(blob, 8), DayFeatures(blob, pxBits, sigBits))
  }

  /** Whether a blob passes the header check and the exact size check. */
  predicate Passes(blob: seq<byte>)
  {
    |blob| >= HeaderSize && SizeOk(|blob| - HeaderSize, GetU64(blob, 8))
  }

  /** A blob that passes the exact check keeps its kernels inside the
      body. */
  lemma PassesFits(blob: seq<byte>)
    requires Passes(blob)
    ensures KernelsFit(blob)
  {
    SizeOkRows(blob[HeaderSize..], GetU64(blob, 8));
  }

  /** The feature file of a blob whose kernels stay in its body: the
      chunks' records, in chunk order, over int(rowCount) rows. */
  function DayFeatures(blob: seq<byte>, pxBits: u64 -> u64, sigBits: seq<Trade> -> u64): seq<byte>
    requires |blob| >= HeaderSize && KernelsFit(blob)
  {
    FeaturesImage(Merged(blob[HeaderSize..], ToI64(GetU64(blob, 8)), pxBits, sigBits))
  }

  /** The day's steps in order: a day with no index row (or a zero length)
      is skipped silently, a data file that does not open is ERR_IO, a
      stream zlib rejects is ERR_ZLIB, and the inflated blob decides the
      rest, whether the stream ended cleanly or not. */
  lemma BuildDayChecks(idx: Opened, data: Opened, day: int, inflate: seq<byte> -> Inflation,
                       pxBits: u64 -> u64, sigBits: seq<Trade> -> u64)
    ensures BuildDaySpec(idx, data, day, inflate, pxBits, sigBits) == NoDay <==> FindBlobSpec(idx, day).1 == 0
    ensures FindBlobSpec(idx, day).1 != 0 ==>
      (BuildDaySpec(idx, data, day, inflate, pxBits, sigBits) == ErrIo <==> data.OpenFailed?)
    ensures FindBlobSpec(idx, day).1 != 0 && data.Opened? ==>
      var b := inflate(ReadComp(data.contents, FindBlobSpec(idx, day).0, FindBlobSpec(idx, day).1));
      (BuildDaySpec(idx, data, day, inflate, pxBits, sigBits) == ErrZlib <==> b.NotZlib?)
      && (b.Inflated? ==> BuildDaySpec(idx, data, day, inflate, pxBits, sigBits) == BlobOutcome(b.blob, pxBits, sigBits))
  {
    var (offset, length) := FindBlobSpec(idx, day);
    if length != 0 && data.Opened? {
      match inflate(ReadComp(data.contents, offset, length))
      case NotZlib =>
      case Inflated(blob, _) =>
        BlobChecks(blob, pxBits, sigBits);
    }
  }

  /** The blob's checks: ERR_HDR exactly below the header; ERR_SIZE
      exactly when the wrapped check fails; a panic exactly when it passes
      and int(rowCount) is a non-negative total beyond the body's rows,
      which the exact check would have rejected; DONE otherwise, and
      always for a blob that passes the exact check. */
  lemma BlobChecks(blob: seq<byte>, pxBits: u64 -> u64, sigBits: seq<Trade> -> u64)
    ensures BlobOutcome(blob, pxBits, sigBits) == ErrHdr <==> |blob| < HeaderSize
    ensures |blob| >= HeaderSize ==>
      (BlobOutcome(blob, pxBits, sigBits) == ErrSize <==> !SizeOkAsWritten(|blob| - HeaderSize, GetU64(blob, 8)))
      && (BlobOutcome(blob, pxBits, sigBits) == Crashed
          <==> SizeOkAsWritten(|blob| - HeaderSize, GetU64(blob, 8))
               && 0 <= ToI64(GetU64(blob, 8)) && ToI64(GetU64(blob, 8)) > RowsIn(blob[HeaderSize..]))
      && (BlobOutcome(blob, pxBits, sigBits) == Crashed ==> !SizeOk(|blob| - HeaderSize, GetU64(blob, 8)))
    ensures Passes(blob) ==>
      BlobOutcome(blob, pxBits, sigBits) == Done(GetU64(blob, 8), DayFeatures(blob, pxBits, sigBits))
  {
    if Passes(blob) {
      PassesFits(blob);
    }
  }

  /** With no wrap in the product and a body below 2^64 bytes, the checks
      as written and the exact ones give the same outcome. */
  lemma ExactAgrees(blob: seq<byte>, pxBits: u64 -> u64, sigBits: seq<Trade> -> u64)
    requires |blob| < U64_LIMIT
    requires |blob| >= HeaderSize ==> GetU64(blob, 8) * RowSize < U64_LIMIT
    ensures BlobOutcome(blob, pxBits, sigBits) == BlobOutcomeExact(blob, pxBits, sigBits)
  {
    if |blob| >= HeaderSize {
      SizeOkAgrees(|blob| - HeaderSize, GetU64(blob, 8));
      if SizeOk(|blob| - HeaderSize, GetU64(blob, 8)) {
        PassesFits(blob);
      }
    }
  }

  /** The wrap in the outcome: a header-only blob claiming 2^60 rows passes
      the check as written and its kernels run past the empty body, where
      the exact check reports ERR_SIZE. */
  lemma WrappedSizeCrashes(blob: seq<byte>, pxBits: u64 -> u64, sigBits: seq<Trade> -> u64)
    requires |blob| == HeaderSize && GetU64(blob, 8) == 0x1000_0000_0000_0000
    ensures BlobOutcome(blob, pxBits, sigBits) == Crashed
    ensures BlobOutcomeExact(blob, pxBits, sigBits) == ErrSize
  {
    SizeCheckWraps();
    assert blob[HeaderSize..] == [];
  }

  /** A header-only blob claiming 2^63 rows passes the check as written
      too (2^63 * 48 wraps to 0); int(rowCount) is then negative, every
      chunk is empty, and the day is DONE with an empty feature file. */
  lemma WrappedSizeBuildsEmpty(blob: seq<byte>, pxBits: u64 -> u64, sigBits: seq<Trade> -> u64)
    requires |blob| == HeaderSize && GetU64(blob, 8) == 0x8000_0000_0000_0000
    ensures BlobOutcome(blob, pxBits, sigBits) == Done(0x8000_0000_0000_0000, [])
    ensures BlobOutcomeExact(blob, pxBits, sigBits) == ErrSize
  {
    assert 0x8000_0000_0000_0000 * RowSize == 24 * U64_LIMIT;
    assert SizeOkAsWritten(0, 0x8000_0000_0000_0000);
    var body := blob[HeaderSize..];
    var total := ToI64(GetU64(blob, 8));
    MergedLength(body, total, CPUThreads, pxBits, sigBits);
    assert ChunkOutputs(body, total, pxBits, sigBits)[..CPUThreads] == ChunkOutputs(body, total, pxBits, sigBits);
  }

  /** A built day's feature file: one 24-byte record per row of the blob,
      and record j, read back, carries row j's time stamp and price and a
      signal over its chunk's warm-up rows through row j. */
  lemma DayFeaturesAt(blob: seq<byte>, pxBits: u64 -> u64, sigBits: seq<Trade> -> u64, c: nat, j: int)
    requires |blob| >= HeaderSize && KernelsFit(blob) && GetU64(blob, 8) < I64_LIMIT && c < CPUThreads
    requires ChunkStart(GetU64(blob, 8), CPUThreads, c) <= j < ChunkStart(GetU64(blob, 8), CPUThreads, c + 1)
    ensures |DecodeFeatures(DayFeatures(blob, pxBits, sigBits))| == GetU64(blob, 8)
    ensures WarmStart(GetU64(blob, 8), c) <= j < GetU64(blob, 8) <= RowsIn(blob[HeaderSize..])
    ensures DecodeFeatures(DayFeatures(blob, pxBits, sigBits))[j]
      == KernelRecord(BodyRows(blob[HeaderSize..]), WarmStart(GetU64(blob, 8), c), j, pxBits, sigBits)
  {
    var rowCount := GetU64(blob, 8);
    var body := blob[HeaderSize..];
    assert ToI64(rowCount) == rowCount <= RowsIn(body);
    var m := Merged(body, rowCount, pxBits, sigBits);
    FeaturesRoundTrip(m);
    MergedAt(body, rowCount, c, j, pxBits, sigBits);
  }

  /** A blob fastZipToAgg3 packs passes processBuildDay's header and size
      checks: it is the 48-byte header, whose count is the number of rows,
      followed by exactly that many rows. */
  lemma PackedBlobPassesChecks(day: int, csv: seq<byte>)
    requires Data.BodyScan(csv).count > 0 && Data.BodyScan(csv).count < U64_LIMIT
    ensures |Data.CsvToAgg3(day, csv).blob| >= HeaderSize
    ensures SizeOk(|Data.CsvToAgg3(day, csv).blob| - HeaderSize, GetU64(Data.CsvToAgg3(day, csv).blob, 8))
    ensures GetU64(Data.CsvToAgg3(day, csv).blob, 8) == Data.BodyScan(csv).count
  {
    Data.CsvBlobShape(day, csv);
    ToU64Small(Data.BodyScan(csv).count);
  }

  /** Step 4 of processBuildDay: one kernel per chunk, each writing its
      own slot of results. The goroutines write disjoint slots, so running
      them one after the other fills the same slots. */
  method RunKernels(body: seq<byte>, total: int, pxBits: u64 -> u64, sigBits: seq<Trade> -> u64)
    returns (results: array<seq<byte>>)
    requires total < 0 || total <= RowsIn(body)
    ensures results.Length == CPUThreads
    ensures forall k :: 0 <= k < CPUThreads ==>
      results[k] == FeaturesImage(ChunkFeatures(body, total, k, pxBits, sigBits))
  {
    var chunkArr := BuildChunks(total, CPUThreads);
    var chunks := chunkArr[..];
    results := new seq<byte>[CPUThreads](_ => []);
    for i := 0 to CPUThreads
      invariant forall k :: 0 <= k < i ==> results[k] == FeaturesImage(ChunkFeatures(body, total, k, pxBits, sigBits))
    {
      ChunkFits(body, total, i);
      assert chunks[i] == (ChunkStart(total, CPUThreads, i), ChunkStart(total, CPUThreads, i + 1));
      var out := ProcessKernel(body, chunks[i].0, chunks[i].1, Warmup, pxBits, sigBits);
      assert out[..] == FeaturesImage(ChunkFeatures(body, total, i, pxBits, sigBits));
      results[i] := out[..];
    }
  }

  /** Step 5: the results written into one buffer in slot order. */
  method MergeResults(results: seq<seq<byte>>) returns (outBuf: seq<byte>)
    ensures outBuf == Concat(results)
  {
    outBuf := [];
    for i := 0 to |results|
      invariant outBuf == Concat(results[..i])
    {
      assert results[..i + 1][..i] == results[..i];
      outBuf := outBuf + results[i];
    }
    assert results[..|results|] == results;
  }

  /** The bytes of records written part after part are the parts' bytes
      written one after the other. */
  lemma {:induction false} ImageOfConcat(outs: seq<seq<Feature>>, images: seq<seq<byte>>)
    requires |images| == |outs| && forall k :: 0 <= k < |outs| ==> images[k] == FeaturesImage(outs[k])
    ensures FeaturesImage(Concat(outs)) == Concat(images)
  {
    if outs != [] {
      var n := |outs| - 1;
      ImageOfConcat(outs[..n], images[..n]);
      FeaturesImageAppend(Concat(outs[..n]), outs[n]);
    }
  }

  /** Steps 4 and 5 of processBuildDay over a blob whose kernels stay in
      its body: int(rowCount) rows split into chunks, and their records in
      chunk order. */
  method RunChunks(blob: seq<byte>, pxBits: u64 -> u64, sigBits: seq<Trade> -> u64) returns (outBuf: seq<byte>)
    requires |blob| >= HeaderSize && KernelsFit(blob)
    ensures outBuf == DayFeatures(blob, pxBits, sigBits)
  {
    var rowCount := GetU64(blob, 8);
    var body := blob[HeaderSize..];
    var results := RunKernels(body, ToI64(rowCount), pxBits, sigBits);
    outBuf := MergeResults(results[..]);
    ImageOfConcat(ChunkOutputs(body, ToI64(rowCount), pxBits, sigBits), results[..]);
  }

  /** processBuildDay: the day's outcome; the feature file it writes is the
      Done outcome's features. */
  method ProcessBuildDay(idx: Opened, data: Opened, day: int, inflate: seq<byte> -> Inflation,
                         pxBits: u64 -> u64, sigBits: seq<Trade> -> u64) returns (r: BuildResult)
    ensures r == BuildDaySpec(idx, data, day, inflate, pxBits, sigBits)
  {
    var offset, length := FindBlob(idx, day);
    if length == 0 {
      return NoDay;
    }
    if data.OpenFailed? {
      return ErrIo;
    }
    var f := new File(data.contents);
    var _ := f.Seek(ToI64(offset));
    var comp := new byte[length](_ => 0);
    assert comp[..] == Zeros(length);
    var _, _ := f.Read(comp);
    match inflate(comp[..]) {
      case NotZlib =>
        return ErrZlib;
      case Inflated(blob, _) =>
        if |blob| < HeaderSize {
          return ErrHdr;
        }
        var rowCount := GetU64(blob, 8);
        if !SizeOkAsWritten(|blob| - HeaderSize, rowCount) {
          return ErrSize;
        }
        // int(rowCount) rows past the body's: the kernel of the chunk
        // holding row RowsIn(body) indexes past the body and the runtime
        // panics.
        var total := ToI64(rowCount);
        if 0 <= total && total > RowsIn(blob[HeaderSize..]) {
          return Crashed;
        }
        var features := RunChunks(blob, pxBits, sigBits);
        return Done(rowCount, features);
    }
  }
}
