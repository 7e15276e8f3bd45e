/**
 * ofi.go: the order-flow-imbalance study. Its integer skeleton is modelled
 * here: the index lookup of a day's blob (findBlobOFI), the two-cursor
 * execution-lag index (buildEntryIndex), the horizon returns
 * (buildHorizonData), the median inter-trade time (medianDeltaMs) and the
 * per-tick state of a variant (ofiState: the reset counter and the rolling
 * z-score ring). Prices are reals; the EMA formulas of the variant kinds
 * and the square root are passed in.
 */
module Ofi {
  import opened Bytes
  import opened Layout
  import opened GoIo
  import Data
  import Build
  import Sorting
  import Text

  // ---------------------------------------------------------------------
  // findBlobOFI
  // ---------------------------------------------------------------------

  /** The row loop of findBlobOFI: full 26-byte reads; any failed read
      gives (0, 0); the first row whose u16 at 0 is the day gives its
      offset and length. */
  function FindRowsOfi(file: seq<byte>, pos: nat, row: seq<byte>, i: nat, count: nat, day: int): (u64, u64)
    requires |row| == IdxRowSize
    decreases count - i
  {
    if i >= count then (0, 0)
    else
      var r := FullRead(file, pos, row);
      if r.err != NoErr then (0, 0)
      else if GetU16(r.buf, 0) == day then (GetU64(r.buf, 2), GetU64(r.buf, 10))
      else FindRowsOfi(file, r.pos, r.buf, i + 1, count, day)
  }

  /** findBlobOFI on the index file: unlike findBlob it fails on a short
      header and on a magic other than "QIDX". */
  function FindBlobOfiSpec(idx: Opened, day: int): (u64, u64)
  {
    match idx
    case OpenFailed => (0, 0)
    case Opened(c) =>
      var h := FullRead(c, 0, Zeros(IdxHeaderSize));
      if h.err != NoErr || h.buf[..4] != IdxMagic then (0, 0)
      else FindRowsOfi(c, h.pos, Zeros(IdxRowSize), 0, GetU64(h.buf, 8), day)
  }

  lemma {:induction false} FindRowsOfiShaped(idx: seq<byte>, rows: seq<IndexEntry>, row: seq<byte>, i: nat, day: int)
    requires Build.EntriesOf(idx, rows) && i <= |rows| && |row| == IdxRowSize
    ensures FindRowsOfi(idx, IdxHeaderSize + IdxRowSize * i, row, i, |rows|, day) == Build.FirstMatch(rows, i, day)
    decreases |rows| - i
  {
    if i < |rows| {
      var pos := IdxHeaderSize + IdxRowSize * i;
      Data.ReadRow(idx, row, i);
      FullReadIsFileRead(idx, pos, row);
      assert Data.IndexRow(idx, i) == rows[i];
      FindRowsOfiShaped(idx, rows, FileRead(idx, pos, row).buf, i + 1, day);
    }
  }

  /** On a well-formed index findBlobOFI is the first row with the day,
      like findBlob; a file too short for the header or with another magic
      gives (0, 0). */
  lemma FindBlobOfiCases(idx: seq<byte>, day: int)
    ensures Data.WellFormedIndex(idx) ==>
      FindBlobOfiSpec(Opened(idx), day) == Build.FirstMatch(Build.Entries(idx, Data.IndexCount(idx)), 0, day)
    ensures |idx| < IdxHeaderSize ==> FindBlobOfiSpec(Opened(idx), day) == (0, 0)
    ensures |idx| >= IdxHeaderSize && idx[..4] != IdxMagic ==> FindBlobOfiSpec(Opened(idx), day) == (0, 0)
  {
    var h := FullRead(idx, 0, Zeros(IdxHeaderSize));
    if |idx| >= IdxHeaderSize {
      assert h.buf == idx[..IdxHeaderSize] && h.pos == IdxHeaderSize;
      assert h.buf[..4] == idx[..4];
    }
    if Data.WellFormedIndex(idx) {
      var rows := Build.Entries(idx, Data.IndexCount(idx));
      forall j | 0 <= j < |rows|
        ensures IdxHeaderSize + IdxRowSize * (j + 1) <= |idx| && Data.IndexRow(idx, j) == rows[j]
      {
        Data.MulMono(IdxRowSize, j + 1, |rows|);
      }
      assert GetU64(h.buf, 8) == Data.IndexCount(idx) by {
        assert h.buf[8..16] == idx[8..16];
      }
      FindRowsOfiShaped(idx, rows, Zeros(IdxRowSize), 0, day);
    }
  }

  /** findBlobOFI: the header read and check, then up to count row reads. */
  method FindBlobOfi(idx: Opened, day: int) returns (offset: u64, length: u64)
    ensures (offset, length) == FindBlobOfiSpec(idx, day)
  {
    if idx.OpenFailed? {
      return 0, 0;
    }
    var f := new File(idx.contents);
    var hdr := new byte[IdxHeaderSize](_ => 0);
    assert hdr[..] == Zeros(IdxHeaderSize);
    var err := f.ReadFull(hdr);
    if err != NoErr {
      return 0, 0;
    }
    if hdr[..4] != IdxMagic {
      return 0, 0;
    }
    var count := GetU64(hdr[..], 8);
    var row := new byte[IdxRowSize](_ => 0);
    assert row[..] == Zeros(IdxRowSize);
    var i := 0;
    while i < count
      invariant 0 <= i <= count && row.Length == IdxRowSize
      invariant FindBlobOfiSpec(idx, day) == FindRowsOfi(idx.contents, f.pos, row[..], i, count, day)
      decreases count - i
    {
      err := f.ReadFull(row);
      if err != NoErr {
        return 0, 0;
      }
      if GetU16(row[..], 0) == day {
        return GetU64(row[..], 2), GetU64(row[..], 10);
      }
      i := i + 1;
    }
    return 0, 0;
  }

  // ---------------------------------------------------------------------
  // buildEntryIndex
  // ---------------------------------------------------------------------

  /** The entry target of tick i: ts[i] + lagMS in int64 arithmetic. */
  function Target(ts: seq<i64>, lag: i64, i: nat): i64
    requires i < |ts|
  {
    WrapI64(ts[i] as int + lag as int)
  }

  /** The first index from j on whose timestamp reaches t, or |ts|. */
  function First(ts: seq<i64>, j: nat, t: int): (r: nat)
    requires j <= |ts|
    ensures j <= r <= |ts|
    ensures r < |ts| ==> ts[r] >= t
    ensures forall k :: j <= k < r ==> ts[k] < t
    decreases |ts| - j
  {
    if j == |ts| then j
    else if ts[j] >= t then j
    else First(ts, j + 1, t)
  }

  /** The entry of tick i: the least j >= i whose timestamp reaches the
      target, or -1 when none does. */
  function EntryOf(ts: seq<i64>, lag: i64, i: nat): int
    requires i < |ts|
  {
    var r := First(ts, i, Target(ts, lag, i));
    if r == |ts| then -1 else r
  }

  /** The targets never decrease along the series. */
  ghost predicate TargetsRise(ts: seq<i64>, lag: i64)
  {
    forall i, k :: 0 <= i <= k < |ts| ==> Target(ts, lag, i) <= Target(ts, lag, k)
  }

  /** Sorted timestamps whose targets do not overflow have rising targets. */
  lemma SortedTargetsRise(ts: seq<i64>, lag: i64)
    requires forall i, k :: 0 <= i <= k < |ts| ==> ts[i] <= ts[k]
    requires forall i :: 0 <= i < |ts| ==> -I64_LIMIT <= ts[i] as int + lag as int < I64_LIMIT
    ensures TargetsRise(ts, lag)
  {
    forall i, k | 0 <= i <= k < |ts|
      ensures Target(ts, lag, i) <= Target(ts, lag, k)
    {
      I64RoundTrip(ts[i] as int + lag as int, 0);
      I64RoundTrip(ts[k] as int + lag as int, 0);
    }
  }

  /** Skipping timestamps below t does not change the first one to reach t. */
  lemma {:induction false} FirstSkip(ts: seq<i64>, a: nat, b: nat, t: int)
    requires a <= b <= |ts|
    requires forall k :: a <= k < b ==> ts[k] < t
    ensures First(ts, a, t) == First(ts, b, t)
    decreases b - a
  {
    if a < b {
      FirstSkip(ts, a + 1, b, t);
    }
  }

  /** The carried cursor: a scan for t2 that starts at b, or further on
      where an earlier scan for t1 <= t2 from a <= b stopped, finds the
      same index as a scan from b. */
  lemma CarriedCursor(ts: seq<i64>, a: nat, b: nat, t1: int, t2: int)
    requires a <= b <= |ts| && t1 <= t2
    ensures First(ts, Max(First(ts, a, t1), b), t2) == First(ts, b, t2)
  {
    var p := First(ts, a, t1);
    if p > b {
      FirstSkip(ts, b, p, t2);
    }
  }

  /** The inner loop of buildEntryIndex: moves j past the timestamps
      below the target. */
  method Advance(ts: seq<i64>, j0: nat, target: int) returns (j: nat)
    requires j0 <= |ts|
    ensures j == First(ts, j0, target)
  {
    j := j0;
    while j < |ts| && ts[j] < target
      invariant j0 <= j <= |ts|
      invariant First(ts, j0, target) == First(ts, j, target)
    {
      j := j + 1;
    }
  }

  /** Every entry filled so far is -1 or a tick at or after its own whose
      timestamp reaches its target. */
  ghost predicate EntriesReach(ts: seq<i64>, lag: i64, s: seq<int>)
  {
    |s| <= |ts| &&
    forall k :: 0 <= k < |s| ==> s[k] == -1 || (k <= s[k] < |ts| && ts[s[k]] >= Target(ts, lag, k))
  }

  /** Once an entry is -1 the cursor is at the end and all later entries
      are -1. */
  ghost predicate MissingSticks(ts: seq<i64>, s: seq<int>, j: nat)
  {
    j <= |ts|
    && (forall k, l :: 0 <= k <= l < |s| && s[k] == -1 ==> s[l] == -1)
    && (forall k :: 0 <= k < |s| && s[k] == -1 ==> j == |ts|)
  }

  /** With rising targets the entries so far are the least ones, and the
      cursor is the last tick's entry. */
  ghost predicate EntriesLeast(ts: seq<i64>, lag: i64, s: seq<int>, j: nat)
  {
    |s| <= |ts| && j <= |ts| &&
    (TargetsRise(ts, lag) ==>
      (forall k :: 0 <= k < |s| ==> s[k] == EntryOf(ts, lag, k)) &&
      (|s| > 0 ==> j == First(ts, |s| - 1, Target(ts, lag, |s| - 1))))
  }

  lemma ReachStep(ts: seq<i64>, lag: i64, s: seq<int>, j: nat, j2: nat)
    requires EntriesReach(ts, lag, s) && |s| < |ts| && j <= |ts|
    requires j2 == First(ts, Max(j, |s|), Target(ts, lag, |s|))
    ensures EntriesReach(ts, lag, s + [if j2 == |ts| then -1 else j2])
  {
  }

  lemma SticksStep(ts: seq<i64>, lag: i64, s: seq<int>, j: nat, j2: nat)
    requires MissingSticks(ts, s, j) && |s| < |ts|
    requires j2 == First(ts, Max(j, |s|), Target(ts, lag, |s|))
    ensures MissingSticks(ts, s + [if j2 == |ts| then -1 else j2], j2)
  {
    var s2 := s + [if j2 == |ts| then -1 else j2];
    forall k, l | 0 <= k <= l < |s2| && s2[k] == -1
      ensures s2[l] == -1
    {
      if l == |s| && k < |s| {
        assert j == |ts|;
      }
    }
  }

  lemma LeastStep(ts: seq<i64>, lag: i64, s: seq<int>, j: nat, j2: nat)
    requires EntriesLeast(ts, lag, s, j) && |s| < |ts|
    requires |s| == 0 ==> j == 0
    requires j2 == First(ts, Max(j, |s|), Target(ts, lag, |s|))
    ensures EntriesLeast(ts, lag, s + [if j2 == |ts| then -1 else j2], j2)
  {
    var i := |s|;
    if TargetsRise(ts, lag) {
      if i > 0 {
        assert Target(ts, lag, i - 1) <= Target(ts, lag, i);
        CarriedCursor(ts, i - 1, i, Target(ts, lag, i - 1), Target(ts, lag, i));
      }
      var s2 := s + [if j2 == |ts| then -1 else j2];
      assert s2[i] == EntryOf(ts, lag, i);
    }
  }

  /** buildEntryIndex: one forward pass with a cursor j that never moves
      back. Every entry is -1 or a later tick reaching the target; once an
      entry is -1 all later ones are; with rising targets each entry is the
      least such tick. */
  method BuildEntryIndex(ts: seq<i64>, lag: i64) returns (idx: seq<int>)
    ensures |idx| == |ts|
    ensures forall i :: 0 <= i < |ts| ==>
      idx[i] == -1 || (i <= idx[i] < |ts| && ts[idx[i]] >= Target(ts, lag, i))
    ensures forall i, k :: 0 <= i <= k < |ts| && idx[i] == -1 ==> idx[k] == -1
    ensures TargetsRise(ts, lag) ==> forall i :: 0 <= i < |ts| ==> idx[i] == EntryOf(ts, lag, i)
  {
    var n := |ts|;
    var j: nat := 0;
    idx := [];
    for i := 0 to n
      invariant |idx| == i && (i == 0 ==> j == 0)
      invariant EntriesReach(ts, lag, idx)
      invariant MissingSticks(ts, idx, j)
      invariant EntriesLeast(ts, lag, idx, j)
    {
      var target := Target(ts, lag, i);
      ghost var jOld := j;
      if j < i {
        j := i;
      }
      j := Advance(ts, j, target);
      ReachStep(ts, lag, idx, jOld, j);
      SticksStep(ts, lag, idx, jOld, j);
      LeastStep(ts, lag, idx, jOld, j);
      idx := idx + [if j == n then -1 else j];
    }
  }

  // ---------------------------------------------------------------------
  // buildHorizonData
  // ---------------------------------------------------------------------

  /** Tick i has a horizon return: past the warm-up, with an entry whose
      exit tick lies inside the series and whose entry price is positive. */
  predicate HorizonValid(px: seq<real>, entryIdx: seq<int>, horizon: int, warmup: int, i: nat)
    requires i < |px| <= |entryIdx| && horizon >= 0
  {
    i >= warmup && entryIdx[i] >= 0 && entryIdx[i] + horizon < |px| && px[entryIdx[i]] > 0.0
  }

  /** buildHorizonData: valid[i] marks the ticks with a return, ret[i] is
      that return, and every other position keeps 0. */
  method BuildHorizonData(px: seq<real>, entryIdx: seq<int>, horizon: int, warmup: int)
    returns (ret: seq<real>, valid: seq<bool>)
    requires warmup < |px| ==> 0 <= warmup && |px| <= |entryIdx|
    requires horizon >= 0
    ensures |ret| == |valid| == |px|
    ensures forall i :: 0 <= i < |px| ==>
      (valid[i] <==> (|px| <= |entryIdx| && HorizonValid(px, entryIdx, horizon, warmup, i)))
    ensures forall i :: 0 <= i < |px| && valid[i] ==>
      0 <= entryIdx[i] && entryIdx[i] + horizon < |px| && px[entryIdx[i]] > 0.0 &&
      ret[i] == (px[entryIdx[i] + horizon] - px[entryIdx[i]]) / px[entryIdx[i]]
    ensures forall i :: 0 <= i < |px| && !valid[i] ==> ret[i] == 0.0
  {
    var n := |px|;
    var r := new real[n](_ => 0.0);
    var v := new bool[n](_ => false);
    var i := warmup;
    if i < n {
      while i < n
        invariant warmup <= i <= n
        invariant forall k :: 0 <= k < n ==>
          (v[k] <==> (k < i && HorizonValid(px, entryIdx, horizon, warmup, k)))
        invariant forall k :: 0 <= k < n && v[k] ==>
          r[k] == (px[entryIdx[k] + horizon] - px[entryIdx[k]]) / px[entryIdx[k]]
        invariant forall k :: 0 <= k < n && !v[k] ==> r[k] == 0.0
      {
        var e := entryIdx[i];
        if e < 0 || e + horizon >= n {
          i := i + 1;
          continue;
        }
        var pEntry := px[e];
        var pExit := px[e + horizon];
        if pEntry <= 0.0 {
          i := i + 1;
          continue;
        }
        r[i] := (pExit - pEntry) / pEntry;
        v[i] := true;
        i := i + 1;
      }
    }
    ret, valid := r[..], v[..];
  }

  // ---------------------------------------------------------------------
  // medianDeltaMs
  // ---------------------------------------------------------------------

  /** Gap i (1 <= i < |ts|) in milliseconds, in int64 arithmetic, raised
      to 1 when it is not positive. */
  function Delta(ts: seq<i64>, i: nat): (d: i64)
    requires 1 <= i < |ts|
    ensures d >= 1
  {
    var dt := WrapI64(ts[i] as int - ts[i - 1] as int);
    if dt <= 0 then 1 else dt
  }

  /** The first k gaps. */
  function Deltas(ts: seq<i64>, k: nat): (ds: seq<int>)
    requires k < |ts|
    ensures |ds| == k
    ensures forall i :: 0 <= i < k ==> ds[i] == Delta(ts, i + 1)
  {
    if k == 0 then [] else Deltas(ts, k - 1) + [Delta(ts, k)]
  }

  /** The comparison sort.Slice is given: delta[i] < delta[j]. */
  function IntLe(): (int, int) -> bool
  {
    (a: int, b: int) => a <= b
  }

  /** The gaps in increasing order. */
  function SortedDeltas(ts: seq<i64>): (ds: seq<int>)
    requires |ts| >= 2
    ensures |ds| == |ts| - 1 && multiset(ds) == multiset(Deltas(ts, |ts| - 1))
    ensures forall i, j :: 0 <= i < j < |ds| ==> ds[i] <= ds[j]
  {
    Sorting.IntLeIsTotalPreorder();
    var ds := Sorting.SortBy(Deltas(ts, |ts| - 1), IntLe());
    assert Sorting.SortedBy(ds, IntLe());
    ds
  }

  /** The selection medianDeltaMs makes from the sorted gaps, as written:
      with m = n - 1 gaps it sets mid = m / 2 and averages delta[mid] and
      delta[mid + 1] when m is odd, else takes delta[mid]. The sum is an
      int64 sum. None is the index-out-of-range panic (m == 1). */
  function MedianAsWritten(d: seq<int>): Text.Option<real>
    requires |d| >= 1
  {
    var mid := |d| / 2;
    if |d| % 2 == 1 then
      if mid + 1 < |d| then Text.Some(WrapI64(d[mid] + d[mid + 1]) as real * 0.5) else Text.None
    else Text.Some(d[mid] as real)
  }

  /** The median of a non-empty sorted sequence: the middle element, or
      the mean of the two middle ones. */
  function Median(d: seq<int>): (r: real)
    requires |d| >= 1
    requires forall i, j :: 0 <= i < j < |d| ==> d[i] <= d[j]
    ensures forall k :: 0 <= k < (|d| + 1) / 2 ==> d[k] as real <= r
    ensures forall k :: |d| / 2 <= k < |d| ==> r <= d[k] as real
  {
    var mid := |d| / 2;
    if |d| % 2 == 1 then d[mid] as real
    else (d[mid - 1] + d[mid]) as real / 2.0
  }

  /** The median as written is not the median: with two timestamps it
      indexes past the single gap, and with gaps [1, 1, 8] it returns 4.5,
      above two of the three gaps. */
  lemma MedianParityInverted()
    ensures MedianAsWritten([5]) == Text.None
    ensures MedianAsWritten([1, 1, 8]) == Text.Some(4.5)
    ensures Median([1, 1, 8]) == 1.0
  {
    assert WrapI64(1 + 8) == 9;
  }

  /** medianDeltaMs with the intended selection: 0 for fewer than two
      timestamps, else the median of the clamped gaps. */
  method MedianDeltaMs(ts: seq<i64>) returns (r: real)
    ensures |ts| < 2 ==> r == 0.0
    ensures |ts| >= 2 ==> r == Median(SortedDeltas(ts))
  {
    var n := |ts|;
    if n < 2 {
      return 0.0;
    }
    var delta: seq<int> := [];
    for i := 1 to n
      invariant delta == Deltas(ts, i - 1)
    {
      var dt := WrapI64(ts[i] as int - ts[i - 1] as int);
      if dt <= 0 {
        dt := 1;
      }
      delta := delta + [dt];
    }
    Sorting.IntLeIsTotalPreorder();
    var sorted := Sorting.SortBy(delta, IntLe());
    r := Median(sorted);
  }

  /** The median lies between the smallest and the largest clamped gap,
      so it is at least 1 ms. */
  lemma MedianBetween(ts: seq<i64>)
    requires |ts| >= 2
    ensures exists k :: 1 <= k < |ts| && Delta(ts, k) as real <= Median(SortedDeltas(ts))
    ensures exists k :: 1 <= k < |ts| && Median(SortedDeltas(ts)) <= Delta(ts, k) as real
    ensures Median(SortedDeltas(ts)) >= 1.0
  {
    var d := SortedDeltas(ts);
    var ds := Deltas(ts, |ts| - 1);
    var m := Median(d);
    assert d[0] as real <= m;
    assert m <= d[|d| - 1] as real;
    assert d[0] in multiset(ds);
    var a :| 0 <= a < |ds| && ds[a] == d[0];
    assert Delta(ts, a + 1) as real <= m;
    assert d[|d| - 1] in multiset(ds);
    var b :| 0 <= b < |ds| && ds[b] == d[|d| - 1];
    assert m <= Delta(ts, b + 1) as real;
  }

  // ---------------------------------------------------------------------
  // ofiState: the reset counter and the rolling z-score
  // ---------------------------------------------------------------------

  function Sum(s: seq<real>): real
  {
    if s == [] then 0.0 else Sum(s[..|s| - 1]) + s[|s| - 1]
  }

  function SumSq(s: seq<real>): real
  {
    if s == [] then 0.0 else SumSq(s[..|s| - 1]) + s[|s| - 1] * s[|s| - 1]
  }

  /** Dropping the first element takes it off both sums. */
  lemma {:induction false} SumDropFirst(s: seq<real>)
    requires s != []
    ensures Sum(s) == s[0] + Sum(s[1..])
    ensures SumSq(s) == s[0] * s[0] + SumSq(s[1..])
  {
    if |s| > 1 {
      SumDropFirst(s[..|s| - 1]);
      assert s[..|s| - 1][1..] == s[1..][..|s[1..]| - 1];
    }
  }

  function RealZeros(k: nat): (s: seq<real>)
    ensures |s| == k && forall i :: 0 <= i < k ==> s[i] == 0.0
  {
    if k == 0 then [] else RealZeros(k - 1) + [0.0]
  }

  /** The last min(|inputs|, w) inputs: the values the z-score window
      holds. */
  function Window(inputs: seq<real>, w: nat): (win: seq<real>)
    ensures |win| == Min(|inputs|, w)
  {
    inputs[|inputs| - Min(|inputs|, w)..]
  }

  /** The window after one more input: it grows until it holds w values,
      then drops its oldest. */
  lemma WindowNext(inputs: seq<real>, w: nat, v: real)
    requires w > 0
    ensures |inputs| < w ==> Window(inputs + [v], w) == inputs + [v]
    ensures |inputs| >= w ==> Window(inputs + [v], w) == Window(inputs, w)[1..] + [v]
  {
  }

  /** The running sums updateZScore keeps: each input is added, and once
      w inputs are in, the one w places back is taken off again. */
  function WindowSum(inputs: seq<real>, w: nat): real
  {
    if inputs == [] then 0.0
    else
      var k := |inputs| - 1;
      WindowSum(inputs[..k], w) + inputs[k] - (if k >= w then inputs[k - w] else 0.0)
  }

  function WindowSumSq(inputs: seq<real>, w: nat): real
  {
    if inputs == [] then 0.0
    else
      var k := |inputs| - 1;
      WindowSumSq(inputs[..k], w) + inputs[k] * inputs[k] - (if k >= w then inputs[k - w] * inputs[k - w] else 0.0)
  }

  /** The running sums are the sums of the window, whatever the order in
      which the ring stores it. */
  lemma {:induction false} WindowSumIs(inputs: seq<real>, w: nat)
    requires w > 0
    ensures WindowSum(inputs, w) == Sum(Window(inputs, w))
    ensures WindowSumSq(inputs, w) == SumSq(Window(inputs, w))
  {
    if inputs != [] {
      var k := |inputs| - 1;
      var s, v := inputs[..k], inputs[k];
      assert inputs == s + [v];
      WindowSumIs(s, w);
      if k < w {
        SumsFill(s, w, v);
      } else {
        SumsFull(s, w, v);
        assert Window(s, w)[0] == s[k - w];
      }
    }
  }

  /** The z-score of value against the mean and population variance of
      the window; 0 while the window holds fewer than two values or its
      variance is not positive. */
  function ZScore(value: real, win: seq<real>, sqrt: real -> real): real
    requires forall x :: x > 0.0 ==> sqrt(x) > 0.0
  {
    ZFromSums(value, |win|, Sum(win), SumSq(win), sqrt)
  }

  /** The tail of updateZScore, from the count and the running sums. */
  function ZFromSums(value: real, count: int, sum: real, sumSq: real, sqrt: real -> real): real
    requires forall x :: x > 0.0 ==> sqrt(x) > 0.0
  {
    if count < 2 then 0.0
    else
      var mean := sum / count as real;
      var variance := sumSq / count as real - mean * mean;
      if variance <= 0.0 then 0.0 else (value - mean) / sqrt(variance)
  }

  lemma ModNext(x: int, w: int)
    requires w > 0
    ensures (x + 1) % w == if x % w + 1 == w then 0 else x % w + 1
  {
    if x % w + 1 == w {
      DivModUnique(x + 1, w, x / w + 1, 0);
    } else {
      DivModUnique(x + 1, w, x / w, x % w + 1);
    }
  }

  /** The z-score ring after the inputs, with head the next slot to write.
      The inputs since head last wrapped to 0 sit in slots 0 .. head-1 in
      order; the slots from head on hold the inputs of the lap before, or
      0 while the ring has not yet been round once. */
  ghost predicate RingSlots(w: int, inputs: seq<real>, buf: seq<real>, head: int)
  {
    w > 0 && |buf| == w && 0 <= head < w
    && (|inputs| < w ==> head == |inputs|)
    && (|inputs| >= w ==> |inputs| - head >= w)
    && (forall k :: 0 <= k < head ==> buf[k] == inputs[|inputs| - head + k])
    && (forall k :: head <= k < w ==>
          buf[k] == if |inputs| >= w then inputs[|inputs| - head - w + k] else 0.0)
  }

  /** Writing the next input at the head and moving the head on keeps the
      ring. */
  lemma SlotsStep(w: int, inputs: seq<real>, buf: seq<real>, head: int, v: real)
    requires RingSlots(w, inputs, buf, head)
    ensures RingSlots(w, inputs + [v], buf[head := v], if head + 1 == w then 0 else head + 1)
  {
    var n, b2 := |inputs| + 1, buf[head := v];
    var ins := inputs + [v];
    assert ins[n - 1] == v;
    if head + 1 < w {
      forall k | 0 <= k < head + 1
        ensures b2[k] == ins[n - (head + 1) + k]
      {
      }
    } else {
      forall k | 0 <= k < w
        ensures b2[k] == ins[n - w + k]
      {
      }
    }
  }

  /** Once the ring has been round, the head slot holds the oldest input
      of the window. */
  lemma OldestAtHead(w: int, inputs: seq<real>, buf: seq<real>, head: int)
    requires RingSlots(w, inputs, buf, head) && |inputs| >= w
    ensures buf[head] == Window(inputs, w)[0]
  {
  }

  /** The ring as the source describes it: slot p mod w holds input p
      for each of the last w inputs, and head is the number of inputs
      mod w. */
  lemma RingSlotsModular(w: int, inputs: seq<real>, buf: seq<real>, head: int, p: int)
    requires RingSlots(w, inputs, buf, head) && head == |inputs| % w
    requires 0 <= p < |inputs| && |inputs| - w <= p
    ensures buf[p % w] == inputs[p]
  {
    var q := |inputs| / w;
    var base := |inputs| - head;
    assert base == w * q;
    if p >= base {
      DivModUnique(p, w, q, p - base);
    } else {
      DivModUnique(p, w, q - 1, p - base + w);
    }
  }

  /** The whole z-score state after the inputs: the ring, the next slot,
      the window size and the running sums of the window. */
  ghost predicate RingState(w: int, inputs: seq<real>, buf: seq<real>, head: int, count: int, sum: real, sumSq: real)
  {
    w > 0 && head == |inputs| % w && count == Min(|inputs|, w)
    && RingSlots(w, inputs, buf, head)
    && sum == WindowSum(inputs, w) && sumSq == WindowSumSq(inputs, w)
  }

  lemma RingStart(w: int)
    requires w > 0
    ensures RingState(w, [], RealZeros(w), 0, 0, 0.0, 0.0)
  {
  }

  lemma SumSnoc(s: seq<real>, v: real)
    ensures Sum(s + [v]) == Sum(s) + v && SumSq(s + [v]) == SumSq(s) + v * v
  {
    assert (s + [v])[..|s|] == s;
  }

  /** Dropping the first value and appending v. */
  lemma SumShift(s: seq<real>, v: real)
    requires s != []
    ensures Sum(s[1..] + [v]) == Sum(s) + (v - s[0])
    ensures SumSq(s[1..] + [v]) == SumSq(s) + (v * v - s[0] * s[0])
  {
    SumDropFirst(s);
    SumSnoc(s[1..], v);
  }

  /** The window sums after one more input while the window fills. */
  lemma SumsFill(inputs: seq<real>, w: int, v: real)
    requires 0 <= |inputs| < w
    ensures Sum(Window(inputs + [v], w)) == Sum(Window(inputs, w)) + v
    ensures SumSq(Window(inputs + [v], w)) == SumSq(Window(inputs, w)) + v * v
  {
    WindowNext(inputs, w, v);
    assert Window(inputs, w) == inputs;
    SumSnoc(inputs, v);
  }

  /** The window sums after one more input into a full window. */
  lemma SumsFull(inputs: seq<real>, w: int, v: real)
    requires 0 < w <= |inputs|
    ensures Sum(Window(inputs + [v], w)) == Sum(Window(inputs, w)) + (v - Window(inputs, w)[0])
    ensures SumSq(Window(inputs + [v], w)) ==
      SumSq(Window(inputs, w)) + (v * v - Window(inputs, w)[0] * Window(inputs, w)[0])
  {
    WindowNext(inputs, w, v);
    SumShift(Window(inputs, w), v);
  }

  /** A value pushed into the ring: it is written at the head, which
      moves on; while the window fills it is added to the sums, and once
      the window is full it replaces the oldest value there. */
  lemma RingPush(w: int, inputs: seq<real>, buf: seq<real>, head: int, count: int, sum: real, sumSq: real, v: real,
                 buf2: seq<real>, head2: int, count2: int, sum2: real, sumSq2: real)
    requires RingState(w, inputs, buf, head, count, sum, sumSq) && 0 <= head < |buf|
    requires buf2 == buf[head := v] && head2 == (if head + 1 == w then 0 else head + 1)
    requires count < w ==> count2 == count + 1 && sum2 == sum + v && sumSq2 == sumSq + v * v
    requires count >= w ==>
      count2 == count && sum2 == sum + (v - buf[head]) && sumSq2 == sumSq + (v * v - buf[head] * buf[head])
    ensures RingState(w, inputs + [v], buf2, head2, count2, sum2, sumSq2)
    ensures RingOkOf(w, inputs + [v], buf2, head2, count2, sum2, sumSq2)
    ensures |buf2| == w && 0 < count2 <= w
  {
    SlotsStep(w, inputs, buf, head, v);
    ModNext(|inputs|, w);
    assert (inputs + [v])[..|inputs|] == inputs;
  }

  /** The head is a slot of the ring. */
  lemma HeadInRing(w: int, inputs: seq<real>, buf: seq<real>, head: int, count: int, sum: real, sumSq: real)
    requires RingState(w, inputs, buf, head, count, sum, sumSq)
    ensures 0 <= head < |buf| == w && 0 <= count <= w
  {
  }

  /** The z-score state of a variant with window w after the inputs: no
      window takes no inputs; the buffer is made on the first push. */
  ghost predicate RingOkOf(w: int, inputs: seq<real>, buf: seq<real>, head: int, count: int, sum: real, sumSq: real)
  {
    (w <= 0 ==> inputs == [])
    && (w > 0 && buf == [] ==> inputs == [] && head == 0 && count == 0 && sum == 0.0 && sumSq == 0.0)
    && (w > 0 && buf != [] ==> RingState(w, inputs, buf, head, count, sum, sumSq))
  }

  /** A variant's per-tick state: the OFI value, the trade counter for
      ResetEvery and the rolling z-score window. */
  class OfiState {
    const zWindow: int
    const resetEvery: int
    var ofi: real
    var tradeCount: int
    var zBuf: seq<real>
    var zHead: int
    var zCount: int
    var zSum: real
    var zSumSq: real
    /** The values handed to the z-score so far, and the Update calls. */
    ghost var inputs: seq<real>
    ghost var calls: nat

    /** The trade counter is the number of calls since the last reset. */
    ghost predicate CounterOk()
      reads this
    {
      (resetEvery > 0 ==> tradeCount == calls % resetEvery)
      && (resetEvery <= 0 ==> tradeCount == calls)
    }

    /** The ring holds the last min(|inputs|, zWindow) inputs, the head is
        the next slot, and the running sums are those of the window. */
    ghost predicate RingOk()
      reads this
    {
      RingOkOf(zWindow, inputs, zBuf, zHead, zCount, zSum, zSumSq)
    }

    ghost predicate Valid()
      reads this
    {
      CounterOk() && RingOk()
    }

    /** newOFIState: every field at its zero value. */
    constructor (zWindow: int, resetEvery: int)
      ensures Valid() && this.zWindow == zWindow && this.resetEvery == resetEvery
      ensures ofi == 0.0 && tradeCount == 0 && inputs == [] && calls == 0
    {
      this.zWindow, this.resetEvery := zWindow, resetEvery;
      ofi, tradeCount := 0.0, 0;
      zBuf, zHead, zCount, zSum, zSumSq := [], 0, 0, 0.0, 0.0;
      inputs, calls := [], 0;
    }

    /** The ring half of updateZScore: the value goes into the head slot,
        replacing the oldest once the window is full, and the running sums
        follow. */
    method Push(value: real)
      requires RingOk() && zWindow > 0
      modifies this
      ensures RingOk() && inputs == old(inputs) + [value]
      ensures zBuf != [] && 0 < zCount <= zWindow
      ensures unchanged(this`ofi) && unchanged(this`tradeCount) && unchanged(this`calls)
    {
      var w := zWindow;
      Allocate();
      var buf, head, count, sum, sumSq := zBuf, zHead, zCount, zSum, zSumSq;
      HeadInRing(w, inputs, buf, head, count, sum, sumSq);
      if count < w {
        buf := buf[head := value];
        sum := sum + value;
        sumSq := sumSq + value * value;
        count := count + 1;
      } else {
        var oldest := buf[head];
        buf := buf[head := value];
        sum := sum + (value - oldest);
        sumSq := sumSq + (value * value - oldest * oldest);
      }
      head := if head + 1 == w then 0 else head + 1;
      RingPush(w, inputs, zBuf, zHead, zCount, zSum, zSumSq, value, buf, head, count, sum, sumSq);
      zBuf, zHead, zCount, zSum, zSumSq := buf, head, count, sum, sumSq;
      inputs := inputs + [value];
    }

    /** The buffer is made on the first push: w zero slots. */
    method Allocate()
      requires RingOk() && zWindow > 0
      modifies this
      ensures RingState(zWindow, inputs, zBuf, zHead, zCount, zSum, zSumSq)
      ensures unchanged(this`ofi, this`tradeCount, this`calls, this`inputs)
      ensures unchanged(this`zHead, this`zCount, this`zSum, this`zSumSq)
      ensures old(zBuf) != [] ==> zBuf == old(zBuf)
    {
      if |zBuf| == 0 {
        zBuf := RealZeros(zWindow);
        RingStart(zWindow);
      }
    }

    /** updateZScore: with no window the value passes through; otherwise
        the value enters the ring and the result is its z-score against
        the window, which now ends with it. */
    method UpdateZScore(value: real, sqrt: real -> real) returns (z: real)
      requires Valid() && forall x :: x > 0.0 ==> sqrt(x) > 0.0
      modifies this
      ensures Valid() && ofi == old(ofi) && tradeCount == old(tradeCount) && calls == old(calls)
      ensures zWindow <= 0 ==> z == value && inputs == old(inputs)
      ensures zWindow > 0 ==>
        inputs == old(inputs) + [value] && z == ZScore(value, Window(inputs, zWindow), sqrt)
    {
      if zWindow <= 0 {
        return value;
      }
      Push(value);
      WindowSumIs(inputs, zWindow);
      z := ZFromSums(value, zCount, zSum, zSumSq, sqrt);
    }

    /** Update: the variant's formula moves the OFI value on (ema), the
        trade counter resets it to 0 on every resetEvery-th call, and the
        value goes through the z-score when a window is configured. */
    method Update(ema: real -> real, sqrt: real -> real) returns (v: real)
      requires Valid() && forall x :: x > 0.0 ==> sqrt(x) > 0.0
      modifies this
      ensures Valid() && calls == old(calls) + 1
      ensures ofi == if resetEvery > 0 && calls % resetEvery == 0 then 0.0 else ema(old(ofi))
      ensures resetEvery > 0 ==> 0 <= tradeCount < resetEvery
      ensures zWindow <= 0 ==> v == ofi
      ensures zWindow > 0 ==> inputs == old(inputs) + [ofi] && v == ZScore(ofi, Window(inputs, zWindow), sqrt)
    {
      ofi := ema(ofi);
      tradeCount := tradeCount + 1;
      calls := calls + 1;
      if resetEvery > 0 {
        ModNext(calls - 1, resetEvery);
      }
      if resetEvery > 0 && tradeCount >= resetEvery {
        ofi := 0.0;
        tradeCount := 0;
      }
      v := ofi;
      if zWindow > 0 {
        v := UpdateZScore(v, sqrt);
      }
    }
  }
}
