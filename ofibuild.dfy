/**
 * ofibuild.go: the five-dimensional feature builder. Modelled here: the
 * information-time ring of Core (Update, buildSnaps and its fast and slow
 * windows), the adaptive trackers, Engine.Update and its five features
 * (f4_Coherence's sign-transition entropy with its clamp), the 40-byte
 * output rows of processBuildDay, the task and symbol discovery, and
 * loadRawBlob. math.Sqrt, math.Tanh and math.Log2 are parameters.
 */
module OfiBuild {
  import opened Bytes
  import opened GoIo
  import Layout
  import Data
  import Build
  import Text
  import OfiStudy

  const BuildMaxRows: nat := 10_000_000

  // ---------------------------------------------------------------------
  // Configuration
  // ---------------------------------------------------------------------

  datatype FiveDimConfig = FiveDimConfig(
    ringSize: int, lfast: real, lslow: real,
    varAlphaB: real, alphaAbs: real, varAlphaS: real, alphaE: real)

  datatype VariantDef = VariantDef(id: string, cfg: FiveDimConfig)

  const BaseCfg: FiveDimConfig := FiveDimConfig(20_000, 2.0, 300.0, 0.001, 0.01, 0.005, 0.001)

  /** The two variants runBuild builds: the base configuration, and the same
      with shorter information-time windows. */
  const Variants: seq<VariantDef> := [
    VariantDef("5D_Adaptive_Base", BaseCfg),
    VariantDef("5D_Adaptive_Fast", BaseCfg.(lfast := 0.5, lslow := 60.0))
  ]

  // ---------------------------------------------------------------------
  // The ring of Core
  // ---------------------------------------------------------------------

  /** A trade as the engine sees it: side +1 or -1, quantity, price, time. */
  datatype Trade = Trade(side: real, qty: real, price: real, ts: i64)

  /** A window of the backward scan: its oldest slot, its size, the summed
      info units, and the prices at its two ends. */
  datatype WindowSnap = WindowSnap(start: int, count: nat, b: real, priceFirst: real, priceLast: real)

  datatype SnapPair = SnapPair(fast: WindowSnap, slow: WindowSnap)

  const NoSnap: WindowSnap := WindowSnap(0, 0, 0.0, 0.0, 0.0)

  /** What one ring slot holds across the six arrays: the info unit u, the
      trade's side, quantity, price and time, and the cumulative info-time. */
  datatype Entry = Entry(u: real, side: real, qty: real, price: real, ts: i64, info: real)

  const Blank: Entry := Entry(0.0, 0.0, 0.0, 0.0, 0, 0.0)

  /** The entry pushed k trades before the newest, or a blank slot. */
  function Back(hist: seq<Entry>, k: nat): Entry
  {
    if k < |hist| then hist[|hist| - 1 - k] else Blank
  }

  /** The entry Update makes of a trade: u = side * sqrt(qty), and the info
      of the previous trade (0 for the first) plus |u|. */
  function Record(hist: seq<Entry>, tr: Trade, sqrt: real -> real): Entry
  {
    var u := tr.side * sqrt(tr.qty);
    Entry(u, tr.side, tr.qty, tr.price, tr.ts, Back(hist, 0).info + OfiStudy.Abs(u))
  }

  /** Each entry's info is the previous entry's info plus its |u|. */
  ghost predicate InfoChain(hist: seq<Entry>)
  {
    forall t {:trigger PrevInfo(hist, t)} :: 0 <= t < |hist| ==> hist[t].info == PrevInfo(hist, t) + OfiStudy.Abs(hist[t].u)
  }

  /** The info of the entry before t, or 0 for the first. */
  function PrevInfo(hist: seq<Entry>, t: nat): real
    requires t < |hist|
  {
    if t == 0 then 0.0 else hist[t - 1].info
  }

  lemma RecordChain(hist: seq<Entry>, tr: Trade, sqrt: real -> real)
    requires InfoChain(hist)
    ensures InfoChain(hist + [Record(hist, tr, sqrt)])
  {
    var h2 := hist + [Record(hist, tr, sqrt)];
    forall t | 0 <= t < |h2|
      ensures h2[t].info == PrevInfo(h2, t) + OfiStudy.Abs(h2[t].u)
    {
      if t < |hist| {
        assert PrevInfo(h2, t) == PrevInfo(hist, t);
      }
    }
  }

  /** Cumulative info-time never decreases along the trades. */
  lemma {:induction false} InfoGrows(hist: seq<Entry>, a: nat, b: nat)
    requires InfoChain(hist) && a <= b < |hist|
    ensures 0.0 <= hist[a].info <= hist[b].info
    decreases b
  {
    assert hist[b].info == PrevInfo(hist, b) + OfiStudy.Abs(hist[b].u);
    if a < b {
      InfoGrows(hist, a, b - 1);
    } else if b > 0 {
      InfoGrows(hist, b - 1, b - 1);
    }
  }

  /** The slot of the entry k back from the newest, when next is the slot
      the next trade goes to: (next - 1 - k) mod n. */
  function Slot(n: int, next: int, k: int): (s: int)
    requires 0 <= next < n && 0 <= k < n
    ensures 0 <= s < n
  {
    if next > k then next - 1 - k else next - 1 - k + n
  }

  /** The ring as the arrays hold it: the entry k back from the newest sits
      in slot (next - 1 - k) mod n, and a slot never written is blank. */
  ghost predicate RingHolds(cs: seq<Entry>, n: int, next: int, hist: seq<Entry>)
  {
    n > 0 && |cs| == n && 0 <= next < n
    && forall k :: 0 <= k < n ==> cs[Slot(n, next, k)] == Back(hist, k)
  }

  /** The next slot after idx mod n is (idx + 1) mod n. */
  lemma NextSlot(n: int, idx: nat)
    requires n > 0
    ensures (idx + 1) % n == if idx % n + 1 == n then 0 else idx % n + 1
  {
    var q, r := idx / n, idx % n;
    if r + 1 == n {
      DivModUnique(idx + 1, n, q + 1, 0);
    } else {
      DivModUnique(idx + 1, n, q, r + 1);
    }
  }

  /** Writing e at the next slot and moving on keeps the ring. */
  lemma RingPush(cs: seq<Entry>, n: int, next: int, hist: seq<Entry>, e: Entry)
    requires RingHolds(cs, n, next, hist)
    ensures RingHolds(cs[next := e], n, if next + 1 == n then 0 else next + 1, hist + [e])
  {
    var next2 := if next + 1 == n then 0 else next + 1;
    var h2 := hist + [e];
    forall k | 0 <= k < n
      ensures cs[next := e][Slot(n, next2, k)] == Back(h2, k)
    {
      if k > 0 {
        assert Slot(n, next2, k) == Slot(n, next, k - 1) != next;
        assert Back(h2, k) == Back(hist, k - 1);
      }
    }
  }

  /** The write of Update at slot idx mod n keeps the ring for idx + 1. */
  lemma PushKeeps(cs: seq<Entry>, n: int, idx: nat, hist: seq<Entry>, e: Entry)
    requires n > 0 && RingHolds(cs, n, idx % n, hist)
    ensures RingHolds(cs[idx % n := e], n, (idx + 1) % n, hist + [e])
  {
    RingPush(cs, n, idx % n, hist, e);
    NextSlot(n, idx);
  }

  /** (idx - 1) mod n, Go's lastPos, is the newest entry's slot; and the
      scan's (lastPos - k + n) mod n is the slot k back from it. */
  lemma ScanSlot(n: int, idx: nat, k: nat)
    requires n > 0 && idx > 0 && k < n
    ensures 0 <= (idx - 1) % n < n && (idx - 1) % n == Slot(n, idx % n, 0)
    ensures ((idx - 1) % n - k + n) % n == Slot(n, idx % n, k)
  {
    NextSlot(n, idx - 1);
    var last := (idx - 1) % n;
    if last >= k {
      DivModUnique(last - k + n, n, 1, last - k);
    } else {
      DivModUnique(last - k + n, n, 0, last - k + n);
    }
  }

  /** The info-time distance from the newest trade back to the end of the
      entry k back. */
  function Dist(hist: seq<Entry>, k: nat): real
  {
    Back(hist, 0).info - Back(hist, k).info
  }

  /** The backward scan from entry k: it stops at the first entry farther
      than lslow, or after limit entries; the result is the slow count. */
  function SlowLen(hist: seq<Entry>, lslow: real, limit: nat, k: nat): (r: nat)
    requires k <= limit
    ensures k <= r <= limit
    decreases limit - k
  {
    if k == limit || Dist(hist, k) > lslow then k else SlowLen(hist, lslow, limit, k + 1)
  }

  /** How many of the first n entries back lie within lfast. */
  function FastCount(hist: seq<Entry>, lfast: real, n: nat): (c: nat)
    ensures c <= n
  {
    if n == 0 then 0 else FastCount(hist, lfast, n - 1) + (if Dist(hist, n - 1) <= lfast then 1 else 0)
  }

  /** The summed info units of the first n entries back. */
  function SumU(hist: seq<Entry>, n: nat): real
  {
    if n == 0 then 0.0 else SumU(hist, n - 1) + Back(hist, n - 1).u
  }

  /** The summed info units of those of the first n entries back that lie
      within lfast. */
  function SumFastU(hist: seq<Entry>, lfast: real, n: nat): real
  {
    if n == 0 then 0.0
    else SumFastU(hist, lfast, n - 1) + (if Dist(hist, n - 1) <= lfast then Back(hist, n - 1).u else 0.0)
  }

  /** The farthest of the first n entries back within lfast, or -1. */
  function LastFast(hist: seq<Entry>, lfast: real, n: nat): (r: int)
    ensures -1 <= r < n
    ensures r >= 0 <==> FastCount(hist, lfast, n) > 0
    ensures r >= 0 ==> Dist(hist, r) <= lfast
  {
    if n == 0 then -1
    else if Dist(hist, n - 1) <= lfast then n - 1
    else LastFast(hist, lfast, n - 1)
  }

  /** buildSnaps as a function of the trades so far: nothing before the
      first trade; otherwise the slow window is what the backward scan
      takes before it passes lslow (at most min(n, trades) entries), and the
      fast window those of them within lfast. A window starts at the slot of
      its farthest entry and ends at the newest. */
  function Snaps(hist: seq<Entry>, n: int, lfast: real, lslow: real): SnapPair
    requires n > 0
  {
    if hist == [] then SnapPair(NoSnap, NoSnap)
    else
      var cs := SlowLen(hist, lslow, Min(n, |hist|), 0);
      var cf := FastCount(hist, lfast, cs);
      var lf := LastFast(hist, lfast, cs);
      var next := |hist| % n;
      SnapPair(
        if cf > 0 then WindowSnap(Slot(n, next, lf), cf, SumFastU(hist, lfast, cs), Back(hist, lf).price, Back(hist, 0).price)
        else NoSnap,
        if cs > 0 then WindowSnap(Slot(n, next, cs - 1), cs, SumU(hist, cs), Back(hist, cs - 1).price, Back(hist, 0).price)
        else NoSnap)
  }

  /** The exponentially weighted variance update: seeded with the first
      value, then blended with weight alpha. */
  function EwVar(v: real, alpha: real, x: real): real
  {
    if v == 0.0 then x else (1.0 - alpha) * v + alpha * x
  }

  /** A tracker after a window: blended with the window's squared info
      sum when the window is not empty, unchanged otherwise. */
  function Tracked(v: real, alpha: real, w: WindowSnap): real
  {
    if w.count > 0 then EwVar(v, alpha, w.b * w.b) else v
  }

  /** With a weight in [0, 1] the tracker stays non-negative. */
  lemma EwVarNonNegative(v: real, alpha: real, x: real)
    requires v >= 0.0 && x >= 0.0 && 0.0 <= alpha <= 1.0
    ensures EwVar(v, alpha, x) >= 0.0
  {
    if v != 0.0 {
      assert (1.0 - alpha) * v >= 0.0;
      assert alpha * x >= 0.0;
    }
  }

  /** Every entry of the fast window is in the slow window, and neither
      holds more than the ring or the trades so far. */
  lemma WindowsNested(hist: seq<Entry>, n: int, lfast: real, lslow: real)
    requires n > 0
    ensures Snaps(hist, n, lfast, lslow).fast.count <= Snaps(hist, n, lfast, lslow).slow.count <= Min(n, |hist|)
    ensures hist == [] ==> Snaps(hist, n, lfast, lslow) == SnapPair(NoSnap, NoSnap)
  {
  }

  /** The newest trade is at distance 0, so with non-negative window
      lengths it is in both windows once there is a trade. */
  lemma NewestInBoth(hist: seq<Entry>, n: int, lfast: real, lslow: real)
    requires n > 0 && hist != [] && lfast >= 0.0 && lslow >= 0.0
    ensures Snaps(hist, n, lfast, lslow).slow.count >= 1
    ensures Snaps(hist, n, lfast, lslow).fast.count >= 1
  {
    var cs := SlowLen(hist, lslow, Min(n, |hist|), 0);
    assert Dist(hist, 0) == 0.0;
    assert SlowLen(hist, lslow, Min(n, |hist|), 0) == SlowLen(hist, lslow, Min(n, |hist|), 1);
    assert FastCount(hist, lfast, 1) == 1;
    FastCountGrows(hist, lfast, 1, cs);
  }

  lemma {:induction false} FastCountGrows(hist: seq<Entry>, lfast: real, a: nat, b: nat)
    requires a <= b
    ensures FastCount(hist, lfast, a) <= FastCount(hist, lfast, b)
    decreases b
  {
    if a < b {
      FastCountGrows(hist, lfast, a, b - 1);
    }
  }

  /** With cumulative info-time the distance grows with k. */
  lemma DistGrows(hist: seq<Entry>, a: nat, b: nat)
    requires InfoChain(hist) && a <= b < |hist|
    ensures 0.0 <= Dist(hist, a) <= Dist(hist, b)
  {
    InfoGrows(hist, |hist| - 1 - b, |hist| - 1 - a);
    InfoGrows(hist, |hist| - 1 - a, |hist| - 1);
  }

  /** Because the distance grows, the scan's early stop loses nothing: the
      slow window holds exactly the entries within lslow among the last
      min(n, trades), and the fast window exactly those within lfast. */
  lemma {:induction false} SlowIsWithin(hist: seq<Entry>, lslow: real, limit: nat, k: nat, j: nat)
    requires InfoChain(hist) && k <= limit <= |hist| && j < limit
    requires forall i :: 0 <= i < k ==> Dist(hist, i) <= lslow
    ensures j < SlowLen(hist, lslow, limit, k) <==> Dist(hist, j) <= lslow
    decreases limit - k
  {
    if k < limit && Dist(hist, k) <= lslow {
      SlowIsWithin(hist, lslow, limit, k + 1, j);
    } else if k < limit {
      if j >= k {
        DistGrows(hist, k, j);
      }
    }
  }

  /** What the backward scan holds after k slots: the slow window is the
      first k entries back, the fast window those of them within lfast, and
      each start is the slot of the window's farthest entry (the newest
      slot, lastPos, before any). */
  ghost predicate ScanInv(hist: seq<Entry>, n: int, lfast: real, lslow: real, limit: nat, lastPos: int,
                          k: int, countS: int, bs: real, countF: int, bf: real, startS: int, startF: int)
  {
    n > 0 && 0 <= k <= limit <= n
    && SlowLen(hist, lslow, limit, 0) == SlowLen(hist, lslow, limit, k)
    && countS == k && bs == SumU(hist, k)
    && countF == FastCount(hist, lfast, k) && bf == SumFastU(hist, lfast, k)
    && startS == (if k > 0 then Slot(n, |hist| % n, k - 1) else lastPos)
    && startF == (if LastFast(hist, lfast, k) >= 0 then Slot(n, |hist| % n, LastFast(hist, lfast, k)) else lastPos)
  }

  /** The scan takes entry k, at distance d <= lslow, from slot i: the
      primed values are the scan's state after it. */
  lemma ScanTake(hist: seq<Entry>, n: int, lfast: real, lslow: real, limit: nat, lastPos: int,
                 k: int, countS: int, bs: real, countF: int, bf: real, startS: int, startF: int,
                 d: real, uk: real, i: int,
                 k': int, countS': int, bs': real, countF': int, bf': real, startS': int, startF': int)
    requires ScanInv(hist, n, lfast, lslow, limit, lastPos, k, countS, bs, countF, bf, startS, startF)
    requires k < limit && d == Dist(hist, k) && d <= lslow && uk == Back(hist, k).u && i == Slot(n, |hist| % n, k)
    requires k' == k + 1 && countS' == countS + 1 && bs' == bs + uk && startS' == i
    requires d <= lfast ==> countF' == countF + 1 && bf' == bf + uk && startF' == i
    requires d > lfast ==> countF' == countF && bf' == bf && startF' == startF
    ensures ScanInv(hist, n, lfast, lslow, limit, lastPos, k', countS', bs', countF', bf', startS', startF')
  {
    assert SlowLen(hist, lslow, limit, k) == SlowLen(hist, lslow, limit, k + 1);
  }

  /** When the scan stops, it has taken the whole slow window. */
  lemma ScanDone(hist: seq<Entry>, n: int, lfast: real, lslow: real, limit: nat, lastPos: int,
                 k: int, countS: int, bs: real, countF: int, bf: real, startS: int, startF: int)
    requires ScanInv(hist, n, lfast, lslow, limit, lastPos, k, countS, bs, countF, bf, startS, startF)
    requires k == limit || Dist(hist, k) > lslow
    ensures k == SlowLen(hist, lslow, limit, 0)
  {
  }

  /** The windows the scan assembles are those of Snaps. */
  lemma ScanResult(hist: seq<Entry>, n: int, lfast: real, lslow: real, limit: nat, lastPos: int,
                   k: int, countS: int, bs: real, countF: int, bf: real, startS: int, startF: int,
                   pF: real, pS: real, pLast: real)
    requires hist != [] && limit == Min(n, |hist|)
    requires ScanInv(hist, n, lfast, lslow, limit, lastPos, k, countS, bs, countF, bf, startS, startF)
    requires k == SlowLen(hist, lslow, limit, 0)
    requires pLast == Back(hist, 0).price
    requires LastFast(hist, lfast, k) >= 0 ==> pF == Back(hist, LastFast(hist, lfast, k)).price
    requires k > 0 ==> pS == Back(hist, k - 1).price
    ensures Snaps(hist, n, lfast, lslow) == SnapPair(
      if countF > 0 then WindowSnap(startF, countF, bf, pF, pLast) else NoSnap,
      if countS > 0 then WindowSnap(startS, countS, bs, pS, pLast) else NoSnap)
  {
    assert countF > 0 <==> LastFast(hist, lfast, k) >= 0;
  }

  // ---------------------------------------------------------------------
  // Core
  // ---------------------------------------------------------------------

  /** Core: the ring arrays (structure of arrays), the trade counter idx
      and the filled flag, the window lengths and the adaptive trackers.
      The trades so far are kept as ghost history. */
  class Core {
    const N: int
    var idx: nat
    var filled: bool
    const u: array<real>
    const side: array<real>
    const qty: array<real>
    const price: array<real>
    const ts: array<i64>
    const info: array<real>
    const lfast: real
    const lslow: real
    var ewVarBf: real
    var ewVarBs: real
    const varAlphaB: real
    var absBaseline: real
    const alphaAbs: real
    var ewVarS: real
    const varAlphaS: real
    var eRef: real
    const alphaE: real
    ghost var hist: seq<Entry>

    /** The configuration NewCore was given. */
    function Cfg(): FiveDimConfig
    {
      FiveDimConfig(N, lfast, lslow, varAlphaB, alphaAbs, varAlphaS, alphaE)
    }

    /** The five adaptive trackers. */
    function Trk(): Trackers
      reads this`ewVarBf, this`ewVarBs, this`absBaseline, this`ewVarS, this`eRef
    {
      Trackers(ewVarBf, ewVarBs, absBaseline, ewVarS, eRef)
    }

    /** N slots in each of six separate arrays. */
    predicate Shape()
    {
      N > 0 && u.Length == N && side.Length == N && qty.Length == N
      && price.Length == N && ts.Length == N && info.Length == N
      && u != side && u != qty && u != price && u != info
      && side != qty && side != price && side != info
      && qty != price && qty != info && price != info
    }

    /** The slots across the six arrays. */
    ghost function Contents(): (cs: seq<Entry>)
      requires Shape()
      reads u, side, qty, price, ts, info
      ensures |cs| == N
    {
      seq(N, p requires 0 <= p < N reads u, side, qty, price, ts, info =>
        Entry(u[p], side[p], qty[p], price[p], ts[p], info[p]))
    }

    ghost predicate Valid()
      reads this`idx, this`filled, this`hist, u, side, qty, price, ts, info
    {
      Shape() && idx == |hist| && filled == (idx >= N) && InfoChain(hist)
      && RingHolds(Contents(), N, idx % N, hist)
    }

    /** NewCore: zeroed arrays of N slots. */
    constructor (n: int, lfast: real, lslow: real, varAlphaB: real, alphaAbs: real, varAlphaS: real, alphaE: real)
      requires n > 0
      ensures Valid() && hist == []
      ensures Cfg() == FiveDimConfig(n, lfast, lslow, varAlphaB, alphaAbs, varAlphaS, alphaE)
      ensures Trk() == NoTrackers
      ensures fresh(u) && fresh(side) && fresh(qty) && fresh(price) && fresh(ts) && fresh(info)
    {
      N := n;
      idx := 0;
      filled := false;
      u := new real[n](_ => 0.0);
      side := new real[n](_ => 0.0);
      qty := new real[n](_ => 0.0);
      price := new real[n](_ => 0.0);
      ts := new i64[n](_ => 0);
      info := new real[n](_ => 0.0);
      this.lfast := lfast;
      this.lslow := lslow;
      this.varAlphaB := varAlphaB;
      this.alphaAbs := alphaAbs;
      this.varAlphaS := varAlphaS;
      this.alphaE := alphaE;
      ewVarBf, ewVarBs, absBaseline, ewVarS, eRef := 0.0, 0.0, 0.0, 0.0, 0.0;
      hist := [];
      new;
      assert forall k :: 0 <= k < n ==> Contents()[Slot(n, 0, k)] == Blank;
    }

    /** The six writes of Update into one slot. */
    method Store(slot: int, uu: real, tr: Trade, inf: real)
      requires Shape() && 0 <= slot < N
      modifies u, side, qty, price, ts, info
      ensures Contents() == old(Contents())[slot := Entry(uu, tr.side, tr.qty, tr.price, tr.ts, inf)]
    {
      u[slot] := uu;
      side[slot] := tr.side;
      qty[slot] := tr.qty;
      price[slot] := tr.price;
      ts[slot] := tr.ts;
      info[slot] := inf;
    }

    /** Update: the trade's entry goes into slot idx mod N, idx moves on and
        filled is set once idx reaches N; then the windows are rebuilt. */
    method Update(tr: Trade, sqrt: real -> real) returns (sp: SnapPair)
      requires Valid()
      modifies this`idx, this`filled, this`hist, this`ewVarBf, this`ewVarBs, u, side, qty, price, ts, info
      ensures Valid()
      ensures hist == old(hist) + [Record(old(hist), tr, sqrt)]
      ensures idx == old(idx) + 1 && filled == (idx >= N)
      ensures sp == Snaps(hist, N, lfast, lslow)
      ensures Trk() == SnapTracked(old(Trk()), Cfg(), sp)
    {
      Push(tr, sqrt);
      sp := BuildSnaps();
    }

    /** The info of the newest trade, 0 before the first. */
    method PrevInfoOf() returns (prevInfo: real)
      requires Valid()
      ensures prevInfo == Back(hist, 0).info
    {
      prevInfo := 0.0;
      if idx > 0 {
        ScanSlot(N, idx, 0);
        prevInfo := info[(idx - 1) % N];
        assert Contents()[(idx - 1) % N] == Back(hist, 0);
      }
    }

    /** The part of Update before buildSnaps: u = side * sqrt(qty), the info
        of the previous trade plus |u|, the six writes, idx and filled. */
    method Push(tr: Trade, sqrt: real -> real)
      requires Valid()
      modifies this`idx, this`filled, this`hist, u, side, qty, price, ts, info
      ensures Valid()
      ensures hist == old(hist) + [Record(old(hist), tr, sqrt)]
      ensures idx == old(idx) + 1
    {
      var slot := idx % N;
      var uu := tr.side * sqrt(tr.qty);
      var prevInfo := PrevInfoOf();
      var inf := prevInfo + OfiStudy.Abs(uu);
      ghost var e := Entry(uu, tr.side, tr.qty, tr.price, tr.ts, inf);
      assert e == Record(hist, tr, sqrt);
      ghost var cs0 := Contents();
      Store(slot, uu, tr, inf);
      PushKeeps(cs0, N, idx, hist, e);
      RecordChain(hist, tr, sqrt);
      ghost var cs1 := Contents();
      assert RingHolds(cs1, N, (idx + 1) % N, hist + [e]);
      idx := idx + 1;
      if idx >= N {
        filled := true;
      }
      hist := hist + [e];
      assert Contents() == cs1;
    }

    /** buildSnaps: the windows of the backward scan, then the variance
        trackers of the windows that are not empty. */
    method BuildSnaps() returns (sp: SnapPair)
      requires Valid()
      modifies this`ewVarBf, this`ewVarBs
      ensures sp == Snaps(hist, N, lfast, lslow)
      ensures Trk() == SnapTracked(old(Trk()), Cfg(), sp)
    {
      sp := Scan();
      var fast, slow := sp.fast, sp.slow;
      ewVarBf := Tracked(ewVarBf, varAlphaB, fast);
      ewVarBs := Tracked(ewVarBs, varAlphaB, slow);
    }

    /** The backward scan of buildSnaps over at most min(N, idx) slots from
        the newest, and the two windows it assembles. */
    method Scan() returns (sp: SnapPair)
      requires Valid()
      ensures sp == Snaps(hist, N, lfast, lslow)
    {
      if idx == 0 {
        return SnapPair(NoSnap, NoSnap);
      }
      ScanSlot(N, idx, 0);
      var lastPos := (idx - 1) % N;
      assert Contents()[lastPos] == Back(hist, 0);
      var limit := N;
      if limit > idx {
        limit := idx;
      }
      var k, countS, bs, countF, bf, startS, startF := Walk(lastPos, limit);
      ghost var lf := LastFast(hist, lfast, k);
      ghost var pF, pS := if lf >= 0 then Back(hist, lf).price else 0.0, if k > 0 then Back(hist, k - 1).price else 0.0;
      var fast, slow := NoSnap, NoSnap;
      if countF > 0 {
        assert Contents()[startF] == Back(hist, lf);
        fast := WindowSnap(startF, countF, bf, price[startF], price[lastPos]);
      }
      if countS > 0 {
        assert Contents()[startS] == Back(hist, k - 1);
        slow := WindowSnap(startS, countS, bs, price[startS], price[lastPos]);
      }
      ScanResult(hist, N, lfast, lslow, limit, lastPos, k, countS, bs, countF, bf, startS, startF, pF, pS, price[lastPos]);
      sp := SnapPair(fast, slow);
    }

    /** The loop of the scan: from the newest slot backwards, it stops at
        the first trade farther than lslow in info-time, and takes into the
        fast window those within lfast. */
    method Walk(lastPos: int, limit: nat) returns (k: int, countS: int, bs: real, countF: int, bf: real, startS: int, startF: int)
      requires Valid() && idx > 0 && lastPos == (idx - 1) % N && limit == Min(N, |hist|)
      ensures ScanInv(hist, N, lfast, lslow, limit, lastPos, k, countS, bs, countF, bf, startS, startF)
      ensures k == SlowLen(hist, lslow, limit, 0)
    {
      ScanSlot(N, idx, 0);
      var infoNow := info[lastPos];
      assert Contents()[lastPos] == Back(hist, 0);
      bf, bs := 0.0, 0.0;
      countF, countS := 0, 0;
      startF, startS := lastPos, lastPos;
      k := 0;
      while k < limit
        invariant infoNow == Back(hist, 0).info
        invariant ScanInv(hist, N, lfast, lslow, limit, lastPos, k, countS, bs, countF, bf, startS, startF)
      {
        var i := (lastPos - k + N) % N;
        ScanSlot(N, idx, k);
        assert Contents()[i] == Back(hist, k);
        var dist := infoNow - info[i];
        if dist > lslow {
          break;
        }
        ghost var k0, countS0, bs0, countF0, bf0, startS0, startF0 := k, countS, bs, countF, bf, startS, startF;
        bs := bs + u[i];
        countS := countS + 1;
        startS := i;
        if dist <= lfast {
          bf := bf + u[i];
          countF := countF + 1;
          startF := i;
        }
        k := k + 1;
        ScanTake(hist, N, lfast, lslow, limit, lastPos, k0, countS0, bs0, countF0, bf0, startS0, startF0, dist, u[i], i,
                 k, countS, bs, countF, bf, startS, startF);
      }
      ScanDone(hist, N, lfast, lslow, limit, lastPos, k, countS, bs, countF, bf, startS, startF);
    }
  }

  // ---------------------------------------------------------------------
  // Engine and f4_Coherence
  // ---------------------------------------------------------------------

  const Eps12: real := 0.000000000001
  const Eps9: real := 0.000000001

  /** The five features of one trade. */
  datatype FeatureVector = FeatureVector(f1: real, f2: real, f3: real, f4: real, f5: real)

  const ZeroVector: FeatureVector := FeatureVector(0.0, 0.0, 0.0, 0.0, 0.0)

  /** Feature k (0-based) of a vector. */
  function Feature(fv: FeatureVector, k: nat): real
    requires k < 5
  {
    match k
    case 0 => fv.f1
    case 1 => fv.f2
    case 2 => fv.f3
    case 3 => fv.f4
    case 4 => fv.f5
  }

  /** The sides a window's forward scan reads, oldest first: slot start,
      then the slots after it round the ring. */
  function WindowSides(side: seq<real>, start: int, count: nat): (ss: seq<real>)
    requires |side| > 0 && 0 <= start
    ensures |ss| == count
  {
    seq(count, j requires 0 <= j < count => side[(start + j) % |side|])
  }

  /** Counts of sign transitions: buy to buy, buy to sell, sell to buy,
      sell to sell (a side > 0 is a buy). */
  datatype Transitions = Transitions(pp: nat, pm: nat, mp: nat, mm: nat)

  /** The transitions between neighbours among the first k sides. */
  function TransitionsUpTo(ss: seq<real>, k: nat): Transitions
    requires k <= |ss|
  {
    if k <= 1 then Transitions(0, 0, 0, 0)
    else
      var t := TransitionsUpTo(ss, k - 1);
      if ss[k - 2] > 0.0 then
        (if ss[k - 1] > 0.0 then t.(pp := t.pp + 1) else t.(pm := t.pm + 1))
      else
        (if ss[k - 1] > 0.0 then t.(mp := t.mp + 1) else t.(mm := t.mm + 1))
  }

  /** How many of the first k sides are buys. */
  function Buys(ss: seq<real>, k: nat): (b: nat)
    requires k <= |ss|
    ensures b <= k
  {
    if k == 0 then 0 else Buys(ss, k - 1) + (if ss[k - 1] > 0.0 then 1 else 0)
  }

  /** Each of the k - 1 neighbour pairs is counted once; the transitions
      out of a buy are the buys among all sides but the last, and the
      transitions into a buy are the buys among all sides but the first. */
  lemma {:induction false} TransitionsPartition(ss: seq<real>, k: nat)
    requires 1 <= k <= |ss|
    ensures TransitionsUpTo(ss, k).pp + TransitionsUpTo(ss, k).pm == Buys(ss, k - 1)
    ensures TransitionsUpTo(ss, k).mp + TransitionsUpTo(ss, k).mm == k - 1 - Buys(ss, k - 1)
    ensures TransitionsUpTo(ss, k).pp + TransitionsUpTo(ss, k).mp == Buys(ss, k) - Buys(ss, 1)
  {
    if k > 1 {
      TransitionsPartition(ss, k - 1);
    }
  }

  /** p / (total + 1e-12) for a non-negative total, as f4 forms its
      probabilities. */
  function Ratio(p: real, total: real): real
    requires total >= 0.0
  {
    p / (total + Eps12)
  }

  /** One term pi * p * log2(p) of the entropy rate, skipped for p <= 1e-9. */
  function EntropyTerm(pi: real, p: real, log2: real -> real): real
  {
    if p > Eps9 then pi * p * log2(p) else 0.0
  }

  /** The entropy rate of the two-state sign chain of f4: transition
      probabilities from the counts, stationary weights from the buys
      among the n - 1 earlier sides, and log2 supplied by the caller. */
  function Entropy(npp: real, npm: real, nmp: real, nmm: real, cntP: real, n: nat, log2: real -> real): real
    requires npp >= 0.0 && npm >= 0.0 && nmp >= 0.0 && nmm >= 0.0 && n >= 1
  {
    var ppp := Ratio(npp, npp + npm);
    var pmp := Ratio(nmp, nmp + nmm);
    var piP := Ratio(cntP, (n - 1) as real);
    0.0 - EntropyTerm(piP, ppp, log2) - EntropyTerm(piP, 1.0 - ppp, log2)
      - EntropyTerm(1.0 - piP, pmp, log2) - EntropyTerm(1.0 - piP, 1.0 - pmp, log2)
  }

  /** The clamp of f4 to [0, 1]. */
  function Clamp01(x: real): (r: real)
    ensures 0.0 <= r <= 1.0
    ensures 0.0 <= x <= 1.0 ==> r == x
  {
    if x < 0.0 then 0.0 else if x > 1.0 then 1.0 else x
  }

  /** f4 as a function of a window's sides: 0 below three trades, else one
      minus the entropy rate of its transitions, clamped to [0, 1]. */
  function CoherenceOf(ss: seq<real>, log2: real -> real): (c: real)
    ensures 0.0 <= c <= 1.0
    ensures |ss| < 3 ==> c == 0.0
  {
    if |ss| < 3 then 0.0
    else
      var t := TransitionsUpTo(ss, |ss|);
      Clamp01(1.0 - Entropy(t.pp as real, t.pm as real, t.mp as real, t.mm as real, (t.pp + t.pm) as real, |ss|, log2))
  }

  /** A window whose trades are all on one side has no transition between
      sides: all count - 1 pairs are buy-to-buy or all are sell-to-sell. */
  lemma {:induction false} OneSidedTransitions(ss: seq<real>, k: nat)
    requires 1 <= k <= |ss|
    ensures (forall j :: 0 <= j < k ==> ss[j] > 0.0) ==> TransitionsUpTo(ss, k) == Transitions(k - 1, 0, 0, 0)
    ensures (forall j :: 0 <= j < k ==> ss[j] <= 0.0) ==> TransitionsUpTo(ss, k) == Transitions(0, 0, 0, k - 1)
  {
    if k > 1 {
      OneSidedTransitions(ss, k - 1);
    }
  }

  /** The slot j places after slot Slot(n, next, k) is the entry j nearer
      the newest. */
  lemma ForwardSlot(n: int, next: int, k: int, j: int)
    requires 0 <= next < n && 0 <= j <= k < n
    ensures (Slot(n, next, k) + j) % n == Slot(n, next, k - j)
  {
    var s := Slot(n, next, k);
    if s + j < n {
      DivModUnique(s + j, n, 0, s + j);
    } else {
      DivModUnique(s + j, n, 1, s + j - n);
    }
  }

  /** With cumulative info-time the fast window is a prefix of the scan:
      its farthest entry is the last of its count. */
  lemma {:induction false} FastIsPrefix(hist: seq<Entry>, lfast: real, k: nat)
    requires InfoChain(hist) && k <= |hist|
    ensures FastCount(hist, lfast, k) == LastFast(hist, lfast, k) + 1
    ensures forall j :: 0 <= j < FastCount(hist, lfast, k) ==> Dist(hist, j) <= lfast
  {
    if k > 0 {
      FastIsPrefix(hist, lfast, k - 1);
      if Dist(hist, k - 1) <= lfast {
        forall j | 0 <= j < k - 1
          ensures Dist(hist, j) <= lfast
        {
          DistGrows(hist, j, k - 1);
        }
      }
    }
  }

  /** The sides of the trades k back from the newest, oldest first. */
  function SidesBack(hist: seq<Entry>, count: nat): (ss: seq<real>)
    ensures |ss| == count
  {
    seq(count, j requires 0 <= j < count => Back(hist, count - 1 - j).side)
  }

  /** f4's forward scan from the start of the fast window reads the sides
      of exactly the window's trades, in the order they arrived. */
  lemma FastWindowSides(cs: seq<Entry>, sides: seq<real>, n: int, hist: seq<Entry>, lfast: real, lslow: real)
    requires n > 0 && RingHolds(cs, n, |hist| % n, hist) && InfoChain(hist)
    requires |sides| == n && forall p :: 0 <= p < n ==> sides[p] == cs[p].side
    requires Snaps(hist, n, lfast, lslow).fast.count > 0
    ensures WindowSides(sides, Snaps(hist, n, lfast, lslow).fast.start, Snaps(hist, n, lfast, lslow).fast.count)
      == SidesBack(hist, Snaps(hist, n, lfast, lslow).fast.count)
  {
    var cnt := SlowLen(hist, lslow, Min(n, |hist|), 0);
    var next := |hist| % n;
    var lf := LastFast(hist, lfast, cnt);
    FastIsPrefix(hist, lfast, cnt);
    var count := lf + 1;
    var start := Slot(n, next, lf);
    forall j | 0 <= j < count
      ensures WindowSides(sides, start, count)[j] == SidesBack(hist, count)[j]
    {
      ForwardSlot(n, next, lf, j);
    }
  }

  // ---------------------------------------------------------------------
  // The adaptive trackers and the five features
  // ---------------------------------------------------------------------

  /** The five adaptive trackers of Core: the variances of the fast and
      slow windows' info sums (buildSnaps), the absorption baseline and the
      surplus variance (f2_SFA), and the reference elasticity (f3). */
  datatype Trackers = Trackers(ewVarBf: real, ewVarBs: real, absBaseline: real, ewVarS: real, eRef: real)

  const NoTrackers: Trackers := Trackers(0.0, 0.0, 0.0, 0.0, 0.0)

  /** The trackers after buildSnaps: the two window variances. */
  function SnapTracked(tk: Trackers, cfg: FiveDimConfig, sp: SnapPair): Trackers
  {
    tk.(ewVarBf := Tracked(tk.ewVarBf, cfg.varAlphaB, sp.fast), ewVarBs := Tracked(tk.ewVarBs, cfg.varAlphaB, sp.slow))
  }

  /** math.Copysign(x, y): the magnitude of x with the sign of y. */
  function CopySign(x: real, y: real): real
  {
    if y < 0.0 then -OfiStudy.Abs(x) else OfiStudy.Abs(x)
  }

  /** The trackers after f2_SFA on the fast window's info sum b: the
      baseline always moves towards |b|; the surplus variance only when
      |b| lies above the new baseline. */
  function SfaTracked(tk: Trackers, cfg: FiveDimConfig, b: real): Trackers
  {
    var base := EwVar(tk.absBaseline, cfg.alphaAbs, OfiStudy.Abs(b));
    var surplus := OfiStudy.Abs(b) - base;
    var signed := CopySign(surplus, b);
    tk.(absBaseline := base,
        ewVarS := if surplus <= 0.0 then tk.ewVarS else EwVar(tk.ewVarS, cfg.varAlphaS, signed * signed))
  }

  /** f3's elasticity of a window: the price change across it per unit of
      its info sum, |dP| / (|B| + 1e-12). */
  function EMag(w: WindowSnap): real
  {
    OfiStudy.Abs(w.priceLast - w.priceFirst) / (OfiStudy.Abs(w.b) + Eps12)
  }

  /** The trackers after f3_Elasticity: the reference elasticity moves
      towards the window's. */
  function ElasticityTracked(tk: Trackers, cfg: FiveDimConfig, w: WindowSnap): Trackers
  {
    tk.(eRef := EwVar(tk.eRef, cfg.alphaE, EMag(w)))
  }

  /** The trackers after Engine.Update with windows sp: buildSnaps moves
      the window variances; f2 and f3, which run only when both windows
      hold trades, move the baseline, the surplus variance and the
      reference elasticity. */
  function EngineTracked(tk: Trackers, cfg: FiveDimConfig, sp: SnapPair): Trackers
  {
    var t1 := SnapTracked(tk, cfg, sp);
    if sp.fast.count == 0 || sp.slow.count == 0 then t1 else FeatureTracked(t1, cfg, sp.fast)
  }

  /** The trackers after f2 and f3 on the fast window f. */
  function FeatureTracked(tk: Trackers, cfg: FiveDimConfig, f: WindowSnap): Trackers
  {
    ElasticityTracked(SfaTracked(tk, cfg, f.b), cfg, f)
  }

  predicate TrackersNonNegative(tk: Trackers)
  {
    tk.ewVarBf >= 0.0 && tk.ewVarBs >= 0.0 && tk.absBaseline >= 0.0 && tk.ewVarS >= 0.0 && tk.eRef >= 0.0
  }

  /** The four blending weights lie in [0, 1]. */
  predicate RatesInRange(cfg: FiveDimConfig)
  {
    0.0 <= cfg.varAlphaB <= 1.0 && 0.0 <= cfg.alphaAbs <= 1.0
    && 0.0 <= cfg.varAlphaS <= 1.0 && 0.0 <= cfg.alphaE <= 1.0
  }

  /** With weights in [0, 1] an update keeps every tracker non-negative:
      each blends a non-negative value (a square, |B|, an elasticity) into
      a non-negative one. */
  lemma EngineTrackedNonNegative(tk: Trackers, cfg: FiveDimConfig, sp: SnapPair)
    requires TrackersNonNegative(tk) && RatesInRange(cfg)
    ensures TrackersNonNegative(EngineTracked(tk, cfg, sp))
  {
    var t1 := SnapTracked(tk, cfg, sp);
    TrackedNonNegative(tk.ewVarBf, cfg.varAlphaB, sp.fast);
    TrackedNonNegative(tk.ewVarBs, cfg.varAlphaB, sp.slow);
    assert TrackersNonNegative(t1);
    if sp.fast.count > 0 && sp.slow.count > 0 {
      var b := sp.fast.b;
      EwVarNonNegative(t1.absBaseline, cfg.alphaAbs, OfiStudy.Abs(b));
      var t2 := SfaTracked(t1, cfg, b);
      var signed := CopySign(OfiStudy.Abs(b) - t2.absBaseline, b);
      SquareNonNegative(signed);
      EwVarNonNegative(t1.ewVarS, cfg.varAlphaS, signed * signed);
      assert TrackersNonNegative(t2);
      var d := OfiStudy.Abs(sp.fast.priceLast - sp.fast.priceFirst);
      DivNonNegative(d, OfiStudy.Abs(b) + Eps12);
      EwVarNonNegative(t2.eRef, cfg.alphaE, EMag(sp.fast));
    }
  }

  lemma TrackedNonNegative(v: real, alpha: real, w: WindowSnap)
    requires v >= 0.0 && 0.0 <= alpha <= 1.0
    ensures Tracked(v, alpha, w) >= 0.0
  {
    SquareNonNegative(w.b);
    EwVarNonNegative(v, alpha, w.b * w.b);
  }

  lemma SquareNonNegative(x: real)
    ensures x * x >= 0.0
  {
  }

  lemma DivNonNegative(a: real, b: real)
    requires a >= 0.0 && b > 0.0
    ensures a / b >= 0.0
  {
  }

  /** a / b, with a zero divisor giving 0. */
  function Quot(a: real, b: real): real
  {
    if b == 0.0 then 0.0 else a / b
  }

  /** A value over a tracker's scale, as f1, f2 and f5 form it:
      x / (sqrt(v + 1e-12) + 1e-12). */
  function Scaled(x: real, v: real, sqrt: real -> real): real
  {
    Quot(x, sqrt(v + Eps12) + Eps12)
  }

  /** f1_Zfast: tanh of the fast sum over its variance tracker's scale. */
  function ZFastOf(f: WindowSnap, tk: Trackers, sqrt: real -> real, tanh: real -> real): real
  {
    tanh(Scaled(f.b, tk.ewVarBf, sqrt))
  }

  /** f2_SFA after its tracker updates: 0 unless |B| lies above the
      baseline, otherwise tanh of the surplus, signed as B, over the scale
      of the surplus variance. */
  function SfaOf(f: WindowSnap, tk: Trackers, sqrt: real -> real, tanh: real -> real): real
  {
    var surplus := OfiStudy.Abs(f.b) - tk.absBaseline;
    if surplus <= 0.0 then 0.0 else tanh(Scaled(CopySign(surplus, f.b), tk.ewVarS, sqrt))
  }

  /** f3_Elasticity after its tracker update: tanh of the window's
      elasticity over the reference. */
  function ElasticityOf(f: WindowSnap, tk: Trackers, tanh: real -> real): real
  {
    tanh(Quot(EMag(f), tk.eRef + Eps12))
  }

  /** f5_Align: the coherence c times the tanh of each window's sum over
      its scale. */
  function AlignOf(sp: SnapPair, tk: Trackers, c: real, sqrt: real -> real, tanh: real -> real): real
  {
    c * (tanh(Scaled(sp.fast.b, tk.ewVarBf, sqrt)) * tanh(Scaled(sp.slow.b, tk.ewVarBs, sqrt)))
  }

  /** The features Engine.Update returns for the windows sp after the
      trades hist, tk being the trackers before the trade: all zero when
      either window is empty; otherwise f1, f2 and f3 in that order, each
      seeing the tracker updates before it, f4 the coherence of the fast
      window's sides in arrival order, and f5 from f4. */
  function EngineFeatures(sp: SnapPair, hist: seq<Entry>, tk: Trackers, cfg: FiveDimConfig,
                          sqrt: real -> real, log2: real -> real, tanh: real -> real): FeatureVector
  {
    if sp.fast.count == 0 || sp.slow.count == 0 then ZeroVector
    else
      ActiveFeatures(sp, SnapTracked(tk, cfg, sp), CoherenceOf(SidesBack(hist, sp.fast.count), log2), cfg, sqrt, tanh)
  }

  /** The five features when both windows hold trades, t1 being the
      trackers after buildSnaps and f4 the coherence. */
  function ActiveFeatures(sp: SnapPair, t1: Trackers, f4: real, cfg: FiveDimConfig,
                          sqrt: real -> real, tanh: real -> real): FeatureVector
  {
    var t2 := SfaTracked(t1, cfg, sp.fast.b);
    FeatureVector(ZFastOf(sp.fast, t1, sqrt, tanh), SfaOf(sp.fast, t2, sqrt, tanh),
                  ElasticityOf(sp.fast, ElasticityTracked(t2, cfg, sp.fast), tanh), f4, AlignOf(sp, t1, f4, sqrt, tanh))
  }

  /** The five features assembled step by step, as Engine.Update computes
      them, are ActiveFeatures. */
  lemma ActiveFeaturesAre(sp: SnapPair, t1: Trackers, t2: Trackers, t3: Trackers, f4: real, cfg: FiveDimConfig,
                          sqrt: real -> real, tanh: real -> real, fv: FeatureVector)
    requires t2 == SfaTracked(t1, cfg, sp.fast.b) && t3 == ElasticityTracked(t2, cfg, sp.fast)
    requires fv.f1 == ZFastOf(sp.fast, t1, sqrt, tanh) && fv.f2 == SfaOf(sp.fast, t2, sqrt, tanh)
    requires fv.f3 == ElasticityOf(sp.fast, t3, tanh) && fv.f4 == f4
    requires fv.f5 == AlignOf(sp, t3, f4, sqrt, tanh)
    ensures fv == ActiveFeatures(sp, t1, f4, cfg, sqrt, tanh)
  {
    assert t3.ewVarBf == t1.ewVarBf && t3.ewVarBs == t1.ewVarBs;
  }

  /** With tanh into [-1, 1], every feature lies in [-1, 1] and f4 in
      [0, 1] (the clamp-free bounds the feature comments promise). */
  lemma FeatureBounds(sp: SnapPair, hist: seq<Entry>, tk: Trackers, cfg: FiveDimConfig,
                      sqrt: real -> real, log2: real -> real, tanh: real -> real)
    requires forall x :: -1.0 <= tanh(x) <= 1.0
    ensures var fv := EngineFeatures(sp, hist, tk, cfg, sqrt, log2, tanh);
      -1.0 <= fv.f1 <= 1.0 && -1.0 <= fv.f2 <= 1.0 && -1.0 <= fv.f3 <= 1.0
      && 0.0 <= fv.f4 <= 1.0 && -1.0 <= fv.f5 <= 1.0
  {
    if sp.fast.count > 0 && sp.slow.count > 0 {
      var t1, f4 := SnapTracked(tk, cfg, sp), CoherenceOf(SidesBack(hist, sp.fast.count), log2);
      ActiveBounds(sp, t1, f4, cfg, sqrt, tanh);
      assert EngineFeatures(sp, hist, tk, cfg, sqrt, log2, tanh) == ActiveFeatures(sp, t1, f4, cfg, sqrt, tanh);
    }
  }

  /** With both windows non-empty and tanh into [-1, 1]: the bounds, f4 is
      the coherence, f5 is f4 times f1 times the slow window's scaled tanh,
      and f2 is 0 when the fast sum does not beat the updated baseline. */
  lemma ActiveBounds(sp: SnapPair, t1: Trackers, f4: real, cfg: FiveDimConfig, sqrt: real -> real, tanh: real -> real)
    requires forall x :: -1.0 <= tanh(x) <= 1.0
    requires 0.0 <= f4 <= 1.0
    ensures var fv := ActiveFeatures(sp, t1, f4, cfg, sqrt, tanh);
      -1.0 <= fv.f1 <= 1.0 && -1.0 <= fv.f2 <= 1.0 && -1.0 <= fv.f3 <= 1.0 && -1.0 <= fv.f5 <= 1.0
      && fv.f4 == f4 && fv.f5 == f4 * (fv.f1 * tanh(Scaled(sp.slow.b, t1.ewVarBs, sqrt)))
      && (OfiStudy.Abs(sp.fast.b) <= SfaTracked(t1, cfg, sp.fast.b).absBaseline ==> fv.f2 == 0.0)
  {
    var t2 := SfaTracked(t1, cfg, sp.fast.b);
    var zf, zs := tanh(Scaled(sp.fast.b, t1.ewVarBf, sqrt)), tanh(Scaled(sp.slow.b, t1.ewVarBs, sqrt));
    assert -1.0 <= zf <= 1.0 && -1.0 <= zs <= 1.0;
    var f2 := SfaOf(sp.fast, t2, sqrt, tanh);
    assert -1.0 <= f2 <= 1.0 by {
      var surplus := OfiStudy.Abs(sp.fast.b) - t2.absBaseline;
      if surplus > 0.0 {
        assert -1.0 <= tanh(Scaled(CopySign(surplus, sp.fast.b), t2.ewVarS, sqrt)) <= 1.0;
      }
    }
    var t3 := ElasticityTracked(t2, cfg, sp.fast);
    assert -1.0 <= tanh(Quot(EMag(sp.fast), t3.eRef + Eps12)) <= 1.0;
    ProductInUnit(zf, zs);
    ScaleInUnit(f4, zf * zs);
  }

  /** The product of two values in [-1, 1] is in [-1, 1]. */
  lemma ProductInUnit(a: real, b: real)
    requires -1.0 <= a <= 1.0 && -1.0 <= b <= 1.0
    ensures -1.0 <= a * b <= 1.0
  {
    if a >= 0.0 {
      if b >= 0.0 {
        assert a * b <= 1.0 * b;
      } else {
        assert a * b >= a * -1.0;
      }
    } else {
      if b >= 0.0 {
        assert a * b >= -1.0 * b;
      } else {
        assert a * b <= -1.0 * b;
      }
    }
  }

  /** A weight in [0, 1] keeps a value in [-1, 1]. */
  lemma ScaleInUnit(c: real, x: real)
    requires 0.0 <= c <= 1.0 && -1.0 <= x <= 1.0
    ensures -1.0 <= c * x <= 1.0
  {
    if x >= 0.0 {
      assert c * x <= 1.0 * x;
    } else {
      assert c * x >= 1.0 * x;
    }
  }

  /** Engine: the feature computation over a Core. */
  class Engine {
    const core: Core

    constructor (core: Core)
      ensures this.core == core
    {
      this.core := core;
    }

    /** Engine.Update: the trade goes into the core; when either window is
        empty the features are all zero and only buildSnaps' trackers
        move; otherwise f1 to f5 in order, f2 and f3 updating their
        trackers. */
    method Update(tr: Trade, sqrt: real -> real, log2: real -> real, tanh: real -> real)
        returns (fv: FeatureVector)
      requires core.Valid()
      modifies core`idx, core`filled, core`hist, core`ewVarBf, core`ewVarBs, core`absBaseline, core`ewVarS, core`eRef
      modifies core.u, core.side, core.qty, core.price, core.ts, core.info
      ensures core.Valid()
      ensures core.hist == old(core.hist) + [Record(old(core.hist), tr, sqrt)]
      ensures core.Trk() == EngineTracked(old(core.Trk()), core.Cfg(), Snaps(core.hist, core.N, core.lfast, core.lslow))
      ensures fv == EngineFeatures(Snaps(core.hist, core.N, core.lfast, core.lslow), core.hist, old(core.Trk()),
                                   core.Cfg(), sqrt, log2, tanh)
    {
      var snaps := core.Update(tr, sqrt);
      fv := Features(snaps, sqrt, log2, tanh);
    }

    /** The part of Engine.Update after Core.Update: the empty-window guard,
        then f1 to f5 in order. */
    method Features(snaps: SnapPair, sqrt: real -> real, log2: real -> real, tanh: real -> real)
        returns (fv: FeatureVector)
      requires core.Valid() && snaps == Snaps(core.hist, core.N, core.lfast, core.lslow)
      modifies core`absBaseline, core`ewVarS, core`eRef
      ensures snaps.fast.count == 0 || snaps.slow.count == 0 ==> core.Trk() == old(core.Trk()) && fv == ZeroVector
      ensures snaps.fast.count > 0 && snaps.slow.count > 0 ==>
        core.Trk() == FeatureTracked(old(core.Trk()), core.Cfg(), snaps.fast)
        && fv == ActiveFeatures(snaps, old(core.Trk()), CoherenceOf(SidesBack(core.hist, snaps.fast.count), log2),
                                core.Cfg(), sqrt, tanh)
    {
      var fSnap, sSnap := snaps.fast, snaps.slow;
      if fSnap.count == 0 || sSnap.count == 0 {
        return ZeroVector;
      }
      ghost var t1 := core.Trk();
      var f1 := ZFast(fSnap, sqrt, tanh);
      var f2 := SurplusFlow(fSnap, sqrt, tanh);
      ghost var t2 := core.Trk();
      var f3 := Elasticity(fSnap, tanh);
      ghost var t3 := core.Trk();
      FastWindowSides(core.Contents(), core.side[..], core.N, core.hist, core.lfast, core.lslow);
      var f4 := Coherence(fSnap, log2);
      var f5 := Align(fSnap, sSnap, f4, sqrt, tanh);
      fv := FeatureVector(f1, f2, f3, f4, f5);
      ActiveFeaturesAre(snaps, t1, t2, t3, f4, core.Cfg(), sqrt, tanh, fv);
    }

    /** f1_Zfast. */
    method ZFast(f: WindowSnap, sqrt: real -> real, tanh: real -> real) returns (z: real)
      ensures z == ZFastOf(f, core.Trk(), sqrt, tanh)
    {
      var scale := sqrt(core.ewVarBf + Eps12);
      z := tanh(Quot(f.b, scale + Eps12));
    }

    /** f2_SFA: the baseline update, then, for a surplus above the
        baseline, the surplus variance update and the scaled surplus. */
    method SurplusFlow(f: WindowSnap, sqrt: real -> real, tanh: real -> real) returns (r: real)
      modifies core`absBaseline, core`ewVarS
      ensures core.Trk() == SfaTracked(old(core.Trk()), core.Cfg(), f.b)
      ensures r == SfaOf(f, core.Trk(), sqrt, tanh)
    {
      ghost var tk := core.Trk();
      ghost var want := SfaTracked(tk, core.Cfg(), f.b);
      var b := f.b;
      var absB := OfiStudy.Abs(b);
      if core.absBaseline == 0.0 {
        core.absBaseline := absB;
      } else {
        core.absBaseline := (1.0 - core.alphaAbs) * core.absBaseline + core.alphaAbs * absB;
      }
      assert core.absBaseline == want.absBaseline;
      var surplus := absB - core.absBaseline;
      if surplus <= 0.0 {
        assert core.Trk() == want;
        return 0.0;
      }
      var signed := CopySign(surplus, b);
      var diff2 := signed * signed;
      if core.ewVarS == 0.0 {
        core.ewVarS := diff2;
      } else {
        core.ewVarS := (1.0 - core.varAlphaS) * core.ewVarS + core.varAlphaS * diff2;
      }
      assert core.ewVarS == want.ewVarS;
      assert core.Trk() == want;
      var scale := sqrt(core.ewVarS + Eps12);
      r := tanh(Quot(signed, scale + Eps12));
    }

    /** f3_Elasticity: the reference update, then the window's elasticity
        over it. */
    method Elasticity(f: WindowSnap, tanh: real -> real) returns (r: real)
      modifies core`eRef
      ensures core.Trk() == ElasticityTracked(old(core.Trk()), core.Cfg(), f)
      ensures r == ElasticityOf(f, core.Trk(), tanh)
    {
      var dP := f.priceLast - f.priceFirst;
      var q := f.b;
      var eMag := OfiStudy.Abs(dP) / (OfiStudy.Abs(q) + Eps12);
      if core.eRef == 0.0 {
        core.eRef := eMag;
      } else {
        core.eRef := (1.0 - core.alphaE) * core.eRef + core.alphaE * eMag;
      }
      r := tanh(Quot(eMag, core.eRef + Eps12));
    }

    /** f5_Align. */
    method Align(f: WindowSnap, sw: WindowSnap, c: real, sqrt: real -> real, tanh: real -> real) returns (r: real)
      ensures r == AlignOf(SnapPair(f, sw), core.Trk(), c, sqrt, tanh)
    {
      var scaleF := sqrt(core.ewVarBf + Eps12);
      var scaleS := sqrt(core.ewVarBs + Eps12);
      var zf := Quot(f.b, scaleF + Eps12);
      var zs := Quot(sw.b, scaleS + Eps12);
      var align := tanh(zf) * tanh(zs);
      r := c * align;
    }

    /** f4_Coherence: 0 for fewer than three trades; otherwise the forward
        scan counts the sign transitions from slot start round the ring,
        and the result is one minus their entropy rate, clamped to [0, 1]. */
    method Coherence(f: WindowSnap, log2: real -> real) returns (c: real)
      requires core.Shape() && 0 <= f.start && (f.count >= 3 ==> f.start < core.N)
      ensures c == CoherenceOf(WindowSides(core.side[..], f.start, f.count), log2)
    {
      var n := f.count;
      if n < 3 {
        return 0.0;
      }
      ghost var ss := WindowSides(core.side[..], f.start, n);
      var start := f.start;
      var npp, npm, nmp, nmm := 0.0, 0.0, 0.0, 0.0;
      var cntP, cntM := 0.0, 0.0;
      var prevSide := core.side[start];
      DivModUnique(start, core.N, 0, start);
      var k := 1;
      while k < n
        invariant 1 <= k <= n && prevSide == ss[k - 1]
        invariant npp == TransitionsUpTo(ss, k).pp as real && npm == TransitionsUpTo(ss, k).pm as real
        invariant nmp == TransitionsUpTo(ss, k).mp as real && nmm == TransitionsUpTo(ss, k).mm as real
        invariant cntP == npp + npm && cntM == nmp + nmm
      {
        var idx := (start + k) % core.N;
        var curSide := core.side[idx];
        if prevSide > 0.0 {
          cntP := cntP + 1.0;
          if curSide > 0.0 {
            npp := npp + 1.0;
          } else {
            npm := npm + 1.0;
          }
        } else {
          cntM := cntM + 1.0;
          if curSide > 0.0 {
            nmp := nmp + 1.0;
          } else {
            nmm := nmm + 1.0;
          }
        }
        prevSide := curSide;
        k := k + 1;
      }
      var h := Entropy(npp, npm, nmp, nmm, cntP, n, log2);
      c := 1.0 - h;
      if c < 0.0 {
        c := 0.0;
      }
      if c > 1.0 {
        c := 1.0;
      }
    }
  }

  // ---------------------------------------------------------------------
  // processBuildDay: the 40-byte feature rows
  // ---------------------------------------------------------------------

  /** The bytes of one output row: the five features' float64 bits,
      little-endian, f1 first. */
  function FeatureRow(fv: FeatureVector, bits: real -> u64): (s: seq<byte>)
    ensures |s| == 40
  {
    LE(bits(fv.f1), 8) + LE(bits(fv.f2), 8) + LE(bits(fv.f3), 8) + LE(bits(fv.f4), 8) + LE(bits(fv.f5), 8)
  }

  /** The feature file of a day: its rows one after another. */
  function FeatureRows(fvs: seq<FeatureVector>, bits: real -> u64): (s: seq<byte>)
    ensures |s| == 40 * |fvs|
  {
    if fvs == [] then [] else FeatureRows(fvs[..|fvs| - 1], bits) + FeatureRow(fvs[|fvs| - 1], bits)
  }

  /** Row i of the file starts at byte 40 * i. */
  lemma {:induction false} FeatureRowsAt(fvs: seq<FeatureVector>, bits: real -> u64, i: nat)
    requires i < |fvs|
    ensures FeatureRows(fvs, bits)[40 * i..40 * i + 40] == FeatureRow(fvs[i], bits)
  {
    var k := |fvs| - 1;
    if i < k {
      FeatureRowsAt(fvs[..k], bits, i);
      assert fvs[..k][i] == fvs[i];
    }
  }

  /** Bytes 8 * k.. of a row are feature k. */
  lemma RowWord(fv: FeatureVector, bits: real -> u64, k: nat)
    requires k < 5
    ensures FeatureRow(fv, bits)[8 * k..8 * k + 8] == LE(bits(Feature(fv, k)), 8)
  {
    var w1, w2, w3, w4, w5 := LE(bits(fv.f1), 8), LE(bits(fv.f2), 8), LE(bits(fv.f3), 8), LE(bits(fv.f4), 8), LE(bits(fv.f5), 8);
    var row := FeatureRow(fv, bits);
    assert row == w1 + w2 + w3 + w4 + w5;
    if k == 0 {
      assert row[..8] == w1;
    } else if k == 1 {
      assert row[8..16] == w2;
    } else if k == 2 {
      assert row[16..24] == w3;
    } else if k == 3 {
      assert row[24..32] == w4;
    } else {
      assert row[32..40] == w5;
    }
  }

  /** A word inside a part of a buffer, read from the buffer. */
  lemma WordInPart(s: seq<byte>, a: nat, part: seq<byte>, b: nat, w: u64)
    requires a + |part| <= |s| && s[a..a + |part|] == part
    requires b + 8 <= |part| && part[b..b + 8] == LE(w, 8)
    ensures GetU64(s, a + b) == w
  {
    forall j | a + b <= j < a + b + 8
      ensures s[j] == part[j - a]
    {
      assert part[j - a] == s[a..a + |part|][j - a];
    }
    assert s[a + b..a + b + 8] == part[b..b + 8];
    Pow256Limits();
    LERoundTrip(w, 8);
  }

  /** Feature k of row i is the little-endian word at byte 40 * i + 8 * k. */
  lemma FeatureWordAt(fvs: seq<FeatureVector>, bits: real -> u64, i: nat, k: nat)
    requires i < |fvs| && k < 5
    ensures GetU64(FeatureRows(fvs, bits), 40 * i + 8 * k) == bits(Feature(fvs[i], k))
  {
    var s, row, w := FeatureRows(fvs, bits), FeatureRow(fvs[i], bits), bits(Feature(fvs[i], k));
    FeatureRowsAt(fvs, bits, i);
    RowWord(fvs[i], bits, k);
    WordInPart(s, 40 * i, row, 8 * k, w);
    assert GetU64(s, 40 * i + 8 * k) == w;
  }

  /** The files the builder writes are the ones processStudyDay reads as
      five-dimensional: the size check yields 5 dimensions, and word
      (i, dim) of the de-interleave is feature dim of row i. */
  lemma StudyReadsBuild(fvs: seq<FeatureVector>, bits: real -> u64, i: nat, dim: nat)
    requires i < |fvs| && dim < 5
    ensures OfiStudy.FeatureDims(|FeatureRows(fvs, bits)|, |fvs|) == Text.Some(5)
    ensures OfiStudy.FeatureWord(FeatureRows(fvs, bits), |fvs|, 5, dim, i) == bits(Feature(fvs[i], dim))
  {
    OfiStudy.FeatureDimsIff(|FeatureRows(fvs, bits)|, |fvs|, 5);
    assert (i * 5 + dim) * 8 == 40 * i + 8 * dim;
    FeatureWordAt(fvs, bits, i, dim);
  }

  /** The five PutUint64 calls of one row, at 40 * i + 8 * k. */
  method WriteRow(buf: array<byte>, i: nat, fv: FeatureVector, bits: real -> u64)
    requires 40 * i + 40 <= buf.Length
    modifies buf
    ensures buf[..] == Splice(old(buf[..]), 40 * i, FeatureRow(fv, bits))
  {
    var baseOff := i * 40;
    ghost var b0 := buf[..];
    PutLE(buf, baseOff + 0, bits(fv.f1), 8);
    PutLE(buf, baseOff + 8, bits(fv.f2), 8);
    SpliceAdjacent(b0, baseOff, LE(bits(fv.f1), 8), LE(bits(fv.f2), 8));
    PutLE(buf, baseOff + 16, bits(fv.f3), 8);
    SpliceAdjacent(b0, baseOff, LE(bits(fv.f1), 8) + LE(bits(fv.f2), 8), LE(bits(fv.f3), 8));
    PutLE(buf, baseOff + 24, bits(fv.f4), 8);
    SpliceAdjacent(b0, baseOff, LE(bits(fv.f1), 8) + LE(bits(fv.f2), 8) + LE(bits(fv.f3), 8), LE(bits(fv.f4), 8));
    PutLE(buf, baseOff + 32, bits(fv.f5), 8);
    SpliceAdjacent(b0, baseOff, LE(bits(fv.f1), 8) + LE(bits(fv.f2), 8) + LE(bits(fv.f3), 8) + LE(bits(fv.f4), 8),
                   LE(bits(fv.f5), 8));
  }

  /** Row i written after rows 0..i-1: the buffer's prefix grows by the row. */
  method PutRow(buf: array<byte>, i: nat, ghost fvs: seq<FeatureVector>, fv: FeatureVector, bits: real -> u64)
    requires |fvs| == i && 40 * (i + 1) <= buf.Length && buf[..40 * i] == FeatureRows(fvs, bits)
    modifies buf
    ensures buf[..40 * (i + 1)] == FeatureRows(fvs + [fv], bits)
  {
    ghost var b0 := buf[..];
    WriteRow(buf, i, fv, bits);
    RowsPrefix(b0, fvs, fv, bits);
  }

  /** Writing row i over a buffer whose first 40 * i bytes are the earlier
      rows extends that prefix by the row. */
  lemma RowsPrefix(b: seq<byte>, fvs: seq<FeatureVector>, fv: FeatureVector, bits: real -> u64)
    requires 40 * |fvs| + 40 <= |b| && b[..40 * |fvs|] == FeatureRows(fvs, bits)
    ensures Splice(b, 40 * |fvs|, FeatureRow(fv, bits))[..40 * (|fvs| + 1)] == FeatureRows(fvs + [fv], bits)
  {
    assert (fvs + [fv])[..|fvs|] == fvs;
  }

  /** The trades a day's rows hold, as the engine receives them. */
  function DayTrades(body: seq<byte>, n: nat, parse: seq<byte> -> Trade): (ts: seq<Trade>)
    requires Layout.RowSize * n <= |body|
    ensures |ts| == n
  {
    seq(n, i requires 0 <= i < n => parse(body[Layout.RowSize * i..Layout.RowSize * i + Layout.RowSize]))
  }

  /** The ring history after feeding trades to a new Core. */
  function History(trades: seq<Trade>, sqrt: real -> real): (h: seq<Entry>)
    ensures |h| == |trades|
  {
    if trades == [] then []
    else
      var h := History(trades[..|trades| - 1], sqrt);
      h + [Record(h, trades[|trades| - 1], sqrt)]
  }

  /** The trackers of a new Core after Engine.Update has been fed trades. */
  function TrackersAfter(trades: seq<Trade>, cfg: FiveDimConfig, sqrt: real -> real): Trackers
    requires cfg.ringSize > 0
  {
    if trades == [] then NoTrackers
    else
      EngineTracked(TrackersAfter(trades[..|trades| - 1], cfg, sqrt), cfg,
                    Snaps(History(trades, sqrt), cfg.ringSize, cfg.lfast, cfg.lslow))
  }

  /** The trackers start at zero and, with weights in [0, 1], stay
      non-negative whatever the trades. */
  lemma {:induction false} TrackersStayNonNegative(trades: seq<Trade>, cfg: FiveDimConfig, sqrt: real -> real)
    requires cfg.ringSize > 0 && RatesInRange(cfg)
    ensures TrackersNonNegative(TrackersAfter(trades, cfg, sqrt))
    decreases |trades|
  {
    if trades != [] {
      TrackersStayNonNegative(trades[..|trades| - 1], cfg, sqrt);
      EngineTrackedNonNegative(TrackersAfter(trades[..|trades| - 1], cfg, sqrt), cfg,
                               Snaps(History(trades, sqrt), cfg.ringSize, cfg.lfast, cfg.lslow));
    }
  }

  /** The feature vectors of a day: vector i is what Engine.Update returns
      for trade i, after trades 0..i-1 have moved the trackers. */
  function DayVectors(trades: seq<Trade>, cfg: FiveDimConfig, sqrt: real -> real, log2: real -> real,
                      tanh: real -> real): (fvs: seq<FeatureVector>)
    requires cfg.ringSize > 0
    ensures |fvs| == |trades|
  {
    if trades == [] then []
    else
      var init := trades[..|trades| - 1];
      var hist := History(trades, sqrt);
      DayVectors(init, cfg, sqrt, log2, tanh)
      + [EngineFeatures(Snaps(hist, cfg.ringSize, cfg.lfast, cfg.lslow), hist, TrackersAfter(init, cfg, sqrt),
                        cfg, sqrt, log2, tanh)]
  }

  /** Vector j of a day is the engine's answer to trade j, with the ring
      of trades 0..j and the trackers of trades 0..j-1. */
  lemma DayVectorAt(trades: seq<Trade>, cfg: FiveDimConfig, sqrt: real -> real, log2: real -> real,
                    tanh: real -> real, j: nat)
    requires cfg.ringSize > 0 && j < |trades|
    ensures var hist := History(trades[..j + 1], sqrt);
      DayVectors(trades, cfg, sqrt, log2, tanh)[j]
      == EngineFeatures(Snaps(hist, cfg.ringSize, cfg.lfast, cfg.lslow), hist, TrackersAfter(trades[..j], cfg, sqrt),
                        cfg, sqrt, log2, tanh)
  {
    var head := trades[..j + 1];
    assert head[..j] == trades[..j];
    DayVectorsPrefix(trades, cfg, sqrt, log2, tanh, j + 1);
    assert DayVectors(trades, cfg, sqrt, log2, tanh)[j] == DayVectors(head, cfg, sqrt, log2, tanh)[j];
  }

  /** The features of a day's first k trades are the first k of the day:
      no vector depends on a later trade. */
  lemma {:induction false} DayVectorsPrefix(trades: seq<Trade>, cfg: FiveDimConfig, sqrt: real -> real,
                                            log2: real -> real, tanh: real -> real, k: nat)
    requires cfg.ringSize > 0 && k <= |trades|
    ensures DayVectors(trades[..k], cfg, sqrt, log2, tanh) == DayVectors(trades, cfg, sqrt, log2, tanh)[..k]
    decreases |trades|
  {
    if k == |trades| {
      assert trades[..k] == trades;
    } else {
      var init := trades[..|trades| - 1];
      DayVectorsPrefix(init, cfg, sqrt, log2, tanh, k);
      assert init[..k] == trades[..k];
      var fvs := DayVectors(init, cfg, sqrt, log2, tanh);
      assert DayVectors(trades, cfg, sqrt, log2, tanh)[..k] == fvs[..k];
    }
  }

  /** What processBuildDay does with a day: nothing (the output exists, or
      the blob did not load or has no rows), a runtime panic, or the file
      it writes. */
  datatype DayOutcome = Skipped | Panicked | Written(bytes: seq<byte>)

  /** reqSize = n * 5 * 8 as a Go int. */
  function ReqSize(n: i64): i64
  {
    WrapI64(n * 5 * 8)
  }

  /** Whether building a loaded day panics: reqSize wrapped negative
      slices the buffer with a negative bound; otherwise, with rows to
      process, a row slice past the blob's capacity (its body and the spare
      bytes of io.ReadAll's buffer) or (reqSize having wrapped) a write past
      the buffer panics part-way through the rows. */
  predicate DayPanics(day: RawBlob)
  {
    var n := ToI64(day.rowCount);
    ReqSize(n) < 0 || (n > 0 && (Layout.RowSize * n > |day.body| + |day.spare| || n * 40 >= I64_LIMIT))
  }

  /** The rows the loop runs exactly fit both the blob's capacity and the
      buffer when the day does not panic. */
  lemma NoPanicFits(day: RawBlob)
    requires !DayPanics(day) && ToI64(day.rowCount) > 0
    ensures Layout.RowSize * ToI64(day.rowCount) <= |day.body + day.spare|
    ensures ReqSize(ToI64(day.rowCount)) == 40 * ToI64(day.rowCount)
  {
  }

  /** processBuildDay. outExists is whether the output file is already
      there; stale is what the worker's reused buffer holds (its capacity
      is its length); spare is what io.ReadAll's buffer holds past the
      blob. Nothing happens when the file exists or the blob does not load
      or has no rows; otherwise BuildDay. */
  method ProcessBuildDay(outExists: bool, data: Opened, t: OfiTask, spare: seq<byte>, cfg: FiveDimConfig,
                         stale: seq<byte>, inflate: seq<byte> -> Build.Inflation, parse: seq<byte> -> Trade,
                         sqrt: real -> real, log2: real -> real, tanh: real -> real, bits: real -> u64)
      returns (out: DayOutcome)
    requires cfg.ringSize > 0 && t.length >= 0
    ensures out == Skipped <==>
      outExists || LoadRawBlob(data, t, inflate, spare).None? || LoadRawBlob(data, t, inflate, spare).value.rowCount == 0
    ensures out != Skipped ==>
      BuiltAs(out, LoadRawBlob(data, t, inflate, spare).value, cfg, stale, parse, sqrt, log2, tanh, bits)
  {
    if outExists {
      return Skipped;
    }
    var blob := LoadRawBlob(data, t, inflate, spare);
    if blob.None? || blob.value.rowCount == 0 {
      return Skipped;
    }
    out := BuildDay(blob.value, cfg, stale, parse, sqrt, log2, tanh, bits);
  }

  /** What building a day with rows yields: a panic exactly when DayPanics;
      with a positive row count, the features of the trades of the rows the
      loop slices (from the body, and past it from the spare capacity), one
      40-byte row each; with a negative one (reqSize wrapped to a size of
      zero or more), the buffer as sliced, no row having run. */
  predicate BuiltAs(out: DayOutcome, day: RawBlob, cfg: FiveDimConfig, stale: seq<byte>,
                    parse: seq<byte> -> Trade, sqrt: real -> real, log2: real -> real, tanh: real -> real,
                    bits: real -> u64)
    requires cfg.ringSize > 0
  {
    var n := ToI64(day.rowCount);
    var reqSize := ReqSize(n);
    var capacity := day.body + day.spare;
    (out == Panicked <==> DayPanics(day))
    && (out.Written? && n > 0 ==>
          Layout.RowSize * n <= |capacity|
          && out.bytes == FeatureRows(DayVectors(DayTrades(capacity, n, parse), cfg, sqrt, log2, tanh), bits))
    && (out.Written? && n < 0 ==>
          0 <= reqSize && out.bytes == if |stale| < reqSize then Zeros(reqSize) else stale[..reqSize])
  }

  /** A blob of just its header that claims one row does not panic: the
      row slice rawBytes[0:48] is bounded by the capacity, which io.ReadAll
      makes at least 512 bytes, so the day writes one 40-byte row made from
      the spare bytes. */
  lemma HeaderOnlyBlobBuilds(spare: seq<byte>, cfg: FiveDimConfig, stale: seq<byte>, parse: seq<byte> -> Trade,
                             sqrt: real -> real, log2: real -> real, tanh: real -> real, bits: real -> u64,
                             out: DayOutcome)
    requires cfg.ringSize > 0 && |spare| >= 512 - Layout.HeaderSize
    requires out != Skipped && BuiltAs(out, RawBlob([], spare, 1), cfg, stale, parse, sqrt, log2, tanh, bits)
    ensures out.Written? && |out.bytes| == 40
    ensures out.bytes == FeatureRow(DayVectors([parse(spare[..Layout.RowSize])], cfg, sqrt, log2, tanh)[0], bits)
  {
    var day := RawBlob([], spare, 1);
    assert ToI64(day.rowCount) == 1;
    assert !DayPanics(day);
    assert day.body + day.spare == spare;
    OneRowDay(spare, cfg, parse, sqrt, log2, tanh, bits);
  }

  /** The rows built from one trade parsed out of the first 48 bytes. */
  lemma OneRowDay(raw: seq<byte>, cfg: FiveDimConfig, parse: seq<byte> -> Trade,
                  sqrt: real -> real, log2: real -> real, tanh: real -> real, bits: real -> u64)
    requires cfg.ringSize > 0 && Layout.RowSize <= |raw|
    ensures var rows := FeatureRows(DayVectors(DayTrades(raw, 1, parse), cfg, sqrt, log2, tanh), bits);
      |rows| == 40 && rows == FeatureRow(DayVectors([parse(raw[..Layout.RowSize])], cfg, sqrt, log2, tanh)[0], bits)
  {
    var trades := DayTrades(raw, 1, parse);
    assert trades[0] == parse(raw[0..Layout.RowSize]);
    assert trades == [parse(raw[..Layout.RowSize])];
    var fvs := DayVectors(trades, cfg, sqrt, log2, tanh);
    assert FeatureRows(fvs, bits) == FeatureRows([], bits) + FeatureRow(fvs[0], bits);
  }

  /** The part of processBuildDay after a blob with rows has loaded. */
  method BuildDay(day: RawBlob, cfg: FiveDimConfig, stale: seq<byte>, parse: seq<byte> -> Trade,
                  sqrt: real -> real, log2: real -> real, tanh: real -> real, bits: real -> u64)
      returns (out: DayOutcome)
    requires cfg.ringSize > 0 && day.rowCount > 0
    ensures out != Skipped
    ensures BuiltAs(out, day, cfg, stale, parse, sqrt, log2, tanh, bits)
  {
    var rowCount := day.rowCount;
    // rawBytes as the row slices see it: bounded by its capacity
    var rawBytes := day.body + day.spare;
    var n := ToI64(rowCount);
    var reqSize := ReqSize(n);
    if reqSize < 0 {
      return Panicked;
    }
    var binBuf: array<byte>;
    if |stale| < reqSize {
      binBuf := new byte[reqSize](_ => 0);
    } else {
      binBuf := new byte[reqSize](p requires 0 <= p < reqSize => stale[p]);
    }
    if n > 0 && (Layout.RowSize * n > |rawBytes| || n * 40 >= I64_LIMIT) {
      return Panicked;
    }
    if n < 0 {
      return Written(binBuf[..]);
    }
    NoPanicFits(day);
    FillRows(rawBytes, n, cfg, binBuf, parse, sqrt, log2, tanh, bits);
    out := Written(binBuf[..]);
  }

  /** The row loop of processBuildDay: a new engine fed the day's trades
      in order, and row i of the buffer written with the features of
      trade i. */
  method FillRows(rawBytes: seq<byte>, n: nat, cfg: FiveDimConfig, binBuf: array<byte>, parse: seq<byte> -> Trade,
                  sqrt: real -> real, log2: real -> real, tanh: real -> real, bits: real -> u64)
    requires cfg.ringSize > 0 && Layout.RowSize * n <= |rawBytes| && binBuf.Length == 40 * n
    modifies binBuf
    ensures binBuf[..] == FeatureRows(DayVectors(DayTrades(rawBytes, n, parse), cfg, sqrt, log2, tanh), bits)
  {
    var core := new Core(cfg.ringSize, cfg.lfast, cfg.lslow, cfg.varAlphaB, cfg.alphaAbs, cfg.varAlphaS, cfg.alphaE);
    var engine := new Engine(core);
    ghost var trades := DayTrades(rawBytes, n, parse);
    var i := 0;
    while i < n
      invariant 0 <= i <= n
      invariant core.Valid() && engine.core == core && core.Cfg() == cfg
      invariant Fed(core.hist, trades[..i], sqrt)
      invariant core.Trk() == TrackersAfter(trades[..i], cfg, sqrt)
      invariant binBuf[..40 * i] == FeatureRows(DayVectors(trades[..i], cfg, sqrt, log2, tanh), bits)
    {
      FeedRow(engine, binBuf, rawBytes, n, i, cfg, trades, parse, sqrt, log2, tanh, bits);
      i := i + 1;
    }
    assert trades[..i] == trades;
    assert binBuf[..] == binBuf[..40 * i];
  }

  /** One pass of the row loop: row i parsed into a trade, the engine
      updated with it, and the five features written at 40 * i. */
  method FeedRow(engine: Engine, binBuf: array<byte>, rawBytes: seq<byte>, n: nat, i: nat, cfg: FiveDimConfig,
                 ghost trades: seq<Trade>, parse: seq<byte> -> Trade,
                 sqrt: real -> real, log2: real -> real, tanh: real -> real, bits: real -> u64)
    requires cfg.ringSize > 0 && i < n && Layout.RowSize * n <= |rawBytes| && binBuf.Length == 40 * n
    requires trades == DayTrades(rawBytes, n, parse)
    requires engine.core.Valid() && engine.core.Cfg() == cfg
    requires Fed(engine.core.hist, trades[..i], sqrt)
    requires engine.core.Trk() == TrackersAfter(trades[..i], cfg, sqrt)
    requires binBuf[..40 * i] == FeatureRows(DayVectors(trades[..i], cfg, sqrt, log2, tanh), bits)
    modifies engine.core`idx, engine.core`filled, engine.core`hist, engine.core`ewVarBf, engine.core`ewVarBs
    modifies engine.core`absBaseline, engine.core`ewVarS, engine.core`eRef
    modifies engine.core.u, engine.core.side, engine.core.qty, engine.core.price, engine.core.ts, engine.core.info
    modifies binBuf
    ensures engine.core.Valid()
    ensures Fed(engine.core.hist, trades[..i + 1], sqrt)
    ensures engine.core.Trk() == TrackersAfter(trades[..i + 1], cfg, sqrt)
    ensures binBuf[..40 * (i + 1)] == FeatureRows(DayVectors(trades[..i + 1], cfg, sqrt, log2, tanh), bits)
  {
    Data.MulMono(40, i + 1, n);
    ghost var fvs := DayVectors(trades[..i], cfg, sqrt, log2, tanh);
    var feats := FeedTrade(engine, rawBytes, n, i, cfg, trades, parse, sqrt, log2, tanh);
    assert engine.core.Valid();
    assert Fed(engine.core.hist, trades[..i + 1], sqrt);
    assert engine.core.Trk() == TrackersAfter(trades[..i + 1], cfg, sqrt);
    PutRow(binBuf, i, fvs, feats, bits);
  }

  /** The engine part of one pass of the row loop: row i parsed into a
      trade and the engine updated with it. */
  method FeedTrade(engine: Engine, rawBytes: seq<byte>, n: nat, i: nat, cfg: FiveDimConfig,
                   ghost trades: seq<Trade>, parse: seq<byte> -> Trade,
                   sqrt: real -> real, log2: real -> real, tanh: real -> real)
      returns (feats: FeatureVector)
    requires cfg.ringSize > 0 && i < n && Layout.RowSize * n <= |rawBytes|
    requires trades == DayTrades(rawBytes, n, parse)
    requires engine.core.Valid() && engine.core.Cfg() == cfg
    requires Fed(engine.core.hist, trades[..i], sqrt)
    requires engine.core.Trk() == TrackersAfter(trades[..i], cfg, sqrt)
    modifies engine.core`idx, engine.core`filled, engine.core`hist, engine.core`ewVarBf, engine.core`ewVarBs
    modifies engine.core`absBaseline, engine.core`ewVarS, engine.core`eRef
    modifies engine.core.u, engine.core.side, engine.core.qty, engine.core.price, engine.core.ts, engine.core.info
    ensures engine.core.Valid()
    ensures Fed(engine.core.hist, trades[..i + 1], sqrt)
    ensures engine.core.Trk() == TrackersAfter(trades[..i + 1], cfg, sqrt)
    ensures DayVectors(trades[..i + 1], cfg, sqrt, log2, tanh) == DayVectors(trades[..i], cfg, sqrt, log2, tanh) + [feats]
  {
    var core := engine.core;
    var off := Layout.RowSize * i;
    DayTradeAt(rawBytes, n, parse, i);
    var tr := parse(rawBytes[off..off + Layout.RowSize]);
    FedStep(core.hist, trades, i, tr, sqrt);
    feats := engine.Update(tr, sqrt, log2, tanh);
    DayStep(core.hist, trades, i, cfg, sqrt, log2, tanh);
  }

  lemma DayTradeAt(body: seq<byte>, n: nat, parse: seq<byte> -> Trade, i: nat)
    requires Layout.RowSize * n <= |body| && i < n
    ensures Layout.RowSize * i + Layout.RowSize <= |body|
    ensures DayTrades(body, n, parse)[i] == parse(body[Layout.RowSize * i..Layout.RowSize * i + Layout.RowSize])
  {
    Data.MulMono(Layout.RowSize, i + 1, n);
  }

  /** hist is the history of feeding trades to a new core, entry by entry. */
  ghost predicate Fed(hist: seq<Entry>, trades: seq<Trade>, sqrt: real -> real)
    decreases |trades|
  {
    |hist| == |trades|
    && (trades == []
        || (Fed(hist[..|hist| - 1], trades[..|trades| - 1], sqrt)
            && hist[|hist| - 1] == Record(hist[..|hist| - 1], trades[|trades| - 1], sqrt)))
  }

  lemma {:induction false} FedIsHistory(hist: seq<Entry>, trades: seq<Trade>, sqrt: real -> real)
    requires Fed(hist, trades, sqrt)
    ensures hist == History(trades, sqrt)
    decreases |trades|
  {
    if trades != [] {
      FedIsHistory(hist[..|hist| - 1], trades[..|trades| - 1], sqrt);
    }
  }

  /** Recording trade i extends the history of trades 0..i-1. */
  lemma FedStep(hist: seq<Entry>, trades: seq<Trade>, i: nat, tr: Trade, sqrt: real -> real)
    requires i < |trades| && tr == trades[i] && Fed(hist, trades[..i], sqrt)
    ensures Fed(hist + [Record(hist, tr, sqrt)], trades[..i + 1], sqrt)
  {
    assert trades[..i + 1][..i] == trades[..i];
    assert (hist + [Record(hist, tr, sqrt)])[..|hist|] == hist;
  }

  /** One more trade moves the day's trackers and features on by one
      Engine.Update over the ring of trades 0..i. */
  lemma DayStep(hist: seq<Entry>, trades: seq<Trade>, i: nat, cfg: FiveDimConfig, sqrt: real -> real,
                log2: real -> real, tanh: real -> real)
    requires cfg.ringSize > 0 && i < |trades| && Fed(hist, trades[..i + 1], sqrt)
    ensures var sp := Snaps(hist, cfg.ringSize, cfg.lfast, cfg.lslow);
      var before := TrackersAfter(trades[..i], cfg, sqrt);
      TrackersAfter(trades[..i + 1], cfg, sqrt) == EngineTracked(before, cfg, sp)
      && DayVectors(trades[..i + 1], cfg, sqrt, log2, tanh)
         == DayVectors(trades[..i], cfg, sqrt, log2, tanh) + [EngineFeatures(sp, hist, before, cfg, sqrt, log2, tanh)]
  {
    FedIsHistory(hist, trades[..i + 1], sqrt);
    assert trades[..i + 1][..i] == trades[..i];
  }

  // ---------------------------------------------------------------------
  // discoverSymbols, discoverTasks, loadRawBlob
  // ---------------------------------------------------------------------

  /** Whether discoverSymbols keeps a directory entry: a directory not
      named "features" or "common" and not starting with ".". */
  predicate IsSymbolDir(e: DirEntry)
  {
    e.isDir && e.name != "features" && e.name != "common" && !Text.HasPrefix(e.name, ".")
  }

  /** The names discoverSymbols keeps, in listing order. */
  function SymbolNames(entries: seq<DirEntry>): (syms: seq<string>)
    ensures |syms| <= |entries|
  {
    if entries == [] then []
    else
      var last := entries[|entries| - 1];
      SymbolNames(entries[..|entries| - 1]) + (if IsSymbolDir(last) then [last.name] else [])
  }

  /** A name is a symbol exactly when some kept entry carries it. */
  lemma {:induction false} SymbolNamesExact(entries: seq<DirEntry>, s: string)
    ensures s in SymbolNames(entries) <==> exists e :: e in entries && IsSymbolDir(e) && e.name == s
  {
    if entries != [] {
      var init := entries[..|entries| - 1];
      SymbolNamesExact(init, s);
      assert entries == init + [entries[|entries| - 1]];
      if exists e :: e in entries && IsSymbolDir(e) && e.name == s {
        var e :| e in entries && IsSymbolDir(e) && e.name == s;
        if e != entries[|entries| - 1] {
          assert e in init;
        }
      }
    }
  }

  /** discoverSymbols over the listing of the data directory (None when
      os.ReadDir fails, which gives no symbols). */
  method DiscoverSymbols(listing: Text.Option<seq<DirEntry>>) returns (syms: seq<string>)
    ensures syms == if listing.None? then [] else SymbolNames(listing.value)
  {
    syms := [];
    if listing.None? {
      return;
    }
    var entries := listing.value;
    for i := 0 to |entries|
      invariant syms == SymbolNames(entries[..i])
    {
      assert entries[..i + 1][..i] == entries[..i];
      var e := entries[i];
      if !e.isDir {
        continue;
      }
      var name := e.name;
      if name == "features" || name == "common" || Text.HasPrefix(name, ".") {
        continue;
      }
      syms := syms + [name];
    }
    assert entries[..|entries|] == entries;
  }

  /** A day to build: year and month from the directory names, and the
      index row's day, offset and length as Go ints. */
  datatype OfiTask = OfiTask(y: int, m: int, d: int, offset: i64, length: i64)

  /** The rule discoverTasks keeps an index row by. */
  predicate KeepRow(d: int, length: i64)
  {
    1 <= d <= 31 && length > 0
  }

  /** The task an index row read into row stands for. */
  function RowTask(row: seq<byte>, y: int, m: int): OfiTask
    requires |row| == Layout.IdxRowSize
  {
    OfiTask(y, m, GetU16(row, 0), ToI64(GetU64(row, 2)), ToI64(GetU64(row, 10)))
  }

  /** The row loop of discoverTasks from row i on: io.ReadFull into the
      same 26-byte buffer, its error ignored (a short read leaves the
      buffer's older bytes in place), and the row kept by KeepRow. */
  function TaskRows(file: seq<byte>, pos: nat, row: seq<byte>, i: nat, count: nat, y: int, m: int): seq<OfiTask>
    requires |row| == Layout.IdxRowSize
    decreases count - i
  {
    if i >= count then []
    else
      var r := FullRead(file, pos, row);
      var t := RowTask(r.buf, y, m);
      (if KeepRow(t.d, t.length) then [t] else []) + TaskRows(file, r.pos, r.buf, i + 1, count, y, m)
  }

  /** The tasks of one month's index file: the 16-byte header read with
      its error ignored, then as many rows as its count field says. */
  function MonthTasks(file: seq<byte>, y: int, m: int): seq<OfiTask>
  {
    var h := FullRead(file, 0, Zeros(Layout.IdxHeaderSize));
    TaskRows(file, h.pos, Zeros(Layout.IdxRowSize), 0, GetU64(h.buf, 8), y, m)
  }

  /** Every task kept has a day in 1..31 and a positive length. */
  lemma {:induction false} TaskRowsKept(file: seq<byte>, pos: nat, row: seq<byte>, i: nat, count: nat, y: int, m: int)
    requires |row| == Layout.IdxRowSize
    ensures forall t :: t in TaskRows(file, pos, row, i, count, y, m) ==> KeepRow(t.d, t.length) && t.y == y && t.m == m
    decreases count - i
  {
    if i < count {
      var r := FullRead(file, pos, row);
      TaskRowsKept(file, r.pos, r.buf, i + 1, count, y, m);
    }
  }

  /** The index rows from k on that discoverTasks keeps, as tasks. */
  function KeptRows(idx: seq<byte>, k: nat, y: int, m: int): seq<OfiTask>
    requires Data.Shaped(idx) && k <= Data.IndexCount(idx)
    decreases Data.IndexCount(idx) - k
  {
    if k == Data.IndexCount(idx) then []
    else
      Data.MulMono(Layout.IdxRowSize, k + 1, Data.IndexCount(idx));
      var e := Data.IndexRow(idx, k);
      var t := OfiTask(y, m, e.day, ToI64(e.offset), ToI64(e.length));
      (if KeepRow(t.d, t.length) then [t] else []) + KeptRows(idx, k + 1, y, m)
  }

  /** A full read of row k of a shaped index is that row: its task is
      the row's, and the offset moves to the next row. */
  lemma FullReadRow(idx: seq<byte>, row: seq<byte>, k: nat, y: int, m: int)
    requires Data.Shaped(idx) && k < Data.IndexCount(idx) && |row| == Layout.IdxRowSize
    ensures var r := FullRead(idx, Layout.IdxHeaderSize + Layout.IdxRowSize * k, row);
      var e := Data.IndexRow(idx, k);
      r.pos == Layout.IdxHeaderSize + Layout.IdxRowSize * (k + 1)
      && RowTask(r.buf, y, m) == OfiTask(y, m, e.day, ToI64(e.offset), ToI64(e.length))
  {
    var pos := Layout.IdxHeaderSize + Layout.IdxRowSize * k;
    Data.ReadRow(idx, row, k);
    FullReadIsFileRead(idx, pos, row);
  }

  /** On an index with exactly as many rows as its count, the row loop
      reads each row whole, so the tasks are the kept rows in order. */
  lemma {:induction false} TaskRowsShaped(idx: seq<byte>, pos: nat, row: seq<byte>, k: nat, y: int, m: int)
    requires Data.Shaped(idx) && k <= Data.IndexCount(idx) && |row| == Layout.IdxRowSize
    requires pos == Layout.IdxHeaderSize + Layout.IdxRowSize * k
    ensures TaskRows(idx, pos, row, k, Data.IndexCount(idx), y, m) == KeptRows(idx, k, y, m)
    decreases Data.IndexCount(idx) - k
  {
    if k < Data.IndexCount(idx) {
      FullReadRow(idx, row, k, y, m);
      var r := FullRead(idx, pos, row);
      var task := RowTask(r.buf, y, m);
      var kept := if KeepRow(task.d, task.length) then [task] else [];
      assert TaskRows(idx, pos, row, k, Data.IndexCount(idx), y, m)
        == kept + TaskRows(idx, r.pos, r.buf, k + 1, Data.IndexCount(idx), y, m);
      assert KeptRows(idx, k, y, m) == kept + KeptRows(idx, k + 1, y, m);
      TaskRowsShaped(idx, r.pos, r.buf, k + 1, y, m);
      assert TaskRows(idx, pos, row, k, Data.IndexCount(idx), y, m) == KeptRows(idx, k, y, m);
    } else {
      assert TaskRows(idx, pos, row, k, Data.IndexCount(idx), y, m) == [];
    }
  }

  lemma MonthTasksShaped(idx: seq<byte>, y: int, m: int)
    requires Data.Shaped(idx)
    ensures MonthTasks(idx, y, m) == KeptRows(idx, 0, y, m)
  {
    var h := FullRead(idx, 0, Zeros(Layout.IdxHeaderSize));
    assert h.buf == idx[..Layout.IdxHeaderSize];
    assert GetU64(h.buf, 8) == Data.IndexCount(idx) by {
      assert h.buf[8..16] == idx[8..16];
    }
    TaskRowsShaped(idx, Layout.IdxHeaderSize, Zeros(Layout.IdxRowSize), 0, y, m);
  }

  lemma AppendAssoc<T>(a: seq<T>, b: seq<T>, c: seq<T>)
    ensures a + (b + c) == (a + b) + c
  {
  }

  /** The month part of discoverTasks on an opened index file. */
  method ScanMonthIndex(f: File, y: int, m: int) returns (tasks: seq<OfiTask>)
    requires f.pos == 0
    modifies f
    ensures tasks == MonthTasks(f.data, y, m)
  {
    var hdr := new byte[Layout.IdxHeaderSize](_ => 0);
    assert hdr[..] == Zeros(Layout.IdxHeaderSize);
    var _ := f.ReadFull(hdr);
    var count := GetU64(hdr[..], 8);
    var row := new byte[Layout.IdxRowSize](_ => 0);
    assert row[..] == Zeros(Layout.IdxRowSize);
    tasks := [];
    var i: nat := 0;
    ghost var goal := MonthTasks(f.data, y, m);
    while i < count
      invariant i <= count
      invariant tasks + TaskRows(f.data, f.pos, row[..], i, count, y, m) == goal
    {
      ghost var tasks0, rest := tasks, TaskRows(f.data, f.pos, row[..], i, count, y, m);
      ghost var r := FullRead(f.data, f.pos, row[..]);
      var _ := f.ReadFull(row);
      var cur := row[..];
      assert cur == r.buf && f.pos == r.pos;
      var d := GetU16(cur, 0);
      var offset := ToI64(GetU64(cur, 2));
      var length := ToI64(GetU64(cur, 10));
      ghost var kept := if KeepRow(d, length) then [OfiTask(y, m, d, offset, length)] else [];
      ghost var next := TaskRows(f.data, f.pos, cur, i + 1, count, y, m);
      assert rest == kept + next;
      if d >= 1 && d <= 31 && length > 0 {
        tasks := tasks + [OfiTask(y, m, d, offset, length)];
      }
      assert tasks == tasks0 + kept;
      AppendAssoc(tasks0, kept, next);
      assert tasks + next == goal;
      i := i + 1;
    }
  }

  /** A blob as loadRawBlob returns it: the body after the 48-byte header,
      the bytes of io.ReadAll's buffer past the blob (its spare capacity,
      which slices with an upper bound can still reach), and the header's
      row count. */
  datatype RawBlob = RawBlob(body: seq<byte>, spare: seq<byte>, rowCount: u64)

  /** loadRawBlob: the data file, Seek(t.Offset) (a negative offset fails),
      a full read of t.Length bytes, zlib and io.ReadAll (any error fails),
      and an inflated blob of at least the 48-byte header; the body after
      the header, the buffer's spare bytes and the header's row count. */
  function LoadRawBlob(data: Opened, t: OfiTask, inflate: seq<byte> -> Build.Inflation, spare: seq<byte>)
    : (r: Text.Option<RawBlob>)
    requires t.length >= 0
    ensures data.OpenFailed? || t.offset < 0 ==> r.None?
    ensures r.Some? ==> r.value.spare == spare
  {
    if data.OpenFailed? || t.offset < 0 then Text.None
    else
      var comp := FullRead(data.contents, t.offset, Zeros(t.length));
      if comp.err != NoErr then Text.None
      else match inflate(comp.buf)
        case NotZlib => Text.None
        case Inflated(raw, complete) =>
          if !complete || |raw| < Layout.HeaderSize then Text.None
          else Text.Some(RawBlob(raw[Layout.HeaderSize..], spare, GetU64(raw, 8)))
  }

  /** A loaded blob is the inflated image of exactly the bytes the task
      points at: its body follows the header and its row count is the
      header's. */
  lemma LoadRawBlobReads(data: Opened, t: OfiTask, inflate: seq<byte> -> Build.Inflation, spare: seq<byte>)
    requires t.length > 0 && LoadRawBlob(data, t, inflate, spare).Some?
    ensures data.Opened? && 0 <= t.offset && t.offset + t.length <= |data.contents|
    ensures inflate(data.contents[t.offset..t.offset + t.length]).Inflated?
    ensures var b := inflate(data.contents[t.offset..t.offset + t.length]);
      b.complete && |b.blob| >= Layout.HeaderSize
      && LoadRawBlob(data, t, inflate, spare).value == RawBlob(b.blob[Layout.HeaderSize..], spare, GetU64(b.blob, 8))
  {
  }
}
