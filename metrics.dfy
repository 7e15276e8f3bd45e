/**
 * metrics.go: the metric records of the OFI reports and the index and
 * counter logic of their calculators: filepathDir, getRanks and the rank
 * correlation, directionalHitRate, AutoCorrelation, rollingICStats,
 * CalcQuantileSpread, EstimateEntropy and the guards of
 * ComputeHorizonMetrics. Prices, signals and returns are reals; float64
 * rounding is not modelled and the library functions of math are the
 * parameters bundled in Shared.Ops.
 */
module Metrics {
  import opened Shared
  import Sorting
  import Bytes
  import Data

  // ---------------------------------------------------------------------
  // Records
  // ---------------------------------------------------------------------

  /** SignalMetrics: the distribution of a raw signal. */
  datatype SignalMetrics = SignalMetrics(
    mean: real, stdDev: real, skew: real, kurtosis: real, pctOutliers: real,
    autocorr: real, turnover: real, zeroPct: real, hurst: real, entropy: real)

  /** HorizonMetrics: predictive and PnL statistics at one horizon. */
  datatype HorizonMetrics = HorizonMetrics(
    icPearson: real, icSpearman: real, icStd: real, icir: real, shuffledIC: real,
    tStat: real, directionalHit: real, alpha: real, beta: real,
    decileSpreadBps: real, breakevenBps: real, fillRate: real,
    theoreticalSharpe: real, hacSharpe: real, probSharpeRatio: real,
    sortinoRatio: real, calmarRatio: real,
    winRate: real, profitFactor: real, avgWinLoss: real,
    alphaHalfLifeBars: real, alphaHalfLifeMs: real)

  /** The Go zero value HorizonMetrics{}. */
  const ZeroHorizon: HorizonMetrics := HorizonMetrics(
    0.0, 0.0, 0.0, 0.0, 0.0, 0.0, 0.0, 0.0, 0.0, 0.0, 0.0, 0.0,
    0.0, 0.0, 0.0, 0.0, 0.0, 0.0, 0.0, 0.0, 0.0, 0.0)

  /** AlphaMetrics: one signal on one dataset; its label reads
      "SYMBOL|VARIANT|YYYY-MM-DD" and its horizons are keyed "20", "50", ... */
  datatype AlphaMetrics = AlphaMetrics(
    labelStr: string, nBars: int, signal: SignalMetrics, horizon: map<string, HorizonMetrics>)

  // ---------------------------------------------------------------------
  // filepathDir
  // ---------------------------------------------------------------------

  predicate IsSep(c: char) { c == '/' || c == '\\' }

  /** filepathDir: the text before the last separator ('/' or '\\'), or "."
      when there is none past the first character. */
  method FilepathDir(path: string) returns (dir: string)
    ensures (forall k :: 1 <= k < |path| ==> !IsSep(path[k])) ==> dir == "."
    ensures (exists k :: 1 <= k < |path| && IsSep(path[k])) ==>
      1 <= |dir| < |path| && dir == path[..|dir|] && IsSep(path[|dir|]) &&
      forall k :: |dir| < k < |path| ==> !IsSep(path[k])
  {
    var last := -1;
    var i := |path| - 1;
    while i >= 0
      invariant -1 <= i < |path| && last == -1
      invariant forall k :: i < k < |path| ==> !IsSep(path[k])
    {
      if IsSep(path[i]) {
        last := i;
        break;
      }
      i := i - 1;
    }
    if last <= 0 {
      return ".";
    }
    return path[..last];
  }

  // ---------------------------------------------------------------------
  // getRanks
  // ---------------------------------------------------------------------

  /** rankPair: a value and the position it came from. */
  datatype RankPair = RankPair(val: real, idx: nat)

  /** The pairs getRanks and CalcQuantileSpread build: value i with index i. */
  function Pairs(v: seq<real>): (ps: seq<RankPair>)
    ensures |ps| == |v| && forall i :: 0 <= i < |v| ==> ps[i] == RankPair(v[i], i)
  {
    seq(|v|, i requires 0 <= i < |v| => RankPair(v[i], i))
  }

  /** "Not after" for the less function pairs[i].val < pairs[j].val. */
  predicate ValLe(a: RankPair, b: RankPair) { a.val <= b.val }

  lemma ValLeOrder()
    ensures Sorting.TotalPreorder(ValLe)
  {
  }

  /** Every pair of ps points below n. */
  predicate IdxBelow(ps: seq<RankPair>, n: nat)
  {
    forall p :: 0 <= p < |ps| ==> ps[p].idx < n
  }

  /** ps holds the pairs of v, each index 0 .. n-1 exactly once. */
  ghost predicate IndexPerm(ps: seq<RankPair>, v: seq<real>)
  {
    |ps| == |v| && IdxBelow(ps, |v|) &&
    (forall p :: 0 <= p < |ps| ==> ps[p].val == v[ps[p].idx]) &&
    (forall p, q :: 0 <= p < q < |ps| ==> ps[p].idx != ps[q].idx) &&
    (forall j :: 0 <= j < |v| ==> Pairs(v)[j] in ps)
  }

  /** Every element of a permutation of the pairs is the pair of its index. */
  lemma PermPairs(ps: seq<RankPair>, v: seq<real>)
    requires multiset(ps) == multiset(Pairs(v))
    ensures forall p :: 0 <= p < |ps| ==> ps[p].idx < |v| && ps[p] == Pairs(v)[ps[p].idx]
  {
    forall p | 0 <= p < |ps|
      ensures ps[p].idx < |v| && ps[p] == Pairs(v)[ps[p].idx]
    {
      assert ps[p] in multiset(Pairs(v));
    }
  }

  /** Two equal elements at two positions count twice. */
  lemma TwoCopies<T>(s: seq<T>, p: nat, q: nat)
    requires p < q < |s| && s[p] == s[q]
    ensures multiset(s)[s[p]] >= 2
  {
    assert s == s[..q] + [s[q]] + s[q + 1..];
    assert s[p] in s[..q];
  }

  /** In a sequence without repeats every element counts at most once. */
  lemma {:induction false} DistinctOnce<T>(s: seq<T>, x: T)
    requires forall i, j :: 0 <= i < j < |s| ==> s[i] != s[j]
    ensures multiset(s)[x] <= 1
  {
    if s != [] {
      var t := s[..|s| - 1];
      DistinctOnce(t, x);
      assert s == t + [s[|s| - 1]];
      if s[|s| - 1] == x {
        assert x !in t;
      }
    }
  }

  /** A permutation of the pairs repeats no index. */
  lemma PermDistinct(ps: seq<RankPair>, v: seq<real>)
    requires multiset(ps) == multiset(Pairs(v))
    ensures forall p, q :: 0 <= p < q < |ps| ==> ps[p].idx != ps[q].idx
  {
    PermPairs(ps, v);
    forall p, q | 0 <= p < q < |ps|
      ensures ps[p].idx != ps[q].idx
    {
      if ps[p].idx == ps[q].idx {
        DistinctOnce(Pairs(v), ps[p]);
        TwoCopies(ps, p, q);
        assert false;
      }
    }
  }

  /** A permutation of the pairs holds every one of them. */
  lemma PermCovers(ps: seq<RankPair>, v: seq<real>)
    requires multiset(ps) == multiset(Pairs(v))
    ensures forall j :: 0 <= j < |v| ==> Pairs(v)[j] in ps
  {
    forall j | 0 <= j < |v|
      ensures Pairs(v)[j] in ps
    {
      assert Pairs(v)[j] in multiset(ps);
    }
  }

  /** The pairs in the order sort.Slice leaves them: ascending by value. */
  function SortedPairs(v: seq<real>): (ps: seq<RankPair>)
    ensures |ps| == |v| && IdxBelow(ps, |v|) && multiset(ps) == multiset(Pairs(v))
    ensures forall p :: 0 <= p < |ps| ==> ps[p].val == v[ps[p].idx]
    ensures forall p, q :: 0 <= p < q < |ps| ==> ps[p].val <= ps[q].val
  {
    ValLeOrder();
    var ps := Sorting.SortBy(Pairs(v), ValLe);
    assert forall p, q :: 0 <= p < q < |ps| ==> ValLe(ps[p], ps[q]);
    PermPairs(ps, v);
    ps
  }

  /** The sorted pairs hold each index 0 .. n-1 exactly once. */
  lemma SortedPairsPerm(v: seq<real>)
    ensures IndexPerm(SortedPairs(v), v)
  {
    PermDistinct(SortedPairs(v), v);
    PermCovers(SortedPairs(v), v);
  }

  /** The rank array after the first |ps| writes of getRanks's fill loop:
      0 everywhere, then rank p + 1 at the index of pair p. */
  function Fill(ps: seq<RankPair>, n: nat): (r: seq<real>)
    requires IdxBelow(ps, n)
    ensures |r| == n
  {
    if ps == [] then seq(n, _ => 0.0)
    else Fill(ps[..|ps| - 1], n)[ps[|ps| - 1].idx := |ps| as real]
  }

  /** What getRanks returns. */
  function RanksOf(v: seq<real>): (r: seq<real>)
    ensures |r| == |v|
  {
    Fill(SortedPairs(v), |v|)
  }

  /** With no index written twice, each pair keeps the rank it was given. */
  lemma {:induction false} FillAt(ps: seq<RankPair>, n: nat, p: nat)
    requires IdxBelow(ps, n)
    requires forall k, l :: 0 <= k < l < |ps| ==> ps[k].idx != ps[l].idx
    requires p < |ps|
    ensures Fill(ps, n)[ps[p].idx] == (p + 1) as real
  {
    if p < |ps| - 1 {
      FillAt(ps[..|ps| - 1], n, p);
    }
  }

  /** getRanks: writes rank i + 1 at the index of the i-th sorted pair. */
  method GetRanks(v: seq<real>) returns (ranks: seq<real>)
    ensures ranks == RanksOf(v)
  {
    var n := |v|;
    var pairs := SortedPairs(v);
    var r := new real[n](_ => 0.0);
    for i := 0 to n
      invariant r[..] == Fill(pairs[..i], n)
    {
      assert pairs[..i + 1][..i] == pairs[..i];
      r[pairs[i].idx] := (i + 1) as real;
    }
    assert pairs[..n] == pairs;
    ranks := r[..];
  }

  /** Rank p + 1 sits at the index of the p-th smallest pair. */
  lemma RankAtSorted(v: seq<real>)
    ensures forall p :: 0 <= p < |v| ==> RanksOf(v)[SortedPairs(v)[p].idx] == (p + 1) as real
  {
    SortedPairsPerm(v);
    forall p | 0 <= p < |v|
      ensures RanksOf(v)[SortedPairs(v)[p].idx] == (p + 1) as real
    {
      FillAt(SortedPairs(v), |v|, p);
    }
  }

  /** The sorted position whose rank index j received. */
  lemma RankOfIndex(v: seq<real>, j: nat) returns (p: nat)
    requires j < |v|
    ensures p < |v| && SortedPairs(v)[p].idx == j && RanksOf(v)[j] == (p + 1) as real
  {
    SortedPairsPerm(v);
    assert Pairs(v)[j] in SortedPairs(v);
    p :| 0 <= p < |v| && SortedPairs(v)[p] == Pairs(v)[j];
    FillAt(SortedPairs(v), |v|, p);
  }

  /** The ranks are a permutation of 1 .. n: each is a whole number in
      1 .. n, no two are equal, and rank p + 1 goes to the p-th smallest
      value; so a strictly smaller value always has a strictly smaller rank. */
  lemma RanksArePermutation(v: seq<real>)
    ensures forall j :: 0 <= j < |v| ==>
      1.0 <= RanksOf(v)[j] <= |v| as real && RanksOf(v)[j] == RanksOf(v)[j].Floor as real
    ensures forall a, b :: 0 <= a < b < |v| ==> RanksOf(v)[a] != RanksOf(v)[b]
    ensures forall p :: 0 <= p < |v| ==> RanksOf(v)[SortedPairs(v)[p].idx] == (p + 1) as real
    ensures forall a, b :: 0 <= a < |v| && 0 <= b < |v| && v[a] < v[b] ==> RanksOf(v)[a] < RanksOf(v)[b]
  {
    RankAtSorted(v);
    forall j | 0 <= j < |v|
      ensures 1.0 <= RanksOf(v)[j] <= |v| as real && RanksOf(v)[j] == RanksOf(v)[j].Floor as real
    {
      var p := RankOfIndex(v, j);
    }
    forall a, b | 0 <= a < b < |v|
      ensures RanksOf(v)[a] != RanksOf(v)[b]
    {
      var pa := RankOfIndex(v, a);
      var pb := RankOfIndex(v, b);
    }
    forall a, b | 0 <= a < |v| && 0 <= b < |v| && v[a] < v[b]
      ensures RanksOf(v)[a] < RanksOf(v)[b]
    {
      var pa := RankOfIndex(v, a);
      var pb := RankOfIndex(v, b);
    }
  }

  /** SpearmanCorrelation: the correlation of the two rank vectors, 0 for
      mismatched or empty inputs. */
  method SpearmanCorrelation(x: seq<real>, y: seq<real>, ops: Ops) returns (rho: real)
    ensures |x| == 0 || |x| != |y| ==> rho == 0.0
    ensures |x| != 0 && |x| == |y| ==> rho == Correlation(RanksOf(x), RanksOf(y), ops)
  {
    if |x| == 0 || |x| != |y| {
      return 0.0;
    }
    var rx := GetRanks(x);
    var ry := GetRanks(y);
    rho := Correlation(rx, ry, ops);
  }
  // ---------------------------------------------------------------------
  // CalcQuantileSpread
  // ---------------------------------------------------------------------

  /** The returns at the indices of sorted positions a .. b-1. */
  function BucketSum(ret: seq<real>, ps: seq<RankPair>, a: nat, b: nat): real
    requires a <= b <= |ps| && IdxBelow(ps, |ret|)
    decreases b
  {
    if a == b then 0.0 else BucketSum(ret, ps, a, b - 1) + ret[ps[b - 1].idx]
  }

  /** The bucket size n / buckets, or 0 when a guard returns early. */
  function BucketSize(n: nat, nRet: nat, buckets: int): (sz: nat)
    ensures sz > 0 ==> n > 0 && n == nRet && buckets > 1 && sz == n / buckets && 2 * sz <= n
  {
    if n == 0 || n != nRet || buckets <= 1 then 0
    else
      Bytes.DivModUnique(n, buckets, n / buckets, n % buckets);
      Data.MulMono(n / buckets, 2, buckets);
      n / buckets
  }

  /** The top-minus-bottom spread of mean returns when the sz lowest and sz
      highest signals are bucketed, or 0 when a guard returns early. */
  function QuantileSpread(sig: seq<real>, ret: seq<real>, buckets: int): real
  {
    var sz := BucketSize(|sig|, |ret|, buckets);
    if sz == 0 then 0.0
    else
      var ps := SortedPairs(sig);
      var n := |sig|;
      BucketSum(ret, ps, n - sz, n) / sz as real - BucketSum(ret, ps, 0, sz) / sz as real
  }

  /** The bottom and top buckets of CalcQuantileSpread: with buckets > 1
      they are disjoint, and every bottom signal is at most every signal
      outside the bottom bucket, every top signal at least every signal
      outside the top bucket. */
  lemma QuantileBuckets(sig: seq<real>, ret: seq<real>, buckets: int)
    requires BucketSize(|sig|, |ret|, buckets) > 0
    ensures var sz, n := BucketSize(|sig|, |ret|, buckets), |sig|;
      (sz <= n - sz &&
       (forall p, q :: 0 <= p < sz <= q < n ==>
         sig[SortedPairs(sig)[p].idx] <= sig[SortedPairs(sig)[q].idx]) &&
       (forall p, q :: 0 <= p < n - sz <= q < n ==>
         sig[SortedPairs(sig)[p].idx] <= sig[SortedPairs(sig)[q].idx]))
  {
  }

  /** One summing loop of CalcQuantileSpread: the returns at the indices
      of sorted positions a .. b-1. */
  method SumBucket(ret: seq<real>, pairs: seq<RankPair>, a: nat, b: nat) returns (sum: real)
    requires a <= b <= |pairs| && IdxBelow(pairs, |ret|)
    ensures sum == BucketSum(ret, pairs, a, b)
  {
    sum := 0.0;
    for i := a to b
      invariant sum == BucketSum(ret, pairs, a, i)
    {
      sum := sum + ret[pairs[i].idx];
    }
  }

  /** CalcQuantileSpread: the mean return of the top bucket minus that of
      the bottom bucket. */
  method CalcQuantileSpread(sig: seq<real>, ret: seq<real>, buckets: int) returns (spread: real)
    ensures spread == QuantileSpread(sig, ret, buckets)
  {
    var n := |sig|;
    if n == 0 || n != |ret| || buckets <= 1 {
      return 0.0;
    }
    var pairs := SortedPairs(sig);
    var sz := n / buckets;
    assert sz == BucketSize(n, |ret|, buckets);
    if sz == 0 {
      return 0.0;
    }
    var sumBot := SumBucket(ret, pairs, 0, sz);
    var sumTop := SumBucket(ret, pairs, n - sz, n);
    spread := sumTop / sz as real - sumBot / sz as real;
  }

  // ---------------------------------------------------------------------
  // directionalHitRate
  // ---------------------------------------------------------------------

  /** A pair with both values non-zero. */
  predicate Directional(s: real, r: real) { s != 0.0 && r != 0.0 }

  /** Signal and return of the same sign. */
  predicate SameSign(s: real, r: real) { (s > 0.0 && r > 0.0) || (s < 0.0 && r < 0.0) }

  function ValidCount(sig: seq<real>, ret: seq<real>, k: nat): nat
    requires k <= |sig| && k <= |ret|
  {
    if k == 0 then 0
    else ValidCount(sig, ret, k - 1) + (if Directional(sig[k - 1], ret[k - 1]) then 1 else 0)
  }

  function HitCount(sig: seq<real>, ret: seq<real>, k: nat): nat
    requires k <= |sig| && k <= |ret|
  {
    if k == 0 then 0
    else HitCount(sig, ret, k - 1) + (if SameSign(sig[k - 1], ret[k - 1]) then 1 else 0)
  }

  /** A same-sign pair is a directional one, so hits never exceed valid pairs. */
  lemma {:induction false} HitsAtMostValid(sig: seq<real>, ret: seq<real>, k: nat)
    requires k <= |sig| && k <= |ret|
    ensures HitCount(sig, ret, k) <= ValidCount(sig, ret, k)
  {
    if k > 0 {
      HitsAtMostValid(sig, ret, k - 1);
    }
  }

  /** The hit rate: hits over directional pairs, 0 for empty or mismatched
      inputs and when no pair is directional; always within [0, 1]. */
  function HitRate(sig: seq<real>, ret: seq<real>): (rate: real)
    ensures 0.0 <= rate <= 1.0
    ensures |sig| == 0 || |sig| != |ret| ==> rate == 0.0
    ensures |sig| == |ret| && ValidCount(sig, ret, |sig|) == 0 ==> rate == 0.0
    ensures |sig| == |ret| && ValidCount(sig, ret, |sig|) > 0 ==>
      rate * ValidCount(sig, ret, |sig|) as real == HitCount(sig, ret, |sig|) as real
  {
    if |sig| == 0 || |sig| != |ret| then 0.0
    else
      var valid := ValidCount(sig, ret, |sig|);
      if valid == 0 then 0.0
      else
        HitsAtMostValid(sig, ret, |sig|);
        HitCount(sig, ret, |sig|) as real / valid as real
  }

  /** directionalHitRate: one counting pass. */
  method DirectionalHitRate(sig: seq<real>, ret: seq<real>) returns (rate: real)
    ensures rate == HitRate(sig, ret)
  {
    var n := |sig|;
    if n == 0 || n != |ret| {
      return 0.0;
    }
    var hits, valid := 0, 0;
    for i := 0 to n
      invariant hits == HitCount(sig, ret, i) && valid == ValidCount(sig, ret, i)
    {
      var s, r := sig[i], ret[i];
      if s == 0.0 || r == 0.0 {
        continue;
      }
      valid := valid + 1;
      if (s > 0.0 && r > 0.0) || (s < 0.0 && r < 0.0) {
        hits := hits + 1;
      }
    }
    if valid == 0 {
      return 0.0;
    }
    return hits as real / valid as real;
  }

  // ---------------------------------------------------------------------
  // AutoCorrelation
  // ---------------------------------------------------------------------

  /** AutoCorrelation: the correlation of x with itself lag steps later;
      0 when lag <= 0 or lag >= n. */
  function AutoCorrelation(x: seq<real>, lag: int, ops: Ops): (r: real)
    ensures lag <= 0 || lag >= |x| ==> r == 0.0
  {
    if lag >= |x| || lag <= 0 then 0.0
    else Correlation(x[..|x| - lag], x[lag..], ops)
  }

  /** Inside the guard, AutoCorrelation correlates the n - lag pairs
      (x[k], x[k + lag]). */
  lemma AutoCorrelationPairs(x: seq<real>, lag: int, ops: Ops, a: seq<real>, b: seq<real>)
    requires 0 < lag < |x|
    requires |a| == |b| == |x| - lag
    requires forall k :: 0 <= k < |a| ==> a[k] == x[k] && b[k] == x[k + lag]
    ensures AutoCorrelation(x, lag, ops) == Correlation(a, b, ops)
  {
    assert a == x[..|x| - lag];
    assert b == x[lag..];
  }

  // ---------------------------------------------------------------------
  // rollingICStats
  // ---------------------------------------------------------------------

  /** Window k of width w lies inside a series of n >= (k + 1) * w values. */
  lemma WindowFits(n: nat, w: nat, k: nat)
    requires w > 0 && k < n / w
    ensures (k + 1) * w <= n && k * w + w == (k + 1) * w
  {
    Bytes.DivModUnique(n, w, n / w, n % w);
    Data.MulMono(w, k + 1, n / w);
  }

  /** A window that fits is one of the n / w counted. */
  lemma BelowQuotient(n: nat, w: nat, k: nat)
    requires w > 0 && (k + 1) * w <= n
    ensures k < n / w
  {
    Bytes.DivModUnique(n, w, n / w, n % w);
    if n / w <= k {
      Data.MulMono(w, n / w + 1, k + 1);
    }
  }

  /** The correlation of window k: positions [k*w, (k+1)*w). */
  function WindowIC(sig: seq<real>, ret: seq<real>, w: nat, k: nat, ops: Ops): real
    requires w > 0 && |sig| == |ret| && k < |sig| / w
  {
    WindowFits(|sig|, w, k);
    Correlation(sig[k * w..(k + 1) * w], ret[k * w..(k + 1) * w], ops)
  }

  /** The ICs of the n / w non-overlapping windows, in order. */
  function WindowICs(sig: seq<real>, ret: seq<real>, w: nat, m: nat, ops: Ops): (ics: seq<real>)
    requires w > 0 && |sig| == |ret| && m <= |sig| / w
    ensures |ics| == m && forall k :: 0 <= k < m ==> ics[k] == WindowIC(sig, ret, w, k, ops)
  {
    if m == 0 then [] else WindowICs(sig, ret, w, m - 1, ops) + [WindowIC(sig, ret, w, m - 1, ops)]
  }

  /** Past the length guard there are at least two windows, so the second
      guard of rollingICStats (fewer than two ICs) never returns. */
  lemma TwoWindows(n: nat, w: nat)
    requires w > 0 && n >= 2 * w
    ensures n / w >= 2
  {
    Bytes.DivModUnique(n, w, n / w, n % w);
    if n / w < 2 {
      Data.MulMono(w, n / w, 1);
    }
  }

  /** One more window: the loop of rollingICStats appends the IC of
      positions [i, i + w) as IC number |ics|. */
  lemma WindowStep(sig: seq<real>, ret: seq<real>, w: nat, ics: seq<real>, i: nat, ops: Ops)
    requires w > 0 && |sig| == |ret| && i == |ics| * w && i + w <= |sig|
    requires |ics| <= |sig| / w && ics == WindowICs(sig, ret, w, |ics|, ops)
    ensures |ics| + 1 <= |sig| / w && i + w == (|ics| + 1) * w
    ensures ics + [Correlation(sig[i..i + w], ret[i..i + w], ops)] == WindowICs(sig, ret, w, |ics| + 1, ops)
  {
    var k := |ics|;
    MulSucc(k, w);
    BelowQuotient(|sig|, w, k);
    assert WindowIC(sig, ret, w, k, ops) == Correlation(sig[i..i + w], ret[i..i + w], ops);
  }

  lemma MulSucc(k: nat, w: nat)
    ensures (k + 1) * w == k * w + w
  {
  }

  /** The loop of rollingICStats stops after exactly n / w windows. */
  lemma WindowsDone(n: nat, w: nat, k: nat, i: nat)
    requires w > 0 && i == k * w && i <= n < i + w
    ensures k == n / w
  {
    Bytes.DivModUnique(n, w, k, n - i);
  }

  /** The deviation loop of rollingICStats. */
  method SumSquaredDeviations(xs: seq<real>, m: real) returns (sumSq: real)
    ensures sumSq == SumSqDev(xs, m)
  {
    sumSq := 0.0;
    for j := 0 to |xs|
      invariant sumSq == SumSqDev(xs[..j], m)
    {
      var d := xs[j] - m;
      assert xs[..j + 1] == xs[..j] + [xs[j]];
      Shared.SumSqDevSnoc(xs[..j], xs[j], m);
      sumSq := sumSq + d * d;
    }
    assert xs[..|xs|] == xs;
  }

  /** rollingICStats: (0, 0) unless the lengths match and there are at
      least two windows; otherwise the mean IC of the windows and their
      sample deviation. A window of width <= 0 never ends the loop, so the
      width must be positive. */
  method RollingICStats(sig: seq<real>, ret: seq<real>, window: int, ops: Ops)
    returns (meanIC: real, stdIC: real)
    requires window > 0
    ensures |sig| != |ret| || |sig| < 2 * window ==> meanIC == 0.0 && stdIC == 0.0
    ensures |sig| == |ret| && |sig| >= 2 * window ==>
      var ics := WindowICs(sig, ret, window, |sig| / window, ops);
      meanIC == Mean(ics) && stdIC == StdDev(ics, meanIC, ops)
  {
    var n := |sig|;
    if n != |ret| || n < window * 2 {
      return 0.0, 0.0;
    }
    var ics: seq<real> := [];
    var i := 0;
    while i + window <= n
      invariant i == |ics| * window && i <= n && |ics| <= n / window
      invariant ics == WindowICs(sig, ret, window, |ics|, ops)
      decreases n - i
    {
      var ic := Correlation(sig[i..i + window], ret[i..i + window], ops);
      WindowStep(sig, ret, window, ics, i, ops);
      ics := ics + [ic];
      i := i + window;
    }
    WindowsDone(n, window, |ics|, i);
    TwoWindows(n, window);
    if |ics| < 2 {
      return 0.0, 0.0;
    }
    var m := Mean(ics);
    var sumSq := SumSquaredDeviations(ics, m);
    return m, ops.sqrt(sumSq / (|ics| - 1) as real);
  }

  // ---------------------------------------------------------------------
  // EstimateEntropy
  // ---------------------------------------------------------------------

  /** Go's int(x) of a float64: truncation toward zero. */
  function Trunc(x: real): int
  {
    if x >= 0.0 then x.Floor else -((-x).Floor)
  }

  /** The histogram bin of v: int(bins * (v - minV) / rng), clamped into
      [0, bins - 1]. */
  function BinOf(v: real, minV: real, rng: real, bins: int): (b: int)
    requires rng > 0.0 && bins > 1
    ensures 0 <= b < bins
  {
    var idx := Trunc(bins as real * (v - minV) / rng);
    if idx < 0 then 0 else if idx >= bins then bins - 1 else idx
  }

  /** The running minimum and maximum of the scan, started at x[0]. */
  function MinOf(x: seq<real>): real
    requires |x| > 0
  {
    if |x| == 1 then x[0]
    else
      var m := MinOf(x[..|x| - 1]);
      if x[|x| - 1] < m then x[|x| - 1] else m
  }

  function MaxOf(x: seq<real>): real
    requires |x| > 0
  {
    if |x| == 1 then x[0]
    else
      var m := MaxOf(x[..|x| - 1]);
      if x[|x| - 1] > m then x[|x| - 1] else m
  }

  /** The scan finds a least and a greatest element of x. */
  lemma {:induction false} MinMaxBounds(x: seq<real>)
    requires |x| > 0
    ensures MinOf(x) in x && MaxOf(x) in x
    ensures forall k :: 0 <= k < |x| ==> MinOf(x) <= x[k] <= MaxOf(x)
  {
    if |x| > 1 {
      var p := x[..|x| - 1];
      MinMaxBounds(p);
      assert forall k :: 0 <= k < |p| ==> p[k] == x[k];
    }
  }

  /** The counts after the values xs were binned. */
  function Histogram(xs: seq<real>, minV: real, rng: real, bins: int): (h: seq<int>)
    requires rng > 0.0 && bins > 1
    ensures |h| == bins
  {
    if xs == [] then seq(bins, _ => 0)
    else
      var h := Histogram(xs[..|xs| - 1], minV, rng, bins);
      var b := BinOf(xs[|xs| - 1], minV, rng, bins);
      h[b := h[b] + 1]
  }

  function SumInts(h: seq<int>): int
  {
    if h == [] then 0 else SumInts(h[..|h| - 1]) + h[|h| - 1]
  }

  lemma {:induction false} SumIntsBump(h: seq<int>, b: nat)
    requires b < |h|
    ensures SumInts(h[b := h[b] + 1]) == SumInts(h) + 1
  {
    var h2 := h[b := h[b] + 1];
    if b < |h| - 1 {
      assert h2[..|h| - 1] == h[..|h| - 1][b := h[b] + 1];
      SumIntsBump(h[..|h| - 1], b);
    } else {
      assert h2[..|h| - 1] == h[..|h| - 1];
    }
  }

  lemma {:induction false} SumZeros(k: nat)
    ensures SumInts(seq(k, _ => 0)) == 0
  {
    if k > 0 {
      assert seq(k, _ => 0)[..k - 1] == seq(k - 1, _ => 0);
      SumZeros(k - 1);
    }
  }

  /** Every value lands in exactly one bin: the counts are non-negative and
      add up to the number of values. */
  lemma {:induction false} HistogramCountsAll(xs: seq<real>, minV: real, rng: real, bins: int)
    requires rng > 0.0 && bins > 1
    ensures SumInts(Histogram(xs, minV, rng, bins)) == |xs|
    ensures forall b :: 0 <= b < bins ==> Histogram(xs, minV, rng, bins)[b] >= 0
  {
    if xs == [] {
      SumZeros(bins);
    } else {
      HistogramCountsAll(xs[..|xs| - 1], minV, rng, bins);
      SumIntsBump(Histogram(xs[..|xs| - 1], minV, rng, bins), BinOf(xs[|xs| - 1], minV, rng, bins));
    }
  }

  /** For a value between the minimum and the maximum the unclamped index
      lies in [0, bins]; it reaches bins, and the clamp moves it, exactly
      when the value is the maximum. */
  lemma BinClamp(v: real, minV: real, maxV: real, bins: int)
    requires minV <= v <= maxV && minV < maxV && bins > 1
    ensures var idx := Trunc(bins as real * (v - minV) / (maxV - minV));
      0 <= idx <= bins && (idx == bins <==> v == maxV)
  {
    var rng, b := maxV - minV, bins as real;
    var t := b * (v - minV);
    ScaleMono(b, 0.0, v - minV);
    ScaleMono(b, v - minV, rng);
    if v < maxV {
      ScaleStrict(b, v - minV, rng);
    }
    QuotientBounds(t, rng, b);
    var q := t / rng;
    assert 0.0 <= q <= b;
    assert Trunc(bins as real * (v - minV) / (maxV - minV)) == q.Floor;
    if v < maxV {
      assert q < b;
      assert q.Floor < bins;
    } else {
      assert q == b;
      assert q.Floor == bins;
    }
  }

  /** 0 <= t <= b * rng puts t / rng in [0, b], strictly below b unless
      t is b * rng. */
  lemma QuotientBounds(t: real, rng: real, b: real)
    requires rng > 0.0 && 0.0 <= t <= b * rng
    ensures 0.0 <= t / rng <= b
    ensures t < b * rng ==> t / rng < b
    ensures t == b * rng ==> t / rng == b
  {
    var q := t / rng;
    assert q * rng == t;
    if q > b {
      ScaleStrict(rng, b, q);
    }
    if q < 0.0 {
      ScaleStrict(rng, q, 0.0);
    }
    if t < b * rng && q >= b {
      ScaleMono(rng, b, q);
    }
  }

  lemma ScaleMono(a: real, x: real, y: real)
    requires a >= 0.0 && x <= y
    ensures a * x <= a * y
  {
  }

  lemma ScaleStrict(a: real, x: real, y: real)
    requires a > 0.0 && x < y
    ensures a * x < a * y
  {
  }

  /** -p log2 p summed over the non-empty bins, p = count / total. */
  function EntropyOf(h: seq<int>, total: real, ops: Ops): real
    requires total > 0.0
  {
    if h == [] then 0.0
    else
      var c := h[|h| - 1];
      var e := EntropyOf(h[..|h| - 1], total, ops);
      if c > 0 then e - (c as real / total) * ops.log2(c as real / total) else e
  }

  /** The entropy EstimateEntropy reports: 0 for an empty series, for
      bins <= 1 and for a flat series; otherwise that of the histogram
      over [min, max]. */
  function Entropy(x: seq<real>, bins: int, ops: Ops): real
  {
    if |x| == 0 || bins <= 1 then 0.0
    else if MinOf(x) == MaxOf(x) then 0.0
    else EntropyOf(Histogram(x, MinOf(x), MaxOf(x) - MinOf(x), bins), |x| as real, ops)
  }

  /** The min / max scan of EstimateEntropy. */
  method MinMax(x: seq<real>) returns (minV: real, maxV: real)
    requires |x| > 0
    ensures minV == MinOf(x) && maxV == MaxOf(x)
  {
    minV, maxV := x[0], x[0];
    for i := 0 to |x|
      invariant i == 0 ==> minV == x[0] && maxV == x[0]
      invariant i > 0 ==> minV == MinOf(x[..i]) && maxV == MaxOf(x[..i])
    {
      var v := x[i];
      assert x[..i + 1][..i] == x[..i];
      if v < minV {
        minV := v;
      }
      if v > maxV {
        maxV := v;
      }
    }
    assert x[..|x|] == x;
  }

  /** The binning step of EstimateEntropy: the truncated index, clamped. */
  method Bin(v: real, minV: real, rng: real, bins: int) returns (idx: int)
    requires rng > 0.0 && bins > 1
    ensures idx == BinOf(v, minV, rng, bins)
  {
    idx := Trunc(bins as real * (v - minV) / rng);
    if idx < 0 {
      idx := 0;
    }
    if idx >= bins {
      idx := bins - 1;
    }
  }

  /** The counting loop of EstimateEntropy, into a fresh array of bins. */
  method CountBins(x: seq<real>, minV: real, rng: real, bins: int) returns (hist: array<int>)
    requires rng > 0.0 && bins > 1
    ensures fresh(hist) && hist[..] == Histogram(x, minV, rng, bins)
  {
    hist := new int[bins](_ => 0);
    assert hist[..] == Histogram(x[..0], minV, rng, bins);
    for i := 0 to |x|
      invariant hist[..] == Histogram(x[..i], minV, rng, bins)
    {
      var idx := Bin(x[i], minV, rng, bins);
      assert x[..i + 1][..i] == x[..i];
      hist[idx] := hist[idx] + 1;
    }
    assert x[..|x|] == x;
  }

  /** The entropy loop of EstimateEntropy over the counts. */
  method SumEntropy(hist: seq<int>, total: real, ops: Ops) returns (entropy: real)
    requires total > 0.0
    ensures entropy == EntropyOf(hist, total, ops)
  {
    entropy := 0.0;
    for b := 0 to |hist|
      invariant entropy == EntropyOf(hist[..b], total, ops)
    {
      var c := hist[b];
      assert hist[..b + 1][..b] == hist[..b];
      if c > 0 {
        var p := c as real / total;
        entropy := entropy - p * ops.log2(p);
      }
    }
    assert hist[..|hist|] == hist;
  }

  /** EstimateEntropy: the min / max scan, the clamped binning into an
      array of counts, and the entropy sum over the counts. */
  method EstimateEntropy(x: seq<real>, bins: int, ops: Ops) returns (entropy: real)
    ensures entropy == Entropy(x, bins, ops)
  {
    var n := |x|;
    if n == 0 || bins <= 1 {
      return 0.0;
    }
    var minV, maxV := MinMax(x);
    if minV == maxV {
      return 0.0;
    }
    var hist := CountBins(x, minV, maxV - minV, bins);
    entropy := SumEntropy(hist[..], n as real, ops);
  }
}
