/**
 * scorecard.go: the per-horizon alpha scorecard used by the study runner
 * (CalculateAlphaMetrics), the signal health record (AnalyzeSignalQuality)
 * and its own versions of AutoCorrelation, SimpleOLS, SpearmanCorrelation
 * and CalcQuantileSpread, which differ from those of metrics.go in their
 * guards. getRanks is the same code as in metrics.go and is Metrics.GetRanks.
 */
module Scorecard {
  import opened Shared
  import Metrics
  import MetricsHorizon
  import OfiStudy
  import Bytes

  /** The health of a signal series. */
  datatype SignalQuality = SignalQuality(
    mean: real, stdDev: real, skew: real, kurtosis: real,
    pctOutliers: real, autocorr: real, turnover: real)

  const ZeroQuality: SignalQuality := SignalQuality(0.0, 0.0, 0.0, 0.0, 0.0, 0.0, 0.0)

  /** The scorecard of one horizon. */
  datatype Horizon = Horizon(
    icPearson: real, icSpearman: real, beta: real, tStat: real,
    decileSpreadBps: real, breakevenBps: real, theoreticalSharpe: real)

  const ZeroHorizon: Horizon := Horizon(0.0, 0.0, 0.0, 0.0, 0.0, 0.0, 0.0)

  /** One day of the study report, keyed by horizon name ("20", "50", "100"). */
  datatype AlphaResult = AlphaResult(
    date: string, nBars: nat, quality: SignalQuality, horizons: map<string, Horizon>)

  /** Fewer bars than this give the all-zero scorecard. */
  const MinScoreBars: nat := 100

  // ---------------------------------------------------------------------
  // AutoCorrelation (no guard against lag <= 0)
  // ---------------------------------------------------------------------

  /** AutoCorrelation: the correlation of x[..n - lag] with x[lag..]; 0 once
      lag reaches n. A negative lag would slice out of range. */
  function AutoCorrelation(x: seq<real>, lag: int, ops: Ops): (r: real)
    requires lag >= 0
    ensures lag >= |x| ==> r == 0.0
  {
    if lag >= |x| then 0.0 else Correlation(x[..|x| - lag], x[lag..], ops)
  }

  /** For a positive lag the scorecard's AutoCorrelation is that of
      metrics.go; at lag 0 it correlates the series with itself where
      metrics.go returns 0. */
  lemma AutoCorrelationVersions(x: seq<real>, lag: int, ops: Ops)
    requires lag >= 0
    ensures lag > 0 ==> AutoCorrelation(x, lag, ops) == Metrics.AutoCorrelation(x, lag, ops)
    ensures lag == 0 ==> AutoCorrelation(x, lag, ops) == Correlation(x, x, ops) &&
                         Metrics.AutoCorrelation(x, lag, ops) == 0.0
  {
    if lag == 0 && |x| > 0 {
      assert x[..|x|] == x && x[0..] == x;
    }
  }

  // ---------------------------------------------------------------------
  // SimpleOLS (no guard against mismatched lengths)
  // ---------------------------------------------------------------------

  /** SimpleOLS: the least-squares line of y on x over the |x| pairs, with
      the mean of y taken over all of y; (0, 0) when x has no spread. A y
      shorter than x would be indexed out of range. */
  function SimpleOLS(x: seq<real>, y: seq<real>): (fit: (real, real))
    requires |x| <= |y|
    ensures x == [] ==> fit == (0.0, 0.0)
  {
    MetricsHorizon.FitLine(Mean(x), Mean(y), SumSqDev(x, Mean(x)), SumCoDev(x, y[..|x|], Mean(x), Mean(y)))
  }

  /** On matched non-empty input both versions of SimpleOLS fit the same line. */
  lemma SimpleOLSVersions(x: seq<real>, y: seq<real>)
    requires |x| == |y|
    ensures SimpleOLS(x, y) == MetricsHorizon.SimpleOLS(x, y)
  {
    assert y[..|x|] == y;
  }

  // ---------------------------------------------------------------------
  // SpearmanCorrelation and CalcQuantileSpread
  // ---------------------------------------------------------------------

  /** SpearmanCorrelation: Pearson's r of the ranks, with no guard of its
      own (Correlation returns 0 for mismatched or empty input). */
  method SpearmanCorrelation(x: seq<real>, y: seq<real>, ops: Ops) returns (rho: real)
    ensures rho == Correlation(Metrics.RanksOf(x), Metrics.RanksOf(y), ops)
    ensures |x| != |y| || x == [] ==> rho == 0.0
  {
    var rx := Metrics.GetRanks(x);
    var ry := Metrics.GetRanks(y);
    rho := Correlation(rx, ry, ops);
  }

  /** The bucket size n / buckets, never more than n. */
  function BucketSize(n: nat, buckets: int): (sz: nat)
    requires buckets > 0
    ensures sz <= n && (sz > 0 ==> buckets <= n)
  {
    DivBounds(n, buckets);
    n / buckets
  }

  lemma DivBounds(n: nat, b: int)
    requires b > 0
    ensures 0 <= n / b <= n && (n / b > 0 ==> b <= n)
  {
    var q := n / b;
    assert n == b * q + n % b;
    if q > 0 {
      Bytes.MulAtLeast(q, b);
      Bytes.MulAtLeast(b, q);
    }
  }

  /** The spread of CalcQuantileSpread: buckets of n / buckets signals,
      0 when that is 0. */
  function QuantileSpread(sig: seq<real>, ret: seq<real>, buckets: int): real
    requires buckets > 0
    requires BucketSize(|sig|, buckets) == 0 || |sig| <= |ret|
  {
    var n := |sig|;
    var sz := BucketSize(n, buckets);
    if sz == 0 then 0.0
    else
      var ps := Metrics.SortedPairs(sig);
      Metrics.BucketSum(ret, ps, n - sz, n) / sz as real - Metrics.BucketSum(ret, ps, 0, sz) / sz as real
  }

  /** With more than one bucket and matched lengths the scorecard's spread
      is that of metrics.go; with one bucket both sums cover every pair and
      the spread is 0. */
  lemma QuantileSpreadVersions(sig: seq<real>, ret: seq<real>, buckets: int)
    requires buckets > 0 && |sig| == |ret|
    ensures buckets > 1 ==> QuantileSpread(sig, ret, buckets) == Metrics.QuantileSpread(sig, ret, buckets)
    ensures buckets == 1 ==> QuantileSpread(sig, ret, buckets) == 0.0
  {
    var sz := BucketSize(|sig|, buckets);
    if buckets > 1 && sz > 0 {
      assert Metrics.BucketSize(|sig|, |ret|, buckets) == sz;
      var ps, n := Metrics.SortedPairs(sig), |sig|;
      var top, bot := Metrics.BucketSum(ret, ps, n - sz, n), Metrics.BucketSum(ret, ps, 0, sz);
      assert QuantileSpread(sig, ret, buckets) == top / sz as real - bot / sz as real;
      assert Metrics.QuantileSpread(sig, ret, buckets) == top / sz as real - bot / sz as real;
    } else if buckets > 1 {
      assert Metrics.BucketSize(|sig|, |ret|, buckets) == 0;
    }
  }

  /** CalcQuantileSpread: the mean return of the sz highest signals minus
      that of the sz lowest, sz = n / buckets. buckets must be positive,
      since the source divides by it unguarded. */
  method CalcQuantileSpread(sig: seq<real>, ret: seq<real>, buckets: int) returns (spread: real)
    requires buckets > 0
    requires BucketSize(|sig|, buckets) == 0 || |sig| <= |ret|
    ensures spread == QuantileSpread(sig, ret, buckets)
  {
    var n := |sig|;
    var pairs := Metrics.SortedPairs(sig);
    var sz := BucketSize(n, buckets);
    if sz == 0 {
      return 0.0;
    }
    var sumBot := Metrics.SumBucket(ret, pairs, 0, sz);
    var sumTop := Metrics.SumBucket(ret, pairs, n - sz, n);
    spread := sumTop / sz as real - sumBot / sz as real;
  }

  // ---------------------------------------------------------------------
  // AnalyzeSignalQuality
  // ---------------------------------------------------------------------

  /** The standardized value, 0 when the deviation is not positive. */
  function ZScore(v: real, mean: real, sd: real): real
  {
    if sd > 0.0 then (v - mean) / sd else 0.0
  }

  function Cube(d: real): real
  {
    d * d * d
  }

  function Quart(d: real): (q: real)
    ensures q >= 0.0
  {
    SquareNonneg(d);
    SquareNonneg(d * d);
    assert d * d * d * d == (d * d) * (d * d);
    d * d * d * d
  }

  /** A value more than three deviations from the mean. */
  predicate Outlier(d: real)
  {
    OfiStudy.Abs(d) > 3.0
  }

  /** The sums over the first k values of the cubed and the fourth power of
      their standardized values, and the number of outliers among them. */
  function CubeSum(sig: seq<real>, mean: real, sd: real, k: nat): real
    requires k <= |sig|
  {
    if k == 0 then 0.0 else CubeSum(sig, mean, sd, k - 1) + Cube(ZScore(sig[k - 1], mean, sd))
  }

  function QuartSum(sig: seq<real>, mean: real, sd: real, k: nat): (q: real)
    requires k <= |sig|
    ensures q >= 0.0
  {
    if k == 0 then 0.0 else QuartSum(sig, mean, sd, k - 1) + Quart(ZScore(sig[k - 1], mean, sd))
  }

  function OutlierCount(sig: seq<real>, mean: real, sd: real, k: nat): (c: nat)
    requires k <= |sig|
    ensures c <= k
  {
    if k == 0 then 0
    else OutlierCount(sig, mean, sd, k - 1) + if Outlier(ZScore(sig[k - 1], mean, sd)) then 1 else 0
  }

  /** Without a positive deviation every standardized value is 0: no skew,
      no fourth moment and no outlier. */
  lemma {:induction false} FlatScores(sig: seq<real>, mean: real, sd: real, k: nat)
    requires k <= |sig| && sd <= 0.0
    ensures CubeSum(sig, mean, sd, k) == 0.0 && QuartSum(sig, mean, sd, k) == 0.0
    ensures OutlierCount(sig, mean, sd, k) == 0
  {
    if k > 0 {
      FlatScores(sig, mean, sd, k - 1);
    }
  }

  /** The loop of AnalyzeSignalQuality over every value. */
  method QualitySums(sig: seq<real>, mean: real, sd: real)
    returns (m3: real, m4: real, outliers: nat, sumDiff: real)
    ensures m3 == CubeSum(sig, mean, sd, |sig|) && m4 == QuartSum(sig, mean, sd, |sig|)
    ensures outliers == OutlierCount(sig, mean, sd, |sig|)
    ensures sumDiff == OfiStudy.Turnover(sig, |sig|)
  {
    m3, m4, outliers, sumDiff := 0.0, 0.0, 0, 0.0;
    for i := 0 to |sig|
      invariant m3 == CubeSum(sig, mean, sd, i) && m4 == QuartSum(sig, mean, sd, i)
      invariant outliers == OutlierCount(sig, mean, sd, i)
      invariant sumDiff == OfiStudy.Turnover(sig, i)
    {
      var d := ZScore(sig[i], mean, sd);
      m3 := m3 + Cube(d);
      m4 := m4 + Quart(d);
      if Outlier(d) {
        outliers := outliers + 1;
      }
      if i > 0 {
        sumDiff := sumDiff + OfiStudy.Abs(sig[i] - sig[i - 1]);
      }
    }
  }

  /** The health record of a non-empty series. */
  function Quality(sig: seq<real>, ops: Ops): (sq: SignalQuality)
    requires sig != []
  {
    var n := |sig| as real;
    var mean := Mean(sig);
    var sd := StdDev(sig, mean, ops);
    SignalQuality(
      mean, sd,
      CubeSum(sig, mean, sd, |sig|) / n,
      QuartSum(sig, mean, sd, |sig|) / n - 3.0,
      OutlierCount(sig, mean, sd, |sig|) as real / n,
      AutoCorrelation(sig, 1, ops),
      OfiStudy.Turnover(sig, |sig|) / n)
  }

  /** The share of outliers is a fraction, the excess kurtosis is never
      below -3 and the turnover per bar never negative; a series with no
      positive deviation has no skew, no outliers and kurtosis -3. */
  lemma QualityBounds(sig: seq<real>, ops: Ops)
    requires sig != []
    ensures var sq := Quality(sig, ops);
      0.0 <= sq.pctOutliers <= 1.0 && sq.kurtosis >= -3.0 && sq.turnover >= 0.0 &&
      (sq.stdDev <= 0.0 ==> sq.skew == 0.0 && sq.kurtosis == -3.0 && sq.pctOutliers == 0.0)
  {
    var n := |sig|;
    var mean := Mean(sig);
    var sd := StdDev(sig, mean, ops);
    var c := OutlierCount(sig, mean, sd, n);
    assert c as real / n as real <= 1.0;
    OfiStudy.TurnoverGrows(sig, n, n);
    if sd <= 0.0 {
      FlatScores(sig, mean, sd, n);
    }
  }

  /** AnalyzeSignalQuality: the zero record for an empty series. */
  method AnalyzeSignalQuality(sig: seq<real>, ops: Ops) returns (sq: SignalQuality)
    ensures sig == [] ==> sq == ZeroQuality
    ensures sig != [] ==> sq == Quality(sig, ops)
  {
    var n := |sig|;
    if n == 0 {
      return ZeroQuality;
    }
    var mean := Mean(sig);
    var sd := StdDev(sig, mean, ops);
    var m3, m4, outliers, sumDiff := QualitySums(sig, mean, sd);
    sq := SignalQuality(
      mean, sd, m3 / n as real, m4 / n as real - 3.0, outliers as real / n as real,
      AutoCorrelation(sig, 1, ops), sumDiff / n as real);
  }

  // ---------------------------------------------------------------------
  // CalculateAlphaMetrics
  // ---------------------------------------------------------------------

  /** The t-statistic of beta: beta over sqrt(rss / (n - 2)) / sqrt(sx), 0
      when the signal is flat (sx not positive). */
  function TStat(beta: real, rss: real, sx: real, n: nat, ops: Ops): real
    requires n >= MinScoreBars
  {
    if sx > 0.0 then
      var stdErr := ops.sqrt(rss / (n - 2) as real);
      Div(ops, beta, Div(ops, stdErr, ops.sqrt(sx)))
    else 0.0
  }

  /** The breakeven cost: PnL per unit of turnover in basis points, 0
      without turnover. */
  function Breakeven(pnl: real, turnover: real): (be: real)
    ensures turnover > 0.0 ==> be * turnover == pnl * 10000.0
    ensures turnover <= 0.0 ==> be == 0.0
  {
    if turnover > 0.0 then pnl / turnover * 10000.0 else 0.0
  }

  /** The breakeven sums leave out the last pair: changing the last return
      changes nothing. */
  lemma {:induction false} LastPairIgnored(sig: seq<real>, ret: seq<real>, ret2: seq<real>, k: nat)
    requires k <= |sig| && k <= |ret| && k <= |ret2| && ret[..k] == ret2[..k]
    ensures OfiStudy.SumProducts(sig, ret, k) == OfiStudy.SumProducts(sig, ret2, k)
  {
    if k > 0 {
      assert ret[..k - 1] == ret[..k][..k - 1] && ret2[..k - 1] == ret2[..k][..k - 1];
      assert ret[k - 1] == ret[..k][k - 1] && ret2[k - 1] == ret2[..k][k - 1];
      LastPairIgnored(sig, ret, ret2, k - 1);
    }
  }

  /** The breakeven loop: sig[i] * ret[i] over i < n - 1, and the turnover
      |sig[i] - sig[i - 1]| over 0 < i < n - 1. */
  method BreakevenSums(sig: seq<real>, ret: seq<real>) returns (pnl: real, turnover: real)
    requires 0 < |sig| <= |ret|
    ensures pnl == OfiStudy.SumProducts(sig, ret, |sig| - 1)
    ensures turnover == OfiStudy.Turnover(sig, |sig| - 1)
  {
    pnl, turnover := 0.0, 0.0;
    for i := 0 to |sig| - 1
      invariant pnl == OfiStudy.SumProducts(sig, ret, i)
      invariant turnover == OfiStudy.Turnover(sig, i)
    {
      pnl := pnl + sig[i] * ret[i];
      if i > 0 {
        turnover := turnover + OfiStudy.Abs(sig[i] - sig[i - 1]);
      }
    }
  }

  /** The per-bar PnL of the first n bars. */
  function PnlOf(sig: seq<real>, ret: seq<real>, n: nat): (p: seq<real>)
    requires n <= |sig| && n <= |ret|
    ensures |p| == n
  {
    seq(n, i requires 0 <= i < n => MetricsHorizon.BarPnl(sig[i], ret[i]))
  }

  /** The PnL loop of CalculateAlphaMetrics, into a fresh array. */
  method PnlVector(sig: seq<real>, ret: seq<real>) returns (pnl: seq<real>)
    requires |sig| <= |ret|
    ensures pnl == PnlOf(sig, ret, |sig|)
  {
    var n := |sig|;
    var a := new real[n];
    for i := 0 to n
      invariant forall k :: 0 <= k < i ==> a[k] == MetricsHorizon.BarPnl(sig[k], ret[k])
    {
      a[i] := MetricsHorizon.BarPnl(sig[i], ret[i]);
    }
    pnl := a[..];
  }

  /** The per-root-N Sharpe ratio of the PnL series, 0 for a flat one. */
  function TheoreticalSharpe(pnl: seq<real>, ops: Ops): real
  {
    var m := Mean(pnl);
    var sd := StdDev(pnl, m, ops);
    if sd > 0.0 then m / sd * ops.sqrt(|pnl| as real) else 0.0
  }

  /** The scorecard of CalculateAlphaMetrics: all zero below 100 bars;
      otherwise both ICs, the OLS slope and its t-statistic, the decile
      spread in basis points, the breakeven cost over all pairs but the
      last and the per-root-N Sharpe ratio. */
  function Score(sig: seq<real>, ret: seq<real>, ops: Ops): (h: Horizon)
    requires |sig| < MinScoreBars || |sig| <= |ret|
    ensures |sig| < MinScoreBars ==> h == ZeroHorizon
  {
    var n := |sig|;
    if n < MinScoreBars then ZeroHorizon
    else
      var (alpha, beta) := SimpleOLS(sig, ret);
      Horizon(
        Correlation(sig, ret, ops),
        Correlation(Metrics.RanksOf(sig), Metrics.RanksOf(ret), ops),
        beta,
        TStat(beta, MetricsHorizon.SumSqResid(sig, ret[..n], alpha, beta), SumSqDev(sig, Mean(sig)), n, ops),
        QuantileSpread(sig, ret, 10) * 10000.0,
        Breakeven(OfiStudy.SumProducts(sig, ret, n - 1), OfiStudy.Turnover(sig, n - 1)),
        TheoreticalSharpe(PnlOf(sig, ret, n), ops))
  }

  /** CalculateAlphaMetrics. ret must cover sig once there are 100 bars,
      as every loop indexes it. */
  method CalculateAlphaMetrics(sig: seq<real>, ret: seq<real>, ops: Ops) returns (h: Horizon)
    requires |sig| < MinScoreBars || |sig| <= |ret|
    ensures h == Score(sig, ret, ops)
  {
    var n := |sig|;
    if n < MinScoreBars {
      return ZeroHorizon;
    }
    var icPearson := Correlation(sig, ret, ops);
    var icSpearman := SpearmanCorrelation(sig, ret, ops);
    var (alpha, beta) := SimpleOLS(sig, ret);
    var rss, sx := MetricsHorizon.ResidualSums(sig, ret[..n], alpha, beta);
    var tStat := TStat(beta, rss, sx, n, ops);
    var spread := CalcQuantileSpread(sig, ret, 10);
    var totalPnL, totalTurnover := BreakevenSums(sig, ret);
    var pnl := PnlVector(sig, ret);
    h := Horizon(icPearson, icSpearman, beta, tStat, spread * 10000.0,
      Breakeven(totalPnL, totalTurnover), TheoreticalSharpe(pnl, ops));
  }
}
