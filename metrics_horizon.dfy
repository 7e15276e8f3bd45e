/**
 * metrics.go, continued: the regression, moment and PnL parts of
 * ComputeHorizonMetrics (SimpleOLS, the residual loop and the beta
 * t-statistic, CalcHigherMoments, NormalCDF, estimateHalfLifeBars, the
 * PnL-stream loop, shuffledIC) and ComputeHorizonMetrics itself.
 */
module MetricsHorizon {
  import opened Shared
  import opened Metrics

  // ---------------------------------------------------------------------
  // SimpleOLS
  // ---------------------------------------------------------------------

  /** SimpleOLS: (alpha, beta) of the least-squares line y = alpha + beta x;
      (0, 0) for empty or mismatched input and for a constant x. */
  function SimpleOLS(x: seq<real>, y: seq<real>): (fit: (real, real))
    ensures |x| == 0 || |x| != |y| ==> fit == (0.0, 0.0)
  {
    if |x| == 0 || |x| != |y| then (0.0, 0.0)
    else FitLine(Mean(x), Mean(y), SumSqDev(x, Mean(x)), SumCoDev(x, y, Mean(x), Mean(y)))
  }

  /** The line through the point of means (mx, my) with slope sxy / sxx;
      (0, 0) when x has no spread. */
  function FitLine(mx: real, my: real, sxx: real, sxy: real): (fit: (real, real))
    ensures sxx == 0.0 ==> fit == (0.0, 0.0)
  {
    if sxx == 0.0 then (0.0, 0.0)
    else
      var beta := sxy / sxx;
      (my - beta * mx, beta)
  }

  /** The line satisfies the normal equations of least squares. */
  lemma FitLineNormal(mx: real, my: real, sxx: real, sxy: real)
    requires sxx != 0.0
    ensures FitLine(mx, my, sxx, sxy).1 * sxx == sxy
    ensures FitLine(mx, my, sxx, sxy).0 + FitLine(mx, my, sxx, sxy).1 * mx == my
  {
  }

  /** On matched non-empty input the fit is the line through the means
      whose slope is the co-deviation over the spread of x. */
  lemma OLSIsFit(x: seq<real>, y: seq<real>)
    requires |x| == |y| > 0
    ensures SimpleOLS(x, y) == FitLine(Mean(x), Mean(y), SumSqDev(x, Mean(x)), SumCoDev(x, y, Mean(x), Mean(y)))
  {
  }

  /** A constant x has no spread, so the fit is (0, 0). */
  lemma OLSConstantX(x: seq<real>, y: seq<real>, c: real)
    requires |x| == |y| > 0
    requires forall i :: 0 <= i < |x| ==> x[i] == c
    ensures SimpleOLS(x, y) == (0.0, 0.0)
  {
    SumConst(x, c);
    MeanOfConst(Mean(x), Sum(x), |x| as real, c);
    SqDevConst(x, c);
  }

  lemma {:induction false} SumConst(x: seq<real>, c: real)
    requires forall i :: 0 <= i < |x| ==> x[i] == c
    ensures Sum(x) == |x| as real * c
  {
    if |x| > 0 {
      SumConst(x[..|x| - 1], c);
      MulSuccReal((|x| - 1) as real, c);
    }
  }

  lemma MulSuccReal(k: real, c: real)
    ensures (k + 1.0) * c == k * c + c
  {
  }

  lemma MeanOfConst(m: real, s: real, n: real, c: real)
    requires n > 0.0 && m * n == s && s == n * c
    ensures m == c
  {
    assert (m - c) * n == 0.0;
  }

  lemma {:induction false} SqDevConst(x: seq<real>, c: real)
    requires forall i :: 0 <= i < |x| ==> x[i] == c
    ensures SumSqDev(x, c) == 0.0
  {
    if |x| > 0 {
      SqDevConst(x[..|x| - 1], c);
    }
  }

  // ---------------------------------------------------------------------
  // The residual loop and the t-statistic of beta
  // ---------------------------------------------------------------------

  /** The residual sum of squares about the line alpha + beta sig. */
  function SumSqResid(sig: seq<real>, ret: seq<real>, alpha: real, beta: real): (rss: real)
    requires |sig| == |ret|
    ensures rss >= 0.0
  {
    if sig == [] then 0.0
    else
      var n := |sig|;
      SumSqResid(sig[..n - 1], ret[..n - 1], alpha, beta) + Sq(ret[n - 1] - (alpha + beta * sig[n - 1]))
  }

  function Sq(v: real): (q: real)
    ensures q >= 0.0
  {
    SquareNonneg(v);
    v * v
  }

  /** Points on the line leave no residual. */
  lemma {:induction false} ResidualsOnLine(sig: seq<real>, ret: seq<real>, a: real, b: real)
    requires |sig| == |ret|
    requires forall i :: 0 <= i < |sig| ==> ret[i] == a + b * sig[i]
    ensures SumSqResid(sig, ret, a, b) == 0.0
  {
    if sig != [] {
      ResidualsOnLine(sig[..|sig| - 1], ret[..|ret| - 1], a, b);
    }
  }

  lemma ResidualStep(sig: seq<real>, ret: seq<real>, alpha: real, beta: real, mx: real, i: nat,
                      rss: real, sx: real, resid: real, d: real)
    requires |sig| == |ret| && i < |sig|
    requires rss == SumSqResid(sig[..i], ret[..i], alpha, beta) && sx == SumSqDev(sig[..i], mx)
    requires resid == ret[i] - (alpha + beta * sig[i]) && d == sig[i] - mx
    ensures rss + resid * resid == SumSqResid(sig[..i + 1], ret[..i + 1], alpha, beta)
    ensures sx + d * d == SumSqDev(sig[..i + 1], mx)
  {
    assert sig[..i + 1] == sig[..i] + [sig[i]] && ret[..i + 1] == ret[..i] + [ret[i]];
    SumSqResidSnoc(sig[..i], ret[..i], sig[i], ret[i], alpha, beta, resid);
    SqDevSnoc(sig[..i], sig[i], mx, d);
  }

  lemma SumSqResidSnoc(s: seq<real>, r: seq<real>, x: real, y: real, alpha: real, beta: real, e: real)
    requires |s| == |r| && e == y - (alpha + beta * x)
    ensures SumSqResid(s + [x], r + [y], alpha, beta) == SumSqResid(s, r, alpha, beta) + Sq(e)
  {
    var s2, r2 := s + [x], r + [y];
    assert s2[..|s|] == s && r2[..|r|] == r;
    assert s2[|s|] == x && r2[|s|] == y;
    assert r2[|s|] - (alpha + beta * s2[|s|]) == e;
  }

  lemma SqDevSnoc(xs: seq<real>, x: real, m: real, d: real)
    requires d == x - m
    ensures SumSqDev(xs + [x], m) == SumSqDev(xs, m) + d * d
  {
    SumSqDevSnoc(xs, x, m);
  }

  /** The loop of ComputeHorizonMetrics accumulating the residual sum of
      squares and the squared deviation of the signal. */
  method ResidualSums(sig: seq<real>, ret: seq<real>, alpha: real, beta: real)
    returns (rss: real, sx: real)
    requires |sig| == |ret|
    ensures rss == SumSqResid(sig, ret, alpha, beta) && sx == SumSqDev(sig, Mean(sig))
  {
    var mx := Mean(sig);
    rss, sx := 0.0, 0.0;
    for i := 0 to |sig|
      invariant rss == SumSqResid(sig[..i], ret[..i], alpha, beta)
      invariant sx == SumSqDev(sig[..i], mx)
    {
      var pred := alpha + beta * sig[i];
      var resid := ret[i] - pred;
      var d := sig[i] - mx;
      ResidualStep(sig, ret, alpha, beta, mx, i, rss, sx, resid, d);
      rss := rss + resid * resid;
      sx := sx + d * d;
    }
    assert sig[..|sig|] == sig && ret[..|ret|] == ret;
  }

  /** The t-statistic of beta: beta over its standard error, 0 when the
      signal is flat or the fit is exact. */
  function BetaTStat(beta: real, rss: real, sx: real, n: int, ops: Ops): real
  {
    if sx > 0.0 then
      var stdErr := ops.sqrt(Div(ops, rss, (n - 2) as real));
      if stdErr > 0.0 then Div(ops, beta, Div(ops, stdErr, ops.sqrt(sx))) else 0.0
    else 0.0
  }

  // ---------------------------------------------------------------------
  // CalcHigherMoments, NormalCDF
  // ---------------------------------------------------------------------

  function SumCubes(x: seq<real>, m: real, s: real): real
    requires s != 0.0
  {
    if x == [] then 0.0
    else
      var d := (x[|x| - 1] - m) / s;
      SumCubes(x[..|x| - 1], m, s) + d * d * d
  }

  function SumQuarts(x: seq<real>, m: real, s: real): (q: real)
    requires s != 0.0
    ensures q >= 0.0
  {
    if x == [] then 0.0
    else
      var d := (x[|x| - 1] - m) / s;
      SquareNonneg(d);
      SquareNonneg(d * d);
      assert d * d * d * d == (d * d) * (d * d);
      SumQuarts(x[..|x| - 1], m, s) + d * d * d * d
  }

  /** CalcHigherMoments: (skew, excess kurtosis) of the standardized values;
      (0, 0) below three values or for a zero deviation. The excess
      kurtosis is never below -3. */
  function HigherMoments(x: seq<real>, ops: Ops): (mk: (real, real))
    ensures |x| < 3 ==> mk == (0.0, 0.0)
    ensures mk.1 >= -3.0
  {
    if |x| < 3 then (0.0, 0.0)
    else
      var n := |x| as real;
      var m := Mean(x);
      var s := StdDev(x, m, ops);
      if s == 0.0 then (0.0, 0.0)
      else
        var q := SumQuarts(x, m, s);
        assert q / n >= 0.0;
        (SumCubes(x, m, s) / n, q / n - 3.0)
  }

  /** math.Sqrt2 as a float64. */
  const SQRT2: real := 1.4142135623730951

  /** NormalCDF: the standard normal distribution function through erf. */
  function NormalCDF(x: real, ops: Ops): real
  {
    0.5 * (1.0 + ops.erf(x / SQRT2))
  }

  // ---------------------------------------------------------------------
  // estimateHalfLifeBars
  // ---------------------------------------------------------------------

  const HalfLifeLags: seq<real> := [1.0, 2.0, 3.0, 4.0, 5.0]

  /** A non-positive autocorrelation is replaced by 0.0001 before the log. */
  function AcFloor(ac: real): (f: real)
    ensures f > 0.0
  {
    if ac <= 0.0 then 0.0001 else ac
  }

  /** The logs of the floored autocorrelations at lags 1 .. 5. */
  function LogAc(sig: seq<real>, ops: Ops): (l: seq<real>)
    ensures |l| == 5
  {
    seq(5, k requires 0 <= k < 5 => ops.log(AcFloor(AutoCorrelation(sig, k + 1, ops))))
  }

  /** estimateHalfLifeBars: ln 2 over minus the slope of log autocorrelation
      against lag when that slope is negative, otherwise 0; never negative. */
  function HalfLifeBars(sig: seq<real>, ops: Ops): (hl: real)
    ensures hl >= 0.0
    ensures |sig| < 3 ==> hl == 0.0
  {
    if |sig| < 3 then 0.0
    else
      var slope := SimpleOLS(HalfLifeLags, LogAc(sig, ops)).1;
      if slope < 0.0 then -0.693147 / slope else 0.0
  }

  // ---------------------------------------------------------------------
  // The PnL-stream loop
  // ---------------------------------------------------------------------

  /** The counters of the PnL loop after some prefix of the bars. */
  datatype PnlAcc = PnlAcc(
    filled: nat, wins: nat, losses: nat, grossWin: real, grossLoss: real,
    totalPnL: real, turnover: real, downsideSq: real, returnsSq: real,
    cumPnl: real, peak: real, maxDD: real)

  const PnlStart: PnlAcc := PnlAcc(0, 0, 0, 0.0, 0.0, 0.0, 0.0, 0.0, 0.0, 0.0, 0.0, 0.0)

  /** A return above half a basis point counts as a fill. */
  const FillThreshold: real := 0.00005

  /** One bar of the loop: pnl = s * r; turnover from the second bar on. */
  function PnlStep(a: PnlAcc, first: bool, prev: real, s: real, r: real): PnlAcc
  {
    var pnl := s * r;
    var cum := a.cumPnl + pnl;
    var peak := if cum > a.peak then cum else a.peak;
    PnlAcc(
      if Abs(r) > FillThreshold then a.filled + 1 else a.filled,
      if pnl > 0.0 then a.wins + 1 else a.wins,
      if pnl < 0.0 then a.losses + 1 else a.losses,
      if pnl > 0.0 then a.grossWin + pnl else a.grossWin,
      if pnl < 0.0 then a.grossLoss + Abs(pnl) else a.grossLoss,
      a.totalPnL + pnl,
      if first then a.turnover else a.turnover + Abs(s - prev),
      if pnl < 0.0 then a.downsideSq + pnl * pnl else a.downsideSq,
      a.returnsSq + pnl * pnl,
      cum, peak,
      if peak - cum > a.maxDD then peak - cum else a.maxDD)
  }

  function Abs(x: real): real { if x < 0.0 then -x else x }

  /** The counters after the first k bars. */
  function PnlFold(sig: seq<real>, ret: seq<real>, k: nat): PnlAcc
    requires k <= |sig| && k <= |ret|
  {
    if k == 0 then PnlStart
    else PnlStep(PnlFold(sig, ret, k - 1), k == 1, if k == 1 then 0.0 else sig[k - 2], sig[k - 1], ret[k - 1])
  }

  /** What the PnL loop keeps: counts bounded by the bars seen, a gross win
      (loss) exactly when a win (loss) was counted, and non-negative sums,
      drawdown and peak, the peak never below the running PnL. */
  ghost predicate PnlSane(a: PnlAcc, k: nat)
  {
    a.filled <= k && a.wins + a.losses <= k &&
    (a.wins == 0 <==> a.grossWin == 0.0) && a.grossWin >= 0.0 &&
    (a.losses == 0 <==> a.grossLoss == 0.0) && a.grossLoss >= 0.0 &&
    a.turnover >= 0.0 && a.downsideSq >= 0.0 && a.returnsSq >= 0.0 &&
    a.maxDD >= 0.0 && a.peak >= 0.0 && a.peak >= a.cumPnl
  }

  lemma PnlStepSane(a: PnlAcc, k: nat, first: bool, prev: real, s: real, r: real)
    requires PnlSane(a, k)
    ensures PnlSane(PnlStep(a, first, prev, s, r), k + 1)
  {
    SquareNonneg(s * r);
  }

  lemma {:induction false} PnlFoldSane(sig: seq<real>, ret: seq<real>, k: nat)
    requires k <= |sig| && k <= |ret|
    ensures PnlSane(PnlFold(sig, ret, k), k)
  {
    if k > 0 {
      PnlFoldSane(sig, ret, k - 1);
      PnlStepSane(PnlFold(sig, ret, k - 1), k - 1, k == 1, if k == 1 then 0.0 else sig[k - 2], sig[k - 1], ret[k - 1]);
    }
  }

  /** One bar of the PnL loop advances the counters from the first i bars
      to the first i + 1. */
  method PnlAdvance(sig: seq<real>, ret: seq<real>, i: nat, acc: PnlAcc, prev: real) returns (next: PnlAcc)
    requires i < |sig| && i < |ret|
    requires acc == PnlFold(sig, ret, i)
    requires prev == if i == 0 then 0.0 else sig[i - 1]
    ensures next == PnlFold(sig, ret, i + 1)
  {
    next := PnlStep(acc, i == 0, prev, sig[i], ret[i]);
  }

  /** The PnL of one bar: the position times the return. */
  function BarPnl(s: real, r: real): real
  {
    s * r
  }

  /** The per-bar PnL stream of a signal and its returns. */
  function PnlStream(sig: seq<real>, ret: seq<real>): (st: seq<real>)
    requires |sig| == |ret|
    ensures |st| == |sig| && forall i :: 0 <= i < |sig| ==> st[i] == BarPnl(sig[i], ret[i])
  {
    seq(|sig|, i requires 0 <= i < |sig| => BarPnl(sig[i], ret[i]))
  }

  /** The PnL loop of ComputeHorizonMetrics: the counters, and the stream
      of per-bar PnL sig[i] * ret[i] written into a fresh array. */
  method PnlLoop(sig: seq<real>, ret: seq<real>) returns (acc: PnlAcc, stream: seq<real>)
    requires |sig| == |ret|
    ensures acc == PnlFold(sig, ret, |sig|)
    ensures |stream| == |sig| && forall i :: 0 <= i < |sig| ==> stream[i] == BarPnl(sig[i], ret[i])
  {
    var n := |sig|;
    var pnlStream := new real[n];
    acc := PnlStart;
    var prevSig := 0.0;
    for i := 0 to n
      invariant acc == PnlFold(sig, ret, i)
      invariant prevSig == if i == 0 then 0.0 else sig[i - 1]
      invariant forall k :: 0 <= k < i ==> pnlStream[k] == BarPnl(sig[k], ret[k])
    {
      pnlStream[i] := BarPnl(sig[i], ret[i]);
      acc := PnlAdvance(sig, ret, i, acc, prevSig);
      prevSig := sig[i];
    }
    stream := pnlStream[..];
  }

  /** The fill rate: the share of bars whose return passes the threshold. */
  function FillRate(a: PnlAcc, n: nat): (r: real)
    requires n > 0 && a.filled <= n
    ensures 0.0 <= r <= 1.0 && r * n as real == a.filled as real
  {
    a.filled as real / n as real
  }

  /** The breakeven cost in basis points: PnL per unit of turnover, 0
      without turnover. */
  function BreakevenBps(a: PnlAcc): (r: real)
    ensures a.turnover > 0.0 ==> r * a.turnover == a.totalPnL * 10000.0
    ensures a.turnover <= 0.0 ==> r == 0.0
  {
    if a.turnover > 0.0 then (a.totalPnL / a.turnover) * 10000.0 else 0.0
  }

  /** The win rate among bars with non-zero PnL, 0 when there is none. */
  function WinRate(a: PnlAcc): (r: real)
    ensures 0.0 <= r <= 1.0
    ensures a.wins + a.losses == 0 ==> r == 0.0
    ensures a.wins + a.losses > 0 ==> r * (a.wins + a.losses) as real == a.wins as real
  {
    if a.wins + a.losses > 0 then a.wins as real / (a.wins + a.losses) as real else 0.0
  }

  /** The profit factor: gross win over gross loss; 100 when there are
      gains and no loss, 0 when there is neither. */
  function ProfitFactor(a: PnlAcc): (r: real)
    requires a.grossWin >= 0.0 && a.grossLoss >= 0.0
    ensures r >= 0.0
    ensures a.grossLoss > 0.0 ==> r * a.grossLoss == a.grossWin
    ensures a.grossLoss == 0.0 ==> (r == 100.0 <==> a.grossWin > 0.0) && (r == 0.0 <==> a.grossWin == 0.0)
  {
    if a.grossLoss > 0.0 then a.grossWin / a.grossLoss
    else if a.grossWin > 0.0 then 100.0
    else 0.0
  }

  /** The mean win over the mean loss, set only when there are both losses
      and wins. A gross loss comes with at least one counted loss, so the
      mean loss never divides by zero. */
  function AvgWinLoss(a: PnlAcc, k: nat): (r: real)
    requires PnlSane(a, k)
    ensures r >= 0.0
    ensures a.grossLoss == 0.0 || a.wins == 0 ==> r == 0.0
  {
    if a.grossLoss > 0.0 && a.wins > 0 then
      var avgWin := a.grossWin / a.wins as real;
      var avgLoss := a.grossLoss / a.losses as real;
      if avgLoss > 0.0 then avgWin / avgLoss else 0.0
    else 0.0
  }

  const BarsPerYear: real := 288.0 * 365.0

  /** The mean PnL per bar and its deviation sqrt(E[pnl^2] - mean^2). */
  function MeanPnl(a: PnlAcc, n: nat): real
    requires n > 0
  {
    a.totalPnL / n as real
  }

  function StdPnl(a: PnlAcc, n: nat, ops: Ops): real
    requires n > 0
  {
    ops.sqrt(a.returnsSq / n as real - MeanPnl(a, n) * MeanPnl(a, n))
  }

  /** The Sharpe ratio annualised over 288 * 365 bars, 0 for a flat stream. */
  function Sharpe(a: PnlAcc, n: nat, ops: Ops): (r: real)
    requires n > 0
    ensures StdPnl(a, n, ops) <= 0.0 ==> r == 0.0
  {
    var std := StdPnl(a, n, ops);
    if std > 0.0 then (MeanPnl(a, n) / std) * ops.sqrt(BarsPerYear) else 0.0
  }

  /** The Sortino ratio: the same with the downside deviation. */
  function Sortino(a: PnlAcc, n: nat, ops: Ops): (r: real)
    requires n > 0
    ensures StdPnl(a, n, ops) <= 0.0 || a.downsideSq <= 0.0 ==> r == 0.0
  {
    if StdPnl(a, n, ops) > 0.0 && a.downsideSq > 0.0 then
      var downsideDev := ops.sqrt(a.downsideSq / n as real);
      if downsideDev > 0.0 then (MeanPnl(a, n) / downsideDev) * ops.sqrt(BarsPerYear) else 0.0
    else 0.0
  }

  /** The Calmar ratio: total PnL over the largest drawdown. */
  function Calmar(a: PnlAcc): (r: real)
    ensures a.maxDD > 0.0 ==> r * a.maxDD == a.totalPnL
    ensures a.maxDD <= 0.0 ==> r == 0.0
  {
    if a.maxDD > 0.0 then a.totalPnL / a.maxDD else 0.0
  }

  /** The Newey-West style adjustment sqrt(1 - rho^2) of the lag-1
      autocorrelation of the stream, 1 when |rho| >= 1. */
  function HacAdjust(stream: seq<real>, ops: Ops): real
  {
    var rho := AutoCorrelation(stream, 1, ops);
    if Abs(rho) < 1.0 then ops.sqrt(1.0 - rho * rho) else 1.0
  }

  /** The HAC-adjusted Sharpe ratio: the Sharpe ratio scaled by
      sqrt(1 - rho^2) for the lag-1 autocorrelation rho of the stream, or
      left as it is when |rho| >= 1. */
  function HacSharpe(a: PnlAcc, stream: seq<real>, n: nat, ops: Ops): (r: real)
    requires n > 0
    ensures StdPnl(a, n, ops) <= 0.0 ==> r == 0.0
  {
    Sharpe(a, n, ops) * HacAdjust(stream, ops)
  }

  /** The probabilistic Sharpe ratio: Phi of the Sharpe z-score corrected
      for skew and kurtosis, 0 for a flat stream or a non-positive
      denominator. */
  function ProbSharpe(a: PnlAcc, stream: seq<real>, n: nat, ops: Ops): (r: real)
    requires n > 0
    ensures StdPnl(a, n, ops) <= 0.0 ==> r == 0.0
  {
    var std := StdPnl(a, n, ops);
    if std > 0.0 then
      var (skew, kurt) := HigherMoments(stream, ops);
      var sr := MeanPnl(a, n) / std;
      var denominator := ops.sqrt(1.0 - skew * sr + ((kurt - 1.0) / 4.0) * sr * sr);
      if denominator > 0.0 then NormalCDF((sr * ops.sqrt(n as real - 1.0)) / denominator, ops) else 0.0
    else 0.0
  }

  // ---------------------------------------------------------------------
  // shuffledIC
  // ---------------------------------------------------------------------

  /** The draws of shuffledIC's generator: for n values it is seeded with
      n * 7919 + 1234567 and step i (from n - 1 down to 1) takes
      r.Intn(i + 1), a value in [0, i]; draws[i] is that value. */
  ghost predicate DrawsFit(draws: seq<int>, n: int)
  {
    |draws| == n && forall i :: 0 < i < n ==> 0 <= draws[i] <= i
  }

  function Swap(t: seq<real>, i: nat, j: nat): (u: seq<real>)
    requires i < |t| && j < |t|
    ensures |u| == |t|
  {
    t[i := t[j]][j := t[i]]
  }

  lemma SwapPerm(t: seq<real>, i: nat, j: nat)
    requires i < |t| && j < |t|
    ensures multiset(Swap(t, i, j)) == multiset(t)
  {
  }

  /** The Fisher-Yates steps i, i - 1, .. 1 applied to t. */
  function Swaps(t: seq<real>, draws: seq<int>, i: nat): (u: seq<real>)
    requires i < |t| && DrawsFit(draws, |t|)
    ensures |u| == |t|
    decreases i
  {
    if i == 0 then t
    else Swaps(Swap(t, i, draws[i]), draws, i - 1)
  }

  /** The shuffle only reorders: the result is a permutation of t. */
  lemma {:induction false} SwapsPermute(t: seq<real>, draws: seq<int>, i: nat)
    requires i < |t| && DrawsFit(draws, |t|)
    ensures multiset(Swaps(t, draws, i)) == multiset(t)
    decreases i
  {
    if i > 0 {
      SwapPerm(t, i, draws[i]);
      SwapsPermute(Swap(t, i, draws[i]), draws, i - 1);
    }
  }

  /** The returns shuffledIC correlates against: the Fisher-Yates shuffle
      of ret by the draws. */
  function Shuffled(ret: seq<real>, draws: seq<int>): (s: seq<real>)
    requires DrawsFit(draws, |ret|)
    ensures multiset(s) == multiset(ret)
  {
    if ret == [] then []
    else
      SwapsPermute(ret, draws, |ret| - 1);
      Swaps(ret, draws, |ret| - 1)
  }

  /** The loop of shuffledIC has steps i .. 1 left to do on t. */
  ghost predicate ShuffleLeft(t: seq<real>, ret: seq<real>, draws: seq<int>, i: nat)
  {
    |t| == |ret| && i < |t| && DrawsFit(draws, |t|) &&
    Swaps(t, draws, i) == Swaps(ret, draws, |ret| - 1)
  }

  lemma SwapsStep(t: seq<real>, u: seq<real>, ret: seq<real>, draws: seq<int>, i: nat)
    requires 0 < i && ShuffleLeft(t, ret, draws, i) && u == Swap(t, i, draws[i])
    ensures ShuffleLeft(u, ret, draws, i - 1)
  {
  }

  /** One swap of the shuffle, in place. */
  method SwapAt(a: array<real>, i: nat, j: nat)
    requires i < a.Length && j < a.Length
    modifies a
    ensures a[..] == Swap(old(a[..]), i, j)
  {
    a[i], a[j] := a[j], a[i];
  }

  /** shuffledIC: the correlation of the signal with a seeded permutation of
      the returns, 0 for empty or mismatched input. */
  method ShuffledIC(sig: seq<real>, ret: seq<real>, draws: seq<int>, ops: Ops) returns (ic: real)
    requires DrawsFit(draws, |ret|)
    ensures |sig| == 0 || |sig| != |ret| ==> ic == 0.0
    ensures |sig| != 0 && |sig| == |ret| ==> ic == Correlation(sig, Shuffled(ret, draws), ops)
  {
    var n := |sig|;
    if n == 0 || n != |ret| {
      return 0.0;
    }
    var tmp := new real[n];
    forall k | 0 <= k < n {
      tmp[k] := ret[k];
    }
    var i := n - 1;
    assert tmp[..] == ret;
    while i > 0
      invariant 0 <= i < n && ShuffleLeft(tmp[..], ret, draws, i)
    {
      var j := draws[i];
      ghost var before := tmp[..];
      SwapAt(tmp, i, j);
      SwapsStep(before, tmp[..], ret, draws, i);
      i := i - 1;
    }
    return Correlation(sig, tmp[..], ops);
  }

  // ---------------------------------------------------------------------
  // ComputeHorizonMetrics
  // ---------------------------------------------------------------------

  /** The minimum sample of ComputeHorizonMetrics. */
  const MinHorizonBars: nat := 200

  /** The window of the rolling IC. */
  const ICWindow: int := 2000

  /** ComputeHorizonMetrics: the zero record for empty or mismatched input
      and below 200 bars; otherwise the IC, rank IC, OLS fit, hit rate,
      decile spread, PnL statistics (fill and win rates within [0, 1]),
      half-life and shuffled IC of the pairs. */
  method ComputeHorizonMetrics(sig: seq<real>, ret: seq<real>, draws: seq<int>, ops: Ops)
    returns (h: HorizonMetrics)
    requires DrawsFit(draws, |ret|)
    ensures |sig| == 0 || |sig| != |ret| || |sig| < MinHorizonBars ==> h == ZeroHorizon
    ensures |sig| == |ret| && |sig| >= MinHorizonBars ==>
      h.icPearson == Correlation(sig, ret, ops) &&
      h.icSpearman == Correlation(RanksOf(sig), RanksOf(ret), ops) &&
      (h.alpha, h.beta) == SimpleOLS(sig, ret) &&
      h.directionalHit == HitRate(sig, ret) &&
      h.decileSpreadBps == QuantileSpread(sig, ret, 10) * 10000.0 &&
      0.0 <= h.fillRate <= 1.0 && 0.0 <= h.winRate <= 1.0 && h.profitFactor >= 0.0 &&
      h.alphaHalfLifeBars == HalfLifeBars(sig, ops) && h.alphaHalfLifeMs == 0.0 &&
      h.shuffledIC == Correlation(sig, Shuffled(ret, draws), ops)
    ensures |sig| == |ret| && |sig| >= MinHorizonBars ==>
      var (alpha, beta) := SimpleOLS(sig, ret);
      h.tStat == BetaTStat(beta, SumSqResid(sig, ret, alpha, beta), SumSqDev(sig, Mean(sig)), |sig|, ops)
    ensures |sig| == |ret| && |sig| >= MinHorizonBars ==>
      var acc := PnlFold(sig, ret, |sig|);
      var stream := PnlStream(sig, ret);
      PnlSane(acc, |sig|) &&
      h.fillRate == FillRate(acc, |sig|) && h.winRate == WinRate(acc) && h.profitFactor == ProfitFactor(acc) &&
      h.avgWinLoss == AvgWinLoss(acc, |sig|) && h.breakevenBps == BreakevenBps(acc) &&
      h.theoreticalSharpe == Sharpe(acc, |sig|, ops) &&
      h.hacSharpe == HacSharpe(acc, stream, |sig|, ops) &&
      h.probSharpeRatio == ProbSharpe(acc, stream, |sig|, ops) &&
      h.sortinoRatio == Sortino(acc, |sig|, ops) && h.calmarRatio == Calmar(acc)
    ensures |sig| == |ret| && |sig| >= MinHorizonBars ==>
      var ics := WindowICs(sig, ret, ICWindow, |sig| / ICWindow, ops);
      var m := Mean(ics);
      var sd := StdDev(ics, m, ops);
      if |sig| >= 2 * ICWindow && sd > 0.0 then h.icStd == sd && h.icir == m / sd
      else h.icStd == 0.0 && h.icir == 0.0
  {
    var n := |sig|;
    if n == 0 || n != |ret| {
      return ZeroHorizon;
    }
    if n < 200 {
      return ZeroHorizon;
    }
    var icPearson := Correlation(sig, ret, ops);
    var icSpearman := SpearmanCorrelation(sig, ret, ops);
    var (alpha, beta) := SimpleOLS(sig, ret);
    var rss, sx := ResidualSums(sig, ret, alpha, beta);
    var hit := DirectionalHitRate(sig, ret);
    var spread := CalcQuantileSpread(sig, ret, 10);
    var acc, stream := PnlLoop(sig, ret);
    assert stream == PnlStream(sig, ret);
    PnlFoldSane(sig, ret, n);
    var sharpe := Sharpe(acc, n, ops);
    var hacSharpe := HacSharpe(acc, stream, n, ops);
    var meanICw, stdICw := RollingICStats(sig, ret, ICWindow, ops);
    var icStd, icir := 0.0, 0.0;
    if stdICw > 0.0 {
      icStd, icir := stdICw, meanICw / stdICw;
    }
    var shuffled := ShuffledIC(sig, ret, draws, ops);
    h := HorizonMetrics(
      icPearson := icPearson, icSpearman := icSpearman, icStd := icStd, icir := icir,
      shuffledIC := shuffled, tStat := BetaTStat(beta, rss, sx, n, ops),
      directionalHit := hit, alpha := alpha, beta := beta,
      decileSpreadBps := spread * 10000.0, breakevenBps := BreakevenBps(acc),
      fillRate := FillRate(acc, n), theoreticalSharpe := sharpe,
      hacSharpe := hacSharpe, probSharpeRatio := ProbSharpe(acc, stream, n, ops),
      sortinoRatio := Sortino(acc, n, ops), calmarRatio := Calmar(acc),
      winRate := WinRate(acc), profitFactor := ProfitFactor(acc), avgWinLoss := AvgWinLoss(acc, n),
      alphaHalfLifeBars := HalfLifeBars(sig, ops), alphaHalfLifeMs := 0.0);
  }
}
