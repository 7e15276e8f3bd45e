/**
 * shared.go: the command-line dispatcher and a second copy of the row
 * packer. Its constants and AggHeader are identical to common.go's and live
 * in Layout. The float helpers Mean, StdDev and Correlation, which both
 * files declare, are modelled here.
 */
module Shared {
  import opened Bytes
  import opened Layout
  import Common

  datatype Command = Data | Build | Sanity | Study

  /** What main does with its arguments: print the usage text, run one of
      the four sub-commands, or report an unknown command. */
  datatype Action = Usage | Run(cmd: Command) | Unknown(name: string)

  function CommandNamed(name: string): (c: Option)
    ensures c.Some? <==> name in {"data", "build", "sanity", "study"}
    ensures name == "data" ==> c == Some(Data)
    ensures name == "build" ==> c == Some(Build)
    ensures name == "sanity" ==> c == Some(Sanity)
    ensures name == "study" ==> c == Some(Study)
  {
    if name == "data" then Some(Data)
    else if name == "build" then Some(Build)
    else if name == "sanity" then Some(Sanity)
    else if name == "study" then Some(Study)
    else None
  }

  datatype Option = None | Some(cmd: Command)

  /** main: no argument after the program name prints the usage;
      a known command runs; anything else is reported by name. */
  function Dispatch(args: seq<string>): (d: Action)
    ensures d == Usage <==> |args| < 2
    ensures d.Run? <==> |args| >= 2 && args[1] in {"data", "build", "sanity", "study"}
    ensures d.Run? ==> CommandNamed(args[1]) == Some(d.cmd)
    ensures d.Unknown? ==> |args| >= 2 && d.name == args[1]
  {
    if |args| < 2 then Usage
    else match CommandNamed(args[1])
      case Some(c) => Run(c)
      case None => Unknown(args[1])
  }

  /** The process exit status: 1 after the usage text or an unknown command. */
  function ExitStatus(d: Action): (code: int)
    ensures code == 0 <==> d.Run?
  {
    if d.Run? then 0 else 1
  }

  /** shared.go's PutRow is byte for byte common.go's. */
  method PutRow(buf: array<byte>, tid: u64, px: u64, qty: u64, fid: u64, cnt: u32, flags: u16, ts: i64)
    requires buf.Length >= 46
    modifies buf
    ensures buf[..] == RowImage(Trade(tid, px, qty, fid, cnt, flags, ts)) + old(buf[..])[46..]
    ensures DecodeTrade(buf[..]) == Trade(tid, px, qty, fid, cnt, flags, ts)
  {
    Common.PutRow(buf, tid, px, qty, fid, cnt, flags, ts);
  }

  // ---------------------------------------------------------------------
  // Math helpers: Mean, StdDev, Correlation
  // ---------------------------------------------------------------------

  /** The library functions of float64 the statistics call (math.Sqrt,
      math.Log, math.Log2, math.Erf), and what a division by zero gives
      (an infinity or NaN, which the model does not tell apart). The
      arithmetic is exact real arithmetic: float64 rounding is not modelled. */
  datatype Ops = Ops(sqrt: real -> real, log: real -> real, log2: real -> real,
                     erf: real -> real, overZero: real -> real)

  /** Float division a / b: the quotient for a non-zero divisor. */
  function Div(ops: Ops, a: real, b: real): (q: real)
    ensures b != 0.0 ==> q * b == a
  {
    if b == 0.0 then ops.overZero(a) else a / b
  }

  /** The running total of a float accumulation loop. */
  function Sum(xs: seq<real>): real
  {
    if xs == [] then 0.0 else Sum(xs[..|xs| - 1]) + xs[|xs| - 1]
  }

  /** Mean: 0 for an empty slice, otherwise the sum over the count. */
  function Mean(xs: seq<real>): (m: real)
    ensures xs == [] ==> m == 0.0
    ensures xs != [] ==> m * |xs| as real == Sum(xs)
  {
    if xs == [] then 0.0 else Sum(xs) / |xs| as real
  }

  /** The sum of squared deviations from m. */
  function SumSqDev(xs: seq<real>, m: real): (s: real)
    ensures s >= 0.0
  {
    if xs == [] then 0.0
    else
      var d := xs[|xs| - 1] - m;
      SquareNonneg(d);
      SumSqDev(xs[..|xs| - 1], m) + d * d
  }

  /** One more value adds its squared deviation. */
  lemma SumSqDevSnoc(xs: seq<real>, x: real, m: real)
    ensures SumSqDev(xs + [x], m) == SumSqDev(xs, m) + (x - m) * (x - m)
  {
    assert (xs + [x])[..|xs|] == xs;
  }

  lemma SquareNonneg(d: real)
    ensures d * d >= 0.0
  {
    if d < 0.0 {
      assert d * d == (-d) * (-d);
    }
  }

  /** StdDev: the sample deviation about the given mean, 0 below two values. */
  function StdDev(xs: seq<real>, m: real, ops: Ops): (sd: real)
    ensures |xs| < 2 ==> sd == 0.0
  {
    if |xs| < 2 then 0.0 else ops.sqrt(SumSqDev(xs, m) / (|xs| - 1) as real)
  }

  /** The sum of products of the deviations of x and y about mx and my. */
  function SumCoDev(x: seq<real>, y: seq<real>, mx: real, my: real): real
    requires |x| == |y|
  {
    if x == [] then 0.0
    else SumCoDev(x[..|x| - 1], y[..|y| - 1], mx, my) + (x[|x| - 1] - mx) * (y[|y| - 1] - my)
  }

  /** Correlation: Pearson's r, 0 for mismatched or empty slices and for a
      flat series. */
  function Correlation(x: seq<real>, y: seq<real>, ops: Ops): (r: real)
    ensures |x| != |y| || |x| == 0 ==> r == 0.0
  {
    if |x| != |y| || |x| == 0 then 0.0
    else
      var mx, my := Mean(x), Mean(y);
      var sxx, syy := SumSqDev(x, mx), SumSqDev(y, my);
      if sxx == 0.0 || syy == 0.0 then 0.0
      else Div(ops, SumCoDev(x, y, mx, my), ops.sqrt(sxx * syy))
  }
}
