/**
 * studyalpha.go: the one-month alpha summary. runStudy lists the .bin
 * feature files of features/<symbol>/<yyyy>/<mm>, scores each day with
 * analyzeDay and writes the days, sorted by file name, into a report.
 * analyzeDay decodes the 24-byte records; a day of at least 500 records
 * gets, for each horizon h below its length, the IC of the signal at bar i
 * against the return from bar i to bar i + h, and the annualised Sharpe
 * ratio of the signal-weighted 20-bar returns.
 */
module StudyAlpha {
  import opened Bytes
  import opened GoIo
  import opened Shared
  import Layout
  import OfiStudy
  import Study
  import MetricsHorizon
  import Sorting
  import Text

  /** The horizons of the summary, in bars. */
  const Horizons: seq<nat> := [20, 50, 100, 200]

  /** Fewer records than this leave a day unscored. */
  const MinDayBars: nat := 500

  /** The horizon of the PnL series. */
  const PnlHorizon: nat := 20

  /** Ten-second bars in a year, 365 * 24 * 60 * 6: the annualisation. */
  const BarsPerYear: real := 3153600.0

  /** A PnL series flatter than this gets no Sharpe ratio. */
  const MinStd: real := 0.000000001

  /** One day of the summary: the file name, its record count, the IC of
      each scored horizon by decimal name, and the Sharpe ratio. */
  datatype DayResult = DayResult(name: string, ticks: nat, icTerm: map<string, real>, sharpe: real)

  /** The report written to alpha_summary.json. */
  datatype GlobalReport = GlobalReport(
    symbol: string, year: int, month: int, horizons: seq<nat>, days: map<string, DayResult>)

  // ---------------------------------------------------------------------
  // analyzeDay: which bars are used
  // ---------------------------------------------------------------------

  /** Whether bar i enters a series: a positive price, and for the PnL
      series also a non-zero signal. */
  predicate Usable(px: seq<real>, sig: seq<real>, i: nat, needSig: bool)
    requires i < |px| && i < |sig|
  {
    px[i] > 0.0 && (!needSig || sig[i] != 0.0)
  }

  /** The usable bars before k, in increasing order, and every one of them. */
  function Selected(px: seq<real>, sig: seq<real>, k: nat, needSig: bool): (idx: seq<nat>)
    requires k <= |px| && k <= |sig|
    ensures forall j :: 0 <= j < |idx| ==> idx[j] < k && Usable(px, sig, idx[j], needSig)
    ensures forall j, j' :: 0 <= j < j' < |idx| ==> idx[j] < idx[j']
    ensures forall i :: 0 <= i < k && Usable(px, sig, i, needSig) ==> i in idx
  {
    if k == 0 then []
    else Selected(px, sig, k - 1, needSig) + if Usable(px, sig, k - 1, needSig) then [k - 1] else []
  }

  /** The signals of bars idx. */
  function SignalsAt(sig: seq<real>, idx: seq<nat>): (s: seq<real>)
    requires forall j :: 0 <= j < |idx| ==> idx[j] < |sig|
    ensures |s| == |idx|
  {
    seq(|idx|, j requires 0 <= j < |idx| => sig[idx[j]])
  }

  /** The h-bar returns from bars idx. */
  function ReturnsAt(px: seq<real>, idx: seq<nat>, h: nat): (r: seq<real>)
    requires forall j :: 0 <= j < |idx| ==> idx[j] + h < |px| && px[idx[j]] > 0.0
    ensures |r| == |idx|
  {
    seq(|idx|, j requires 0 <= j < |idx| => OfiStudy.Return(px[idx[j]], px[idx[j] + h]))
  }

  /** The signal-weighted h-bar returns from bars idx. */
  function PnlAt(px: seq<real>, sig: seq<real>, idx: seq<nat>, h: nat): (p: seq<real>)
    requires forall j :: 0 <= j < |idx| ==> idx[j] < |sig| && idx[j] + h < |px| && px[idx[j]] > 0.0
    ensures |p| == |idx|
  {
    seq(|idx|, j requires 0 <= j < |idx| => MetricsHorizon.BarPnl(sig[idx[j]], OfiStudy.Return(px[idx[j]], px[idx[j] + h])))
  }

  /** The pairs of horizon h: every bar i < n - h with a positive price,
      in order, paired with its h-bar return. */
  function PairIndices(px: seq<real>, sig: seq<real>, h: nat): (idx: seq<nat>)
    requires |sig| == |px| && h < |px|
    ensures forall j :: 0 <= j < |idx| ==> idx[j] + h < |px| && px[idx[j]] > 0.0
  {
    Selected(px, sig, |px| - h, false)
  }

  /** The bars of the PnL series: i < n - 20 with a positive price and a
      non-zero signal. */
  function PnlIndices(px: seq<real>, sig: seq<real>): (idx: seq<nat>)
    requires |sig| == |px| && PnlHorizon < |px|
    ensures forall j :: 0 <= j < |idx| ==> idx[j] + PnlHorizon < |px| && px[idx[j]] > 0.0 && sig[idx[j]] != 0.0
  {
    Selected(px, sig, |px| - PnlHorizon, true)
  }

  lemma SignalsSnoc(sig: seq<real>, idx: seq<nat>, i: nat)
    requires forall j :: 0 <= j < |idx| ==> idx[j] < |sig|
    requires i < |sig|
    ensures SignalsAt(sig, idx + [i]) == SignalsAt(sig, idx) + [sig[i]]
  {
  }

  lemma ReturnsSnoc(px: seq<real>, idx: seq<nat>, i: nat, h: nat)
    requires forall j :: 0 <= j < |idx| ==> idx[j] + h < |px| && px[idx[j]] > 0.0
    requires i + h < |px| && px[i] > 0.0
    ensures ReturnsAt(px, idx + [i], h) == ReturnsAt(px, idx, h) + [OfiStudy.Return(px[i], px[i + h])]
  {
  }

  lemma PnlSnoc(px: seq<real>, sig: seq<real>, idx: seq<nat>, i: nat, h: nat)
    requires forall j :: 0 <= j < |idx| ==> idx[j] < |sig| && idx[j] + h < |px| && px[idx[j]] > 0.0
    requires i < |sig| && i + h < |px| && px[i] > 0.0
    ensures PnlAt(px, sig, idx + [i], h) == PnlAt(px, sig, idx, h) + [MetricsHorizon.BarPnl(sig[i], OfiStudy.Return(px[i], px[i + h]))]
  {
    var a, b := PnlAt(px, sig, idx + [i], h), PnlAt(px, sig, idx, h) + [MetricsHorizon.BarPnl(sig[i], OfiStudy.Return(px[i], px[i + h]))];
    forall j | 0 <= j < |a| ensures a[j] == b[j] {
      if j < |idx| {
        assert (idx + [i])[j] == idx[j];
      }
    }
  }

  /** One more bar before the selection bound. */
  lemma SelectedStep(px: seq<real>, sig: seq<real>, k: nat, needSig: bool)
    requires k < |px| && k < |sig|
    ensures Selected(px, sig, k + 1, needSig) ==
      Selected(px, sig, k, needSig) + if Usable(px, sig, k, needSig) then [k] else []
  {
  }

  /** The selection loop of one horizon: s and r, of equal length. */
  method SelectPairs(px: seq<real>, sig: seq<real>, h: nat) returns (s: seq<real>, r: seq<real>)
    requires |sig| == |px| && h < |px|
    ensures s == SignalsAt(sig, PairIndices(px, sig, h))
    ensures r == ReturnsAt(px, PairIndices(px, sig, h), h)
  {
    s, r := [], [];
    for i := 0 to |px| - h
      invariant s == SignalsAt(sig, Selected(px, sig, i, false))
      invariant r == ReturnsAt(px, Selected(px, sig, i, false), h)
    {
      s, r := PairStep(px, sig, h, i, s, r);
    }
  }

  /** One bar of the selection loop. */
  method PairStep(px: seq<real>, sig: seq<real>, h: nat, i: nat, s: seq<real>, r: seq<real>)
    returns (s': seq<real>, r': seq<real>)
    requires |sig| == |px| && i + h < |px|
    requires s == SignalsAt(sig, Selected(px, sig, i, false))
    requires r == ReturnsAt(px, Selected(px, sig, i, false), h)
    ensures s' == SignalsAt(sig, Selected(px, sig, i + 1, false))
    ensures r' == ReturnsAt(px, Selected(px, sig, i + 1, false), h)
  {
    SelectedStep(px, sig, i, false);
    s', r' := s, r;
    var p0 := px[i];
    var p1 := px[i + h];
    if p0 > 0.0 {
      SignalsSnoc(sig, Selected(px, sig, i, false), i);
      ReturnsSnoc(px, Selected(px, sig, i, false), i, h);
      s' := s + [sig[i]];
      r' := r + [OfiStudy.Return(p0, p1)];
    }
  }

  /** The PnL loop: sig[i] times the 20-bar return of each PnL bar. */
  method SelectPnl(px: seq<real>, sig: seq<real>) returns (pnl: seq<real>)
    requires |sig| == |px| && PnlHorizon < |px|
    ensures pnl == PnlAt(px, sig, PnlIndices(px, sig), PnlHorizon)
  {
    pnl := [];
    for i := 0 to |px| - PnlHorizon
      invariant pnl == PnlAt(px, sig, Selected(px, sig, i, true), PnlHorizon)
    {
      pnl := PnlStep(px, sig, i, pnl);
    }
  }

  /** One bar of the PnL loop. */
  method PnlStep(px: seq<real>, sig: seq<real>, i: nat, pnl: seq<real>) returns (pnl': seq<real>)
    requires |sig| == |px| && i + PnlHorizon < |px|
    requires pnl == PnlAt(px, sig, Selected(px, sig, i, true), PnlHorizon)
    ensures pnl' == PnlAt(px, sig, Selected(px, sig, i + 1, true), PnlHorizon)
  {
    SelectedStep(px, sig, i, true);
    pnl' := pnl;
    var p0 := px[i];
    var p1 := px[i + PnlHorizon];
    if p0 > 0.0 && sig[i] != 0.0 {
      PnlSnoc(px, sig, Selected(px, sig, i, true), i, PnlHorizon);
      pnl' := pnl + [MetricsHorizon.BarPnl(sig[i], OfiStudy.Return(p0, p1))];
    }
  }

  /** Every bar of the PnL series is a bar of the 20-bar pairs, one with a
      non-zero signal. */
  lemma PnlBarsArePairs(px: seq<real>, sig: seq<real>)
    requires |sig| == |px| && PnlHorizon < |px|
    ensures forall i :: i in PnlIndices(px, sig) ==> i in PairIndices(px, sig, PnlHorizon) && sig[i] != 0.0
  {
    var pnlIdx := PnlIndices(px, sig);
    forall i | i in pnlIdx ensures i in PairIndices(px, sig, PnlHorizon) && sig[i] != 0.0 {
      var j :| 0 <= j < |pnlIdx| && pnlIdx[j] == i;
      assert Usable(px, sig, i, true);
    }
  }

  // ---------------------------------------------------------------------
  // analyzeDay: the scores
  // ---------------------------------------------------------------------

  /** The IC of horizon h: the correlation of the paired signals and
      returns. */
  function HorizonIc(px: seq<real>, sig: seq<real>, h: nat, ops: Ops): (ic: real)
    requires |sig| == |px| && h < |px|
    ensures PairIndices(px, sig, h) == [] ==> ic == 0.0
  {
    var idx := PairIndices(px, sig, h);
    Correlation(SignalsAt(sig, idx), ReturnsAt(px, idx, h), ops)
  }

  /** ICTerm after the horizon loop has visited hs: a horizon no shorter
      than the day is skipped. */
  function IcMap(px: seq<real>, sig: seq<real>, hs: seq<nat>, ops: Ops): (m: map<string, real>)
    requires |sig| == |px|
  {
    if hs == [] then map[]
    else
      var h := hs[|hs| - 1];
      var m0 := IcMap(px, sig, hs[..|hs| - 1], ops);
      if |px| <= h then m0 else m0[Text.Itoa(h) := HorizonIc(px, sig, h, ops)]
  }

  /** A day of at least 500 bars scores all four horizons. */
  lemma IcKeys(px: seq<real>, sig: seq<real>, ops: Ops)
    requires |sig| == |px| && |px| >= MinDayBars
    ensures IcMap(px, sig, Horizons, ops).Keys == {"20", "50", "100", "200"}
  {
    HorizonNames();
    assert Horizons[..3] == [20, 50, 100] && [20, 50, 100][..2] == [20, 50];
    assert [20, 50][..1] == [20] && [20][..0] == [];
    assert IcMap(px, sig, [20], ops).Keys == {"20"};
    assert IcMap(px, sig, [20, 50], ops).Keys == {"20", "50"};
    assert IcMap(px, sig, [20, 50, 100], ops).Keys == {"20", "50", "100"};
  }

  lemma HorizonNames()
    ensures Text.Itoa(20) == "20" && Text.Itoa(50) == "50"
    ensures Text.Itoa(100) == "100" && Text.Itoa(200) == "200"
  {
  }

  /** The Sharpe ratio of the PnL series, scaled to a year of bars; 0 for
      fewer than two values or a flat series. */
  function Sharpe(pnl: seq<real>, ops: Ops): (sh: real)
    ensures |pnl| <= 1 ==> sh == 0.0
    ensures sh != 0.0 ==> |pnl| > 1 && StdDev(pnl, Mean(pnl), ops) > MinStd
    ensures |pnl| > 1 && StdDev(pnl, Mean(pnl), ops) > MinStd ==>
      sh * StdDev(pnl, Mean(pnl), ops) == Mean(pnl) * ops.sqrt(BarsPerYear)
  {
    if |pnl| > 1 then
      var mu := Mean(pnl);
      var std := StdDev(pnl, mu, ops);
      if std > MinStd then Annualised(mu, std, ops.sqrt(BarsPerYear)) else 0.0
    else 0.0
  }

  /** (mu / std) * scale. */
  function Annualised(mu: real, std: real, scale: real): (sh: real)
    requires std > 0.0
    ensures sh * std == mu * scale
  {
    AnnualisedScales(mu, std, scale);
    (mu / std) * scale
  }

  lemma AnnualisedScales(mu: real, std: real, scale: real)
    requires std > 0.0
    ensures (mu / std) * scale * std == mu * scale
  {
    var q := mu / std;
    assert q * std == mu;
    calc {
      q * scale * std;
      (q * std) * scale;
      mu * scale;
    }
  }

  /** The records of a read: none when the read fails. */
  function DayData(file: Opened): seq<byte>
  {
    if file.OpenFailed? then [] else file.contents
  }

  /** analyzeDay on a file read as `file`. */
  function DaySpec(name: string, file: Opened, fromBits: u64 -> real, ops: Ops): (r: DayResult)
    ensures r.name == name && r.ticks == |DayData(file)| / Layout.FeatureSize
    ensures r.ticks < MinDayBars ==> r.icTerm == map[] && r.sharpe == 0.0
    ensures r.ticks >= MinDayBars ==> r.icTerm.Keys == {"20", "50", "100", "200"}
  {
    var data := DayData(file);
    var n := |data| / Layout.FeatureSize;
    if n < MinDayBars then DayResult(name, n, map[], 0.0)
    else
      var px, sig := Study.Prices(data, fromBits), Study.Signals(data, fromBits);
      IcKeys(px, sig, ops);
      DayResult(name, n, IcMap(px, sig, Horizons, ops), Sharpe(PnlAt(px, sig, PnlIndices(px, sig), PnlHorizon), ops))
  }

  /** The horizon loop of analyzeDay. */
  method ScoreHorizons(px: seq<real>, sig: seq<real>, ops: Ops) returns (m: map<string, real>)
    requires |sig| == |px|
    ensures m == IcMap(px, sig, Horizons, ops)
  {
    m := map[];
    for j := 0 to |Horizons|
      invariant m == IcMap(px, sig, Horizons[..j], ops)
    {
      assert Horizons[..j + 1][..j] == Horizons[..j];
      var h := Horizons[j];
      if |px| <= h {
        continue;
      }
      var s, r := SelectPairs(px, sig, h);
      m := m[Text.Itoa(h) := Correlation(s, r, ops)];
    }
    assert Horizons[..|Horizons|] == Horizons;
  }

  /** analyzeDay. */
  method AnalyzeDay(name: string, file: Opened, fromBits: u64 -> real, ops: Ops) returns (res: DayResult)
    ensures res == DaySpec(name, file, fromBits, ops)
  {
    var data := if file.OpenFailed? then [] else file.contents;
    var ts, px, sig := Study.DecodeRecords(data, fromBits);
    var n := |data| / Layout.FeatureSize;
    res := DayResult(name, n, map[], 0.0);
    if n < MinDayBars {
      return;
    }
    var ic := ScoreHorizons(px, sig, ops);
    var pnl := SelectPnl(px, sig);
    var sharpe := AnnualSharpe(pnl, ops);
    res := DayResult(name, n, ic, sharpe);
  }

  /** The Sharpe step of analyzeDay. */
  method AnnualSharpe(pnl: seq<real>, ops: Ops) returns (sharpe: real)
    ensures sharpe == Sharpe(pnl, ops)
  {
    sharpe := 0.0;
    if |pnl| > 1 {
      var mu := Mean(pnl);
      var std := StdDev(pnl, mu, ops);
      if std > MinStd {
        sharpe := (mu / std) * ops.sqrt(BarsPerYear);
      }
    }
  }

  // ---------------------------------------------------------------------
  // runStudy: the month's report
  // ---------------------------------------------------------------------

  /** features/<symbol>/<yyyy>/<mm> under the base directory. */
  function MonthDir(): string
  {
    Study.Join(Study.Join(Study.Join(Study.Join(Layout.BaseDir, "features"), Layout.Symbol),
      Text.PadInt(Layout.TargetYear, 4)), Text.PadInt(Layout.TargetMonth, 2))
  }

  /** The jobs: each .bin entry's path and name, in listing order. */
  function Jobs(dir: string, entries: seq<DirEntry>): (js: seq<(string, string)>)
    ensures |js| <= |entries|
    ensures forall j :: 0 <= j < |js| ==> Study.Ext(js[j].1) == ".bin" && js[j].0 == Study.Join(dir, js[j].1)
  {
    if entries == [] then []
    else
      var e := entries[|entries| - 1];
      Jobs(dir, entries[..|entries| - 1]) + if Study.Ext(e.name) == ".bin" then [(Study.Join(dir, e.name), e.name)] else []
  }

  /** The result of every job, in job order. */
  function Results(js: seq<(string, string)>, readFile: string -> Opened, fromBits: u64 -> real, ops: Ops)
    : (rs: seq<DayResult>)
    ensures |rs| == |js|
    ensures forall j :: 0 <= j < |js| ==> rs[j].name == js[j].1
  {
    if js == [] then []
    else
      var job := js[|js| - 1];
      Results(js[..|js| - 1], readFile, fromBits, ops) + [DaySpec(job.1, readFile(job.0), fromBits, ops)]
  }

  /** sort.Slice's order on the results: by name, as strings. */
  predicate NameLe(a: DayResult, b: DayResult)
  {
    Sorting.StrLe(a.name, b.name)
  }

  lemma NameLeOrder()
    ensures Sorting.TotalPreorder(NameLe)
  {
    forall a: DayResult, b: DayResult ensures NameLe(a, b) || NameLe(b, a) {
      Sorting.StrLeTotal(a.name, b.name);
    }
    forall a: DayResult, b: DayResult, c: DayResult | NameLe(a, b) && NameLe(b, c) ensures NameLe(a, c) {
      Sorting.StrLeTrans(a.name, b.name, c.name);
    }
  }

  /** report.Days after the loop over rs: each name maps to a result of
      that name (the last one, for a repeated name), and every name is
      there. */
  function DaysMap(rs: seq<DayResult>): map<string, DayResult>
  {
    if rs == [] then map[]
    else
      var r := rs[|rs| - 1];
      DaysMap(rs[..|rs| - 1])[r.name := r]
  }

  lemma {:induction false} DaysMapNames(rs: seq<DayResult>)
    ensures forall k :: k in DaysMap(rs) ==> DaysMap(rs)[k] in rs && DaysMap(rs)[k].name == k
    ensures forall r :: r in rs ==> r.name in DaysMap(rs)
  {
    if rs != [] {
      var init := rs[..|rs| - 1];
      DaysMapNames(init);
      assert forall r :: r in rs ==> r in init || r == rs[|rs| - 1];
    }
  }

  /** One printed row: day name, ticks, IC(20) (0 when not scored) and
      Sharpe. */
  function Row(r: DayResult): (string, nat, real, real)
  {
    (r.name, r.ticks, if "20" in r.icTerm then r.icTerm["20"] else 0.0, r.sharpe)
  }

  /** The report loop: fill report.Days and print the rows, in name order. */
  method ReportDays(sorted: seq<DayResult>) returns (days: map<string, DayResult>, rows: seq<(string, nat, real, real)>)
    ensures days == DaysMap(sorted)
    ensures |rows| == |sorted| && forall k :: 0 <= k < |sorted| ==> rows[k] == Row(sorted[k])
  {
    days, rows := map[], [];
    for k := 0 to |sorted|
      invariant days == DaysMap(sorted[..k])
      invariant |rows| == k && forall j :: 0 <= j < k ==> rows[j] == Row(sorted[j])
    {
      assert sorted[..k + 1][..k] == sorted[..k];
      var r := sorted[k];
      days := days[r.name := r];
      var ic := 0.0;
      if "20" in r.icTerm {
        ic := r.icTerm["20"];
      }
      rows := rows + [(r.name, r.ticks, ic, r.sharpe)];
    }
    assert sorted[..|sorted|] == sorted;
  }

  /** The results in name order. */
  function ByName(rs: seq<DayResult>): (sorted: seq<DayResult>)
    ensures multiset(sorted) == multiset(rs)
    ensures forall i, j :: 0 <= i < j < |sorted| ==> Sorting.StrLe(sorted[i].name, sorted[j].name)
  {
    NameLeOrder();
    Sorting.SortBy(rs, NameLe)
  }

  /** runStudy over the listing of the month directory: one row per .bin
      file, in name order, and a report holding every day under its own
      name. */
  method RunStudy(entries: seq<DirEntry>, readFile: string -> Opened, fromBits: u64 -> real, ops: Ops)
    returns (report: GlobalReport, rows: seq<(string, nat, real, real)>)
    ensures var rs := Results(Jobs(MonthDir(), entries), readFile, fromBits, ops);
      |rows| == |rs| &&
      (forall k :: 0 <= k < |rows| ==> rows[k] == Row(ByName(rs)[k])) &&
      (forall r :: r in rs ==> r.name in report.days) &&
      (forall k :: k in report.days ==> report.days[k] in rs && report.days[k].name == k)
    ensures report.symbol == Layout.Symbol && report.year == Layout.TargetYear
    ensures report.month == Layout.TargetMonth && report.horizons == Horizons
  {
    var dir := MonthDir();
    var jobs := Jobs(dir, entries);
    var results := AnalyzeJobs(jobs, readFile, fromBits, ops);
    var sorted := ByName(results);
    var days;
    days, rows := ReportDays(sorted);
    DaysMapNames(sorted);
    forall r | r in results ensures r.name in days {
      assert r in multiset(sorted);
    }
    forall k | k in days ensures days[k] in results {
      assert days[k] in multiset(results);
    }
    report := GlobalReport(Layout.Symbol, Layout.TargetYear, Layout.TargetMonth, Horizons, days);
  }

  /** The workers: analyzeDay on every job. */
  method AnalyzeJobs(js: seq<(string, string)>, readFile: string -> Opened, fromBits: u64 -> real, ops: Ops)
    returns (rs: seq<DayResult>)
    ensures rs == Results(js, readFile, fromBits, ops)
    decreases |js|
  {
    if js == [] {
      return [];
    }
    var job := js[|js| - 1];
    rs := AnalyzeJobs(js[..|js| - 1], readFile, fromBits, ops);
    var r := AnalyzeDay(job.1, readFile(job.0), fromBits, ops);
    rs := rs + [r];
  }
}
