/**
 * The `sum` command (sum.go): reads the OFI report, keeps the entries that
 * carry the horizon "50", aggregates them per OFI variant (the middle part
 * of the label "SYMBOL|VARIANT|YYYY-MM-DD") and ranks the variants by their
 * mean HAC Sharpe, best first.
 */
module Sum {
  import opened Metrics
  import Text
  import Sorting

  /** The horizon key the summary reads (sum.go's TargetHz). */
  const TargetHz: string := "50"

  /** ofiAgg: the running totals of one variant. */
  datatype OfiAgg = OfiAgg(
    variant: string, days: nat, totalBars: int, startDate: string, endDate: string,
    sumIC: real, sumHAC: real, sumSharpe: real, sumProbSR: real, sumBE: real,
    sumFill: real, sumHit: real, sumHalfBars: real, sumHalfMs: real,
    posICDays: nat, posHACDays: nat)

  /** The fresh record &ofiAgg{Variant: v}. */
  function NewAgg(v: string): (a: OfiAgg)
    ensures a.variant == v && a.days == 0 && a.startDate == "" && a.endDate == ""
  {
    OfiAgg(v, 0, 0, "", "", 0.0, 0.0, 0.0, 0.0, 0.0, 0.0, 0.0, 0.0, 0.0, 0, 0)
  }

  // ---------------------------------------------------------------------
  // Which entries count
  // ---------------------------------------------------------------------

  function Parts(e: AlphaMetrics): seq<string>
  {
    Text.Split(e.labelStr, '|')
  }

  /** An entry is aggregated when its label has at least three parts and it
      has a TargetHz horizon; every other entry is skipped. */
  predicate Accepted(e: AlphaMetrics)
  {
    |Parts(e)| >= 3 && TargetHz in e.horizon
  }

  function VariantOf(e: AlphaMetrics): string
    requires |Parts(e)| >= 3
  {
    Parts(e)[1]
  }

  function DateOf(e: AlphaMetrics): string
    requires |Parts(e)| >= 3
  {
    Parts(e)[2]
  }

  /** Go's `a < b` on strings. */
  predicate StrLess(a: string, b: string)
  {
    !Sorting.StrLe(b, a)
  }

  /** The period after one more date: `date` replaces an unset ("") or
      later StartDate, and an unset or earlier EndDate. */
  function Widen(period: (string, string), date: string): (string, string)
  {
    var (start, end) := period;
    (if start == "" || StrLess(date, start) then date else start,
     if end == "" || StrLess(end, date) then date else end)
  }

  /** The period the dates leave behind, starting from ("", ""). */
  function Span(ds: seq<string>): (string, string)
  {
    if ds == [] then ("", "") else Widen(Span(ds[..|ds| - 1]), ds[|ds| - 1])
  }

  /** The end of the period is the greatest date ("" when there is none). */
  lemma {:induction false} SpanEndIsMax(ds: seq<string>)
    ensures ds == [] ==> Span(ds).1 == ""
    ensures ds != [] ==> Span(ds).1 in ds
    ensures forall d :: d in ds ==> Sorting.StrLe(d, Span(ds).1)
  {
    if ds != [] {
      var init, date := ds[..|ds| - 1], ds[|ds| - 1];
      assert ds == init + [date];
      SpanEndIsMax(init);
      var end := Span(init).1;
      Sorting.StrLeTotal(date, date);
      if end == "" || StrLess(end, date) {
        forall d | d in init ensures Sorting.StrLe(d, date) {
          if end == "" {
            assert d == "";
          } else {
            Sorting.StrLeTotal(end, date);
            Sorting.StrLeTrans(d, end, date);
          }
        }
      } else {
        Sorting.StrLeTotal(end, date);
      }
    }
  }

  /** The start of the period is the least date, provided no date is empty
      (an empty date resets the start: the `StartDate == ""` test cannot tell
      "unset" from "set to the empty date"). */
  lemma {:induction false} SpanStartIsMin(ds: seq<string>)
    requires forall d :: d in ds ==> d != ""
    ensures ds == [] <==> Span(ds).0 == ""
    ensures ds != [] ==> Span(ds).0 in ds
    ensures forall d :: d in ds ==> Sorting.StrLe(Span(ds).0, d)
  {
    if ds != [] {
      var init, date := ds[..|ds| - 1], ds[|ds| - 1];
      assert ds == init + [date];
      forall d | d in init ensures d in ds {
      }
      SpanStartIsMin(init);
      var start := Span(init).0;
      Sorting.StrLeTotal(date, date);
      assert date in ds;
      if start == "" {
      } else if StrLess(date, start) {
        forall d | d in init ensures Sorting.StrLe(date, d) {
          Sorting.StrLeTotal(date, start);
          Sorting.StrLeTrans(date, start, d);
        }
      } else {
        Sorting.StrLeTotal(date, start);
      }
    }
  }

  /** One accepted day added to a variant's totals. */
  function AddDay(a: OfiAgg, date: string, nBars: int, h: HorizonMetrics): (r: OfiAgg)
    ensures r.variant == a.variant && r.days == a.days + 1
    ensures r.totalBars == a.totalBars + nBars
    ensures r.posICDays == a.posICDays + (if h.icPearson > 0.0 then 1 else 0)
    ensures r.posHACDays == a.posHACDays + (if h.hacSharpe > 0.0 then 1 else 0)
    ensures (r.startDate, r.endDate) == Widen((a.startDate, a.endDate), date)
  {
    var (start, end) := Widen((a.startDate, a.endDate), date);
    OfiAgg(
      a.variant, a.days + 1, a.totalBars + nBars, start, end,
      a.sumIC + h.icPearson, a.sumHAC + h.hacSharpe, a.sumSharpe + h.theoreticalSharpe,
      a.sumProbSR + h.probSharpeRatio, a.sumBE + h.breakevenBps, a.sumFill + h.fillRate,
      a.sumHit + h.directionalHit, a.sumHalfBars + h.alphaHalfLifeBars,
      a.sumHalfMs + h.alphaHalfLifeMs,
      a.posICDays + (if h.icPearson > 0.0 then 1 else 0),
      a.posHACDays + (if h.hacSharpe > 0.0 then 1 else 0))
  }

  /** The step the loop takes for one entry. */
  function Step(m: map<string, OfiAgg>, e: AlphaMetrics): map<string, OfiAgg>
  {
    if !Accepted(e) then m
    else
      var v := VariantOf(e);
      var a := if v in m then m[v] else NewAgg(v);
      m[v := AddDay(a, DateOf(e), e.nBars, e.horizon[TargetHz])]
  }

  /** The aggregate map after the entries, in report order. */
  function Fold(es: seq<AlphaMetrics>): map<string, OfiAgg>
  {
    if es == [] then map[] else Step(Fold(es[..|es| - 1]), es[|es| - 1])
  }

  // ---------------------------------------------------------------------
  // Reference definitions, one variant at a time
  // ---------------------------------------------------------------------

  predicate Of(e: AlphaMetrics, v: string)
  {
    Accepted(e) && VariantOf(e) == v
  }

  /** The dates of the entries aggregated into variant v, in order. */
  function DatesOf(es: seq<AlphaMetrics>, v: string): seq<string>
  {
    if es == [] then []
    else
      var e := es[|es| - 1];
      DatesOf(es[..|es| - 1], v) + (if Of(e, v) then [DateOf(e)] else [])
  }

  /** The sum of NBars over the entries aggregated into v. */
  function BarsOf(es: seq<AlphaMetrics>, v: string): int
  {
    if es == [] then 0
    else
      var e := es[|es| - 1];
      BarsOf(es[..|es| - 1], v) + (if Of(e, v) then e.nBars else 0)
  }

  /** The totals of variant v alone: its record, fed only its own entries. */
  function FoldOne(es: seq<AlphaMetrics>, v: string): (a: OfiAgg)
    ensures a.variant == v
    ensures a.days == |DatesOf(es, v)|
    ensures a.totalBars == BarsOf(es, v)
    ensures a.posICDays <= a.days && a.posHACDays <= a.days
    ensures DatesOf(es, v) == [] ==> a == NewAgg(v)
    ensures (a.startDate, a.endDate) == Span(DatesOf(es, v))
  {
    if es == [] then NewAgg(v)
    else
      var e := es[|es| - 1];
      var a := FoldOne(es[..|es| - 1], v);
      if Of(e, v) then
        var ds := DatesOf(es[..|es| - 1], v);
        assert (ds + [DateOf(e)])[..|ds|] == ds;
        AddDay(a, DateOf(e), e.nBars, e.horizon[TargetHz])
      else
        assert DatesOf(es, v) == DatesOf(es[..|es| - 1], v);
        a
  }

  /** A variant is in the map exactly when some entry was aggregated into it,
      and its record is the one built from its own entries. */
  lemma {:induction false} FoldPerVariant(es: seq<AlphaMetrics>, v: string)
    ensures v in Fold(es) <==> DatesOf(es, v) != []
    ensures v in Fold(es) ==> Fold(es)[v] == FoldOne(es, v)
  {
    if es != [] {
      FoldPerVariant(es[..|es| - 1], v);
    }
  }

  /** Every record in the map has Days >= 1, PosICDays <= Days and
      PosHACDays <= Days, and is filed under its own variant. */
  lemma AggregatesValid(es: seq<AlphaMetrics>)
    ensures forall v :: v in Fold(es) ==>
      var a := Fold(es)[v];
      a.variant == v && a.days >= 1 && a.posICDays <= a.days && a.posHACDays <= a.days
  {
    forall v | v in Fold(es)
      ensures Fold(es)[v].variant == v && Fold(es)[v].days >= 1
    {
      FoldPerVariant(es, v);
    }
  }

  /** Days counts the variant's accepted entries and TotalBars sums their
      NBars. */
  lemma AggregateCounts(es: seq<AlphaMetrics>, v: string)
    requires v in Fold(es)
    ensures Fold(es)[v].days == |DatesOf(es, v)| >= 1
    ensures Fold(es)[v].totalBars == BarsOf(es, v)
  {
    FoldPerVariant(es, v);
  }

  /** StartDate and EndDate are the least and the greatest of the variant's
      dates, the least provided no date is empty. */
  lemma AggregateDates(es: seq<AlphaMetrics>, v: string)
    requires v in Fold(es)
    ensures var a, ds := Fold(es)[v], DatesOf(es, v);
      a.endDate in ds && (forall d :: d in ds ==> Sorting.StrLe(d, a.endDate)) &&
      ((forall d :: d in ds ==> d != "") ==>
        a.startDate in ds && forall d :: d in ds ==> Sorting.StrLe(a.startDate, d))
  {
    FoldPerVariant(es, v);
    var ds := DatesOf(es, v);
    SpanEndIsMax(ds);
    if forall d :: d in ds ==> d != "" {
      SpanStartIsMin(ds);
    }
  }

  /** The aggregation loop of runSum. */
  method Aggregate(es: seq<AlphaMetrics>) returns (aggMap: map<string, OfiAgg>)
    ensures aggMap == Fold(es)
  {
    aggMap := map[];
    var i := 0;
    while i < |es|
      invariant 0 <= i <= |es|
      invariant aggMap == Fold(es[..i])
    {
      var e := es[i];
      assert es[..i + 1][..i] == es[..i];
      assert Fold(es[..i + 1]) == Step(aggMap, e);
      var parts := Text.Split(e.labelStr, '|');
      if |parts| >= 3 && TargetHz in e.horizon {
        var variant := parts[1];
        var date := parts[2];
        var h := e.horizon[TargetHz];
        var a := if variant in aggMap then aggMap[variant] else NewAgg(variant);
        aggMap := aggMap[variant := AddDay(a, date, e.nBars, h)];
      }
      i := i + 1;
    }
    assert es[..|es|] == es;
  }

  // ---------------------------------------------------------------------
  // Ranking
  // ---------------------------------------------------------------------

  /** The records of the map, in whatever order the map yields them. */
  method Collect(aggMap: map<string, OfiAgg>) returns (aggs: seq<OfiAgg>)
    ensures |aggs| == |aggMap|
    ensures forall a :: a in aggs <==> a in aggMap.Values
  {
    aggs := [];
    var keys := aggMap.Keys;
    ghost var seen: set<string> := {};
    while keys != {}
      invariant keys !! seen && keys + seen == aggMap.Keys
      invariant |aggs| == |seen|
      invariant forall a :: a in aggs <==> exists k :: k in seen && aggMap[k] == a
      decreases |keys|
    {
      var k :| k in keys;
      aggs := aggs + [aggMap[k]];
      keys := keys - {k};
      seen := seen + {k};
    }
    assert seen == aggMap.Keys;
  }

  function MeanHac(a: OfiAgg): real
  {
    if a.days == 0 then 0.0 else a.sumHAC / a.days as real
  }

  /** The comparison handed to sort.Slice. */
  predicate GoLess(a: OfiAgg, b: OfiAgg)
  {
    var di, dj := a.days as real, b.days as real;
    if di == 0.0 || dj == 0.0 then StrLess(a.variant, b.variant)
    else a.sumHAC / di > b.sumHAC / dj
  }

  /** "Not after" in the ranking: at least the other's mean HAC Sharpe. */
  predicate HacLe(a: OfiAgg, b: OfiAgg)
  {
    MeanHac(a) >= MeanHac(b)
  }

  lemma HacLeIsTotalPreorder()
    ensures Sorting.TotalPreorder(HacLe)
  {
  }

  /** On records with at least one day, which all aggregated records have,
      sort.Slice's comparison is "strictly higher mean HAC Sharpe", so a
      sorted slice is one ordered by HacLe. */
  lemma GoLessIsHacOrder(a: OfiAgg, b: OfiAgg)
    requires a.days >= 1 && b.days >= 1
    ensures GoLess(a, b) <==> !HacLe(b, a)
  {
  }

  /** The aggregated records, best mean HAC Sharpe first. */
  function Ranked(aggs: seq<OfiAgg>): (r: seq<OfiAgg>)
    ensures multiset(r) == multiset(aggs)
    ensures forall i, j :: 0 <= i < j < |r| ==> MeanHac(r[i]) >= MeanHac(r[j])
  {
    HacLeIsTotalPreorder();
    Sorting.SortBy(aggs, HacLe)
  }

  // ---------------------------------------------------------------------
  // The table
  // ---------------------------------------------------------------------

  /** One printed row: the means over the variant's days. */
  datatype SumRow = SumRow(
    variant: string, days: nat, bars: int,
    meanIC: real, hitPct: real, meanHAC: real, meanSR: real, meanBE: real,
    fillPct: real, halfLifeMs: real, posICPct: real, posHACPct: real,
    startDate: string, endDate: string)

  function RowOf(a: OfiAgg): (r: SumRow)
    requires a.days >= 1
    ensures r.variant == a.variant && r.days == a.days && r.bars == a.totalBars
    ensures r.meanHAC == MeanHac(a)
    ensures r.meanIC * a.days as real == a.sumIC
    ensures r.posICPct * a.days as real == 100.0 * a.posICDays as real
    ensures a.posICDays <= a.days ==> 0.0 <= r.posICPct <= 100.0
    ensures a.posHACDays <= a.days ==> 0.0 <= r.posHACPct <= 100.0
    ensures r.startDate == a.startDate && r.endDate == a.endDate
  {
    var n := a.days as real;
    SumRow(
      a.variant, a.days, a.totalBars,
      a.sumIC / n, (a.sumHit / n) * 100.0, a.sumHAC / n, a.sumSharpe / n, a.sumBE / n,
      (a.sumFill / n) * 100.0, a.sumHalfMs / n,
      100.0 * a.posICDays as real / n, 100.0 * a.posHACDays as real / n,
      a.startDate, a.endDate)
  }

  /** What runSum reads: the report could not be opened, was not a JSON
      array of AlphaMetrics, or decoded to these entries. */
  datatype ReportFile = OpenFailed | DecodeFailed | Decoded(entries: seq<AlphaMetrics>)

  /** What runSum ends with: an error message or the table. */
  datatype SumOutcome = OpenError | DecodeError | NoEntries | NoValid | Table(rows: seq<SumRow>)

  /** Whether some entry is aggregated. */
  predicate AnyAccepted(es: seq<AlphaMetrics>)
  {
    exists i :: 0 <= i < |es| && Accepted(es[i])
  }

  lemma {:induction false} FoldEmpty(es: seq<AlphaMetrics>)
    ensures Fold(es) == map[] <==> !AnyAccepted(es)
  {
    if es != [] {
      var init := es[..|es| - 1];
      FoldEmpty(init);
      if AnyAccepted(init) {
        var i :| 0 <= i < |init| && Accepted(init[i]);
        assert Accepted(es[i]);
        var w :| w in Fold(init);
        assert w in Fold(es);
      }
      if AnyAccepted(es) && !AnyAccepted(init) {
        assert Accepted(es[|es| - 1]);
        assert VariantOf(es[|es| - 1]) in Fold(es);
      }
    }
  }

  method Rows(ranked: seq<OfiAgg>) returns (rows: seq<SumRow>)
    requires forall a :: a in ranked ==> a.days >= 1
    ensures |rows| == |ranked|
    ensures forall k :: 0 <= k < |rows| ==> rows[k] == RowOf(ranked[k])
  {
    rows := [];
    for k := 0 to |ranked|
      invariant |rows| == k
      invariant forall j :: 0 <= j < k ==> rows[j] == RowOf(ranked[j])
    {
      var a := ranked[k];
      if a.days == 0 {
        continue;
      }
      rows := rows + [RowOf(a)];
    }
  }

  /** The printed table for the entries: one row per aggregated variant,
      holding that variant's means, with percentages of positive days in
      [0, 100], best mean HAC Sharpe first. */
  ghost predicate IsSummary(es: seq<AlphaMetrics>, rows: seq<SumRow>)
  {
    var m := Fold(es);
    |rows| == |m| &&
    (forall v :: v in m <==> exists k :: 0 <= k < |rows| && rows[k].variant == v) &&
    (forall k :: 0 <= k < |rows| ==>
      rows[k].variant in m && m[rows[k].variant].days >= 1 &&
      rows[k] == RowOf(m[rows[k].variant]) &&
      0.0 <= rows[k].posICPct <= 100.0 && 0.0 <= rows[k].posHACPct <= 100.0) &&
    (forall i, j :: 0 <= i < j < |rows| ==> rows[i].meanHAC >= rows[j].meanHAC)
  }

  /** The ranking and the rows of runSum's table, from the aggregate map. */
  method Summarize(ghost es: seq<AlphaMetrics>, aggMap: map<string, OfiAgg>)
    returns (rows: seq<SumRow>)
    requires aggMap == Fold(es)
    ensures IsSummary(es, rows)
  {
    AggregatesValid(es);
    var aggs := Collect(aggMap);
    var ranked := Ranked(aggs);
    RankedFacts(aggMap, aggs, ranked);
    rows := Rows(ranked);
    SummaryFacts(es, aggMap, aggs, ranked, rows);
  }

  /** runSum: the table, or the message for an unreadable or empty report. */
  method RunSum(report: ReportFile) returns (out: SumOutcome)
    ensures report.OpenFailed? <==> out.OpenError?
    ensures report.DecodeFailed? <==> out.DecodeError?
    ensures out.NoEntries? <==> report.Decoded? && report.entries == []
    ensures out.NoValid? <==>
      report.Decoded? && report.entries != [] && !AnyAccepted(report.entries)
    ensures out.Table? ==> report.Decoded? && IsSummary(report.entries, out.rows)
  {
    match report
    case OpenFailed => return OpenError;
    case DecodeFailed => return DecodeError;
    case Decoded(entries) =>
      if entries == [] {
        return NoEntries;
      }
      var aggMap := Aggregate(entries);
      FoldEmpty(entries);
      if |aggMap| == 0 {
        return NoValid;
      }
      var rows := Summarize(entries, aggMap);
      return Table(rows);
  }

  lemma SummaryFacts(es: seq<AlphaMetrics>, aggMap: map<string, OfiAgg>, aggs: seq<OfiAgg>,
                     ranked: seq<OfiAgg>, rows: seq<SumRow>)
    requires aggMap == Fold(es)
    requires forall v :: v in aggMap ==>
      aggMap[v].variant == v && aggMap[v].days >= 1 &&
      aggMap[v].posICDays <= aggMap[v].days && aggMap[v].posHACDays <= aggMap[v].days
    requires |aggs| == |aggMap| && forall a :: a in aggs <==> a in aggMap.Values
    requires ranked == Ranked(aggs)
    requires |rows| == |ranked|
    requires forall k :: 0 <= k < |rows| ==> ranked[k].days >= 1 && rows[k] == RowOf(ranked[k])
    ensures IsSummary(es, rows)
  {
    assert |ranked| == |multiset(ranked)| == |multiset(aggs)| == |aggs|;
    RankedFacts(aggMap, aggs, ranked);
    RowsFacts(aggMap, ranked, rows);
  }

  lemma RankedFacts(aggMap: map<string, OfiAgg>, aggs: seq<OfiAgg>, ranked: seq<OfiAgg>)
    requires forall v :: v in aggMap ==>
      aggMap[v].variant == v && aggMap[v].days >= 1 &&
      aggMap[v].posICDays <= aggMap[v].days && aggMap[v].posHACDays <= aggMap[v].days
    requires forall a :: a in aggs <==> a in aggMap.Values
    requires multiset(ranked) == multiset(aggs)
    ensures forall a :: a in ranked <==> a in aggMap.Values
    ensures forall a :: a in ranked ==> a.days >= 1
  {
    forall a ensures a in ranked <==> a in aggs {
      assert a in ranked <==> a in multiset(ranked);
      assert a in aggs <==> a in multiset(aggs);
    }
  }

  lemma RowsFacts(aggMap: map<string, OfiAgg>, ranked: seq<OfiAgg>, rows: seq<SumRow>)
    requires forall v :: v in aggMap ==>
      aggMap[v].variant == v && aggMap[v].days >= 1 &&
      aggMap[v].posICDays <= aggMap[v].days && aggMap[v].posHACDays <= aggMap[v].days
    requires forall a :: a in ranked <==> a in aggMap.Values
    requires |rows| == |ranked|
    requires forall k :: 0 <= k < |rows| ==> ranked[k].days >= 1 && rows[k] == RowOf(ranked[k])
    ensures forall v :: v in aggMap <==> exists k :: 0 <= k < |rows| && rows[k].variant == v
    ensures forall k :: 0 <= k < |rows| ==>
      rows[k] == RowOf(aggMap[rows[k].variant]) &&
      0.0 <= rows[k].posICPct <= 100.0 && 0.0 <= rows[k].posHACPct <= 100.0
  {
    forall k | 0 <= k < |rows|
      ensures rows[k].variant in aggMap && aggMap[rows[k].variant] == ranked[k]
    {
      assert ranked[k] in ranked;
    }
    forall v | v in aggMap
      ensures exists k :: 0 <= k < |rows| && rows[k].variant == v
    {
      assert aggMap[v] in aggMap.Values;
      var k :| 0 <= k < |ranked| && ranked[k] == aggMap[v];
      assert rows[k].variant == v;
    }
  }
}
