/**
 * The `oos` command (OOS.go): the OFI report split per variant into an
 * in-sample part (days before 2024-01-01) and an out-of-sample part (that
 * day and later), both at the horizon "50", and the variants with
 * out-of-sample days ranked by their out-of-sample mean HAC Sharpe.
 */
module Oos {
  import opened Metrics
  import Text
  import Sorting
  import Sum

  /** The first out-of-sample day. */
  const OosStartDate: string := "2024-01-01"

  // ---------------------------------------------------------------------
  // Dates: time.Parse with the layout "2006-01-02"
  // ---------------------------------------------------------------------

  datatype Date = Date(year: int, month: int, day: int)

  predicate IsLeap(y: int)
  {
    y % 4 == 0 && (y % 100 != 0 || y % 400 == 0)
  }

  /** The number of days in month m of year y. */
  function DaysIn(m: int, y: int): int
  {
    if m == 2 then (if IsLeap(y) then 29 else 28)
    else if m == 4 || m == 6 || m == 9 || m == 11 then 30
    else 31
  }

  /** Four digits, '-', two digits, '-', two digits and nothing more. */
  predicate DateShape(s: string)
  {
    |s| == 10 && s[4] == '-' && s[7] == '-' &&
    Text.AllDigitChars(s[0..4]) && Text.AllDigitChars(s[5..7]) && Text.AllDigitChars(s[8..10])
  }

  /** The day a "YYYY-MM-DD" string names, or None when the string has
      another shape, the month is not 1..12 or the day is not in the month. */
  function ParseDate(s: string): (r: Text.Option<Date>)
    ensures r.Some? ==>
      DateShape(s) && 1 <= r.value.month <= 12 &&
      1 <= r.value.day <= DaysIn(r.value.month, r.value.year)
  {
    if !DateShape(s) then Text.None
    else
      var y, m, d := Text.DecimalValue(s[0..4]), Text.DecimalValue(s[5..7]), Text.DecimalValue(s[8..10]);
      if m < 1 || m > 12 || d < 1 || d > DaysIn(m, y) then Text.None
      else Text.Some(Date(y, m, d))
  }

  /** Time.Before on days: earlier year, month, then day. */
  predicate Before(a: Date, b: Date)
  {
    a.year < b.year || (a.year == b.year && (a.month < b.month || (a.month == b.month && a.day < b.day)))
  }

  const Boundary: Date := Date(2024, 1, 1)

  /** OOSStartDate parses, to 2024-01-01, so the "invalid constant" exit
      of runOOS is never taken. */
  lemma BoundaryParses()
    ensures ParseDate(OosStartDate) == Text.Some(Boundary)
  {
    var s := OosStartDate;
    assert s == ['2', '0', '2', '4', '-', '0', '1', '-', '0', '1'];
    assert s[0..4] == "2024" && s[5..7] == "01" && s[8..10] == "01";
    assert Text.DecimalValue("2024") == 2024 by {
      assert "2024"[..3] == "202" && "202"[..2] == "20" && "20"[..1] == "2" && "2"[..0] == "";
    }
    assert Text.DecimalValue("01") == 1 by {
      assert "01"[..1] == "0" && "0"[..0] == "";
    }
  }

  /** A day is out of sample when it is not before the boundary; with the
      boundary on the first of January that is its year being 2024 or later. */
  predicate IsOos(d: Date)
  {
    !Before(d, Boundary)
  }

  lemma IsOosByYear(d: Date)
    requires 1 <= d.month && 1 <= d.day
    ensures IsOos(d) <==> d.year >= 2024
  {
  }

  // ---------------------------------------------------------------------
  // Aggregation
  // ---------------------------------------------------------------------

  /** The totals of one side (in sample or out of sample) of a variant. */
  datatype Side = Side(
    days: nat, bars: int, start: string, end: string,
    sumIC: real, sumHAC: real, sumSR: real, sumProbSR: real, sumBE: real,
    sumHit: real, sumFill: real)

  const EmptySide: Side := Side(0, 0, "", "", 0.0, 0.0, 0.0, 0.0, 0.0, 0.0, 0.0)

  /** ofiOOSAgg: a variant's in-sample and out-of-sample totals. */
  datatype OosAgg = OosAgg(variant: string, inSample: Side, outSample: Side)

  function AddToSide(s: Side, date: string, nBars: int, h: HorizonMetrics): (r: Side)
    ensures r.days == s.days + 1 && r.bars == s.bars + nBars
    ensures (r.start, r.end) == Sum.Widen((s.start, s.end), date)
  {
    var (start, end) := Sum.Widen((s.start, s.end), date);
    Side(
      s.days + 1, s.bars + nBars, start, end,
      s.sumIC + h.icPearson, s.sumHAC + h.hacSharpe, s.sumSR + h.theoreticalSharpe,
      s.sumProbSR + h.probSharpeRatio, s.sumBE + h.breakevenBps,
      s.sumHit + h.directionalHit, s.sumFill + h.fillRate)
  }

  /** An entry is aggregated when its label has three parts, its date
      parses and it has a TargetHz horizon. */
  predicate Accepted(e: AlphaMetrics)
  {
    |Sum.Parts(e)| >= 3 && ParseDate(Sum.DateOf(e)).Some? && Sum.TargetHz in e.horizon
  }

  predicate OosEntry(e: AlphaMetrics)
    requires Accepted(e)
  {
    IsOos(ParseDate(Sum.DateOf(e)).value)
  }

  /** The loop's step for one entry: exactly one side of its variant takes
      the day, the out-of-sample side exactly when the date is not before
      the boundary; no other variant changes. */
  function Step(m: map<string, OosAgg>, e: AlphaMetrics): (r: map<string, OosAgg>)
    ensures !Accepted(e) ==> r == m
    ensures Accepted(e) ==>
      var v := Sum.VariantOf(e);
      var a := if v in m then m[v] else OosAgg(v, EmptySide, EmptySide);
      r.Keys == m.Keys + {v} &&
      (forall w :: w in m && w != v ==> r[w] == m[w]) &&
      r[v].inSample.days + r[v].outSample.days == a.inSample.days + a.outSample.days + 1 &&
      (OosEntry(e) <==> r[v].outSample.days == a.outSample.days + 1) &&
      (!OosEntry(e) <==> r[v].inSample.days == a.inSample.days + 1)
  {
    if !Accepted(e) then m
    else
      var v := Sum.VariantOf(e);
      var a := if v in m then m[v] else OosAgg(v, EmptySide, EmptySide);
      var date, h := Sum.DateOf(e), e.horizon[Sum.TargetHz];
      if OosEntry(e) then m[v := a.(outSample := AddToSide(a.outSample, date, e.nBars, h))]
      else m[v := a.(inSample := AddToSide(a.inSample, date, e.nBars, h))]
  }

  function Fold(es: seq<AlphaMetrics>): map<string, OosAgg>
  {
    if es == [] then map[] else Step(Fold(es[..|es| - 1]), es[|es| - 1])
  }

  // ---------------------------------------------------------------------
  // Reference definitions, one variant and one side at a time
  // ---------------------------------------------------------------------

  predicate On(e: AlphaMetrics, v: string, oos: bool)
  {
    Accepted(e) && Sum.VariantOf(e) == v && OosEntry(e) == oos
  }

  /** The dates of v's entries on one side, in order. */
  function DatesOn(es: seq<AlphaMetrics>, v: string, oos: bool): (ds: seq<string>)
    ensures forall d :: d in ds ==> ParseDate(d).Some? && IsOos(ParseDate(d).value) == oos
  {
    if es == [] then []
    else
      var e := es[|es| - 1];
      DatesOn(es[..|es| - 1], v, oos) + (if On(e, v, oos) then [Sum.DateOf(e)] else [])
  }

  /** One side of v, fed only its own entries. */
  function SideFold(es: seq<AlphaMetrics>, v: string, oos: bool): (s: Side)
    ensures s.days == |DatesOn(es, v, oos)|
    ensures DatesOn(es, v, oos) == [] ==> s == EmptySide
    ensures (s.start, s.end) == Sum.Span(DatesOn(es, v, oos))
  {
    if es == [] then EmptySide
    else
      var e := es[|es| - 1];
      var s := SideFold(es[..|es| - 1], v, oos);
      if On(e, v, oos) then
        var ds := DatesOn(es[..|es| - 1], v, oos);
        assert (ds + [Sum.DateOf(e)])[..|ds|] == ds;
        AddToSide(s, Sum.DateOf(e), e.nBars, e.horizon[Sum.TargetHz])
      else
        assert DatesOn(es, v, oos) == DatesOn(es[..|es| - 1], v, oos);
        s
  }

  /** A variant is in the map exactly when some entry was aggregated into
      it, and each of its sides is the one built from that side's entries. */
  lemma {:induction false} FoldPerVariant(es: seq<AlphaMetrics>, v: string)
    ensures v in Fold(es) <==> DatesOn(es, v, false) != [] || DatesOn(es, v, true) != []
    ensures v in Fold(es) ==>
      Fold(es)[v] == OosAgg(v, SideFold(es, v, false), SideFold(es, v, true))
  {
    if es != [] {
      FoldPerVariant(es[..|es| - 1], v);
    }
  }

  /** Each side's start and end are the least and the greatest of that
      side's dates, and a side without days keeps both empty. */
  lemma AggregateSides(es: seq<AlphaMetrics>, v: string, oos: bool)
    requires v in Fold(es)
    ensures var a, ds := Fold(es)[v], DatesOn(es, v, oos);
      var s := if oos then a.outSample else a.inSample;
      s.days == |ds| &&
      (ds == [] ==> s.start == "" && s.end == "") &&
      (ds != [] ==> s.start in ds && s.end in ds) &&
      forall d :: d in ds ==> Sorting.StrLe(s.start, d) && Sorting.StrLe(d, s.end)
  {
    FoldPerVariant(es, v);
    var ds := DatesOn(es, v, oos);
    Sum.SpanEndIsMax(ds);
    forall d | d in ds ensures d != "" {
      assert ParseDate(d).Some?;
    }
    Sum.SpanStartIsMin(ds);
  }

  /** The aggregation loop of runOOS, with the boundary it parsed. */
  method Aggregate(es: seq<AlphaMetrics>, boundary: Date) returns (aggMap: map<string, OosAgg>)
    requires boundary == Boundary
    ensures aggMap == Fold(es)
  {
    aggMap := map[];
    var i := 0;
    while i < |es|
      invariant 0 <= i <= |es|
      invariant aggMap == Fold(es[..i])
    {
      var e := es[i];
      assert es[..i + 1][..i] == es[..i];
      assert Fold(es[..i + 1]) == Step(aggMap, e);
      var parts := Text.Split(e.labelStr, '|');
      if |parts| >= 3 {
        var variant, dateStr := parts[1], parts[2];
        var dayT := ParseDate(dateStr);
        if dayT.Some? && Sum.TargetHz in e.horizon {
          var h := e.horizon[Sum.TargetHz];
          var a := if variant in aggMap then aggMap[variant] else OosAgg(variant, EmptySide, EmptySide);
          var isOos := !Before(dayT.value, boundary);
          if isOos {
            a := a.(outSample := AddToSide(a.outSample, dateStr, e.nBars, h));
          } else {
            a := a.(inSample := AddToSide(a.inSample, dateStr, e.nBars, h));
          }
          aggMap := aggMap[variant := a];
        }
      }
      i := i + 1;
    }
    assert es[..|es|] == es;
  }

  // ---------------------------------------------------------------------
  // Ranking
  // ---------------------------------------------------------------------

  /** The variants with out-of-sample days. */
  ghost function OosKeys(m: map<string, OosAgg>): set<string>
  {
    set k | k in m && m[k].outSample.days > 0
  }

  /** The records with out-of-sample days, in whatever order the map
      yields them. */
  method CollectOos(aggMap: map<string, OosAgg>) returns (aggs: seq<OosAgg>)
    ensures |aggs| == |OosKeys(aggMap)|
    ensures forall a :: a in aggs <==> a in aggMap.Values && a.outSample.days > 0
  {
    aggs := [];
    var keys := aggMap.Keys;
    ghost var seen: set<string> := {};
    ghost var kept: set<string> := {};
    while keys != {}
      invariant keys !! seen && keys + seen == aggMap.Keys
      invariant forall k :: k in kept <==> k in seen && aggMap[k].outSample.days > 0
      invariant |aggs| == |kept|
      invariant forall a :: a in aggs <==> exists k :: k in kept && aggMap[k] == a
      decreases |keys|
    {
      var k :| k in keys;
      if aggMap[k].outSample.days > 0 {
        aggs := aggs + [aggMap[k]];
        kept := kept + {k};
      }
      keys := keys - {k};
      seen := seen + {k};
    }
    assert kept == OosKeys(aggMap);
  }

  /** The mean over a side's days, 0 for a side without days. */
  function Mean(sum: real, n: nat): (r: real)
    ensures n > 0 ==> r * n as real == sum
    ensures n == 0 ==> r == 0.0
  {
    if n > 0 then sum / n as real else 0.0
  }

  function OosMeanHac(a: OosAgg): real
  {
    Mean(a.outSample.sumHAC, a.outSample.days)
  }

  /** The comparison handed to sort.Slice. */
  predicate GoLess(a: OosAgg, b: OosAgg)
  {
    var di, dj := a.outSample.days as real, b.outSample.days as real;
    if di == 0.0 || dj == 0.0 then Sum.StrLess(a.variant, b.variant)
    else a.outSample.sumHAC / di > b.outSample.sumHAC / dj
  }

  predicate OosHacLe(a: OosAgg, b: OosAgg)
  {
    OosMeanHac(a) >= OosMeanHac(b)
  }

  lemma OosHacLeIsTotalPreorder()
    ensures Sorting.TotalPreorder(OosHacLe)
  {
  }

  /** The records kept all have out-of-sample days, and on them sort.Slice's
      comparison is "strictly higher out-of-sample mean HAC Sharpe". */
  lemma GoLessIsOosHacOrder(a: OosAgg, b: OosAgg)
    requires a.outSample.days >= 1 && b.outSample.days >= 1
    ensures GoLess(a, b) <==> !OosHacLe(b, a)
  {
  }

  function Ranked(aggs: seq<OosAgg>): (r: seq<OosAgg>)
    ensures multiset(r) == multiset(aggs)
    ensures forall i, j :: 0 <= i < j < |r| ==> OosMeanHac(r[i]) >= OosMeanHac(r[j])
  {
    OosHacLeIsTotalPreorder();
    Sorting.SortBy(aggs, OosHacLe)
  }

  // ---------------------------------------------------------------------
  // The table
  // ---------------------------------------------------------------------

  /** The separator safePeriod puts between the two dates (U+2192). */
  const Arrow: char := '\U{2192}'

  /** safePeriod: "start→end", or the one that is set, or "". */
  function SafePeriod(start: string, end: string): (r: string)
    ensures r == "" <==> start == "" && end == ""
    ensures start != "" ==> |r| >= |start| && r[..|start|] == start
    ensures end != "" ==> |r| >= |end| && r[|r| - |end|..] == end
    ensures start == "" ==> r == end
    ensures start != "" && end == "" ==> r == start
    ensures start != "" && end != "" ==> r == start + "→" + end
  {
    if start == "" && end == "" then ""
    else if start == "" then end
    else if end == "" then start
    else start + "→" + end
  }

  /** The index of the first c in s, or -1. */
  function IndexOf(s: string, c: char): (k: int)
    ensures k == -1 <==> c !in s
    ensures k != -1 ==> 0 <= k < |s| && s[k] == c && c !in s[..k]
  {
    if |s| == 0 then -1
    else if s[0] == c then 0
    else
      var k := IndexOf(s[1..], c);
      assert s[1..][..if k == -1 then 0 else k] == s[1..if k == -1 then 1 else k + 1];
      if k == -1 then -1 else k + 1
  }

  /** A period reads back: when start holds no arrow, cutting the period
      at its first arrow gives start and end again, and a one-sided
      period without an arrow in it holds no arrow at all. */
  lemma {:induction false} PeriodSplits(start: string, end: string)
    requires Arrow !in start
    ensures var r := SafePeriod(start, end); var k := IndexOf(r, Arrow);
      start != "" && end != "" ==> k == |start| && r[..k] == start && r[k + 1..] == end
    ensures Arrow !in end ==> (IndexOf(SafePeriod(start, end), Arrow) == -1 <==> start == "" || end == "")
  {
    var r := SafePeriod(start, end);
    if start != "" && end != "" {
      assert r[..|start|] == start;
      assert r[|start|] == Arrow;
      IndexOfAt(r, Arrow, |start|);
      assert r[|start| + 1..] == end;
    }
  }

  /** The first c is at k when s[k] is c and no c comes before. */
  lemma {:induction false} IndexOfAt(s: string, c: char, k: nat)
    requires k < |s| && s[k] == c && c !in s[..k]
    ensures IndexOf(s, c) == k
  {
    if k > 0 {
      assert s[0] == s[..k][0];
      assert s[1..][..k - 1] == s[1..k];
      assert forall x | x in s[1..k] :: x in s[..k];
      IndexOfAt(s[1..], c, k - 1);
    }
  }

  /** The period column of a side the loop filled: empty without days, and
      "first→last" otherwise. */
  lemma PeriodOfSide(es: seq<AlphaMetrics>, v: string, oos: bool)
    requires v in Fold(es)
    ensures var a := Fold(es)[v];
      var s := if oos then a.outSample else a.inSample;
      (s.days == 0 ==> SafePeriod(s.start, s.end) == "") &&
      (s.days > 0 ==> SafePeriod(s.start, s.end) == s.start + "→" + s.end)
  {
    AggregateSides(es, v, oos);
    forall d | d in DatesOn(es, v, oos) ensures d != "" {
      assert ParseDate(d).Some?;
    }
  }

  /** One printed row. */
  datatype OosRow = OosRow(
    variant: string, isDays: nat, oosDays: nat,
    isHAC: real, oosHAC: real, ratio: real, isIC: real, oosIC: real,
    isProb: real, oosProb: real, isBE: real, oosBE: real,
    isHit: real, oosHit: real, isFill: real, oosFill: real,
    isPeriod: string, oosPeriod: string)

  /** A side without days shows 0 for every mean; the OOS/IS ratio is 0
      when the in-sample mean HAC Sharpe is 0 and the quotient otherwise. */
  function RowOf(a: OosAgg): (r: OosRow)
    ensures r.variant == a.variant && r.isDays == a.inSample.days && r.oosDays == a.outSample.days
    ensures a.inSample.days == 0 ==>
      r.isHAC == r.isIC == r.isProb == r.isBE == r.isHit == r.isFill == 0.0
    ensures a.outSample.days == 0 ==>
      r.oosHAC == r.oosIC == r.oosProb == r.oosBE == r.oosHit == r.oosFill == 0.0
    ensures a.inSample.days > 0 ==> r.isHAC * a.inSample.days as real == a.inSample.sumHAC
    ensures a.outSample.days > 0 ==> r.oosHAC * a.outSample.days as real == a.outSample.sumHAC
    ensures r.oosHAC == OosMeanHac(a)
    ensures r.isHAC == 0.0 ==> r.ratio == 0.0
    ensures r.isHAC != 0.0 ==> r.ratio * r.isHAC == r.oosHAC
    ensures r.isPeriod == SafePeriod(a.inSample.start, a.inSample.end)
    ensures r.oosPeriod == SafePeriod(a.outSample.start, a.outSample.end)
  {
    var i, o := a.inSample, a.outSample;
    var isHAC, oosHAC := Mean(i.sumHAC, i.days), Mean(o.sumHAC, o.days);
    OosRow(
      a.variant, i.days, o.days,
      isHAC, oosHAC, if isHAC != 0.0 then oosHAC / isHAC else 0.0,
      Mean(i.sumIC, i.days), Mean(o.sumIC, o.days),
      Mean(i.sumProbSR, i.days), Mean(o.sumProbSR, o.days),
      Mean(i.sumBE, i.days), Mean(o.sumBE, o.days),
      Mean(i.sumHit, i.days) * 100.0, Mean(o.sumHit, o.days) * 100.0,
      Mean(i.sumFill, i.days) * 100.0, Mean(o.sumFill, o.days) * 100.0,
      SafePeriod(i.start, i.end), SafePeriod(o.start, o.end))
  }

  method Rows(ranked: seq<OosAgg>) returns (rows: seq<OosRow>)
    ensures |rows| == |ranked|
    ensures forall k :: 0 <= k < |rows| ==> rows[k] == RowOf(ranked[k])
  {
    rows := [];
    for k := 0 to |ranked|
      invariant |rows| == k
      invariant forall j :: 0 <= j < k ==> rows[j] == RowOf(ranked[j])
    {
      rows := rows + [RowOf(ranked[k])];
    }
  }

  /** What runOOS ends with: an error message or the table. */
  datatype OosOutcome = OpenError | DecodeError | NoEntries | NoValid | NoOos | Table(rows: seq<OosRow>)

  predicate AnyAccepted(es: seq<AlphaMetrics>)
  {
    exists i :: 0 <= i < |es| && Accepted(es[i])
  }

  lemma {:induction false} FoldEmpty(es: seq<AlphaMetrics>)
    ensures Fold(es) == map[] <==> !AnyAccepted(es)
  {
    if es != [] {
      var init := es[..|es| - 1];
      FoldEmpty(init);
      if AnyAccepted(init) {
        var i :| 0 <= i < |init| && Accepted(init[i]);
        assert Accepted(es[i]);
        var w :| w in Fold(init);
        assert w in Fold(es);
      }
      if AnyAccepted(es) && !AnyAccepted(init) {
        assert Accepted(es[|es| - 1]);
        assert Sum.VariantOf(es[|es| - 1]) in Fold(es);
      }
    }
  }

  /** The printed table for the entries: one row per variant with
      out-of-sample days, holding that variant's means, best out-of-sample
      mean HAC Sharpe first. */
  ghost predicate IsOosSummary(es: seq<AlphaMetrics>, rows: seq<OosRow>)
  {
    var m := Fold(es);
    |rows| == |OosKeys(m)| &&
    (forall v :: v in OosKeys(m) <==> exists k :: 0 <= k < |rows| && rows[k].variant == v) &&
    (forall k :: 0 <= k < |rows| ==>
      rows[k].variant in m && m[rows[k].variant].outSample.days >= 1 &&
      rows[k] == RowOf(m[rows[k].variant])) &&
    (forall i, j :: 0 <= i < j < |rows| ==> rows[i].oosHAC >= rows[j].oosHAC)
  }

  /** The ranking and the rows of runOOS's table, from the kept records. */
  method Summarize(ghost es: seq<AlphaMetrics>, aggMap: map<string, OosAgg>, aggs: seq<OosAgg>)
    returns (rows: seq<OosRow>)
    requires aggMap == Fold(es)
    requires |aggs| == |OosKeys(aggMap)|
    requires forall a :: a in aggs <==> a in aggMap.Values && a.outSample.days > 0
    ensures IsOosSummary(es, rows)
  {
    var ranked := Ranked(aggs);
    rows := Rows(ranked);
    SummaryFacts(es, aggMap, aggs, ranked, rows);
  }

  lemma SummaryFacts(es: seq<AlphaMetrics>, aggMap: map<string, OosAgg>, aggs: seq<OosAgg>,
                     ranked: seq<OosAgg>, rows: seq<OosRow>)
    requires aggMap == Fold(es)
    requires |aggs| == |OosKeys(aggMap)|
    requires forall a :: a in aggs <==> a in aggMap.Values && a.outSample.days > 0
    requires ranked == Ranked(aggs)
    requires |rows| == |ranked|
    requires forall k :: 0 <= k < |rows| ==> rows[k] == RowOf(ranked[k])
    ensures IsOosSummary(es, rows)
  {
    assert |ranked| == |multiset(ranked)| == |multiset(aggs)| == |aggs|;
    RankedKeeps(aggs, ranked);
    forall v | v in aggMap ensures aggMap[v].variant == v {
      FoldPerVariant(es, v);
    }
    RowsFacts(aggMap, ranked, rows);
  }

  lemma RankedKeeps(aggs: seq<OosAgg>, ranked: seq<OosAgg>)
    requires multiset(ranked) == multiset(aggs)
    ensures forall a :: a in ranked <==> a in aggs
  {
    forall a ensures a in ranked <==> a in aggs {
      assert a in ranked <==> a in multiset(ranked);
      assert a in aggs <==> a in multiset(aggs);
    }
  }

  lemma RowsFacts(aggMap: map<string, OosAgg>, ranked: seq<OosAgg>, rows: seq<OosRow>)
    requires forall v :: v in aggMap ==> aggMap[v].variant == v
    requires forall a :: a in ranked <==> a in aggMap.Values && a.outSample.days > 0
    requires |rows| == |ranked|
    requires forall k :: 0 <= k < |rows| ==> rows[k] == RowOf(ranked[k])
    ensures forall v :: v in OosKeys(aggMap) <==> exists k :: 0 <= k < |rows| && rows[k].variant == v
    ensures forall k :: 0 <= k < |rows| ==>
      rows[k].variant in aggMap && aggMap[rows[k].variant].outSample.days >= 1 &&
      rows[k] == RowOf(aggMap[rows[k].variant])
  {
    forall k | 0 <= k < |rows|
      ensures rows[k].variant in aggMap && aggMap[rows[k].variant] == ranked[k]
    {
      assert ranked[k] in ranked;
    }
    forall v | v in OosKeys(aggMap)
      ensures exists k :: 0 <= k < |rows| && rows[k].variant == v
    {
      assert aggMap[v] in aggMap.Values;
      var k :| 0 <= k < |ranked| && ranked[k] == aggMap[v];
      assert rows[k].variant == v;
    }
  }

  /** runOOS: the table, or the message for an unreadable report, a report
      without usable entries, or one without out-of-sample days. */
  method RunOos(report: Sum.ReportFile) returns (out: OosOutcome)
    ensures report.OpenFailed? <==> out.OpenError?
    ensures report.DecodeFailed? <==> out.DecodeError?
    ensures out.NoEntries? <==> report.Decoded? && report.entries == []
    ensures out.NoValid? <==>
      report.Decoded? && report.entries != [] && !AnyAccepted(report.entries)
    ensures out.NoOos? <==>
      report.Decoded? && AnyAccepted(report.entries) && OosKeys(Fold(report.entries)) == {}
    ensures out.Table? ==> report.Decoded? && IsOosSummary(report.entries, out.rows)
  {
    var parsed := ParseDate(OosStartDate);
    BoundaryParses();
    var boundary := parsed.value;
    match report
    case OpenFailed => return OpenError;
    case DecodeFailed => return DecodeError;
    case Decoded(entries) =>
      if entries == [] {
        return NoEntries;
      }
      var aggMap := Aggregate(entries, boundary);
      FoldEmpty(entries);
      if |aggMap| == 0 {
        return NoValid;
      }
      var aggs := CollectOos(aggMap);
      if |aggs| == 0 {
        return NoOos;
      }
      var rows := Summarize(entries, aggMap, aggs);
      return Table(rows);
  }
}
