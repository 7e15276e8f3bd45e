/**
 * buildalpha.go: the single-month feature builder. It shares build.go's
 * skeleton: buildChunks and findBlob are the same, and processBuildDay runs
 * the same checks (the wrapping size check included) and splits the rows
 * into the same chunks (Build.BuildDaySpec). Its processKernel computes a
 * different signal (no OnlineZ normalisation, other weights); the signal
 * is a parameter of the model in both files. What else differs is that it
 * works on days StartDay .. EndDay of TargetYear/TargetMonth, and that every
 * day's status is returned as one line and printed.
 */
module BuildAlpha {
  import opened Bytes
  import opened Layout
  import opened GoIo
  import Build
  import Text

  const StartDay: int := 1
  const EndDay: int := 31

  /** The line processBuildDay returns for a day's outcome (a day whose
      kernels panic returns nothing). */
  function AlphaStatus(day: int, r: Build.BuildResult): string
    requires !r.Crashed?
  {
    match r
    case NoDay => "MISSING " + Text.FormatInt(day)
    case ErrIo => "ERR_IO " + Text.FormatInt(day)
    case ErrZlib => "ERR_ZLIB " + Text.FormatInt(day)
    case ErrHdr => "ERR_HDR"
    case ErrSize => "ERR_SIZE"
    case Done(rowCount, _) => "DONE " + Text.PadInt(day, 2) + " | " + Text.Itoa(rowCount) + " rows"
  }

  predicate StartsWith(s: string, p: string)
  {
    |p| <= |s| && s[..|p|] == p
  }

  lemma Prefix(p: string, rest: string)
    ensures StartsWith(p + rest, p)
    ensures (p + rest)[|p|..] == rest
  {
  }

  lemma PrefixOfJoin(p: string, a: string, b: string, c: string, d: string)
    ensures StartsWith(p + a + b + c + d, p)
  {
    var x := p + a;
    assert x[..|p|] == p;
    assert (x + b)[..|p|] == p;
    assert (x + b + c)[..|p|] == p;
    assert (x + b + c + d)[..|p|] == p;
  }

  lemma NotPrefix(s: string, p: string, i: nat)
    requires i < |p| && i < |s| && s[i] != p[i]
    ensures !StartsWith(s, p)
  {
  }

  /** The status lines tell the outcomes apart: "MISSING " starts exactly
      the line of a day with no index row, and the rest reads the day back. */
  lemma MissingLine(day: int, r: Build.BuildResult)
    requires 1 <= day <= 31 && !r.Crashed?
    ensures r.NoDay? <==> StartsWith(AlphaStatus(day, r), "MISSING ")
    ensures r.NoDay? ==> Text.Atoi(AlphaStatus(day, r)[8..]) == Text.Some(day)
  {
    var s := AlphaStatus(day, r);
    if r.NoDay? {
      Text.AtoiFormatInt(day);
      Prefix("MISSING ", Text.FormatInt(day));
    } else if r.ErrHdr? || r.ErrSize? {
      NotPrefix(s, "MISSING ", 0);
    } else {
      assert s[0] != 'M';
      NotPrefix(s, "MISSING ", 0);
    }
  }

  /** "ERR_IO " starts exactly the line of a day whose data file would not
      open, and the rest reads the day back. */
  lemma IoErrorLine(day: int, r: Build.BuildResult)
    requires 1 <= day <= 31 && !r.Crashed?
    ensures r.ErrIo? <==> StartsWith(AlphaStatus(day, r), "ERR_IO ")
    ensures r.ErrIo? ==> Text.Atoi(AlphaStatus(day, r)[7..]) == Text.Some(day)
  {
    var s := AlphaStatus(day, r);
    if r.ErrIo? {
      Text.AtoiFormatInt(day);
      Prefix("ERR_IO ", Text.FormatInt(day));
    } else if r.ErrHdr? || r.ErrSize? || r.ErrZlib? {
      assert s[4] != 'I';
      NotPrefix(s, "ERR_IO ", 4);
    } else {
      assert s[0] != 'E';
      NotPrefix(s, "ERR_IO ", 0);
    }
  }

  /** "DONE " starts exactly the line of a built day. */
  lemma DoneLine(day: int, r: Build.BuildResult)
    requires !r.Crashed?
    ensures r.Done? <==> StartsWith(AlphaStatus(day, r), "DONE ")
  {
    var s := AlphaStatus(day, r);
    if r.Done? {
      PrefixOfJoin("DONE ", Text.PadInt(day, 2), " | ", Text.Itoa(r.rowCount), " rows");
    } else {
      assert s[0] != 'D';
      NotPrefix(s, "DONE ", 0);
    }
  }

  /** Whether day d's kernels panic. */
  predicate DayCrashes(idx: Opened, data: Opened, d: int, inflate: seq<byte> -> Build.Inflation,
                       pxBits: u64 -> u64, sigBits: seq<Trade> -> u64)
  {
    Build.BuildDaySpec(idx, data, d, inflate, pxBits, sigBits).Crashed?
  }

  /** The first day of lo .. hi - 1 that panics, or hi when none does: the
      run ends at that day. */
  function FirstCrashDay(idx: Opened, data: Opened, inflate: seq<byte> -> Build.Inflation,
                         pxBits: u64 -> u64, sigBits: seq<Trade> -> u64, lo: int, hi: int): (c: int)
    requires lo <= hi
    ensures lo <= c <= hi
    ensures forall d :: lo <= d < c ==> !DayCrashes(idx, data, d, inflate, pxBits, sigBits)
    ensures c < hi ==> DayCrashes(idx, data, c, inflate, pxBits, sigBits)
    decreases hi - lo
  {
    if lo == hi then hi
    else if DayCrashes(idx, data, lo, inflate, pxBits, sigBits) then lo
    else FirstCrashDay(idx, data, inflate, pxBits, sigBits, lo + 1, hi)
  }

  /** A day before the first panicking one runs through; a panicking day
      in range is the first one when no earlier day panics. */
  lemma FirstCrashDayAt(idx: Opened, data: Opened, inflate: seq<byte> -> Build.Inflation,
                        pxBits: u64 -> u64, sigBits: seq<Trade> -> u64, lo: int, hi: int, d: int)
    requires lo <= d < hi
    requires d <= FirstCrashDay(idx, data, inflate, pxBits, sigBits, lo, hi)
    ensures d < FirstCrashDay(idx, data, inflate, pxBits, sigBits, lo, hi)
      <==> !DayCrashes(idx, data, d, inflate, pxBits, sigBits)
  {
  }

  /** The status line of day d. */
  function DayLine(idx: Opened, data: Opened, d: int, inflate: seq<byte> -> Build.Inflation,
                   pxBits: u64 -> u64, sigBits: seq<Trade> -> u64): string
    requires !DayCrashes(idx, data, d, inflate, pxBits, sigBits)
  {
    AlphaStatus(d, Build.BuildDaySpec(idx, data, d, inflate, pxBits, sigBits))
  }

  /** The feature file day d writes, if it is built. */
  function DayFile(idx: Opened, data: Opened, d: int, inflate: seq<byte> -> Build.Inflation,
                   pxBits: u64 -> u64, sigBits: seq<Trade> -> u64): (f: Text.Option<seq<byte>>)
    ensures f.Some? <==> Build.BuildDaySpec(idx, data, d, inflate, pxBits, sigBits).Done?
    ensures f.Some? ==> f.value == Build.BuildDaySpec(idx, data, d, inflate, pxBits, sigBits).features
  {
    var r := Build.BuildDaySpec(idx, data, d, inflate, pxBits, sigBits);
    if r.Done? then Text.Some(r.features) else Text.None
  }

  /** processBuildDay(day) over the month's index and data files: whether
      its kernels panic, and otherwise its status line and the feature file
      it writes for a built day. */
  method ProcessBuildDay(idx: Opened, data: Opened, day: int, inflate: seq<byte> -> Build.Inflation,
                         pxBits: u64 -> u64, sigBits: seq<Trade> -> u64)
    returns (crashed: bool, status: string, written: Text.Option<seq<byte>>)
    ensures crashed <==> DayCrashes(idx, data, day, inflate, pxBits, sigBits)
    ensures !crashed ==> status == DayLine(idx, data, day, inflate, pxBits, sigBits)
    ensures written == DayFile(idx, data, day, inflate, pxBits, sigBits)
  {
    var r := Build.ProcessBuildDay(idx, data, day, inflate, pxBits, sigBits);
    crashed := r.Crashed?;
    status := if crashed then "" else AlphaStatus(day, r);
    written := if r.Done? then Text.Some(r.features) else Text.None;
  }

  function Banner(): string
  {
    "--- BUILDALPHA GO 2025 | " + Symbol + " " + Text.FormatInt(TargetYear) + "-"
      + Text.PadInt(TargetMonth, 2) + " ---"
  }

  /** runBuild: the banner, then one status line per day StartDay .. EndDay
      in increasing order, and the feature files those days write, up to
      the first day whose kernels panic; reached is that day, or EndDay + 1
      when none does. */
  method RunBuild(idx: Opened, data: Opened, inflate: seq<byte> -> Build.Inflation,
                  pxBits: u64 -> u64, sigBits: seq<Trade> -> u64)
    returns (lines: seq<string>, files: seq<Text.Option<seq<byte>>>, reached: int)
    ensures reached == FirstCrashDay(idx, data, inflate, pxBits, sigBits, StartDay, EndDay + 1)
    ensures lines == [Banner()] + DayLines(idx, data, inflate, pxBits, sigBits, StartDay, reached)
    ensures files == DayFiles(idx, data, inflate, pxBits, sigBits, StartDay, reached)
  {
    var statuses := [];
    files := [];
    reached := StartDay;
    ghost var c := FirstCrashDay(idx, data, inflate, pxBits, sigBits, StartDay, EndDay + 1);
    while reached <= EndDay
      invariant StartDay <= reached <= c
      invariant statuses == DayLines(idx, data, inflate, pxBits, sigBits, StartDay, reached)
      invariant files == DayFiles(idx, data, inflate, pxBits, sigBits, StartDay, reached)
    {
      var crashed, res, out := ProcessBuildDay(idx, data, reached, inflate, pxBits, sigBits);
      FirstCrashDayAt(idx, data, inflate, pxBits, sigBits, StartDay, EndDay + 1, reached);
      if crashed {
        break;
      }
      statuses := statuses + [res];
      files := files + [out];
      reached := reached + 1;
    }
    lines := [Banner()] + statuses;
  }

  /** The status lines of days lo .. hi - 1, in increasing order, none of
      which panics. */
  function DayLines(idx: Opened, data: Opened, inflate: seq<byte> -> Build.Inflation,
                    pxBits: u64 -> u64, sigBits: seq<Trade> -> u64, lo: int, hi: int): (ls: seq<string>)
    requires forall d :: lo <= d < hi ==> !DayCrashes(idx, data, d, inflate, pxBits, sigBits)
    ensures |ls| == if lo <= hi then hi - lo else 0
    decreases hi - lo
  {
    if hi <= lo then [] else DayLines(idx, data, inflate, pxBits, sigBits, lo, hi - 1) + [DayLine(idx, data, hi - 1, inflate, pxBits, sigBits)]
  }

  /** The feature files of days lo .. hi - 1, in increasing order. */
  function DayFiles(idx: Opened, data: Opened, inflate: seq<byte> -> Build.Inflation,
                    pxBits: u64 -> u64, sigBits: seq<Trade> -> u64, lo: int, hi: int)
    : (fs: seq<Text.Option<seq<byte>>>)
    ensures |fs| == if lo <= hi then hi - lo else 0
    decreases hi - lo
  {
    if hi <= lo then [] else DayFiles(idx, data, inflate, pxBits, sigBits, lo, hi - 1) + [DayFile(idx, data, hi - 1, inflate, pxBits, sigBits)]
  }

  /** Entry k of the days from lo is day lo + k's: its status line, and
      a feature file exactly when that day is built. */
  lemma {:induction false} DayAt(idx: Opened, data: Opened, inflate: seq<byte> -> Build.Inflation,
                                 pxBits: u64 -> u64, sigBits: seq<Trade> -> u64, lo: int, hi: int, k: nat)
    requires lo + k < hi
    requires forall d :: lo <= d < hi ==> !DayCrashes(idx, data, d, inflate, pxBits, sigBits)
    ensures DayLines(idx, data, inflate, pxBits, sigBits, lo, hi)[k] == DayLine(idx, data, lo + k, inflate, pxBits, sigBits)
    ensures DayFiles(idx, data, inflate, pxBits, sigBits, lo, hi)[k].Some?
      <==> Build.BuildDaySpec(idx, data, lo + k, inflate, pxBits, sigBits).Done?
    decreases hi - lo
  {
    var ls := DayLines(idx, data, inflate, pxBits, sigBits, lo, hi - 1);
    var fs := DayFiles(idx, data, inflate, pxBits, sigBits, lo, hi - 1);
    assert DayLines(idx, data, inflate, pxBits, sigBits, lo, hi) == ls + [DayLine(idx, data, hi - 1, inflate, pxBits, sigBits)];
    assert DayFiles(idx, data, inflate, pxBits, sigBits, lo, hi) == fs + [DayFile(idx, data, hi - 1, inflate, pxBits, sigBits)];
    if lo + k < hi - 1 {
      DayAt(idx, data, inflate, pxBits, sigBits, lo, hi - 1, k);
    }
  }
}
