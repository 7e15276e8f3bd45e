/**
 * study.go: the feature study. runStudy gathers the .bin feature files of
 * features/<symbol>/<year>/<month>/, scores each with analyzeFile, keeps
 * the days that produced bars and sorts them by date. analyzeFile decodes
 * the 24-byte records, names the day from its path, and for each horizon
 * pairs the signal at bar i with the return from the first bar at least
 * 70 ms later (the entry) to h bars after the entry.
 *
 * Paths are '/'-separated and clean, as runStudy builds them.
 */
module Study {
  import opened Bytes
  import opened GoIo
  import opened Shared
  import Layout
  import Scorecard
  import OfiStudy
  import Sorting
  import Text

  /** The horizons studied, in bars after the entry. */
  const Horizons: seq<nat> := [20, 50, 100]

  /** The execution lag: entry no earlier than 70 ms after the signal. */
  const ExecutionLagMs: int := 70

  /** A file needs the largest horizon plus 100 bars to be studied. */
  const MinFileBars: nat := 100 + 100

  // ---------------------------------------------------------------------
  // Paths: filepath.Ext, Base, Dir and Join
  // ---------------------------------------------------------------------

  /** filepath.Ext: the suffix from the last '.' of the final element, or
      "" when the final element has no '.'. */
  function Ext(p: string): (e: string)
    ensures |e| <= |p| && e == p[|p| - |e|..]
    ensures e != "" ==> e[0] == '.' && forall k :: 0 < k < |e| ==> e[k] != '.' && e[k] != '/'
  {
    if p == [] || p[|p| - 1] == '/' then ""
    else if p[|p| - 1] == '.' then "."
    else
      var e := Ext(p[..|p| - 1]);
      if e == "" then "" else e + [p[|p| - 1]]
  }

  predicate HasSuffix(s: string, suffix: string)
  {
    |suffix| <= |s| && s[|s| - |suffix|..] == suffix
  }

  /** A name has extension ".bin" exactly when it ends in ".bin". */
  lemma ExtBin(p: string)
    ensures Ext(p) == ".bin" <==> HasSuffix(p, ".bin")
  {
    if HasSuffix(p, ".bin") {
      var n := |p|;
      var q := p[..n - 4];
      assert p == q + "." + "b" + "i" + "n";
      assert Ext(q + ".") == ".";
      ExtSnoc(q + ".", 'b');
      ExtSnoc(q + "." + "b", 'i');
      ExtSnoc(q + "." + "b" + "i", 'n');
    }
  }

  /** A last character other than '.' or '/' extends a non-empty extension. */
  lemma ExtSnoc(q: string, c: char)
    requires c != '.' && c != '/'
    ensures Ext(q + [c]) == if Ext(q) == "" then "" else Ext(q) + [c]
  {
    assert (q + [c])[..|q|] == q;
  }

  /** filepath.Join of two clean parts. */
  function Join(a: string, b: string): string
  {
    a + "/" + b
  }

  /** The index of the last '/', or -1. */
  function LastSlash(p: string): (k: int)
    ensures -1 <= k < |p| && (k >= 0 ==> p[k] == '/')
    ensures forall j :: k < j < |p| ==> p[j] != '/'
  {
    if p == [] then -1
    else if p[|p| - 1] == '/' then |p| - 1
    else LastSlash(p[..|p| - 1])
  }

  /** filepath.Base: the final element. */
  function Base(p: string): string
  {
    p[LastSlash(p) + 1..]
  }

  /** filepath.Dir: everything before the final element, "." without a
      separator and "/" for the root. */
  function Dir(p: string): string
  {
    var k := LastSlash(p);
    if k < 0 then "." else if k == 0 then "/" else p[..k]
  }

  predicate NoSlash(s: string)
  {
    forall k :: 0 <= k < |s| ==> s[k] != '/'
  }

  /** The last separator of a joined path is the one Join put there. */
  lemma {:induction false} LastSlashOfJoin(a: string, b: string)
    requires NoSlash(b)
    ensures LastSlash(Join(a, b)) == |a|
    decreases |b|
  {
    var p := Join(a, b);
    if b != [] {
      var b0 := b[..|b| - 1];
      assert p[..|p| - 1] == Join(a, b0);
      LastSlashOfJoin(a, b0);
    } else {
      assert p[|p| - 1] == '/';
    }
  }

  /** Base and Dir take a joined path apart again. */
  lemma BaseDirOfJoin(a: string, b: string)
    requires NoSlash(b) && a != ""
    ensures Base(Join(a, b)) == b && Dir(Join(a, b)) == a
  {
    LastSlashOfJoin(a, b);
    assert Join(a, b)[..|a|] == a;
    assert Join(a, b)[|a| + 1..] == b;
  }

  // ---------------------------------------------------------------------
  // runStudy: gathering the files
  // ---------------------------------------------------------------------

  /** The .bin names of a month directory, joined to it; the entries are
      not checked for being files. */
  function DayFiles(dir: string, days: seq<DirEntry>): (fs: seq<string>)
    ensures |fs| <= |days|
  {
    if days == [] then []
    else
      var d := days[|days| - 1];
      DayFiles(dir, days[..|days| - 1]) + if Ext(d.name) == ".bin" then [Join(dir, d.name)] else []
  }

  /** The files of the month directories of one year. */
  function MonthFiles(dir: string, months: seq<DirEntry>, daysOf: string -> seq<DirEntry>): seq<string>
  {
    if months == [] then []
    else
      var m := months[|months| - 1];
      MonthFiles(dir, months[..|months| - 1], daysOf)
      + if m.isDir then DayFiles(Join(dir, m.name), daysOf(Join(dir, m.name))) else []
  }

  /** The files runStudy gathers under featDir, year by year, month by month. */
  function StudyFiles(featDir: string, years: seq<DirEntry>, listDir: string -> seq<DirEntry>): seq<string>
  {
    if years == [] then []
    else
      var y := years[|years| - 1];
      StudyFiles(featDir, years[..|years| - 1], listDir)
      + if y.isDir then MonthFiles(Join(featDir, y.name), listDir(Join(featDir, y.name)), listDir) else []
  }

  /** Every gathered file ends in ".bin". */
  lemma {:induction false} DayFilesAreBin(dir: string, days: seq<DirEntry>)
    ensures forall f :: f in DayFiles(dir, days) ==> HasSuffix(f, ".bin")
  {
    if days != [] {
      var d := days[|days| - 1];
      var init := DayFiles(dir, days[..|days| - 1]);
      var last := if Ext(d.name) == ".bin" then [Join(dir, d.name)] else [];
      assert DayFiles(dir, days) == init + last;
      DayFilesAreBin(dir, days[..|days| - 1]);
      if Ext(d.name) == ".bin" {
        ExtBin(d.name);
        JoinBin(dir, d.name);
      }
    }
  }

  /** Joining keeps a ".bin" ending. */
  lemma JoinBin(dir: string, name: string)
    requires HasSuffix(name, ".bin")
    ensures HasSuffix(Join(dir, name), ".bin")
  {
    assert Join(dir, name)[|Join(dir, name)| - 4..] == name[|name| - 4..];
  }

  /** Every file gathered from the month directories of a year ends in ".bin". */
  lemma {:induction false} MonthFilesAreBin(dir: string, months: seq<DirEntry>, daysOf: string -> seq<DirEntry>)
    ensures forall f :: f in MonthFiles(dir, months, daysOf) ==> HasSuffix(f, ".bin")
  {
    if months != [] {
      var m := months[|months| - 1];
      MonthFilesAreBin(dir, months[..|months| - 1], daysOf);
      DayFilesAreBin(Join(dir, m.name), daysOf(Join(dir, m.name)));
    }
  }

  /** Every file runStudy gathers ends in ".bin". */
  lemma {:induction false} StudyFilesAreBin(featDir: string, years: seq<DirEntry>, listDir: string -> seq<DirEntry>)
    ensures forall f :: f in StudyFiles(featDir, years, listDir) ==> HasSuffix(f, ".bin")
  {
    if years != [] {
      var y := years[|years| - 1];
      StudyFilesAreBin(featDir, years[..|years| - 1], listDir);
      MonthFilesAreBin(Join(featDir, y.name), listDir(Join(featDir, y.name)), listDir);
    }
  }

  /** A path ending in ".bin" has a final element of at least 4 characters,
      so the date id can cut the extension off. */
  lemma BinBase(p: string)
    requires HasSuffix(p, ".bin")
    ensures |Base(p)| >= 4
  {
    assert p[|p| - 4..] == ".bin";
  }

  /** The innermost gathering loop: the .bin entries of one month. */
  method GatherDays(dir: string, days: seq<DirEntry>) returns (fs: seq<string>)
    ensures fs == DayFiles(dir, days)
  {
    fs := [];
    for k := 0 to |days|
      invariant fs == DayFiles(dir, days[..k])
    {
      assert days[..k + 1][..k] == days[..k];
      if Ext(days[k].name) == ".bin" {
        fs := fs + [Join(dir, days[k].name)];
      }
    }
    assert days[..|days|] == days;
  }

  /** The month loop of one year. */
  method GatherMonths(dir: string, months: seq<DirEntry>, listDir: string -> seq<DirEntry>)
    returns (fs: seq<string>)
    ensures fs == MonthFiles(dir, months, listDir)
  {
    fs := [];
    for k := 0 to |months|
      invariant fs == MonthFiles(dir, months[..k], listDir)
    {
      assert months[..k + 1][..k] == months[..k];
      var m := months[k];
      if m.isDir {
        var days := GatherDays(Join(dir, m.name), listDir(Join(dir, m.name)));
        fs := fs + days;
      }
    }
    assert months[..|months|] == months;
  }

  /** Step 1 of runStudy: the year loop. */
  method GatherFiles(featDir: string, years: seq<DirEntry>, listDir: string -> seq<DirEntry>)
    returns (files: seq<string>)
    ensures files == StudyFiles(featDir, years, listDir)
    ensures forall f :: f in files ==> HasSuffix(f, ".bin") && |Base(f)| >= 4
  {
    files := [];
    for k := 0 to |years|
      invariant files == StudyFiles(featDir, years[..k], listDir)
    {
      assert years[..k + 1][..k] == years[..k];
      var y := years[k];
      if y.isDir {
        var fs := GatherMonths(Join(featDir, y.name), listDir(Join(featDir, y.name)), listDir);
        files := files + fs;
      }
    }
    assert years[..|years|] == years;
    StudyFilesAreBin(featDir, years, listDir);
    forall f | f in files
      ensures |Base(f)| >= 4
    {
      BinBase(f);
    }
  }

  // ---------------------------------------------------------------------
  // analyzeFile: decoding and the date id
  // ---------------------------------------------------------------------

  /** The number of records a read gives, 0 when the read fails. */
  function FileBars(file: Opened): nat
  {
    if file.OpenFailed? then 0 else |file.contents| / Layout.FeatureSize
  }

  /** "<year dir>-<month dir>-<file name without its last 4 characters>". */
  function DateId(path: string): string
    requires |Base(path)| >= 4
  {
    var base := Base(path);
    Base(Dir(Dir(path))) + "-" + Base(Dir(path)) + "-" + base[..|base| - 4]
  }

  /** The date of a gathered file names its year and month directories and
      the file's stem. */
  lemma DateOfStudyFile(featDir: string, y: string, m: string, d: string)
    requires featDir != "" && y != "" && m != "" && |d| >= 4
    requires NoSlash(y) && NoSlash(m) && NoSlash(d)
    ensures DateId(Join(Join(Join(featDir, y), m), d)) == y + "-" + m + "-" + d[..|d| - 4]
  {
    BaseDirOfJoin(Join(Join(featDir, y), m), d);
    BaseDirOfJoin(Join(featDir, y), m);
    BaseDirOfJoin(featDir, y);
  }

  /** The decode loop of analyzeFile: time stamp, price and signal of each
      of the n records, at byte offsets 0, 8 and 16. */
  method DecodeRecords(data: seq<byte>, fromBits: u64 -> real)
    returns (ts: seq<i64>, px: seq<real>, sig: seq<real>)
    ensures |ts| == |px| == |sig| == |data| / Layout.FeatureSize
    ensures forall i :: 0 <= i < |ts| ==>
      var f := Layout.DecodeFeatures(data)[i];
      ts[i] == f.ts && px[i] == fromBits(f.px) && sig[i] == fromBits(f.sig)
    ensures ts == Times(data) && px == Prices(data, fromBits) && sig == Signals(data, fromBits)
  {
    var n := |data| / Layout.FeatureSize;
    ts, px, sig := [], [], [];
    for i := 0 to n
      invariant |ts| == i && |px| == i && |sig| == i
      invariant forall k :: 0 <= k < i ==>
        var f := Layout.DecodeFeatures(data)[k];
        ts[k] == f.ts && px[k] == fromBits(f.px) && sig[k] == fromBits(f.sig)
    {
      var off := i * Layout.FeatureSize;
      var f := Layout.DecodeFeature(data[off..]);
      ts := ts + [f.ts];
      px := px + [fromBits(f.px)];
      sig := sig + [fromBits(f.sig)];
    }
  }

  // ---------------------------------------------------------------------
  // analyzeFile: the entry cursor and the pairs of one horizon
  // ---------------------------------------------------------------------

  /** The entry time of bar i: its time stamp plus the lag, in int64. */
  function Target(ts: seq<i64>, i: nat): int
    requires i < |ts|
  {
    WrapI64(ts[i] as int + ExecutionLagMs)
  }

  /** The first index at or after e whose time stamp reaches target, or n. */
  function Advance(ts: seq<i64>, target: int, e: nat): (r: nat)
    requires e <= |ts|
    ensures e <= r <= |ts|
    ensures r < |ts| ==> ts[r] as int >= target
    decreases |ts| - e
  {
    if e < |ts| && (ts[e] as int) < target then Advance(ts, target, e + 1) else e
  }

  /** The (signal, return) pairs of horizon h from bar i on, with the entry
      cursor at entry: the cursor never moves back, the scan stops for good
      at the first bar whose entry + h leaves the day, and a bar whose entry
      price is not positive gives no pair. */
  function PairsFrom(ts: seq<i64>, px: seq<real>, sig: seq<real>, h: nat, i: nat, entry: nat): seq<(real, real)>
    requires |px| == |ts| && |sig| == |ts| && i <= |ts| && entry <= |ts|
    decreases |ts| - i
  {
    if i == |ts| then []
    else
      var e := Advance(ts, Target(ts, i), Max(entry, i));
      if e + h >= |ts| then []
      else Yield(px, sig, h, i, e) + PairsFrom(ts, px, sig, h, i + 1, e)
  }

  /** The pair of bar i entered at e: none when the entry price is not
      positive. */
  function Yield(px: seq<real>, sig: seq<real>, h: nat, i: nat, e: nat): seq<(real, real)>
    requires i < |sig| && e + h < |px|
  {
    if px[e] > 0.0 then [(sig[i], OfiStudy.Return(px[e], px[e + h]))] else []
  }

  /** One bar of the scan, entered at e. */
  lemma PairsStep(ts: seq<i64>, px: seq<real>, sig: seq<real>, h: nat, i: nat, entry: nat, e: nat)
    requires |px| == |ts| && |sig| == |ts| && i < |ts| && entry <= |ts|
    requires e == Advance(ts, Target(ts, i), Max(entry, i))
    ensures e + h >= |ts| ==> PairsFrom(ts, px, sig, h, i, entry) == []
    ensures e + h < |ts| ==> PairsFrom(ts, px, sig, h, i, entry) == Yield(px, sig, h, i, e) + PairsFrom(ts, px, sig, h, i + 1, e)
  {
  }

  /** The pairs analyzeFile hands to CalculateAlphaMetrics for horizon h. */
  function StudyPairs(ts: seq<i64>, px: seq<real>, sig: seq<real>, h: nat): seq<(real, real)>
    requires |px| == |ts| && |sig| == |ts|
  {
    PairsFrom(ts, px, sig, h, 0, 0)
  }

  function Firsts(ps: seq<(real, real)>): (s: seq<real>)
    ensures |s| == |ps| && forall k :: 0 <= k < |ps| ==> s[k] == ps[k].0
  {
    seq(|ps|, k requires 0 <= k < |ps| => ps[k].0)
  }

  function Seconds(ps: seq<(real, real)>): (s: seq<real>)
    ensures |s| == |ps| && forall k :: 0 <= k < |ps| ==> s[k] == ps[k].1
  {
    seq(|ps|, k requires 0 <= k < |ps| => ps[k].1)
  }

  /** The fast-forward loop of the entry cursor. */
  method AdvanceCursor(ts: seq<i64>, target: int, start: nat) returns (e: nat)
    requires start <= |ts|
    ensures e == Advance(ts, target, start)
  {
    e := start;
    while e < |ts| && (ts[e] as int) < target
      invariant start <= e <= |ts|
      invariant Advance(ts, target, e) == Advance(ts, target, start)
      decreases |ts| - e
    {
      e := e + 1;
    }
  }

  /** One horizon of analyzeFile: subSig and futureRet, always of equal
      length, are the two halves of the pairs. */
  method HorizonPairs(ts: seq<i64>, px: seq<real>, sig: seq<real>, h: nat)
    returns (subSig: seq<real>, futureRet: seq<real>)
    requires |px| == |ts| && |sig| == |ts|
    ensures subSig == Firsts(StudyPairs(ts, px, sig, h))
    ensures futureRet == Seconds(StudyPairs(ts, px, sig, h))
  {
    subSig, futureRet := [], [];
    ghost var done: seq<(real, real)> := [];
    var entry: nat := 0;
    var i: nat := 0;
    while i < |ts|
      invariant i <= |ts| && ScanState(ts, px, sig, h, i, entry, done, subSig, futureRet)
      decreases |ts| - i
    {
      var stop;
      stop, entry, done, subSig, futureRet := ScanBar(ts, px, sig, h, i, entry, done, subSig, futureRet);
      if stop {
        return;
      }
      i := i + 1;
    }
  }

  /** The state of the scan before bar i: subSig and futureRet hold the
      halves of the pairs found so far, and those pairs followed by the
      pairs still to come are all the pairs. */
  ghost predicate ScanState(ts: seq<i64>, px: seq<real>, sig: seq<real>, h: nat, i: nat, entry: nat,
                            done: seq<(real, real)>, subSig: seq<real>, futureRet: seq<real>)
  {
    |px| == |ts| && |sig| == |ts| && i <= |ts| && entry <= |ts| &&
    subSig == Firsts(done) && futureRet == Seconds(done) &&
    done + PairsFrom(ts, px, sig, h, i, entry) == StudyPairs(ts, px, sig, h)
  }

  /** One bar of the scan: either the scan stops with all pairs found, or
      it moves on to bar i + 1. */
  method ScanBar(ts: seq<i64>, px: seq<real>, sig: seq<real>, h: nat, i: nat, entry: nat,
                 ghost done: seq<(real, real)>, subSig: seq<real>, futureRet: seq<real>)
    returns (stop: bool, entry': nat, ghost done': seq<(real, real)>, subSig': seq<real>, futureRet': seq<real>)
    requires i < |ts| && ScanState(ts, px, sig, h, i, entry, done, subSig, futureRet)
    ensures stop ==> subSig' == Firsts(StudyPairs(ts, px, sig, h)) && futureRet' == Seconds(StudyPairs(ts, px, sig, h))
    ensures !stop ==> ScanState(ts, px, sig, h, i + 1, entry', done', subSig', futureRet')
  {
    var target := Target(ts, i);
    var start := if entry < i then i else entry;
    var e := AdvanceCursor(ts, target, start);
    ScanInvariant(ts, px, sig, h, i, entry, e, done);
    if e + h >= |ts| {
      return true, e, done, subSig, futureRet;
    }
    subSig', futureRet' := TakeBar(px, sig, h, i, e, done, subSig, futureRet);
    return false, e, done + Yield(px, sig, h, i, e), subSig', futureRet';
  }

  /** The loop invariant of HorizonPairs carried over one bar. */
  lemma ScanInvariant(ts: seq<i64>, px: seq<real>, sig: seq<real>, h: nat, i: nat, entry: nat, e: nat,
                      done: seq<(real, real)>)
    requires |px| == |ts| && |sig| == |ts| && i < |ts| && entry <= |ts|
    requires e == Advance(ts, Target(ts, i), Max(entry, i))
    requires done + PairsFrom(ts, px, sig, h, i, entry) == StudyPairs(ts, px, sig, h)
    ensures e + h >= |ts| ==> done == StudyPairs(ts, px, sig, h)
    ensures e + h < |ts| ==>
      (done + Yield(px, sig, h, i, e)) + PairsFrom(ts, px, sig, h, i + 1, e) == StudyPairs(ts, px, sig, h)
  {
    PairsStep(ts, px, sig, h, i, entry, e);
    if e + h < |ts| {
      var y := Yield(px, sig, h, i, e);
      var rest := PairsFrom(ts, px, sig, h, i + 1, e);
      assert (done + y) + rest == done + (y + rest);
    }
  }

  /** The body of the scan that records the pair of bar i, if any. */
  method TakeBar(px: seq<real>, sig: seq<real>, h: nat, i: nat, e: nat, ghost done: seq<(real, real)>,
                 subSig: seq<real>, futureRet: seq<real>)
    returns (subSig': seq<real>, futureRet': seq<real>)
    requires i < |sig| && e + h < |px|
    requires subSig == Firsts(done) && futureRet == Seconds(done)
    ensures subSig' == Firsts(done + Yield(px, sig, h, i, e))
    ensures futureRet' == Seconds(done + Yield(px, sig, h, i, e))
  {
    subSig', futureRet' := subSig, futureRet;
    var pEntry := px[e];
    var pExit := px[e + h];
    if pEntry > 0.0 {
      var r := OfiStudy.Return(pEntry, pExit);
      PairsAppend(done, (sig[i], r));
      subSig' := subSig + [sig[i]];
      futureRet' := futureRet + [r];
    } else {
      assert done + Yield(px, sig, h, i, e) == done;
    }
  }

  lemma PairsAppend(done: seq<(real, real)>, p: (real, real))
    ensures Firsts(done + [p]) == Firsts(done) + [p.0]
    ensures Seconds(done + [p]) == Seconds(done) + [p.1]
  {
  }

  // ---------------------------------------------------------------------
  // With sorted time stamps the cursor is the first bar 70 ms later
  // ---------------------------------------------------------------------

  /** Time stamps never fall, and adding the lag never wraps. */
  predicate OrderedTimes(ts: seq<i64>)
  {
    (forall k :: 0 < k < |ts| ==> ts[k - 1] <= ts[k]) &&
    (forall k :: 0 <= k < |ts| ==> ts[k] as int + ExecutionLagMs < I64_LIMIT)
  }

  /** The entry of bar i scanned afresh: the first index at or after i
      whose time stamp reaches ts[i] + 70. */
  function FreshEntry(ts: seq<i64>, i: nat): nat
    requires i < |ts|
  {
    Advance(ts, Target(ts, i), i)
  }

  /** The pairs with each entry scanned afresh. */
  function FreshPairs(ts: seq<i64>, px: seq<real>, sig: seq<real>, h: nat, i: nat): seq<(real, real)>
    requires |px| == |ts| && |sig| == |ts| && i <= |ts|
    decreases |ts| - i
  {
    if i == |ts| then []
    else
      var e := FreshEntry(ts, i);
      if e + h >= |ts| then []
      else Yield(px, sig, h, i, e) + FreshPairs(ts, px, sig, h, i + 1)
  }

  /** Every index the scan passes over is before the target. */
  lemma {:induction false} AdvanceSkips(ts: seq<i64>, target: int, e: nat, k: nat)
    requires e <= |ts|
    requires e <= k < Advance(ts, target, e)
    ensures (ts[k] as int) < target
    decreases |ts| - e
  {
    if k > e {
      AdvanceSkips(ts, target, e + 1, k);
    }
  }

  /** Starting the scan later, but not past its result, changes nothing. */
  lemma {:induction false} AdvanceFrom(ts: seq<i64>, target: int, b: nat, c: nat)
    requires b <= |ts|
    requires b <= c <= Advance(ts, target, b)
    ensures Advance(ts, target, c) == Advance(ts, target, b)
    decreases c - b
  {
    if b < c {
      AdvanceFrom(ts, target, b + 1, c);
    }
  }

  /** With ordered time stamps the fresh entries never move back. */
  lemma FreshEntriesRise(ts: seq<i64>, i: nat)
    requires OrderedTimes(ts) && i + 1 < |ts|
    ensures FreshEntry(ts, i) <= FreshEntry(ts, i + 1)
  {
    var f, g := FreshEntry(ts, i), FreshEntry(ts, i + 1);
    WrapI64Small(ts[i] as int + ExecutionLagMs);
    WrapI64Small(ts[i + 1] as int + ExecutionLagMs);
    if g < f {
      AdvanceSkips(ts, Target(ts, i), i, g);
    }
  }

  lemma WrapI64Small(x: int)
    requires -I64_LIMIT <= x < I64_LIMIT
    ensures WrapI64(x) == x
  {
  }

  /** With ordered time stamps the carried cursor finds the same entries as
      a fresh scan: the pairs are those of the first bar at least 70 ms
      after each signal. */
  lemma {:induction false} CarriedCursor(ts: seq<i64>, px: seq<real>, sig: seq<real>, h: nat, i: nat, entry: nat)
    requires |px| == |ts| && |sig| == |ts| && i <= |ts| && entry <= |ts|
    requires OrderedTimes(ts)
    requires i < |ts| ==> entry <= FreshEntry(ts, i)
    ensures PairsFrom(ts, px, sig, h, i, entry) == FreshPairs(ts, px, sig, h, i)
    decreases |ts| - i
  {
    if i < |ts| {
      AdvanceFrom(ts, Target(ts, i), i, Max(entry, i));
      var e := FreshEntry(ts, i);
      if e + h < |ts| {
        if i + 1 < |ts| {
          FreshEntriesRise(ts, i);
        }
        CarriedCursor(ts, px, sig, h, i + 1, e);
      }
    }
  }

  /** The study's pairs, for ordered time stamps. */
  lemma StudyPairsFresh(ts: seq<i64>, px: seq<real>, sig: seq<real>, h: nat)
    requires |px| == |ts| && |sig| == |ts| && OrderedTimes(ts)
    ensures StudyPairs(ts, px, sig, h) == FreshPairs(ts, px, sig, h, 0)
  {
    CarriedCursor(ts, px, sig, h, 0, 0);
  }

  // ---------------------------------------------------------------------
  // analyzeFile: the result of one day
  // ---------------------------------------------------------------------

  /** The decoded columns of a day's records. */
  function Times(data: seq<byte>): (ts: seq<i64>)
    ensures |ts| == |data| / Layout.FeatureSize
  {
    var fs := Layout.DecodeFeatures(data);
    seq(|fs|, k requires 0 <= k < |fs| => fs[k].ts)
  }

  function Prices(data: seq<byte>, fromBits: u64 -> real): (px: seq<real>)
    ensures |px| == |data| / Layout.FeatureSize
  {
    var fs := Layout.DecodeFeatures(data);
    seq(|fs|, k requires 0 <= k < |fs| => fromBits(fs[k].px))
  }

  function Signals(data: seq<byte>, fromBits: u64 -> real): (sig: seq<real>)
    ensures |sig| == |data| / Layout.FeatureSize
  {
    var fs := Layout.DecodeFeatures(data);
    seq(|fs|, k requires 0 <= k < |fs| => fromBits(fs[k].sig))
  }

  /** The scorecard of horizon h: CalculateAlphaMetrics of the pairs. */
  function HorizonScore(ts: seq<i64>, px: seq<real>, sig: seq<real>, h: nat, ops: Ops): Scorecard.Horizon
    requires |px| == |ts| && |sig| == |ts|
  {
    var ps := StudyPairs(ts, px, sig, h);
    Scorecard.Score(Firsts(ps), Seconds(ps), ops)
  }

  /** The horizon map after the loop has visited hs: one key per horizon,
      its decimal name. */
  function HorizonMap(ts: seq<i64>, px: seq<real>, sig: seq<real>, hs: seq<nat>, ops: Ops)
    : (m: map<string, Scorecard.Horizon>)
    requires |px| == |ts| && |sig| == |ts|
    ensures m.Keys == Names(hs)
  {
    if hs == [] then map[]
    else
      var h := hs[|hs| - 1];
      HorizonMap(ts, px, sig, hs[..|hs| - 1], ops)[Text.Itoa(h) := HorizonScore(ts, px, sig, h, ops)]
  }

  /** The decimal names of the horizons hs. */
  function Names(hs: seq<nat>): (ns: set<string>)
    ensures forall h :: h in hs ==> Text.Itoa(h) in ns
  {
    if hs == [] then {} else Names(hs[..|hs| - 1]) + {Text.Itoa(hs[|hs| - 1])}
  }

  /** The studied horizons are named "20", "50" and "100", and nothing else. */
  lemma HorizonNames()
    ensures Names(Horizons) == {"20", "50", "100"}
    ensures Text.Itoa(50) == "50"
  {
    assert Horizons[..2] == [20, 50] && [20, 50][..1] == [20] && [20][..0] == [];
    assert Text.Itoa(20) == "20" && Text.Itoa(50) == "50" && Text.Itoa(100) == "100";
  }

  /** Each horizon's entry is its own scorecard: distinct horizons have
      distinct names, so no later horizon overwrites an earlier one. */
  lemma {:induction false} HorizonMapAt(ts: seq<i64>, px: seq<real>, sig: seq<real>, hs: seq<nat>, ops: Ops, h: nat)
    requires |px| == |ts| && |sig| == |ts| && h in hs
    ensures Text.Itoa(h) in HorizonMap(ts, px, sig, hs, ops)
    ensures HorizonMap(ts, px, sig, hs, ops)[Text.Itoa(h)] == HorizonScore(ts, px, sig, h, ops)
  {
    var last := hs[|hs| - 1];
    if h != last {
      assert h in hs[..|hs| - 1];
      HorizonMapAt(ts, px, sig, hs[..|hs| - 1], ops, h);
      Text.ItoaRoundTrip(h);
      Text.ItoaRoundTrip(last);
    }
  }

  /** analyzeFile's result when nothing is studied (NBars 0). */
  const NoResult: Scorecard.AlphaResult := Scorecard.AlphaResult("", 0, Scorecard.ZeroQuality, map[])

  /** analyzeFile on a path whose read gave `file`: no result for a failed
      read or fewer than 200 records, otherwise the dated day with its
      signal quality and one scorecard per horizon. */
  function FileResult(path: string, file: Opened, fromBits: u64 -> real, ops: Ops): (r: Scorecard.AlphaResult)
    requires FileBars(file) < MinFileBars || |Base(path)| >= 4
    ensures FileBars(file) < MinFileBars ==> r == NoResult
    ensures FileBars(file) >= MinFileBars ==>
      r.nBars == FileBars(file) && r.horizons.Keys == {"20", "50", "100"}
  {
    if FileBars(file) < MinFileBars then NoResult
    else DayResult(path, file.contents, fromBits, ops)
  }

  /** The result of a studied day. */
  function DayResult(path: string, data: seq<byte>, fromBits: u64 -> real, ops: Ops): (r: Scorecard.AlphaResult)
    requires |Base(path)| >= 4 && |data| / Layout.FeatureSize >= MinFileBars
    ensures r.nBars == |data| / Layout.FeatureSize && r.horizons.Keys == {"20", "50", "100"}
  {
    var ts, px, sig := Times(data), Prices(data, fromBits), Signals(data, fromBits);
    HorizonNames();
    Scorecard.AlphaResult(DateId(path), |data| / Layout.FeatureSize, Scorecard.Quality(sig, ops), HorizonMap(ts, px, sig, Horizons, ops))
  }

  /** A studied day's "50" scorecard, for ordered time stamps, scores the
      signal at each bar against the return from the first bar at least
      70 ms later to 50 bars after it. */
  lemma FileHorizon50(path: string, file: Opened, fromBits: u64 -> real, ops: Ops)
    requires FileBars(file) >= MinFileBars && |Base(path)| >= 4
    requires OrderedTimes(Times(file.contents))
    ensures "50" in FileResult(path, file, fromBits, ops).horizons
    ensures
      var data := file.contents;
      var ps := FreshPairs(Times(data), Prices(data, fromBits), Signals(data, fromBits), 50, 0);
      FileResult(path, file, fromBits, ops).horizons["50"] == Scorecard.Score(Firsts(ps), Seconds(ps), ops)
  {
    var data := file.contents;
    var ts, px, sig := Times(data), Prices(data, fromBits), Signals(data, fromBits);
    assert FileResult(path, file, fromBits, ops) == DayResult(path, data, fromBits, ops);
    HorizonMapAt(ts, px, sig, Horizons, ops, 50);
    HorizonNames();
    StudyPairsFresh(ts, px, sig, 50);
  }

  /** The horizon loop of analyzeFile, over horizons hs. */
  method ScoreHorizons(ts: seq<i64>, px: seq<real>, sig: seq<real>, hs: seq<nat>, ops: Ops)
    returns (m: map<string, Scorecard.Horizon>)
    requires |px| == |ts| && |sig| == |ts|
    ensures m == HorizonMap(ts, px, sig, hs, ops)
  {
    m := map[];
    for j := 0 to |hs|
      invariant m == HorizonMap(ts, px, sig, hs[..j], ops)
    {
      var h := hs[j];
      var score := ScoreHorizon(ts, px, sig, h, ops);
      assert hs[..j + 1][..j] == hs[..j];
      m := m[Text.Itoa(h) := score];
    }
    assert hs[..|hs|] == hs;
  }

  /** One pass of the horizon loop: the pairs and their scorecard. */
  method ScoreHorizon(ts: seq<i64>, px: seq<real>, sig: seq<real>, h: nat, ops: Ops)
    returns (score: Scorecard.Horizon)
    requires |px| == |ts| && |sig| == |ts|
    ensures score == HorizonScore(ts, px, sig, h, ops)
  {
    var subSig, futureRet := HorizonPairs(ts, px, sig, h);
    score := Scorecard.CalculateAlphaMetrics(subSig, futureRet, ops);
  }

  /** analyzeFile. */
  method AnalyzeFile(path: string, file: Opened, fromBits: u64 -> real, ops: Ops) returns (res: Scorecard.AlphaResult)
    requires FileBars(file) < MinFileBars || |Base(path)| >= 4
    ensures res == FileResult(path, file, fromBits, ops)
  {
    if file.OpenFailed? {
      return NoResult;
    }
    var n := |file.contents| / Layout.FeatureSize;
    if n < MinFileBars {
      return NoResult;
    }
    var ts, px, sig := DecodeRecords(file.contents, fromBits);
    var quality := Scorecard.AnalyzeSignalQuality(sig, ops);
    var horizons := ScoreHorizons(ts, px, sig, Horizons, ops);
    res := Scorecard.AlphaResult(DateId(path), n, quality, horizons);
    assert res == DayResult(path, file.contents, fromBits, ops);
  }

  // ---------------------------------------------------------------------
  // runStudy: aggregation and the report
  // ---------------------------------------------------------------------

  /** The results of the gathered files, one per file. */
  function Analyzed(files: seq<string>, readFile: string -> Opened, fromBits: u64 -> real, ops: Ops)
    : (rs: seq<Scorecard.AlphaResult>)
    requires forall f :: f in files ==> |Base(f)| >= 4
    ensures |rs| == |files|
  {
    if files == [] then []
    else
      var f := files[|files| - 1];
      Analyzed(files[..|files| - 1], readFile, fromBits, ops) + [FileResult(f, readFile(f), fromBits, ops)]
  }

  /** The results that produced bars, in arrival order. */
  function Kept(rs: seq<Scorecard.AlphaResult>): (ks: seq<Scorecard.AlphaResult>)
    ensures forall r :: r in ks <==> r in rs && r.nBars > 0
    ensures |ks| <= |rs|
  {
    if rs == [] then []
    else
      var r := rs[|rs| - 1];
      Kept(rs[..|rs| - 1]) + if r.nBars > 0 then [r] else []
  }

  /** A kept result that has a "50" scorecard. */
  predicate Valid50(r: Scorecard.AlphaResult)
  {
    r.nBars > 0 && "50" in r.horizons
  }

  /** The number of kept results with a "50" scorecard. */
  function ValidCount(rs: seq<Scorecard.AlphaResult>): (c: nat)
    ensures c <= |Kept(rs)|
    ensures (forall r :: r in rs && r.nBars > 0 ==> "50" in r.horizons) ==> c == |Kept(rs)|
  {
    if rs == [] then 0
    else
      var r := rs[|rs| - 1];
      ValidCount(rs[..|rs| - 1]) + if Valid50(r) then 1 else 0
  }

  /** The summed "50" IC and breakeven of the valid results. */
  function IcSum(rs: seq<Scorecard.AlphaResult>): real
  {
    if rs == [] then 0.0
    else
      var r := rs[|rs| - 1];
      IcSum(rs[..|rs| - 1]) + if Valid50(r) then r.horizons["50"].icPearson else 0.0
  }

  function BeSum(rs: seq<Scorecard.AlphaResult>): real
  {
    if rs == [] then 0.0
    else
      var r := rs[|rs| - 1];
      BeSum(rs[..|rs| - 1]) + if Valid50(r) then r.horizons["50"].breakevenBps else 0.0
  }

  /** sort.Slice's order on the report: by date, as strings. */
  predicate DateLe(a: Scorecard.AlphaResult, b: Scorecard.AlphaResult)
  {
    Sorting.StrLe(a.date, b.date)
  }

  lemma DateLeOrder()
    ensures Sorting.TotalPreorder(DateLe)
  {
    forall a: Scorecard.AlphaResult, b: Scorecard.AlphaResult ensures DateLe(a, b) || DateLe(b, a) {
      Sorting.StrLeTotal(a.date, b.date);
    }
    forall a: Scorecard.AlphaResult, b: Scorecard.AlphaResult, c: Scorecard.AlphaResult
      | DateLe(a, b) && DateLe(b, c) ensures DateLe(a, c)
    {
      Sorting.StrLeTrans(a.date, b.date, c.date);
    }
  }

  /** The report: the kept results sorted by date. */
  function Report(rs: seq<Scorecard.AlphaResult>): seq<Scorecard.AlphaResult>
  {
    DateLeOrder();
    Sorting.SortBy(Kept(rs), DateLe)
  }

  /** Step 3 of runStudy: the report and the "50" sums and count. */
  method Aggregate(results: seq<Scorecard.AlphaResult>)
    returns (report: seq<Scorecard.AlphaResult>, icSum: real, beSum: real, valid: nat)
    ensures Sorting.SortedBy(report, DateLe)
    ensures multiset(report) == multiset(Kept(results))
    ensures forall r :: r in report ==> r in results && r.nBars > 0
    ensures report == Report(results)
    ensures icSum == IcSum(results) && beSum == BeSum(results)
    ensures valid == ValidCount(results) && valid <= |report|
  {
    var kept: seq<Scorecard.AlphaResult> := [];
    icSum, beSum, valid := 0.0, 0.0, 0;
    for k := 0 to |results|
      invariant kept == Kept(results[..k])
      invariant icSum == IcSum(results[..k]) && beSum == BeSum(results[..k]) && valid == ValidCount(results[..k])
    {
      assert results[..k + 1][..k] == results[..k];
      var r := results[k];
      if r.nBars > 0 {
        kept := kept + [r];
        if "50" in r.horizons {
          icSum := icSum + r.horizons["50"].icPearson;
          beSum := beSum + r.horizons["50"].breakevenBps;
          valid := valid + 1;
        }
      }
    }
    assert results[..|results|] == results;
    DateLeOrder();
    report := Sorting.SortBy(kept, DateLe);
    forall r | r in report
      ensures r in results && r.nBars > 0
    {
      assert r in multiset(kept);
    }
  }

  /** The printed means of the "50" IC and breakeven, when any day is valid. */
  function GlobalMeans(icSum: real, beSum: real, valid: nat): (m: Text.Option<(real, real)>)
    ensures m.Some? <==> valid > 0
    ensures m.Some? ==> m.value.0 * valid as real == icSum && m.value.1 * valid as real == beSum
  {
    if valid == 0 then Text.None else Text.Some((icSum / valid as real, beSum / valid as real))
  }

  /** runStudy: gather, analyze every file, aggregate. The report holds
      every studied day, sorted by date, each with at least 200 bars and a
      "50" scorecard, so the means are printed exactly when it is not
      empty and average over all of it. */
  method RunStudy(featDir: string, years: seq<DirEntry>, listDir: string -> seq<DirEntry>,
                  readFile: string -> Opened, fromBits: u64 -> real, ops: Ops)
    returns (report: seq<Scorecard.AlphaResult>, means: Text.Option<(real, real)>)
    ensures var files := StudyFiles(featDir, years, listDir);
      (forall f :: f in files ==> |Base(f)| >= 4) &&
      report == Report(Analyzed(files, readFile, fromBits, ops))
    ensures Sorting.SortedBy(report, DateLe)
    ensures forall r :: r in report ==> r.nBars >= MinFileBars && r.horizons.Keys == {"20", "50", "100"}
    ensures means.Some? <==> report != []
  {
    var files := GatherFiles(featDir, years, listDir);
    var results := AnalyzeAll(files, readFile, fromBits, ops);
    var icSum, beSum, valid;
    report, icSum, beSum, valid := Aggregate(results);
    AnalyzedStudied(files, readFile, fromBits, ops);
    AllValid(results, report);
    means := GlobalMeans(icSum, beSum, valid);
  }

  /** Step 2 of runStudy: every gathered file through analyzeFile. */
  method AnalyzeAll(files: seq<string>, readFile: string -> Opened, fromBits: u64 -> real, ops: Ops)
    returns (results: seq<Scorecard.AlphaResult>)
    requires forall f :: f in files ==> |Base(f)| >= 4
    ensures results == Analyzed(files, readFile, fromBits, ops)
    decreases |files|
  {
    if files == [] {
      return [];
    }
    var f := files[|files| - 1];
    results := AnalyzeAll(files[..|files| - 1], readFile, fromBits, ops);
    var r := AnalyzeFile(f, readFile(f), fromBits, ops);
    results := results + [r];
  }

  /** Every analyzed file that produced bars has at least 200 of them and
      the three scorecards. */
  lemma {:induction false} AnalyzedStudied(files: seq<string>, readFile: string -> Opened, fromBits: u64 -> real, ops: Ops)
    requires forall f :: f in files ==> |Base(f)| >= 4
    ensures forall r :: r in Analyzed(files, readFile, fromBits, ops) && r.nBars > 0 ==>
      r.nBars >= MinFileBars && r.horizons.Keys == {"20", "50", "100"}
  {
    if files != [] {
      var f := files[|files| - 1];
      AnalyzedStudied(files[..|files| - 1], readFile, fromBits, ops);
      var last := FileResult(f, readFile(f), fromBits, ops);
      assert Analyzed(files, readFile, fromBits, ops) == Analyzed(files[..|files| - 1], readFile, fromBits, ops) + [last];
    }
  }

  /** When every kept result has a "50" scorecard, all of the report is
      valid. */
  lemma AllValid(results: seq<Scorecard.AlphaResult>, report: seq<Scorecard.AlphaResult>)
    requires multiset(report) == multiset(Kept(results))
    requires forall r :: r in results && r.nBars > 0 ==> "50" in r.horizons
    ensures ValidCount(results) == |report|
  {
    assert |report| == |multiset(report)| == |multiset(Kept(results))| == |Kept(results)|;
  }
}
