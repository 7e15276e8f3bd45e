/**
 * runBuild of build.go: discovery of the months that have an index, the
 * chronological schedule of their days, and the sequential run of
 * processBuildDay over it with the lines it prints.
 */
module BuildRun {
  import opened Bytes
  import opened Layout
  import opened GoIo
  import opened Build
  import Sorting
  import Text

  /** A day of a month, as runBuild schedules it. */
  datatype TaskId = TaskId(y: int, m: int, d: int)

  /** The less function runBuild hands to sort.Slice: year, then month,
      then day. */
  predicate TaskLess(a: TaskId, b: TaskId)
  {
    if a.y != b.y then a.y < b.y
    else if a.m != b.m then a.m < b.m
    else a.d < b.d
  }

  /** "Not after": the order sort.Slice leaves the tasks in. */
  predicate TaskLe(a: TaskId, b: TaskId)
  {
    !TaskLess(b, a)
  }

  /** TaskLe orders every pair, transitively, and ties only equal tasks,
      so the sorted schedule is chronological and unique. */
  lemma TaskLeOrder()
    ensures Sorting.TotalPreorder(TaskLe)
    ensures forall a, b :: TaskLe(a, b) && TaskLe(b, a) ==> a == b
  {
  }

  /** Days 1 .. 31 of a month. */
  function MonthTasks(y: int, m: int): (ts: seq<TaskId>)
    ensures |ts| == 31
    ensures forall i :: 0 <= i < 31 ==> ts[i] == TaskId(y, m, i + 1)
  {
    seq(31, i => TaskId(y, m, i + 1))
  }

  /** The number a directory entry names, when it is a directory whose
      name strconv.Atoi reads. */
  function DirNumber(e: DirEntry): (n: Text.Option<int>)
    ensures n.Some? ==> e.isDir && n == Text.Atoi(e.name)
    ensures n.None? ==> !e.isDir || Text.Atoi(e.name).None?
  {
    if e.isDir then Text.Atoi(e.name) else Text.None
  }

  /** The month directories of year yName that hold an index file. */
  function IndexedMonths(yName: string, months: seq<DirEntry>, hasIndex: (string, string) -> bool): (n: nat)
    ensures n <= |months|
  {
    if months == [] then 0
    else
      var e := months[|months| - 1];
      IndexedMonths(yName, months[..|months| - 1], hasIndex)
      + if DirNumber(e).Some? && hasIndex(yName, e.name) then 1 else 0
  }

  /** The tasks of the month entries of year y: days 1 .. 31 of every
      month directory whose name strconv.Atoi reads and that holds an
      index file. */
  function YearTasks(yName: string, y: int, months: seq<DirEntry>, hasIndex: (string, string) -> bool)
    : seq<TaskId>
  {
    if months == [] then []
    else
      var e := months[|months| - 1];
      YearTasks(yName, y, months[..|months| - 1], hasIndex)
      + if DirNumber(e).Some? && hasIndex(yName, e.name) then MonthTasks(y, DirNumber(e).value) else []
  }

  /** The months with an index under the year directories. */
  function DiscoveredMonthCount(years: seq<DirEntry>, monthsOf: string -> seq<DirEntry>,
                                hasIndex: (string, string) -> bool): nat
  {
    if years == [] then 0
    else
      var e := years[|years| - 1];
      DiscoveredMonthCount(years[..|years| - 1], monthsOf, hasIndex)
      + if DirNumber(e).Some? then IndexedMonths(e.name, monthsOf(e.name), hasIndex) else 0
  }

  /** The discovery phase over the year entries of the symbol's directory. */
  function Discovered(years: seq<DirEntry>, monthsOf: string -> seq<DirEntry>,
                      hasIndex: (string, string) -> bool): seq<TaskId>
  {
    if years == [] then []
    else
      var e := years[|years| - 1];
      Discovered(years[..|years| - 1], monthsOf, hasIndex)
      + if DirNumber(e).Some? then YearTasks(e.name, DirNumber(e).value, monthsOf(e.name), hasIndex) else []
  }

  /** Whole months only: every discovered task is a day 1 .. 31, and there
      are 31 tasks per month with an index, so the len(tasks)/31 runBuild
      prints is that number of months. */
  lemma {:induction false} DiscoveredMonths(years: seq<DirEntry>, monthsOf: string -> seq<DirEntry>,
                                            hasIndex: (string, string) -> bool)
    ensures |Discovered(years, monthsOf, hasIndex)| == 31 * DiscoveredMonthCount(years, monthsOf, hasIndex)
    ensures forall t :: t in Discovered(years, monthsOf, hasIndex) ==> 1 <= t.d <= 31
  {
    if years != [] {
      var e := years[|years| - 1];
      DiscoveredMonths(years[..|years| - 1], monthsOf, hasIndex);
      if DirNumber(e).Some? {
        YearMonths(e.name, DirNumber(e).value, monthsOf(e.name), hasIndex);
      }
    }
  }

  lemma {:induction false} YearMonths(yName: string, y: int, months: seq<DirEntry>, hasIndex: (string, string) -> bool)
    ensures |YearTasks(yName, y, months, hasIndex)| == 31 * IndexedMonths(yName, months, hasIndex)
    ensures forall t :: t in YearTasks(yName, y, months, hasIndex) ==> 1 <= t.d <= 31 && t.y == y
  {
    if months != [] {
      YearMonths(yName, y, months[..|months| - 1], hasIndex);
    }
  }

  /** Discovery as runBuild writes it: a loop over the year directories and,
      inside it, a loop over each year's month directories. */
  method Discover(years: seq<DirEntry>, monthsOf: string -> seq<DirEntry>, hasIndex: (string, string) -> bool)
    returns (tasks: seq<TaskId>)
    ensures tasks == Discovered(years, monthsOf, hasIndex)
  {
    tasks := [];
    for i := 0 to |years|
      invariant tasks == Discovered(years[..i], monthsOf, hasIndex)
    {
      assert years[..i + 1][..i] == years[..i];
      var e := years[i];
      var y := DirNumber(e);
      if y.Some? {
        var months := monthsOf(e.name);
        var more := YearLoop(e.name, y.value, months, hasIndex);
        tasks := tasks + more;
      }
    }
    assert years[..|years|] == years;
  }

  /** The inner loop of discovery, over one year's month directories. */
  method YearLoop(yName: string, y: int, months: seq<DirEntry>, hasIndex: (string, string) -> bool)
    returns (tasks: seq<TaskId>)
    ensures tasks == YearTasks(yName, y, months, hasIndex)
  {
    tasks := [];
    for j := 0 to |months|
      invariant tasks == YearTasks(yName, y, months[..j], hasIndex)
    {
      assert months[..j + 1][..j] == months[..j];
      var m := DirNumber(months[j]);
      if m.Some? && hasIndex(yName, months[j].name) {
        tasks := tasks + MonthTasks(y, m.value);
      }
    }
    assert months[..|months|] == months;
  }

  /** Go's %04d-%02d-%02d of a day. */
  function DateText(t: TaskId): string
  {
    Text.PadInt(t.y, 4) + "-" + Text.PadInt(t.m, 2) + "-" + Text.PadInt(t.d, 2)
  }

  /** A calendar date prints as ten characters whose year, month and day
      fields read back as the task's. */
  lemma DateTextFields(t: TaskId)
    requires 0 <= t.y < 10000 && 0 <= t.m < 100 && 0 <= t.d < 100
    ensures |DateText(t)| == 10 && DateText(t)[4] == '-' && DateText(t)[7] == '-'
    ensures Text.AllDigitChars(DateText(t)[..4]) && Text.DecimalValue(DateText(t)[..4]) == t.y
    ensures Text.AllDigitChars(DateText(t)[5..7]) && Text.DecimalValue(DateText(t)[5..7]) == t.m
    ensures Text.AllDigitChars(DateText(t)[8..]) && Text.DecimalValue(DateText(t)[8..]) == t.d
  {
    assert Pow10(2) == 100 && Pow10(4) == 10000 by {
      assert Pow10(1) == 10;
      assert Pow10(3) == 1000;
    }
    Text.PaddedField(t.y, 4);
    Text.PaddedField(t.m, 2);
    Text.PaddedField(t.d, 2);
    DateParts(Text.PadInt(t.y, 4), Text.PadInt(t.m, 2), Text.PadInt(t.d, 2));
  }

  /** Where the three fields of a date sit once joined by dashes. */
  lemma DateParts(a: string, b: string, c: string)
    requires |a| == 4 && |b| == 2 && |c| == 2
    ensures |a + "-" + b + "-" + c| == 10
    ensures (a + "-" + b + "-" + c)[4] == '-' && (a + "-" + b + "-" + c)[7] == '-'
    ensures (a + "-" + b + "-" + c)[..4] == a
    ensures (a + "-" + b + "-" + c)[5..7] == b
    ensures (a + "-" + b + "-" + c)[8..] == c
  {
  }

  /** processBuildDay's returned status and whether the day was built:
      only a built day has a line worth printing, and runBuild prints
      nothing else per day. */
  function DayStatus(t: TaskId, r: BuildResult): (status: (string, bool))
    requires !r.Crashed?
    ensures status.1 <==> r.Done?
    ensures r.NoDay? ==> status.0 == ""
  {
    match r
    case NoDay => ("", false)
    case ErrIo => ("ERR_IO " + DateText(t), false)
    case ErrZlib => ("ERR_ZLIB " + DateText(t), false)
    case ErrHdr => ("ERR_HDR", false)
    case ErrSize => ("ERR_SIZE", false)
    case Done(rowCount, _) => ("DONE " + DateText(t) + " | " + Text.Itoa(rowCount) + " rows", true)
  }

  /** The files one month directory holds: its index and its data file,
      as os.Open finds them. The paths are rebuilt from the integers with
      %04d and %02d, so the month is looked up by number. */
  datatype Env = Env(files: (int, int) -> (Opened, Opened), inflate: seq<byte> -> Inflation,
                     pxBits: u64 -> u64, sigBits: seq<Trade> -> u64)

  function TaskOutcome(t: TaskId, env: Env): BuildResult
  {
    BuildDaySpec(env.files(t.y, t.m).0, env.files(t.y, t.m).1, t.d, env.inflate, env.pxBits, env.sigBits)
  }

  /** The days of a schedule that were built, in schedule order, each with
      the feature file written for it. */
  function BuiltDays(tasks: seq<TaskId>, env: Env): (ds: seq<(TaskId, seq<byte>)>)
    ensures |ds| <= |tasks|
  {
    if tasks == [] then []
    else
      var t := tasks[|tasks| - 1];
      BuiltDays(tasks[..|tasks| - 1], env)
      + match TaskOutcome(t, env)
        case Done(_, fs) => [(t, fs)]
        case _ => []
  }

  /** Whether no task of a schedule panics. */
  predicate CrashFree(tasks: seq<TaskId>, env: Env)
  {
    forall i :: 0 <= i < |tasks| ==> !TaskOutcome(tasks[i], env).Crashed?
  }

  /** How many tasks of a schedule run before the first one that panics
      (all of them when none does): the run ends at that task. */
  function FirstCrash(tasks: seq<TaskId>, env: Env): (k: nat)
    ensures k <= |tasks| && CrashFree(tasks[..k], env)
    ensures k < |tasks| ==> TaskOutcome(tasks[k], env).Crashed?
  {
    var k := FirstCrashFrom(tasks, env, 0);
    assert forall i :: 0 <= i < k ==> tasks[..k][i] == tasks[i];
    k
  }

  /** The first task at or after lo that panics, or |tasks| when none does. */
  function FirstCrashFrom(tasks: seq<TaskId>, env: Env, lo: nat): (k: nat)
    requires lo <= |tasks|
    ensures lo <= k <= |tasks|
    ensures forall i :: lo <= i < k ==> !TaskOutcome(tasks[i], env).Crashed?
    ensures k < |tasks| ==> TaskOutcome(tasks[k], env).Crashed?
    decreases |tasks| - lo
  {
    if lo == |tasks| then lo
    else if TaskOutcome(tasks[lo], env).Crashed? then lo
    else FirstCrashFrom(tasks, env, lo + 1)
  }

  /** A crash-free prefix ended by a panicking task, or the whole schedule,
      is FirstCrash's. */
  lemma FirstCrashIs(tasks: seq<TaskId>, env: Env, k: nat)
    requires k <= |tasks| && CrashFree(tasks[..k], env)
    requires k < |tasks| ==> TaskOutcome(tasks[k], env).Crashed?
    ensures FirstCrash(tasks, env) == k
  {
    var f := FirstCrash(tasks, env);
    NoCrashBefore(tasks, env, f);
    NoCrashBefore(tasks, env, k);
  }

  /** Every task inside a crash-free prefix returns. */
  lemma NoCrashBefore(tasks: seq<TaskId>, env: Env, b: nat)
    requires b <= |tasks| && CrashFree(tasks[..b], env)
    ensures forall a :: 0 <= a < b ==> !TaskOutcome(tasks[a], env).Crashed?
  {
    assert forall a :: 0 <= a < b ==> tasks[..b][a] == tasks[a];
  }

  /** A task that returns extends the crash-free prefix. */
  lemma CrashFreeSnoc(tasks: seq<TaskId>, env: Env, i: nat)
    requires i < |tasks| && CrashFree(tasks[..i], env) && !TaskOutcome(tasks[i], env).Crashed?
    ensures CrashFree(tasks[..i + 1], env)
  {
    NoCrashBefore(tasks, env, i);
    assert forall k :: 0 <= k < i + 1 ==> tasks[..i + 1][k] == tasks[k];
  }

  /** The lines printed for a schedule that runs to its end: one DONE line
      per built day. */
  function DoneLines(tasks: seq<TaskId>, env: Env): (lines: seq<string>)
    requires CrashFree(tasks, env)
    ensures |lines| == |BuiltDays(tasks, env)|
  {
    if tasks == [] then []
    else
      var t := tasks[|tasks| - 1];
      DoneLines(tasks[..|tasks| - 1], env)
      + var st := DayStatus(t, TaskOutcome(t, env)); if st.1 then [st.0] else []
  }

  lemma InSnoc<T>(s: seq<T>, x: T)
    requires s != []
    ensures x in s <==> x in s[..|s| - 1] || x == s[|s| - 1]
  {
    assert s == s[..|s| - 1] + [s[|s| - 1]];
  }

  /** A day is written exactly when its outcome is Done, and its file holds
      that outcome's features. */
  lemma {:induction false} BuiltDaysAre(tasks: seq<TaskId>, env: Env, t: TaskId, fs: seq<byte>)
    ensures (t, fs) in BuiltDays(tasks, env)
      <==> t in tasks && TaskOutcome(t, env).Done? && TaskOutcome(t, env).features == fs
  {
    if tasks != [] {
      var init, last := tasks[..|tasks| - 1], tasks[|tasks| - 1];
      BuiltDaysAre(init, env, t, fs);
      InSnoc(tasks, t);
    }
  }

  /** The execution phase: processBuildDay on every task in order, printing
      the status of each built day and counting them, until a task panics;
      reached is the number of tasks that returned. */
  method RunTasks(tasks: seq<TaskId>, env: Env)
    returns (lines: seq<string>, files: seq<(TaskId, seq<byte>)>, validDays: nat, reached: nat)
    ensures reached == FirstCrash(tasks, env)
    ensures files == BuiltDays(tasks[..reached], env) && lines == DoneLines(tasks[..reached], env)
    ensures validDays == |files|
  {
    lines, files, validDays := [], [], 0;
    reached := 0;
    while reached < |tasks|
      invariant reached <= |tasks| && CrashFree(tasks[..reached], env)
      invariant files == BuiltDays(tasks[..reached], env) && validDays == |files|
      invariant lines == DoneLines(tasks[..reached], env)
    {
      var i := reached;
      assert tasks[..i + 1][..i] == tasks[..i];
      var t := tasks[i];
      var r := ProcessBuildDay(env.files(t.y, t.m).0, env.files(t.y, t.m).1, t.d,
                               env.inflate, env.pxBits, env.sigBits);
      if r.Crashed? {
        FirstCrashIs(tasks, env, reached);
        return;
      }
      CrashFreeSnoc(tasks, env, i);
      var (res, built) := DayStatus(t, r);
      if built {
        lines := lines + [res];
        files := files + [(t, r.features)];
        validDays := validDays + 1;
      }
      reached := i + 1;
    }
    FirstCrashIs(tasks, env, reached);
  }

  /** runBuild: discovery, the chronological sort, then every task in turn
      until one panics. The printed lines are the banner, the month count,
      one DONE line per built day and, when no task panicked, the closing
      count; files pairs each built day with the feature file written for
      it. */
  method RunBuild(years: seq<DirEntry>, monthsOf: string -> seq<DirEntry>,
                  hasIndex: (string, string) -> bool, env: Env)
    returns (lines: seq<string>, files: seq<(TaskId, seq<byte>)>, validDays: nat)
    ensures Sorting.SortedBy(Schedule(years, monthsOf, hasIndex), TaskLe)
    ensures var tasks := Schedule(years, monthsOf, hasIndex);
      var k := FirstCrash(tasks, env);
      files == BuiltDays(tasks[..k], env) && validDays == |files|
      && lines == [Banner(), FoundLine(DiscoveredMonthCount(years, monthsOf, hasIndex))]
                  + DoneLines(tasks[..k], env) + (if k < |tasks| then [] else [CompleteLine(validDays)])
  {
    var found := Discover(years, monthsOf, hasIndex);
    TaskLeOrder();
    var tasks := Sorting.SortBy(found, TaskLe);
    DiscoveredMonths(years, monthsOf, hasIndex);
    var months := |tasks| / 31;
    DivModUnique(|tasks|, 31, DiscoveredMonthCount(years, monthsOf, hasIndex), 0);
    var dayLines, reached;
    dayLines, files, validDays, reached := RunTasks(tasks, env);
    lines := [Banner(), FoundLine(months)] + dayLines;
    if reached == |tasks| {
      lines := lines + [CompleteLine(validDays)];
    }
  }

  /** The discovered tasks in the order sort.Slice leaves them. */
  function Schedule(years: seq<DirEntry>, monthsOf: string -> seq<DirEntry>,
                    hasIndex: (string, string) -> bool): (tasks: seq<TaskId>)
    ensures multiset(tasks) == multiset(Discovered(years, monthsOf, hasIndex))
    ensures Sorting.SortedBy(tasks, TaskLe)
  {
    TaskLeOrder();
    Sorting.SortBy(Discovered(years, monthsOf, hasIndex), TaskLe)
  }

  function Banner(): string
  {
    "--- BUILDALPHA GO (Adaptive Z-Score) | FULL HISTORY SCAN: " + Symbol + " ---"
  }

  function FoundLine(months: int): string
  {
    "[build] Found potential data for " + Text.FormatInt(months) + " months. Starting build..."
  }

  function CompleteLine(days: nat): string
  {
    "--- Build Complete. Built " + Text.Itoa(days) + " days of Alpha. ---"
  }
}
