/**
  The day timeline of the analytic Gantt component: one unit per calendar
  day from two days before the earliest task start to five days after the
  latest task end, plus the chart's overall size.
 */
module ClaudeTimeline {
  import opened ClaudeTasks
  import Extrema
  import Calendar
  import Decimal

  /** One day column: its day number, its header label (the day of the month) and its weekend flag. */
  datatype TimelineUnit = TimelineUnit(date: int, dayLabel: string, isWeekend: bool)

  /** Days shown before the earliest start and after the latest end. */
  const LeadDays: int := 2
  const TrailDays: int := 5

  function Starts(tasks: seq<Task>): (s: seq<int>)
    ensures |s| == |tasks|
    ensures forall i :: 0 <= i < |tasks| ==> s[i] == tasks[i].start
  {
    seq(|tasks|, i requires 0 <= i < |tasks| => tasks[i].start)
  }

  function Ends(tasks: seq<Task>): (s: seq<int>)
    ensures |s| == |tasks|
    ensures forall i :: 0 <= i < |tasks| ==> s[i] == tasks[i].end
  {
    seq(|tasks|, i requires 0 <= i < |tasks| => tasks[i].end)
  }

  /** `Math.min` over the start dates: the start of some task, and no task starts earlier. */
  function EarliestStart(tasks: seq<Task>): (d: int)
    requires |tasks| > 0
    ensures d in Starts(tasks)
    ensures forall i :: 0 <= i < |tasks| ==> d <= tasks[i].start
  {
    var s := Starts(tasks);
    var d := Extrema.Min(s);
    assert forall i :: 0 <= i < |tasks| ==> s[i] in s;
    d
  }

  /** `Math.max` over the end dates: the end of some task, and no task ends later. */
  function LatestEnd(tasks: seq<Task>): (d: int)
    requires |tasks| > 0
    ensures d in Ends(tasks)
    ensures forall i :: 0 <= i < |tasks| ==> tasks[i].end <= d
  {
    var s := Ends(tasks);
    var d := Extrema.Max(s);
    assert forall i :: 0 <= i < |tasks| ==> s[i] in s;
    d
  }

  function WindowStart(tasks: seq<Task>): int
    requires |tasks| > 0
  {
    EarliestStart(tasks) - LeadDays
  }

  function WindowEnd(tasks: seq<Task>): int
    requires |tasks| > 0
  {
    LatestEnd(tasks) + TrailDays
  }

  /** The unit pushed for day `date`: label `getDate().toString()`, weekend when `getDay()` is 0 or 6. */
  function UnitFor(date: int): (unit: TimelineUnit)
    ensures unit.date == date
  {
    TimelineUnit(date, Decimal.ToDecimal(Calendar.CivilFromDays(date).day), Calendar.IsWeekend(date))
  }

  /** The units of the `n` consecutive days starting at day `first`. */
  function UnitsFrom(first: int, n: nat): (units: seq<TimelineUnit>)
    ensures |units| == n
  {
    seq(n, i => UnitFor(first + i))
  }

  lemma UnitsFromSnoc(first: int, n: nat)
    ensures UnitsFrom(first, n + 1) == UnitsFrom(first, n) + [UnitFor(first + n)]
  {
  }

  /** The units of the days `first` through `last`, none when `last < first`. */
  function Window(first: int, last: int): (units: seq<TimelineUnit>)
    ensures |units| == if last < first then 0 else last - first + 1
    ensures |units| > 0 ==> units[0].date == first && units[|units| - 1].date == last
  {
    if last < first then []
    else
      var units := UnitsFrom(first, last - first + 1);
      assert units[0] == UnitFor(first) && units[|units| - 1] == UnitFor(last);
      units
  }

  /** The `i`-th unit of a window is the unit of day `first + i`. */
  lemma WindowAt(first: int, last: int, i: int)
    requires 0 <= i < |Window(first, last)|
    ensures Window(first, last)[i] == UnitFor(first + i)
    ensures Window(first, last)[i].date == first + i
  {
  }

  /**
    The timeline as a whole. With no tasks the window bounds are invalid
    dates (`Math.min()` is Infinity), the loop never runs and the timeline is
    empty; with tasks it holds one unit per day of the window, and none when
    the window is empty (possible only when tasks end well before they start).
   */
  function Timeline(tasks: seq<Task>): (timeline: seq<TimelineUnit>)
    ensures |tasks| == 0 ==> timeline == []
    ensures |timeline| > 0 ==>
      && |tasks| > 0
      && timeline[0].date == EarliestStart(tasks) - LeadDays
      && timeline[|timeline| - 1].date == LatestEnd(tasks) + TrailDays
      && |timeline| == timeline[|timeline| - 1].date - timeline[0].date + 1
  {
    if |tasks| == 0 then [] else Window(WindowStart(tasks), WindowEnd(tasks))
  }

  /**
    `generateTimeline`: walks a day cursor from the window start while it
    is not past the window end, pushing one unit per day.
   */
  method GenerateTimeline(tasks: seq<Task>) returns (timeline: seq<TimelineUnit>)
    ensures timeline == Timeline(tasks)
  {
    timeline := [];
    if |tasks| == 0 {
      return;
    }
    timeline := GenerateWindow(WindowStart(tasks), WindowEnd(tasks));
  }

  /** The loop of `generateTimeline`: a day cursor from `startDate` while it is not past `endDate`. */
  method GenerateWindow(startDate: int, endDate: int) returns (units: seq<TimelineUnit>)
    ensures units == Window(startDate, endDate)
  {
    units := [];
    var current := startDate;
    while current <= endDate
      invariant startDate <= current
      invariant current <= if startDate <= endDate then endDate + 1 else startDate
      invariant units == UnitsFrom(startDate, current - startDate)
      decreases endDate - current
    {
      var unit := DayUnit(current);
      UnitsFromSnoc(startDate, current - startDate);
      units := units + [unit];
      current := current + 1;
    }
  }

  /**
    The loop body of `generateTimeline`: the unit pushed for day `date`,
    a weekend exactly on Sundays and Saturdays, labelled with the day of the
    month in one or two decimal digits.
   */
  method DayUnit(date: int) returns (unit: TimelineUnit)
    ensures unit.date == date
    ensures unit.isWeekend <==> Calendar.Weekday(date) == 0 || Calendar.Weekday(date) == 6
    ensures 1 <= |unit.dayLabel| <= 2 && forall j :: 0 <= j < |unit.dayLabel| ==> Decimal.IsDigit(unit.dayLabel[j])
    ensures Decimal.FromDecimal(unit.dayLabel) == Calendar.CivilFromDays(date).day
    ensures unit == UnitFor(date)
  {
    var isWeekend := Calendar.Weekday(date) == Calendar.Sunday || Calendar.Weekday(date) == Calendar.Saturday;
    var day := Calendar.CivilFromDays(date).day;
    var dayLabel := Decimal.ToDecimal(day);
    Decimal.DecimalRoundTrip(day);
    Decimal.DayLabelLength(day);
    unit := TimelineUnit(date, dayLabel, isWeekend);
  }

  /** Length and units of the timeline, read off its definition. */
  lemma TimelineAt(tasks: seq<Task>, i: int)
    requires 0 <= i < |Timeline(tasks)|
    ensures |tasks| > 0
    ensures Timeline(tasks)[i] == UnitFor(WindowStart(tasks) + i)
    ensures Timeline(tasks)[i].date == WindowStart(tasks) + i
  {
    WindowAt(WindowStart(tasks), WindowEnd(tasks), i);
  }

  /** Empty input gives an empty timeline rather than an error. */
  lemma TimelineOfNoTasks()
    ensures Timeline([]) == []
  {
  }

  /**
    For well-formed tasks the timeline is non-empty, starts two days before
    the earliest start, ends five days after the latest end, and has one
    unit per day in between.
   */
  lemma TimelineBounds(tasks: seq<Task>)
    requires |tasks| > 0 && AllWellFormed(tasks)
    ensures |Timeline(tasks)| == (LatestEnd(tasks) + TrailDays) - (EarliestStart(tasks) - LeadDays) + 1
    ensures Timeline(tasks)[0].date == EarliestStart(tasks) - LeadDays
    ensures Timeline(tasks)[|Timeline(tasks)| - 1].date == LatestEnd(tasks) + TrailDays
  {
    var ws, we := WindowStart(tasks), WindowEnd(tasks);
    assert ws <= we by {
      assert WellFormed(tasks[0]);
      assert EarliestStart(tasks) <= tasks[0].start;
      assert tasks[0].end <= LatestEnd(tasks);
    }
    assert Timeline(tasks) == Window(ws, we);
    TimelineAt(tasks, 0);
    TimelineAt(tasks, we - ws);
  }

  /** A single well-formed task is enough for a non-empty timeline, starting two days before the earliest start. */
  lemma TimelineNonEmpty(tasks: seq<Task>, k: int)
    requires 0 <= k < |tasks| && WellFormed(tasks[k])
    ensures |Timeline(tasks)| > 0
    ensures Timeline(tasks)[0].date == EarliestStart(tasks) - LeadDays
  {
    assert EarliestStart(tasks) <= tasks[k].start && tasks[k].end <= LatestEnd(tasks);
    assert |Window(WindowStart(tasks), WindowEnd(tasks))| > 0;
  }

  /** Consecutive units are consecutive days. */
  lemma TimelineContiguous(tasks: seq<Task>)
    ensures forall i :: 0 < i < |Timeline(tasks)| ==> Timeline(tasks)[i].date == Timeline(tasks)[i - 1].date + 1
  {
    forall i | 0 < i < |Timeline(tasks)|
      ensures Timeline(tasks)[i].date == Timeline(tasks)[i - 1].date + 1
    {
      TimelineAt(tasks, i);
      TimelineAt(tasks, i - 1);
    }
  }

  /**
    Each unit is flagged as a weekend exactly when its weekday is Sunday or
    Saturday, and is labelled with its day of the month in one or two digits.
   */
  lemma TimelineUnitContents(tasks: seq<Task>, i: int)
    requires 0 <= i < |Timeline(tasks)|
    ensures Timeline(tasks)[i].isWeekend <==>
      Calendar.Weekday(Timeline(tasks)[i].date) == 0 || Calendar.Weekday(Timeline(tasks)[i].date) == 6
    ensures var l := Timeline(tasks)[i].dayLabel;
      && 1 <= |l| <= 2
      && (forall j :: 0 <= j < |l| ==> Decimal.IsDigit(l[j]))
      && Decimal.FromDecimal(l) == Calendar.CivilFromDays(Timeline(tasks)[i].date).day
  {
    TimelineAt(tasks, i);
    UnitContents(Timeline(tasks)[i]);
  }

  lemma UnitContents(u: TimelineUnit)
    requires u == UnitFor(u.date)
    ensures u.isWeekend <==> Calendar.Weekday(u.date) == 0 || Calendar.Weekday(u.date) == 6
    ensures 1 <= |u.dayLabel| <= 2 && forall j :: 0 <= j < |u.dayLabel| ==> Decimal.IsDigit(u.dayLabel[j])
    ensures Decimal.FromDecimal(u.dayLabel) == Calendar.CivilFromDays(u.date).day
  {
    var d := Calendar.CivilFromDays(u.date).day;
    Decimal.DecimalRoundTrip(d);
    Decimal.DayLabelLength(d);
  }

  /** Every day of every well-formed task has a column on the timeline. */
  lemma TimelineCoversTasks(tasks: seq<Task>, k: int, day: int)
    requires 0 <= k < |tasks| && WellFormed(tasks[k])
    requires tasks[k].start <= day <= tasks[k].end
    ensures |Timeline(tasks)| > 0
    ensures exists i :: 0 <= i < |Timeline(tasks)| && Timeline(tasks)[i].date == day
  {
    var t := Timeline(tasks);
    var i := day - WindowStart(tasks);
    assert |t| == WindowEnd(tasks) - WindowStart(tasks) + 1;
    TimelineAt(tasks, i);
    assert t[i].date == day;
  }
}
