/**
  Horizontal geometry of a task bar: its left offset from the first
  timeline day and its width, in pixels. Dates are whole days, so the
  source's `Math.ceil` of a millisecond difference divided by a day's
  milliseconds is the plain difference of day numbers.
 */
module ClaudeGeometry {
  import opened ClaudeTasks
  import opened ClaudeTimeline

  /** The narrowest bar drawn, so that a short task stays clickable. */
  const MinBarWidth: real := 20.0

  function MaxReal(a: real, b: real): (m: real)
    ensures m >= a && m >= b
    ensures m == a || m == b
  {
    if a >= b then a else b
  }

  /** `getTaskLeft`: days from the first timeline day to the task's start, times the day width, never negative. */
  function TaskLeft(timeline: seq<TimelineUnit>, task: Task, dayWidth: real): (left: real)
    requires |timeline| > 0
    ensures left >= 0.0
    ensures var offset := (task.start - timeline[0].date) as real * dayWidth;
      (offset >= 0.0 ==> left == offset) && (offset < 0.0 ==> left == 0.0)
  {
    var diffDays := task.start - timeline[0].date;
    MaxReal(0.0, diffDays as real * dayWidth)
  }

  /** `getTaskWidth`: the number of days the task covers, ends included, times the day width, but at least 20. */
  function TaskWidth(task: Task, dayWidth: real): (width: real)
    ensures width >= MinBarWidth
    ensures width >= (task.end - task.start + 1) as real * dayWidth
    ensures width == MinBarWidth || width == (task.end - task.start + 1) as real * dayWidth
  {
    var diffDays := task.end - task.start + 1;
    MaxReal(MinBarWidth, diffDays as real * dayWidth)
  }

  lemma ScaleMonotone(a: int, b: int, w: real)
    requires a <= b && w >= 0.0
    ensures a as real * w <= b as real * w
  {
    assert b as real * w - a as real * w == (b - a) as real * w;
  }

  /** A task `columns` days after the first timeline day sits `columns` day widths from the left edge. */
  lemma LeftFromColumns(timeline: seq<TimelineUnit>, task: Task, dayWidth: real, columns: int)
    requires |timeline| > 0 && dayWidth >= 0.0
    requires task.start - timeline[0].date == columns && columns >= LeadDays
    ensures TaskLeft(timeline, task, dayWidth) == columns as real * dayWidth
    ensures TaskLeft(timeline, task, dayWidth) >= LeadDays as real * dayWidth
  {
    var offset := (task.start - timeline[0].date) as real * dayWidth;
    assert offset == columns as real * dayWidth;
    ScaleMonotone(LeadDays, columns, dayWidth);
    ScaleMonotone(0, LeadDays, dayWidth);
    assert 0.0 <= LeadDays as real * dayWidth <= offset;
  }

  /**
    On the timeline built from the tasks themselves, a listed task starts
    (start - earliest start + 2) columns from the left edge.
   */
  lemma LeftOfListedTask(tasks: seq<Task>, k: int, dayWidth: real)
    requires 0 <= k < |tasks| && AllWellFormed(tasks) && dayWidth >= 0.0
    ensures |Timeline(tasks)| > 0
    ensures TaskLeft(Timeline(tasks), tasks[k], dayWidth)
      == (tasks[k].start - EarliestStart(tasks) + LeadDays) as real * dayWidth
    ensures TaskLeft(Timeline(tasks), tasks[k], dayWidth) >= LeadDays as real * dayWidth
  {
    var timeline := Timeline(tasks);
    var columns := tasks[k].start - EarliestStart(tasks) + LeadDays;
    assert |timeline| > 0 && tasks[k].start - timeline[0].date == columns && columns >= LeadDays by {
      TimelineBounds(tasks);
    }
    LeftFromColumns(timeline, tasks[k], dayWidth, columns);
  }

  /** Bars keep the order of their start dates. */
  lemma LeftMonotone(timeline: seq<TimelineUnit>, a: Task, b: Task, dayWidth: real)
    requires |timeline| > 0 && a.start <= b.start && dayWidth >= 0.0
    ensures TaskLeft(timeline, a, dayWidth) <= TaskLeft(timeline, b, dayWidth)
  {
    ScaleMonotone(a.start - timeline[0].date, b.start - timeline[0].date, dayWidth);
  }

  /** A task that starts and ends on the same day is one column wide, or 20 pixels if a column is narrower. */
  lemma SameDayWidth(task: Task, dayWidth: real)
    requires task.start == task.end
    ensures TaskWidth(task, dayWidth) == MaxReal(MinBarWidth, dayWidth)
  {
  }

  /** When a column is at least 20 pixels wide the floor never applies: a bar spans exactly its days. */
  lemma WidthOfWideColumns(task: Task, dayWidth: real)
    requires WellFormed(task) && dayWidth >= MinBarWidth
    ensures TaskWidth(task, dayWidth) == (task.end - task.start + 1) as real * dayWidth
  {
    ScaleMonotone(1, task.end - task.start + 1, dayWidth);
  }

  /**
    With columns at least 20 pixels wide, the bar of a task starting on or
    after the first timeline day ends at the right edge of its last day's column.
   */
  lemma BarEndOnTimeline(timeline: seq<TimelineUnit>, task: Task, dayWidth: real)
    requires |timeline| > 0 && WellFormed(task) && dayWidth >= MinBarWidth
    requires timeline[0].date <= task.start
    ensures TaskLeft(timeline, task, dayWidth) + TaskWidth(task, dayWidth)
      == (task.end - timeline[0].date + 1) as real * dayWidth
  {
    var columns := task.start - timeline[0].date;
    var covered := task.end - task.start + 1;
    ScaleMonotone(0, columns, dayWidth);
    WidthOfWideColumns(task, dayWidth);
    assert columns as real * dayWidth + covered as real * dayWidth == (columns + covered) as real * dayWidth;
  }

  /**
    With columns at least 20 pixels wide, a listed task's bar ends exactly
    at the right edge of the column of its last day.
   */
  lemma BarEndsAtLastDay(tasks: seq<Task>, k: int, dayWidth: real)
    requires 0 <= k < |tasks| && AllWellFormed(tasks) && dayWidth >= MinBarWidth
    ensures |Timeline(tasks)| > 0
    ensures TaskLeft(Timeline(tasks), tasks[k], dayWidth) + TaskWidth(tasks[k], dayWidth)
      == (tasks[k].end - Timeline(tasks)[0].date + 1) as real * dayWidth
  {
    var timeline := Timeline(tasks);
    assert WellFormed(tasks[k]);
    TimelineNonEmpty(tasks, k);
    BarEndOnTimeline(timeline, tasks[k], dayWidth);
  }
}
