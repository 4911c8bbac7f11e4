/**
  The layout pass of the analytic Gantt component (`ngOnInit`): timeline,
  then chart size, then connectors, as one pure computation.
 */
module ClaudeLayout {
  import opened ClaudeTasks
  import opened ClaudeTimeline
  import opened ClaudeGeometry
  import opened ClaudeConnections

  datatype ChartSize = ChartSize(width: real, height: real)

  datatype Layout = Layout(timeline: seq<TimelineUnit>, size: ChartSize, connections: seq<Connection>)

  /**
    `calculateDimensions`: one column per timeline day, one row per task,
    so every row's midline lies within the chart's height.
   */
  function CalculateDimensions(timeline: seq<TimelineUnit>, tasks: seq<Task>, dayWidth: real, rowHeight: real): (size: ChartSize)
    ensures size.width == |timeline| as real * dayWidth
    ensures size.height == |tasks| as real * rowHeight
    ensures dayWidth >= 0.0 ==> size.width >= 0.0
    ensures rowHeight >= 0.0 ==> forall r: nat :: r < |tasks| ==> 0.0 <= RowMidline(r, rowHeight) <= size.height
  {
    var size := ChartSize(|timeline| as real * dayWidth, |tasks| as real * rowHeight);
    assert dayWidth >= 0.0 ==> size.width >= 0.0 by {
      if dayWidth >= 0.0 {
        ScaleMonotone(0, |timeline|, dayWidth);
      }
    }
    assert rowHeight >= 0.0 ==> forall r: nat :: r < |tasks| ==> 0.0 <= RowMidline(r, rowHeight) <= size.height by {
      if rowHeight >= 0.0 {
        forall r: nat | r < |tasks| ensures 0.0 <= RowMidline(r, rowHeight) <= size.height {
          MidlineInRows(r, |tasks|, rowHeight);
        }
      }
    }
    size
  }

  /**
    The inputs on which the pass never reads the first day of an empty
    timeline: the timeline is non-empty, or no dependency id resolves.
   */
  predicate LayoutDefined(tasks: seq<Task>) {
    Timeline(tasks) != [] || Edges(tasks) == []
  }

  method ComputeLayout(tasks: seq<Task>, dayWidth: real, rowHeight: real) returns (layout: Layout)
    requires LayoutDefined(tasks)
    ensures layout.timeline == Timeline(tasks)
    ensures layout.size == CalculateDimensions(layout.timeline, tasks, dayWidth, rowHeight)
    ensures RoutesOf(tasks, layout.timeline, dayWidth, rowHeight, Edges(tasks), layout.connections)
  {
    var timeline := GenerateTimeline(tasks);
    var size := CalculateDimensions(timeline, tasks, dayWidth, rowHeight);
    var connections := GenerateConnections(tasks, timeline, dayWidth, rowHeight);
    layout := Layout(timeline, size, connections);
  }

  /**
    The pass is defined on the empty task list (giving an empty timeline, a
    zero-height chart and no connectors) and on every list of well-formed tasks.
   */
  lemma LayoutDefinedOnValidInput(tasks: seq<Task>)
    requires |tasks| == 0 || AllWellFormed(tasks)
    ensures LayoutDefined(tasks)
    ensures |tasks| == 0 ==> Timeline(tasks) == [] && Edges(tasks) == []
  {
    if |tasks| > 0 {
      TimelineBounds(tasks);
    }
  }

  /** The chart is as wide as the window from two days before the earliest start to five days after the latest end. */
  lemma ChartWidthSpansWindow(tasks: seq<Task>, dayWidth: real, rowHeight: real)
    requires |tasks| > 0 && AllWellFormed(tasks)
    ensures CalculateDimensions(Timeline(tasks), tasks, dayWidth, rowHeight).width
      == (LatestEnd(tasks) - EarliestStart(tasks) + LeadDays + TrailDays + 1) as real * dayWidth
  {
    var timeline := Timeline(tasks);
    assert WellFormed(tasks[0]);
    TimelineNonEmpty(tasks, 0);
  }

  /**
    With columns at least 20 pixels wide every bar lies inside the chart,
    with at least the five trailing columns to spare.
   */
  lemma BarsFitInChart(tasks: seq<Task>, k: int, dayWidth: real, rowHeight: real)
    requires 0 <= k < |tasks| && AllWellFormed(tasks) && dayWidth >= MinBarWidth
    ensures |Timeline(tasks)| > 0
    ensures 0.0 <= TaskLeft(Timeline(tasks), tasks[k], dayWidth)
    ensures TaskLeft(Timeline(tasks), tasks[k], dayWidth) + TaskWidth(tasks[k], dayWidth)
      <= CalculateDimensions(Timeline(tasks), tasks, dayWidth, rowHeight).width - TrailDays as real * dayWidth
  {
    var timeline := Timeline(tasks);
    assert WellFormed(tasks[k]);
    TimelineNonEmpty(tasks, k);
    BarFitsColumns(timeline, tasks[k], dayWidth, |timeline|);
  }

  /** A bar whose last day is at least `TrailDays` columns before the end of an `n`-day timeline leaves them free. */
  lemma BarFitsColumns(timeline: seq<TimelineUnit>, task: Task, dayWidth: real, n: int)
    requires |timeline| == n > 0 && WellFormed(task) && dayWidth >= MinBarWidth
    requires timeline[0].date <= task.start && task.end - timeline[0].date + 1 <= n - TrailDays
    ensures TaskLeft(timeline, task, dayWidth) + TaskWidth(task, dayWidth) <= n as real * dayWidth - TrailDays as real * dayWidth
  {
    BarEndOnTimeline(timeline, task, dayWidth);
    ColumnsFit(task.end - timeline[0].date + 1, n, TrailDays, dayWidth);
  }

  lemma ColumnsFit(used: int, columns: int, spare: int, dayWidth: real)
    requires used <= columns - spare && dayWidth >= 0.0
    ensures used as real * dayWidth <= columns as real * dayWidth - spare as real * dayWidth
  {
    ScaleMonotone(used, columns - spare, dayWidth);
    assert (columns - spare) as real * dayWidth == columns as real * dayWidth - spare as real * dayWidth;
  }

  lemma MidlineInRows(row: nat, rows: nat, rowHeight: real)
    requires row < rows && rowHeight >= 0.0
    ensures 0.0 <= RowMidline(row, rowHeight) <= rows as real * rowHeight
  {
    ScaleMonotone(0, row, rowHeight);
    ScaleMonotone(row + 1, rows, rowHeight);
    assert (row + 1) as real * rowHeight == row as real * rowHeight + rowHeight;
  }

  /** Every corner of every connector lies within the chart's height. */
  lemma ConnectionsWithinChartHeight(tasks: seq<Task>, timeline: seq<TimelineUnit>, dayWidth: real, rowHeight: real, e: Edge)
    requires EdgeOf(tasks, e) && |timeline| > 0 && rowHeight >= 0.0
    ensures forall p :: p in Route(tasks, timeline, dayWidth, rowHeight, e).path ==>
      0.0 <= p.y <= CalculateDimensions(timeline, tasks, dayWidth, rowHeight).height
  {
    var depTask, task := tasks[e.dep], tasks[e.task];
    var startX := TaskLeft(timeline, depTask, dayWidth) + TaskWidth(depTask, dayWidth);
    var endX := TaskLeft(timeline, task, dayWidth);
    var startY, endY := RowMidline(e.dep, rowHeight), RowMidline(e.task, rowHeight);
    var path := LShape(startX, startY, endX, endY);
    assert Route(tasks, timeline, dayWidth, rowHeight, e).path == path;
    var height := CalculateDimensions(timeline, tasks, dayWidth, rowHeight).height;
    assert 0.0 <= startY <= height && 0.0 <= endY <= height;
    forall p | p in path ensures 0.0 <= p.y <= height {
      var i :| 0 <= i < |path| && path[i] == p;
    }
  }
}
