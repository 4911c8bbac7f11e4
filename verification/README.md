# Gantt layout model

A Dafny model of the layout engine of an Angular Gantt chart. There are two
components.

- **GanttClaude** (`gantt-claude.ts`) is the analytic component. From an
  ordered task list it computes four things:
  - a day timeline, from two days before the earliest start to five days
    after the latest end, each day with its day-of-month label and a weekend
    flag;
  - the chart size;
  - each task bar's left offset and width;
  - one L-shaped connector per dependency id that names an existing task.
- **GanttComponent** (`gantt-chart.component.ts`) is the older grid
  component. It computes three things:
  - a day list from the earliest start to the latest end;
  - the grid columns of each bar;
  - the dependency pairs it links between rendered task elements.

Both are modelled as pure functions over immutable task sequences. The loops
of the source are modelled as methods whose postconditions tie them to those
functions.

Modules:

| file | module | models |
|---|---|---|
| `optional.dfy` | `Optional` | `Option`: `undefined` or -1 results, and invalid dates |
| `extrema.dfy` | `Extrema` | `Math.min` and `Math.max` over a non-empty list |
| `calendar.dfy` | `Calendar` | `Date.getDay()` and `Date.getDate()` on whole day numbers |
| `decimal.dfy` | `Decimal` | `Number.prototype.toString()` for non-negative integers |
| `claude_tasks.dfy` | `ClaudeTasks` | tasks, `taskIdMap`, `tasks.find`, `tasks.findIndex` |
| `claude_timeline.dfy` | `ClaudeTimeline` | `generateTimeline` |
| `claude_geometry.dfy` | `ClaudeGeometry` | `getTaskLeft`, `getTaskWidth` |
| `claude_connections.dfy` | `ClaudeConnections` | `generateConnections` |
| `claude_layout.dfy` | `ClaudeLayout` | `calculateDimensions` and the `ngOnInit` pass as one function |
| `claude_examples.dfy` | `ClaudeExamples` | two charts worked through the model |
| `gantt_chart.dfy` | `GanttChart` | `minDate`, `maxDate`, `days`, `bars`, `updateConnections` |

Representation choices:

- **Dates** are integer day numbers.
  - Day 0 is 1970-01-01, a Thursday.
  - `getDay()` is `(day + 4) % 7`, with 0 meaning Sunday.
  - `getDate()` is the day of the month on the proleptic Gregorian
    calendar. Its conversion to and from day numbers is proved to be a
    bijection.
  - Subtracting two dates and dividing by the milliseconds in a day becomes
    subtraction of day numbers. `setDate(getDate() + n)` becomes adding `n`.
- **Pixel quantities** are `real`: `dayWidth`, `rowHeight` and every
  coordinate. The source halves values at `gantt-claude.ts:169`, `:171` and
  `:174`.
- **Connectors** are their four corner points rather than an SVG path
  string.

**The empty task list does not fail.** `Math.min()` over no values is
`Infinity`, so the window bounds are invalid dates. The `while` test at
`gantt-claude.ts:138` is then false, and the timeline is empty. The model
follows the code: `Timeline([]) == []`, the chart height is 0 and there are
no connectors. It does not model an error for empty input.

The grid component behaves the same way. Its `days` length is `NaN` there,
which `Array.from` treats as 0.

**Duplicate ids.**
- `new Map(...)` keeps the last task with a given id.
- `find` and `findIndex` return the first.
- The connection builder uses the map only for `has`, so a connector
  always starts at the first task with the id. The model keeps both rules
  and proves that they agree where they meet.

## Model

| member | source | states |
|---|---|---|
| Extrema.Min | src/app/components/gantt-claude/gantt-claude.ts:128 | `Math.min` over a non-empty list returns one of the values, and no value is smaller |
| Extrema.Max | src/app/components/gantt-claude/gantt-claude.ts:129 | `Math.max` over a non-empty list returns one of the values, and no value is larger |
| ClaudeTimeline.EarliestStart | src/app/components/gantt-claude/gantt-claude.ts:128 | the timeline's base start date is the start of some task, and no task starts earlier |
| ClaudeTimeline.LatestEnd | src/app/components/gantt-claude/gantt-claude.ts:129 | the timeline's base end date is the end of some task, and no task ends later |
| Calendar.CivilFromDays | src/app/components/gantt-claude/gantt-claude.ts:143 | every day number has a valid calendar date (month 1-12, day within the month's length) that converts back to the same day number |
| Calendar.CivilInjective | src/app/components/gantt-claude/gantt-claude.ts:143 | two valid calendar dates with the same day number are the same date |
| Calendar.CivilRoundTrip | src/app/components/gantt-claude/gantt-claude.ts:143 | converting a valid calendar date to its day number and back gives the same date, so dates and day numbers correspond one to one |
| Calendar.Weekday | src/app/components/gantt-claude/gantt-claude.ts:139 | `getDay()` is always between 0 and 6 |
| Calendar.WeekdayNext | src/app/components/gantt-claude/gantt-claude.ts:139-147 | stepping the cursor one day advances the weekday by one, wrapping from Saturday (6) to Sunday (0) |
| Calendar.EpochIsThursdayJanuaryFirst | src/app/components/gantt-claude/gantt-claude.ts:139-143 | day 0 is January 1st 1970 and a Thursday (`getDay() == 4`) |
| Calendar.DayOfMonthNext | src/app/components/gantt-claude/gantt-claude.ts:143-147 | the next day's `getDate()` is one more, or 1; it is 1 exactly when the current day is the last of its month |
| Calendar.NextYear | src/app/components/gantt-claude/gantt-claude.ts:147 | the day after December 31st is January 1st of the next year |
| Decimal.ToDecimal | src/app/components/gantt-claude/gantt-claude.ts:143 | `toString()` of a non-negative integer is a non-empty string of digits without a leading zero; it is one character long exactly when the number is below 10 |
| Decimal.DecimalRoundTrip | src/app/components/gantt-claude/gantt-claude.ts:143 | parsing the decimal text of a number gives the number back |
| Decimal.DayLabelLength | src/app/components/gantt-claude/gantt-claude.ts:143 | a day-of-month label has one or two characters |
| ClaudeTasks.TaskIdMap | src/app/components/gantt-claude/gantt-claude.ts:111 | the map's keys are exactly the ids the tasks carry |
| ClaudeTasks.TaskIdMapLastWins | src/app/components/gantt-claude/gantt-claude.ts:111 | when several tasks share an id, the map holds the last of them |
| ClaudeTasks.FindIndex | src/app/components/gantt-claude/gantt-claude.ts:165 | `findIndex` returns a position whose task has the id and has no earlier match; it returns -1 (None) exactly when no task has the id |
| ClaudeTasks.FindTask | src/app/components/gantt-claude/gantt-claude.ts:164 | `find` returns undefined (None) exactly when no task has the id; otherwise it returns a task carrying the id that no earlier task shares |
| ClaudeTasks.FindTaskAgreesWithFindIndex | src/app/components/gantt-claude/gantt-claude.ts:164-165 | `find` and `findIndex` fail together, and otherwise pick the same task |
| ClaudeTasks.IdMapHasIffFound | src/app/components/gantt-claude/gantt-claude.ts:161-167 | the `taskIdMap().has` guard passes exactly for ids that `findIndex` finds, so the later `depTask && depIndex !== -1` test never fails after it |
| ClaudeTimeline.GenerateTimeline | src/app/components/gantt-claude/gantt-claude.ts:127-149 | the loop's output is the timeline of the task list: empty for no tasks, otherwise one unit per day of the window |
| ClaudeTimeline.GenerateWindow | src/app/components/gantt-claude/gantt-claude.ts:135-148 | the day cursor loop pushes exactly the units of the days from the start date through the end date, and none when the end precedes the start |
| ClaudeTimeline.Timeline | src/app/components/gantt-claude/gantt-claude.ts:127-149 | with no tasks the timeline is empty; a non-empty timeline starts at earliest start − 2, ends at latest end + 5, and has as many units as there are days from its first to its last day |
| ClaudeTimeline.DayUnit | src/app/components/gantt-claude/gantt-claude.ts:139-145 | the pushed unit carries the cursor's date; it is flagged weekend exactly when the weekday is 0 or 6; its label is one or two digits that parse back to the day of the month |
| ClaudeTimeline.WindowAt | src/app/components/gantt-claude/gantt-claude.ts:135-148 | the i-th unit of a window is the unit for the window's first day plus i |
| ClaudeTimeline.TimelineAt | src/app/components/gantt-claude/gantt-claude.ts:135-148 | the i-th timeline unit is the unit of day `windowStart + i` |
| ClaudeTimeline.TimelineOfNoTasks | src/app/components/gantt-claude/gantt-claude.ts:128-138 | with no tasks the timeline is empty and nothing fails |
| ClaudeTimeline.TimelineBounds | src/app/components/gantt-claude/gantt-claude.ts:128-138 | for well-formed tasks the first unit is earliest start − 2, the last is latest end + 5, and the length is their difference + 1 |
| ClaudeTimeline.TimelineNonEmpty | src/app/components/gantt-claude/gantt-claude.ts:128-138 | one well-formed task is enough for a non-empty timeline starting at earliest start − 2 |
| ClaudeTimeline.TimelineContiguous | src/app/components/gantt-claude/gantt-claude.ts:138-148 | consecutive units are consecutive days |
| ClaudeTimeline.TimelineUnitContents | src/app/components/gantt-claude/gantt-claude.ts:139-145 | each unit is a weekend exactly when its weekday is 0 or 6; its label is one or two digits that parse to its day of the month |
| ClaudeTimeline.TimelineCoversTasks | src/app/components/gantt-claude/gantt-claude.ts:127-149 | every day of every well-formed task has a unit on the timeline |
| ClaudeGeometry.MaxReal | src/app/components/gantt-claude/gantt-claude.ts:197 | `Math.max` of two numbers is at least both and equals one of them |
| ClaudeGeometry.TaskLeft | src/app/components/gantt-claude/gantt-claude.ts:187-192 | the left offset is never negative; it equals (start − first timeline day) × dayWidth when that is non-negative, and 0 otherwise |
| ClaudeGeometry.TaskWidth | src/app/components/gantt-claude/gantt-claude.ts:194-198 | the width is at least 20 and at least days-covered × dayWidth, and equals one of the two |
| ClaudeGeometry.LeftOfListedTask | src/app/components/gantt-claude/gantt-claude.ts:187-192 | on the tasks' own timeline a listed task's left offset is (start − earliest start + 2) × dayWidth, hence at least two columns |
| ClaudeGeometry.LeftMonotone | src/app/components/gantt-claude/gantt-claude.ts:187-192 | a task starting no later than another has a left offset no larger |
| ClaudeGeometry.SameDayWidth | src/app/components/gantt-claude/gantt-claude.ts:194-198 | a task that starts and ends on the same day is max(20, dayWidth) wide |
| ClaudeGeometry.WidthOfWideColumns | src/app/components/gantt-claude/gantt-claude.ts:194-198 | with columns at least 20 wide, a well-formed task is exactly days-covered × dayWidth wide |
| ClaudeGeometry.BarEndOnTimeline | src/app/components/gantt-claude/gantt-claude.ts:187-198 | with columns at least 20 wide, a bar starting on or after the first timeline day ends at the right edge of its end day's column |
| ClaudeGeometry.BarEndsAtLastDay | src/app/components/gantt-claude/gantt-claude.ts:187-198 | the same for every listed well-formed task on the tasks' own timeline |
| ClaudeConnections.TaskEdges | src/app/components/gantt-claude/gantt-claude.ts:160-183 | the connectors of one task come from its resolvable dependency ids, in list order |
| ClaudeConnections.EdgesUpTo | src/app/components/gantt-claude/gantt-claude.ts:159-184 | the connectors of the first n tasks resolve, belong to those tasks, and are ordered by task, then by dependency position |
| ClaudeConnections.EdgesExactly | src/app/components/gantt-claude/gantt-claude.ts:159-183 | a connector is emitted for a (task, dependency id) pair exactly when the id names a task, it leads from the first such task, and the order is strict by task then dependency position |
| ClaudeConnections.ResolvableDependencyHasEdge | src/app/components/gantt-claude/gantt-claude.ts:160-167 | every dependency id that names an existing task gets a connector |
| ClaudeConnections.DanglingIdsYieldNothing | src/app/components/gantt-claude/gantt-claude.ts:161-163 | when no dependency id names a task there are no connectors, and nothing fails |
| ClaudeConnections.LShape | src/app/components/gantt-claude/gantt-claude.ts:174-179 | the path has four corners: it leaves the start point, runs horizontally to a vertical leg halfway between the start x and the end x, then to the end row, and stops 5 pixels before the end x |
| ClaudeConnections.RouteIsLShaped | src/app/components/gantt-claude/gantt-claude.ts:168-179 | a connector has four points, from the predecessor's bar end on its row midline to 5 pixels before the dependent bar on its row midline; its segments run horizontal, vertical, horizontal; its vertical segment is halfway between the ends; on a single row all y values are equal |
| ClaudeConnections.ConnectDependency | src/app/components/gantt-claude/gantt-claude.ts:161-182 | one dependency id yields a connector exactly when it names a task, and that connector is the route from the first such task |
| ClaudeConnections.ConnectTask | src/app/components/gantt-claude/gantt-claude.ts:160-183 | the inner loop appends the routes of exactly the task's resolvable dependencies, in list order |
| ClaudeConnections.GenerateConnections | src/app/components/gantt-claude/gantt-claude.ts:156-185 | the output has one connector per resolved dependency, in emission order, each being that dependency's route |
| ClaudeLayout.ComputeLayout | src/app/components/gantt-claude/gantt-claude.ts:121-125 | the pass returns the timeline of the tasks, the chart size computed from that timeline, and, one for one and in order, the route of each resolved dependency |
| ClaudeLayout.CalculateDimensions | src/app/components/gantt-claude/gantt-claude.ts:151-154 | the chart has one column per timeline day and one row per task; its width is non-negative for non-negative columns, and every row's midline lies between 0 and its height |
| ClaudeLayout.LayoutDefinedOnValidInput | src/app/components/gantt-claude/gantt-claude.ts:121-125 | the pass never reads the first day of an empty timeline, for the empty task list and for every list of well-formed tasks; the empty list gives no timeline and no connectors |
| ClaudeLayout.ChartWidthSpansWindow | src/app/components/gantt-claude/gantt-claude.ts:151-154 | the chart is (latest end − earliest start + 8) columns wide |
| ClaudeLayout.BarsFitInChart | src/app/components/gantt-claude/gantt-claude.ts:187-198 | with columns at least 20 wide, every bar starts inside the chart and ends at least five columns before its right edge |
| ClaudeLayout.ConnectionsWithinChartHeight | src/app/components/gantt-claude/gantt-claude.ts:169-171 | every corner of every connector lies between 0 and the chart height |
| ClaudeExamples.NewYear2025IsDay | src/app/components/gantt-claude/gantt-claude.ts:49 | 2025-01-01 is day 20089 |
| ClaudeExamples.AdjacentRowsExample | src/app/components/gantt-claude/gantt-claude.ts:156-185 | a two-task chart (2025-01-01 to 01-05, and 01-06 to 01-10 depending on it) with 40-pixel columns and 50-pixel rows has one connector: (280, 25), (280, 25), (280, 75), (275, 75) |
| ClaudeExamples.DanglingExample | src/app/components/gantt-claude/gantt-claude.ts:161-163 | a task whose only dependency names no task yields no connector |
| GanttChart.MinDate | src/app/components/gantt-chart/gantt-chart.component.ts:40 | `minDate` is invalid exactly for no tasks; otherwise it is some task's start, and no start is earlier |
| GanttChart.MaxDate | src/app/components/gantt-chart/gantt-chart.component.ts:41 | `maxDate` is invalid exactly for no tasks; otherwise it is some task's end, and no end is later |
| GanttChart.Days | src/app/components/gantt-chart/gantt-chart.component.ts:43-50 | `days` is empty exactly when there are no tasks or the latest end precedes the earliest start; otherwise day i is minDate + i and the last day is maxDate |
| GanttChart.Bars | src/app/components/gantt-chart/gantt-chart.component.ts:52-58 | one bar per task in task order; each bar's row is its index, its grid span is the task's days counting both ends, and it starts in grid column 1 or later |
| GanttChart.DaysSpan | src/app/components/gantt-chart/gantt-chart.component.ts:43-50 | for well-formed tasks `days` has length maxDate − minDate + 1, element i is minDate + i, and it starts at minDate and ends at maxDate |
| GanttChart.DaysContiguous | src/app/components/gantt-chart/gantt-chart.component.ts:45-49 | consecutive days differ by exactly one |
| GanttChart.BarsOnDays | src/app/components/gantt-chart/gantt-chart.component.ts:54-56 | for well-formed tasks a bar's grid columns lie within the day columns, its first column shows the task's start day, and its last column shows its end day |
| GanttChart.Nodes | src/app/components/gantt-chart/gantt-chart.component.ts:68-71 | the measured elements are recorded under exactly the ids of the first \|elements\| tasks |
| GanttChart.NodesLastWins | src/app/components/gantt-chart/gantt-chart.component.ts:69-71 | when rendered tasks share an id, the element of the last one is kept |
| GanttChart.TaskPairs | src/app/components/gantt-chart/gantt-chart.component.ts:75-81 | a task's emitted pairs pass the presence filter and come in increasing dependency position |
| GanttChart.PairsUpTo | src/app/components/gantt-chart/gantt-chart.component.ts:74-82 | the pairs of the first n tasks pass the filter and are ordered by task, then by dependency position |
| GanttChart.PairsExactly | src/app/components/gantt-chart/gantt-chart.component.ts:74-82 | a pair is emitted exactly when both the dependency id and the task id have an element, in task order and then dependency order |
| GanttChart.NoDependencyFieldNoPairs | src/app/components/gantt-chart/gantt-chart.component.ts:75 | a task without a `dependencies` field contributes no pair |
| GanttChart.AllRenderedLinked | src/app/components/gantt-chart/gantt-chart.component.ts:67-77 | when every task is rendered, a pair passes the filter exactly when its dependency id is some task's id |
| GanttChart.RecordNodes | src/app/components/gantt-chart/gantt-chart.component.ts:68-71 | the `forEach` over the elements builds the id-to-element record |
| GanttChart.LinkTask | src/app/components/gantt-chart/gantt-chart.component.ts:75-81 | the inner loop appends one link per linked dependency of the task, in list order |
| GanttChart.UpdateConnections | src/app/components/gantt-chart/gantt-chart.component.ts:66-84 | the connections are the (predecessor element, task element) links of the linked pairs, one for one and in order |

## Left out

- Angular plumbing is not modelled: decorators, `viewChild` and `ViewChild`, signals and `computed` recomputation, and the `ngOnInit` and `ngAfterViewInit` hooks. Each computed value is a pure function of the task list, and `ComputeLayout` runs the `ngOnInit` sequence once.
- `onTimelineScroll` (`gantt-claude.ts:200-204`) and `trackById` (`gantt-chart.component.ts:86-88`) are left out. The first only scrolls DOM elements; the second returns the item's id.
- DOM measurement in `updateConnections` (`querySelectorAll`, `getBoundingClientRect`) is left out. The measured elements are a parameter of any type, and a connection pairs two of them.
- Millisecond `Date` arithmetic, time zones, daylight-saving shifts and `Math.ceil` over fractional days are left out. Dates are whole days, and `getDay`/`getDate` read a fixed calendar with no time-zone offset.
- JavaScript numbers are doubles, but pixel values are exact reals. Floating-point rounding of coordinates is not modelled.
- The SVG path text is left out: its `M`/`L` commands, line breaks, indentation and number formatting. A connector is its four corner points.
- Demo task data, the unused `taskKinds` constant, and the `color` and `progress` fields are left out. No computation reads them.
- ClaudeGeometry.TaskLeft requires a non-empty timeline. The source throws a `TypeError` when it reads `timeline[0]` of an empty timeline, and the model excludes that call. `generateConnections` reaches it only when some dependency resolves, so the connection methods require a non-empty timeline or no resolvable dependency.
- GanttChart.UpdateConnections requires at most as many rendered elements as tasks. With more, `this.tasks()[i]` is `undefined` and the source throws. The template renders one element per task.
- GanttChart.Days does not model fractional lengths. `Array.from` truncates a non-integer length, and with whole days that never arises.
- ClaudeLayout.BarsFitInChart is stated for columns at least 20 pixels wide. With narrower columns the 20-pixel minimum bar width can reach past the trailing columns.
- ClaudeLayout.ConnectionsWithinChartHeight is stated for a non-negative row height. The source uses a fixed 50.
