/**
  Dependency connectors of the analytic Gantt component. Every dependency
  id that names an existing task yields one L-shaped connector from the
  right end of the predecessor's bar to just before the left end of the
  dependent task's bar; ids naming no task yield nothing.
 */
module ClaudeConnections {
  import opened Optional
  import opened ClaudeTasks
  import opened ClaudeTimeline
  import opened ClaudeGeometry

  datatype Point = Point(x: real, y: real)

  /**
    A connector: the corners of its path in order. The source renders them
    as the SVG path `M p0 L p1 L p2 L p3`.
   */
  datatype Connection = Connection(path: seq<Point>)

  /**
    A resolved dependency: `task` is the dependent task's row, `depPos` the
    position of the id in its dependency list, `dep` the predecessor's row.
   */
  datatype Edge = Edge(task: nat, depPos: nat, dep: nat)

  /** The path stops this many pixels before the dependent bar. */
  const EndInset: real := 5.0

  /** The vertical middle of row `row`. */
  function RowMidline(row: nat, rowHeight: real): real {
    row as real * rowHeight + rowHeight / 2.0
  }

  /**
    `e` is a dependency of an existing task whose id names an existing task,
    the first of which sits in row `e.dep`.
   */
  predicate EdgeOf(tasks: seq<Task>, e: Edge) {
    && e.task < |tasks|
    && e.depPos < |tasks[e.task].dependencies|
    && FindIndex(tasks, tasks[e.task].dependencies[e.depPos]) == Some(e.dep)
  }

  /** Emission order: by dependent task, then by position in its dependency list. */
  predicate Before(a: Edge, b: Edge) {
    a.task < b.task || (a.task == b.task && a.depPos < b.depPos)
  }

  /** The resolved dependencies among the first `j` dependency ids of task `i`, in list order. */
  function TaskEdges(tasks: seq<Task>, i: nat, j: nat): (edges: seq<Edge>)
    requires i < |tasks| && j <= |tasks[i].dependencies|
    ensures forall e :: e in edges ==> EdgeOf(tasks, e) && e.task == i && e.depPos < j
    ensures forall a, b :: 0 <= a < b < |edges| ==> Before(edges[a], edges[b])
    decreases j
  {
    if j == 0 then []
    else
      var prefix := TaskEdges(tasks, i, j - 1);
      match FindIndex(tasks, tasks[i].dependencies[j - 1])
      case None => prefix
      case Some(k) => prefix + [Edge(i, j - 1, k)]
  }

  /** The resolved dependencies of the first `n` tasks, in emission order. */
  function EdgesUpTo(tasks: seq<Task>, n: nat): (edges: seq<Edge>)
    requires n <= |tasks|
    ensures forall e :: e in edges ==> EdgeOf(tasks, e) && e.task < n
    ensures forall a, b :: 0 <= a < b < |edges| ==> Before(edges[a], edges[b])
    decreases n
  {
    if n == 0 then []
    else
      var prefix := EdgesUpTo(tasks, n - 1);
      var last := TaskEdges(tasks, n - 1, |tasks[n - 1].dependencies|);
      assert forall a :: 0 <= a < |prefix| ==> prefix[a] in prefix;
      assert forall b :: 0 <= b < |last| ==> last[b] in last;
      prefix + last
  }

  /** All resolved dependencies, in the order the connectors are emitted. */
  function Edges(tasks: seq<Task>): seq<Edge> {
    EdgesUpTo(tasks, |tasks|)
  }

  lemma {:induction false} TaskEdgesComplete(tasks: seq<Task>, i: nat, j: nat, e: Edge)
    requires i < |tasks| && j <= |tasks[i].dependencies|
    requires EdgeOf(tasks, e) && e.task == i && e.depPos < j
    ensures e in TaskEdges(tasks, i, j)
    decreases j
  {
    if e.depPos < j - 1 {
      TaskEdgesComplete(tasks, i, j - 1, e);
    }
  }

  lemma {:induction false} EdgesUpToComplete(tasks: seq<Task>, n: nat, e: Edge)
    requires n <= |tasks|
    requires EdgeOf(tasks, e) && e.task < n
    ensures e in EdgesUpTo(tasks, n)
    decreases n
  {
    if e.task < n - 1 {
      EdgesUpToComplete(tasks, n - 1, e);
    } else {
      TaskEdgesComplete(tasks, n - 1, |tasks[n - 1].dependencies|, e);
    }
  }

  /**
    A connector is emitted for a (task, dependency id) pair exactly when the
    id names an existing task, and then it leads from the first task with
    that id. Emission order is by task, then by dependency position, with
    no pair emitted twice.
   */
  lemma EdgesExactly(tasks: seq<Task>)
    ensures forall e :: e in Edges(tasks) <==> EdgeOf(tasks, e)
    ensures forall e :: e in Edges(tasks) ==>
      HasId(tasks, tasks[e.task].dependencies[e.depPos]) && tasks[e.dep].id == tasks[e.task].dependencies[e.depPos]
    ensures forall a, b :: 0 <= a < b < |Edges(tasks)| ==> Before(Edges(tasks)[a], Edges(tasks)[b])
  {
    forall e | EdgeOf(tasks, e) ensures e in Edges(tasks) {
      EdgesUpToComplete(tasks, |tasks|, e);
    }
  }

  /** Every dependency id that names an existing task yields a connector. */
  lemma ResolvableDependencyHasEdge(tasks: seq<Task>, i: nat, j: nat)
    requires i < |tasks| && j < |tasks[i].dependencies|
    requires HasId(tasks, tasks[i].dependencies[j])
    ensures exists e :: e in Edges(tasks) && e.task == i && e.depPos == j
  {
    var k := FindIndex(tasks, tasks[i].dependencies[j]).value;
    EdgesUpToComplete(tasks, |tasks|, Edge(i, j, k));
  }

  /** No dependency id of any task names an existing task. */
  predicate AllDangling(tasks: seq<Task>) {
    forall i, j :: 0 <= i < |tasks| && 0 <= j < |tasks[i].dependencies| ==> !HasId(tasks, tasks[i].dependencies[j])
  }

  lemma {:induction false} DanglingTaskEdges(tasks: seq<Task>, i: nat, j: nat)
    requires AllDangling(tasks) && i < |tasks| && j <= |tasks[i].dependencies|
    ensures TaskEdges(tasks, i, j) == []
    decreases j
  {
    if j > 0 {
      DanglingTaskEdges(tasks, i, j - 1);
    }
  }

  /** Dependency ids that name no task yield no connector and no error. */
  lemma {:induction false} DanglingIdsYieldNothing(tasks: seq<Task>, n: nat)
    requires AllDangling(tasks) && n <= |tasks|
    ensures EdgesUpTo(tasks, n) == []
    decreases n
  {
    if n > 0 {
      DanglingIdsYieldNothing(tasks, n - 1);
      DanglingTaskEdges(tasks, n - 1, |tasks[n - 1].dependencies|);
    }
  }

  /**
    The connector for one resolved dependency, as `generateConnections`
    computes it: from the predecessor's right end to the horizontal middle,
    down or up to the dependent task's row, then on to 5 pixels before the
    dependent bar, both ends on their rows' midlines.
   */
  function Route(tasks: seq<Task>, timeline: seq<TimelineUnit>, dayWidth: real, rowHeight: real, e: Edge): Connection
    requires |timeline| > 0 && e.task < |tasks| && e.dep < |tasks|
  {
    var depTask := tasks[e.dep];
    var task := tasks[e.task];
    Connection(LShape(TaskLeft(timeline, depTask, dayWidth) + TaskWidth(depTask, dayWidth), RowMidline(e.dep, rowHeight),
                      TaskLeft(timeline, task, dayWidth), RowMidline(e.task, rowHeight)))
  }

  /**
    The path template: horizontally from the start to the middle x, then
    vertically to the end row, then horizontally to 5 pixels before the end.
   */
  function LShape(startX: real, startY: real, endX: real, endY: real): (path: seq<Point>)
    ensures |path| == 4
    ensures path[0] == Point(startX, startY) && path[3] == Point(endX - EndInset, endY)
    ensures path[1].y == startY && path[1].x == path[2].x && path[2].y == endY
    ensures path[1].x - startX == endX - path[1].x
  {
    var midX := startX + (endX - startX) / 2.0;
    [Point(startX, startY), Point(midX, startY), Point(midX, endY), Point(endX - EndInset, endY)]
  }

  /**
    Shape of a connector: four points; it leaves the predecessor's bar at its
    right end on its row's midline and arrives 5 pixels short of the
    dependent bar's left end on that row's midline; its three segments are
    horizontal, vertical, horizontal; the vertical one lies halfway between
    the two bar ends; between bars on one row the path is a flat line.
   */
  lemma RouteIsLShaped(tasks: seq<Task>, timeline: seq<TimelineUnit>, dayWidth: real, rowHeight: real, e: Edge)
    requires |timeline| > 0 && e.task < |tasks| && e.dep < |tasks|
    ensures var p := Route(tasks, timeline, dayWidth, rowHeight, e).path;
      && |p| == 4
      && p[0] == Point(TaskLeft(timeline, tasks[e.dep], dayWidth) + TaskWidth(tasks[e.dep], dayWidth), RowMidline(e.dep, rowHeight))
      && p[3] == Point(TaskLeft(timeline, tasks[e.task], dayWidth) - EndInset, RowMidline(e.task, rowHeight))
      && p[0].y == p[1].y && p[1].x == p[2].x && p[2].y == p[3].y
      && p[1].x - p[0].x == (p[3].x + EndInset) - p[1].x
      && (p[0].x <= p[3].x + EndInset ==> p[0].x <= p[1].x <= p[3].x + EndInset)
      && (p[3].x + EndInset <= p[0].x ==> p[3].x + EndInset <= p[1].x <= p[0].x)
      && (e.task == e.dep ==> p[0].y == p[1].y == p[2].y == p[3].y)
  {
  }

  /** `connections` are the connectors of `edges`, one for one and in order. */
  predicate RoutesOf(tasks: seq<Task>, timeline: seq<TimelineUnit>, dayWidth: real, rowHeight: real,
                     edges: seq<Edge>, connections: seq<Connection>)
  {
    && |connections| == |edges|
    && forall n :: 0 <= n < |edges| ==>
      |timeline| > 0 && EdgeOf(tasks, edges[n])
      && connections[n] == Route(tasks, timeline, dayWidth, rowHeight, edges[n])
  }

  lemma RoutesOfSnoc(tasks: seq<Task>, timeline: seq<TimelineUnit>, dayWidth: real, rowHeight: real,
                     edges: seq<Edge>, connections: seq<Connection>, e: Edge)
    requires RoutesOf(tasks, timeline, dayWidth, rowHeight, edges, connections)
    requires |timeline| > 0 && EdgeOf(tasks, e)
    ensures RoutesOf(tasks, timeline, dayWidth, rowHeight, edges + [e],
                     connections + [Route(tasks, timeline, dayWidth, rowHeight, e)])
  {
  }

  /**
    The body of the inner loop of `generateConnections` for dependency `j`
    of task `taskIndex`: skip the id unless the id map has it and `find`
    and `findIndex` locate its task, else build the connector.
   */
  method ConnectDependency(tasks: seq<Task>, idMap: map<string, Task>, timeline: seq<TimelineUnit>,
                           dayWidth: real, rowHeight: real, taskIndex: nat, j: nat)
    returns (connection: Option<Connection>)
    requires idMap == TaskIdMap(tasks)
    requires taskIndex < |tasks| && j < |tasks[taskIndex].dependencies|
    requires |timeline| > 0 || FindIndex(tasks, tasks[taskIndex].dependencies[j]).None?
    ensures connection.None? <==> FindIndex(tasks, tasks[taskIndex].dependencies[j]).None?
    ensures connection.Some? ==>
      var e := Edge(taskIndex, j, FindIndex(tasks, tasks[taskIndex].dependencies[j]).value);
      |timeline| > 0 && EdgeOf(tasks, e) && connection.value == Route(tasks, timeline, dayWidth, rowHeight, e)
  {
    var task := tasks[taskIndex];
    var depId := task.dependencies[j];
    IdMapHasIffFound(tasks, depId);
    FindTaskAgreesWithFindIndex(tasks, depId);
    connection := None;
    if depId in idMap {
      var depTask := FindTask(tasks, depId);
      var depIndex := FindIndex(tasks, depId);
      if depTask.Some? && depIndex.Some? {
        ghost var e := Edge(taskIndex, j, depIndex.value);
        var startX := TaskLeft(timeline, depTask.value, dayWidth) + TaskWidth(depTask.value, dayWidth);
        var startY := RowMidline(depIndex.value, rowHeight);
        var endX := TaskLeft(timeline, task, dayWidth);
        var endY := RowMidline(taskIndex, rowHeight);
        assert depTask.value == tasks[e.dep] && task == tasks[e.task];
        connection := Some(Connection(LShape(startX, startY, endX, endY)));
      }
    }
  }

  /** The inner loop of `generateConnections`: the connectors of task `taskIndex`, appended in dependency order. */
  method ConnectTask(tasks: seq<Task>, idMap: map<string, Task>, timeline: seq<TimelineUnit>,
                     dayWidth: real, rowHeight: real, taskIndex: nat, ghost done: seq<Edge>, connections: seq<Connection>)
    returns (connections': seq<Connection>)
    requires idMap == TaskIdMap(tasks)
    requires taskIndex < |tasks|
    requires |timeline| > 0 || Edges(tasks) == []
    requires RoutesOf(tasks, timeline, dayWidth, rowHeight, done, connections)
    ensures RoutesOf(tasks, timeline, dayWidth, rowHeight,
                     done + TaskEdges(tasks, taskIndex, |tasks[taskIndex].dependencies|), connections')
  {
    connections' := connections;
    var j := 0;
    assert done + TaskEdges(tasks, taskIndex, 0) == done;
    while j < |tasks[taskIndex].dependencies|
      invariant 0 <= j <= |tasks[taskIndex].dependencies|
      invariant RoutesOf(tasks, timeline, dayWidth, rowHeight, done + TaskEdges(tasks, taskIndex, j), connections')
    {
      if |timeline| == 0 {
        NoEdgesNothingFound(tasks, taskIndex, j);
      }
      var connection := ConnectDependency(tasks, idMap, timeline, dayWidth, rowHeight, taskIndex, j);
      ConnectStep(tasks, timeline, dayWidth, rowHeight, taskIndex, j, done, connections', connection);
      if connection.Some? {
        connections' := connections' + [connection.value];
      }
      j := j + 1;
    }
  }

  /** Without resolved dependencies, no dependency id is found. */
  lemma NoEdgesNothingFound(tasks: seq<Task>, i: nat, j: nat)
    requires Edges(tasks) == [] && i < |tasks| && j < |tasks[i].dependencies|
    ensures FindIndex(tasks, tasks[i].dependencies[j]).None?
  {
    var found := FindIndex(tasks, tasks[i].dependencies[j]);
    if found.Some? {
      EdgesUpToComplete(tasks, |tasks|, Edge(i, j, found.value));
    }
  }

  /** One step of the inner loop keeps the connectors in step with the resolved dependencies seen so far. */
  lemma ConnectStep(tasks: seq<Task>, timeline: seq<TimelineUnit>, dayWidth: real, rowHeight: real,
                    taskIndex: nat, j: nat, done: seq<Edge>, connections: seq<Connection>, connection: Option<Connection>)
    requires taskIndex < |tasks| && j < |tasks[taskIndex].dependencies|
    requires RoutesOf(tasks, timeline, dayWidth, rowHeight, done + TaskEdges(tasks, taskIndex, j), connections)
    requires connection.None? <==> FindIndex(tasks, tasks[taskIndex].dependencies[j]).None?
    requires connection.Some? ==>
      var e := Edge(taskIndex, j, FindIndex(tasks, tasks[taskIndex].dependencies[j]).value);
      |timeline| > 0 && EdgeOf(tasks, e) && connection.value == Route(tasks, timeline, dayWidth, rowHeight, e)
    ensures connection.Some? ==>
      RoutesOf(tasks, timeline, dayWidth, rowHeight, done + TaskEdges(tasks, taskIndex, j + 1), connections + [connection.value])
    ensures connection.None? ==>
      RoutesOf(tasks, timeline, dayWidth, rowHeight, done + TaskEdges(tasks, taskIndex, j + 1), connections)
  {
    var before := done + TaskEdges(tasks, taskIndex, j);
    if connection.Some? {
      var e := Edge(taskIndex, j, FindIndex(tasks, tasks[taskIndex].dependencies[j]).value);
      RoutesOfSnoc(tasks, timeline, dayWidth, rowHeight, before, connections, e);
      assert done + TaskEdges(tasks, taskIndex, j + 1) == before + [e];
    } else {
      assert TaskEdges(tasks, taskIndex, j + 1) == TaskEdges(tasks, taskIndex, j);
    }
  }

  /**
    `generateConnections`: for each task in order and each of its dependency
    ids in order, one connector per id that names an existing task. The
    timeline's first day is read only when some id resolves.
   */
  method GenerateConnections(tasks: seq<Task>, timeline: seq<TimelineUnit>, dayWidth: real, rowHeight: real)
    returns (connections: seq<Connection>)
    requires |timeline| > 0 || Edges(tasks) == []
    ensures RoutesOf(tasks, timeline, dayWidth, rowHeight, Edges(tasks), connections)
  {
    connections := [];
    var idMap := TaskIdMap(tasks);
    var taskIndex := 0;
    while taskIndex < |tasks|
      invariant 0 <= taskIndex <= |tasks|
      invariant RoutesOf(tasks, timeline, dayWidth, rowHeight, EdgesUpTo(tasks, taskIndex), connections)
    {
      connections := ConnectTask(tasks, idMap, timeline, dayWidth, rowHeight, taskIndex, EdgesUpTo(tasks, taskIndex), connections);
      taskIndex := taskIndex + 1;
    }
  }
}
