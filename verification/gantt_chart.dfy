/**
  The grid-based Gantt component: a day list from the earliest start to the
  latest end, one grid bar per task, and the dependency pairs drawn between
  rendered task elements. Dates are whole day numbers.
 */
module GanttChart {
  import opened Optional
  import Extrema

  /** A task; `dependencies` is an optional field holding the ids of its predecessors. */
  datatype Task = Task(id: int, name: string, start: int, end: int, dependencies: Option<seq<int>>)

  predicate WellFormed(t: Task) {
    t.start <= t.end
  }

  predicate AllWellFormed(tasks: seq<Task>) {
    forall i :: 0 <= i < |tasks| ==> WellFormed(tasks[i])
  }

  /**
    `minDate`: the earliest start. Over no tasks `Math.min()` is Infinity
    and the date is invalid, written `None`.
   */
  function MinDate(tasks: seq<Task>): (d: Option<int>)
    ensures d.None? <==> |tasks| == 0
    ensures d.Some? ==> exists k :: 0 <= k < |tasks| && tasks[k].start == d.value
    ensures d.Some? ==> forall i :: 0 <= i < |tasks| ==> d.value <= tasks[i].start
  {
    if |tasks| == 0 then None
    else
      var starts := seq(|tasks|, i requires 0 <= i < |tasks| => tasks[i].start);
      assert forall i :: 0 <= i < |tasks| ==> starts[i] == tasks[i].start && starts[i] in starts;
      var m := Extrema.Min(starts);
      assert exists k :: 0 <= k < |tasks| && tasks[k].start == m by {
        var k :| 0 <= k < |starts| && starts[k] == m;
        assert tasks[k].start == m;
      }
      Some(m)
  }

  /** `maxDate`: the latest end, invalid (`None`) over no tasks. */
  function MaxDate(tasks: seq<Task>): (d: Option<int>)
    ensures d.None? <==> |tasks| == 0
    ensures d.Some? ==> exists k :: 0 <= k < |tasks| && tasks[k].end == d.value
    ensures d.Some? ==> forall i :: 0 <= i < |tasks| ==> tasks[i].end <= d.value
  {
    if |tasks| == 0 then None
    else
      var ends := seq(|tasks|, i requires 0 <= i < |tasks| => tasks[i].end);
      assert forall i :: 0 <= i < |tasks| ==> ends[i] == tasks[i].end && ends[i] in ends;
      var m := Extrema.Max(ends);
      assert exists k :: 0 <= k < |tasks| && tasks[k].end == m by {
        var k :| 0 <= k < |ends| && ends[k] == m;
        assert tasks[k].end == m;
      }
      Some(m)
  }

  /**
    `days`: `Array.from` with length `maxDate - minDate + 1`, element `i`
    being `minDate` moved on by `i` days. A length that is not positive (the
    latest end before the earliest start) or not a number (no tasks) yields
    no days.
   */
  function Days(tasks: seq<Task>): (days: seq<int>)
    ensures days == [] <==> |tasks| == 0 || MaxDate(tasks).value < MinDate(tasks).value
    ensures forall i :: 0 <= i < |days| ==> |tasks| > 0 && days[i] == MinDate(tasks).value + i
    ensures |days| > 0 ==> |tasks| > 0 && days[|days| - 1] == MaxDate(tasks).value
  {
    if |tasks| == 0 then []
    else
      var lo, hi := MinDate(tasks).value, MaxDate(tasks).value;
      var length := if hi - lo + 1 <= 0 then 0 else hi - lo + 1;
      seq(length, i => lo + i)
  }

  /** A grid bar: the task, its row, and its first and one-past-last grid column (1-based). */
  datatype Bar = Bar(task: Task, row: nat, colStart: int, colEnd: int)

  function BarOf(t: Task, row: nat, minDate: int): Bar {
    var startOffset := t.start - minDate;
    var duration := t.end - t.start;
    Bar(t, row, startOffset + 1, startOffset + duration + 2)
  }

  /** `bars`: one bar per task, in task order. */
  function Bars(tasks: seq<Task>): (bars: seq<Bar>)
    ensures |bars| == |tasks|
    ensures forall i :: 0 <= i < |bars| ==>
      && bars[i].task == tasks[i] && bars[i].row == i
      && bars[i].colEnd - bars[i].colStart == tasks[i].end - tasks[i].start + 1
      && bars[i].colStart >= 1
  {
    if |tasks| == 0 then []
    else
      var lo := MinDate(tasks).value;
      seq(|tasks|, i requires 0 <= i < |tasks| => BarOf(tasks[i], i, lo))
  }

  /**
    For well-formed tasks the day list runs from the earliest start to the
    latest end, one day at a time.
   */
  lemma DaysSpan(tasks: seq<Task>)
    requires |tasks| > 0 && AllWellFormed(tasks)
    ensures |Days(tasks)| == MaxDate(tasks).value - MinDate(tasks).value + 1
    ensures Days(tasks)[0] == MinDate(tasks).value
    ensures Days(tasks)[|Days(tasks)| - 1] == MaxDate(tasks).value
    ensures forall i :: 0 <= i < |Days(tasks)| ==> Days(tasks)[i] == MinDate(tasks).value + i
  {
    assert WellFormed(tasks[0]);
    assert MinDate(tasks).value <= tasks[0].start <= tasks[0].end <= MaxDate(tasks).value;
  }

  /** Consecutive days differ by exactly one. */
  lemma DaysContiguous(tasks: seq<Task>)
    ensures forall i :: 0 < i < |Days(tasks)| ==> Days(tasks)[i] == Days(tasks)[i - 1] + 1
  {
  }

  /**
    For well-formed tasks a bar covers exactly the day columns of its task:
    grid column `c` shows `Days(tasks)[c - 1]`, the bar's first column shows
    its start day and its last column its end day.
   */
  lemma BarsOnDays(tasks: seq<Task>, i: int)
    requires 0 <= i < |tasks| && AllWellFormed(tasks)
    ensures 1 <= Bars(tasks)[i].colStart < Bars(tasks)[i].colEnd <= |Days(tasks)| + 1
    ensures Days(tasks)[Bars(tasks)[i].colStart - 1] == tasks[i].start
    ensures Days(tasks)[Bars(tasks)[i].colEnd - 2] == tasks[i].end
  {
    DaysSpan(tasks);
    assert WellFormed(tasks[i]);
    assert tasks[i].end <= MaxDate(tasks).value;
  }

  /** The dependency ids of a task; a task without the field has none. */
  function DepsOf(t: Task): seq<int> {
    match t.dependencies
    case None => []
    case Some(ds) => ds
  }

  /**
    `nodes`: the `i`-th rendered task element is recorded under the id of
    the `i`-th task; a later element with the same id overwrites an earlier one.
   */
  function Nodes<R>(tasks: seq<Task>, rects: seq<R>): (nodes: map<int, R>)
    requires |rects| <= |tasks|
    ensures nodes.Keys == set i | 0 <= i < |rects| :: tasks[i].id
  {
    if |rects| == 0 then map[]
    else
      var n := |rects| - 1;
      Nodes(tasks, rects[..n])[tasks[n].id := rects[n]]
  }

  /** The element recorded under an id is that of the last rendered task with the id. */
  lemma {:induction false} NodesLastWins<R>(tasks: seq<Task>, rects: seq<R>, i: int)
    requires |rects| <= |tasks| && 0 <= i < |rects|
    requires forall j :: i < j < |rects| ==> tasks[j].id != tasks[i].id
    ensures tasks[i].id in Nodes(tasks, rects)
    ensures Nodes(tasks, rects)[tasks[i].id] == rects[i]
  {
    var n := |rects| - 1;
    if i < n {
      assert tasks[n].id != tasks[i].id;
      NodesLastWins(tasks, rects[..n], i);
    }
  }

  /** A dependency pair: task index and position in its dependency list. */
  datatype Pair = Pair(task: nat, depPos: nat)

  /** The filter: both the dependency id and the task's own id have a rendered element. */
  predicate Linked<R>(tasks: seq<Task>, nodes: map<int, R>, p: Pair) {
    && p.task < |tasks|
    && p.depPos < |DepsOf(tasks[p.task])|
    && DepsOf(tasks[p.task])[p.depPos] in nodes
    && tasks[p.task].id in nodes
  }

  predicate Before(a: Pair, b: Pair) {
    a.task < b.task || (a.task == b.task && a.depPos < b.depPos)
  }

  /** The linked pairs among the first `j` dependency ids of task `i`, in list order. */
  function TaskPairs<R>(tasks: seq<Task>, nodes: map<int, R>, i: nat, j: nat): (ps: seq<Pair>)
    requires i < |tasks| && j <= |DepsOf(tasks[i])|
    ensures forall p :: p in ps ==> Linked(tasks, nodes, p) && p.task == i && p.depPos < j
    ensures forall a, b :: 0 <= a < b < |ps| ==> ps[a].depPos < ps[b].depPos
  {
    if j == 0 then []
    else
      var prev := TaskPairs(tasks, nodes, i, j - 1);
      var p := Pair(i, j - 1);
      if Linked(tasks, nodes, p) then prev + [p] else prev
  }

  /** The linked pairs of the first `n` tasks, by task and then by dependency position. */
  function PairsUpTo<R>(tasks: seq<Task>, nodes: map<int, R>, n: nat): (ps: seq<Pair>)
    requires n <= |tasks|
    ensures forall p :: p in ps ==> Linked(tasks, nodes, p) && p.task < n
    ensures forall a, b :: 0 <= a < b < |ps| ==> Before(ps[a], ps[b])
  {
    if n == 0 then []
    else
      var prev := PairsUpTo(tasks, nodes, n - 1);
      var mine := TaskPairs(tasks, nodes, n - 1, |DepsOf(tasks[n - 1])|);
      assert forall a :: 0 <= a < |mine| ==> mine[a] in mine;
      assert forall a :: 0 <= a < |prev| ==> prev[a] in prev;
      prev + mine
  }

  lemma {:induction false} TaskPairsComplete<R>(tasks: seq<Task>, nodes: map<int, R>, i: nat, j: nat, p: Pair)
    requires i < |tasks| && j <= |DepsOf(tasks[i])|
    requires Linked(tasks, nodes, p) && p.task == i && p.depPos < j
    ensures p in TaskPairs(tasks, nodes, i, j)
  {
    if p.depPos < j - 1 {
      TaskPairsComplete(tasks, nodes, i, j - 1, p);
    }
  }

  lemma {:induction false} PairsUpToComplete<R>(tasks: seq<Task>, nodes: map<int, R>, n: nat, p: Pair)
    requires n <= |tasks| && Linked(tasks, nodes, p) && p.task < n
    ensures p in PairsUpTo(tasks, nodes, n)
  {
    if p.task == n - 1 {
      TaskPairsComplete(tasks, nodes, n - 1, |DepsOf(tasks[n - 1])|, p);
    } else {
      PairsUpToComplete(tasks, nodes, n - 1, p);
    }
  }

  function Pairs<R>(tasks: seq<Task>, nodes: map<int, R>): seq<Pair> {
    PairsUpTo(tasks, nodes, |tasks|)
  }

  /**
    A pair is emitted exactly when both its dependency id and its task's id
    have an element, each at most once, in task order and then in
    dependency order.
   */
  lemma PairsExactly<R>(tasks: seq<Task>, nodes: map<int, R>)
    ensures forall p :: p in Pairs(tasks, nodes) <==> Linked(tasks, nodes, p)
    ensures forall a, b :: 0 <= a < b < |Pairs(tasks, nodes)| ==> Before(Pairs(tasks, nodes)[a], Pairs(tasks, nodes)[b])
  {
    forall p | Linked(tasks, nodes, p)
      ensures p in Pairs(tasks, nodes)
    {
      PairsUpToComplete(tasks, nodes, |tasks|, p);
    }
  }

  /** A task without a dependencies field contributes no pair. */
  lemma NoDependencyFieldNoPairs<R>(tasks: seq<Task>, nodes: map<int, R>, i: nat)
    requires i < |tasks| && tasks[i].dependencies.None?
    ensures forall p :: p in Pairs(tasks, nodes) ==> p.task != i
  {
  }

  /**
    When every task has been rendered, the filter keeps exactly the
    dependency ids that are the id of some task.
   */
  lemma AllRenderedLinked<R>(tasks: seq<Task>, rects: seq<R>, p: Pair)
    requires |rects| == |tasks| && p.task < |tasks| && p.depPos < |DepsOf(tasks[p.task])|
    ensures Linked(tasks, Nodes(tasks, rects), p)
      <==> exists k :: 0 <= k < |tasks| && tasks[k].id == DepsOf(tasks[p.task])[p.depPos]
  {
    var nodes := Nodes(tasks, rects);
    assert tasks[p.task].id in nodes;
  }

  /** A drawn dependency: the predecessor's element and the dependent task's element. */
  datatype Link<R> = Link(from: R, to: R)

  function LinkOf<R>(tasks: seq<Task>, nodes: map<int, R>, p: Pair): Link<R>
    requires Linked(tasks, nodes, p)
  {
    Link(nodes[DepsOf(tasks[p.task])[p.depPos]], nodes[tasks[p.task].id])
  }

  /** `links` are the links of `pairs`, one for one and in order. */
  predicate LinksOf<R(==)>(tasks: seq<Task>, nodes: map<int, R>, pairs: seq<Pair>, links: seq<Link<R>>) {
    && |links| == |pairs|
    && forall n :: 0 <= n < |pairs| ==>
      Linked(tasks, nodes, pairs[n]) && links[n] == LinkOf(tasks, nodes, pairs[n])
  }

  /** `updateConnections`, first half: record each rendered element under its task's id. */
  method RecordNodes<R>(tasks: seq<Task>, rects: seq<R>) returns (nodes: map<int, R>)
    requires |rects| <= |tasks|
    ensures nodes == Nodes(tasks, rects)
  {
    nodes := map[];
    var i := 0;
    while i < |rects|
      invariant 0 <= i <= |rects|
      invariant nodes == Nodes(tasks, rects[..i])
    {
      assert rects[..i + 1][..i] == rects[..i];
      nodes := nodes[tasks[i].id := rects[i]];
      i := i + 1;
    }
    assert rects[..|rects|] == rects;
  }

  /** The inner `forEach` over one task's dependency ids. */
  method LinkTask<R(==)>(tasks: seq<Task>, nodes: map<int, R>, i: nat, done: seq<Pair>, links: seq<Link<R>>)
    returns (links': seq<Link<R>>)
    requires i < |tasks| && LinksOf(tasks, nodes, done, links)
    ensures LinksOf(tasks, nodes, done + TaskPairs(tasks, nodes, i, |DepsOf(tasks[i])|), links')
  {
    links' := links;
    var t := tasks[i];
    if t.dependencies.None? {
      assert done + TaskPairs(tasks, nodes, i, 0) == done;
      return;
    }
    var deps := t.dependencies.value;
    var j := 0;
    while j < |deps|
      invariant 0 <= j <= |deps|
      invariant LinksOf(tasks, nodes, done + TaskPairs(tasks, nodes, i, j), links')
    {
      var dep := deps[j];
      if dep in nodes && t.id in nodes {
        assert done + TaskPairs(tasks, nodes, i, j + 1) == done + TaskPairs(tasks, nodes, i, j) + [Pair(i, j)];
        links' := links' + [Link(nodes[dep], nodes[t.id])];
      }
      j := j + 1;
    }
  }

  /**
    `updateConnections`: record the rendered elements, then for each task
    and each of its dependency ids push a link when both ids have an element.
    Rendered elements beyond the task list would make `this.tasks()[i]`
    undefined, so there are at most as many elements as tasks.
   */
  method UpdateConnections<R(==)>(tasks: seq<Task>, rects: seq<R>) returns (links: seq<Link<R>>)
    requires |rects| <= |tasks|
    ensures LinksOf(tasks, Nodes(tasks, rects), Pairs(tasks, Nodes(tasks, rects)), links)
  {
    var nodes := RecordNodes(tasks, rects);
    links := [];
    var i := 0;
    while i < |tasks|
      invariant 0 <= i <= |tasks|
      invariant LinksOf(tasks, nodes, PairsUpTo(tasks, nodes, i), links)
    {
      links := LinkTask(tasks, nodes, i, PairsUpTo(tasks, nodes, i), links);
      i := i + 1;
    }
  }
}
