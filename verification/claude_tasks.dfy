/**
  Task records of the analytic Gantt component and the id lookups its
  connection builder uses: the `taskIdMap` map, `tasks.find` and
  `tasks.findIndex`.
 */
module ClaudeTasks {
  import opened Optional

  /**
    A task. `start` and `end` are day numbers (see module Calendar) and `end`
    is inclusive. `dependencies` lists the ids of the tasks this one depends
    on; an id may name no task at all. The display-only fields (progress,
    color) are not part of the model: no layout computation reads them.
   */
  datatype Task = Task(id: string, name: string, start: int, end: int, dependencies: seq<string>)

  /** The caller's guarantee: a task does not end before it starts. */
  predicate WellFormed(t: Task) {
    t.start <= t.end
  }

  predicate AllWellFormed(tasks: seq<Task>) {
    forall i :: 0 <= i < |tasks| ==> WellFormed(tasks[i])
  }

  /** Some task in `tasks` carries the id `id`. */
  predicate HasId(tasks: seq<Task>, id: string) {
    exists i :: 0 <= i < |tasks| && tasks[i].id == id
  }

  /** The ids the tasks carry. */
  function Ids(tasks: seq<Task>): (ids: set<string>)
    ensures forall id :: id in ids <==> HasId(tasks, id)
  {
    set i | 0 <= i < |tasks| :: tasks[i].id
  }

  /**
    `new Map(tasks.map(t => [t.id, t]))`: one entry per distinct id (which
    task it holds is stated by TaskIdMapLastWins).
   */
  function TaskIdMap(tasks: seq<Task>): (m: map<string, Task>)
    ensures m.Keys == Ids(tasks)
  {
    if |tasks| == 0 then map[]
    else
      var init := tasks[..|tasks| - 1];
      var last := tasks[|tasks| - 1];
      assert Ids(tasks) == Ids(init) + {last.id} by {
        forall id | id in Ids(init) ensures id in Ids(tasks) {
          var i :| 0 <= i < |init| && init[i].id == id;
          assert tasks[i].id == id;
        }
        forall id | id in Ids(tasks) && id != last.id ensures id in Ids(init) {
          var i :| 0 <= i < |tasks| && tasks[i].id == id;
          assert init[i].id == id;
        }
      }
      TaskIdMap(init)[last.id := last]
  }

  /** When two tasks share an id, the map holds the later one. */
  lemma {:induction false} TaskIdMapLastWins(tasks: seq<Task>, i: int)
    requires 0 <= i < |tasks| && LastWithId(tasks, i)
    ensures tasks[i].id in TaskIdMap(tasks)
    ensures TaskIdMap(tasks)[tasks[i].id] == tasks[i]
    decreases |tasks|
  {
    var init := tasks[..|tasks| - 1];
    if i < |tasks| - 1 {
      assert LastWithId(init, i);
      TaskIdMapLastWins(init, i);
    }
  }

  /** No task after position `i` shares its id. */
  predicate LastWithId(tasks: seq<Task>, i: int)
    requires 0 <= i < |tasks|
  {
    forall j :: i < j < |tasks| ==> tasks[j].id != tasks[i].id
  }

  /** `tasks.findIndex(t => t.id === id)`: the first position carrying `id`, None for -1. */
  function FindIndex(tasks: seq<Task>, id: string): (r: Option<nat>)
    ensures r.Some? ==> r.value < |tasks| && tasks[r.value].id == id
    ensures r.Some? ==> forall j :: 0 <= j < r.value ==> tasks[j].id != id
    ensures r.None? <==> !HasId(tasks, id)
  {
    if |tasks| == 0 then None
    else if tasks[0].id == id then Some(0)
    else match FindIndex(tasks[1..], id)
      case None =>
        assert forall j :: 1 <= j < |tasks| ==> tasks[j] == tasks[1..][j - 1];
        None
      case Some(k) => Some(k + 1)
  }

  /** `tasks.find(t => t.id === id)`: the first task carrying `id`, None for undefined. */
  function FindTask(tasks: seq<Task>, id: string): (r: Option<Task>)
    ensures r.None? <==> !HasId(tasks, id)
    ensures r.Some? ==> exists k :: (0 <= k < |tasks| && tasks[k] == r.value && r.value.id == id &&
      forall j :: 0 <= j < k ==> tasks[j].id != id)
  {
    if |tasks| == 0 then None
    else if tasks[0].id == id then Some(tasks[0])
    else FindTask(tasks[1..], id)
  }

  /** `find` and `findIndex` pick the same task: the first one carrying the id. */
  lemma {:induction false} FindTaskAgreesWithFindIndex(tasks: seq<Task>, id: string)
    ensures FindTask(tasks, id).None? <==> FindIndex(tasks, id).None?
    ensures FindIndex(tasks, id).Some? ==> FindTask(tasks, id) == Some(tasks[FindIndex(tasks, id).value])
  {
    if |tasks| > 0 && tasks[0].id != id {
      FindTaskAgreesWithFindIndex(tasks[1..], id);
    }
  }

  /**
    The `taskIdMap().has(depId)` guard of the connection builder passes
    exactly for the ids that `findIndex` then finds; so the later check
    that `find` and `findIndex` succeeded never fails.
   */
  lemma IdMapHasIffFound(tasks: seq<Task>, id: string)
    ensures id in TaskIdMap(tasks) <==> FindIndex(tasks, id).Some?
    ensures id in TaskIdMap(tasks) ==> FindTask(tasks, id).Some?
  {
    FindTaskAgreesWithFindIndex(tasks, id);
  }
}
