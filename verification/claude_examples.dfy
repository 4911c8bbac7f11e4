/**
  Two small charts worked through the model: a dependency between adjacent
  rows, and a dependency id that names no task.
 */
module ClaudeExamples {
  import opened ClaudeTasks
  import opened ClaudeTimeline
  import opened ClaudeGeometry
  import opened ClaudeConnections
  import Calendar
  import opened Optional

  /** Day number of 2025-01-01. */
  const NewYear2025: int := 20089

  lemma NewYear2025IsDay()
    ensures Calendar.DaysFromCivil(Calendar.Civil(2025, 1, 1)) == NewYear2025
    ensures Calendar.CivilFromDays(NewYear2025) == Calendar.Civil(2025, 1, 1)
  {
    Calendar.DaysBeforeYearModern(2025);
    Calendar.CivilRoundTrip(Calendar.Civil(2025, 1, 1));
  }

  /** Task 1 runs 2025-01-01 to 2025-01-05; task 2 runs 2025-01-06 to 2025-01-10 and depends on task 1. */
  function AdjacentTasks(): seq<Task> {
    [Task("1", "Design", NewYear2025, NewYear2025 + 4, []),
     Task("2", "Build", NewYear2025 + 5, NewYear2025 + 9, ["1"])]
  }

  lemma AdjacentEdges()
    ensures Edges(AdjacentTasks()) == [Edge(1, 0, 0)]
  {
    var tasks := AdjacentTasks();
    assert FindIndex(tasks, "1") == Some(0);
    assert TaskEdges(tasks, 0, 0) == [];
    assert TaskEdges(tasks, 1, 1) == [Edge(1, 0, 0)];
    assert EdgesUpTo(tasks, 1) == [];
  }

  /** The timeline starts two days before 2025-01-01. */
  lemma AdjacentTimeline()
    ensures |Timeline(AdjacentTasks())| > 0
    ensures Timeline(AdjacentTasks())[0].date == NewYear2025 - 2
  {
    var tasks := AdjacentTasks();
    assert AllWellFormed(tasks);
    assert EarliestStart(tasks) == NewYear2025 by {
      assert EarliestStart(tasks) in Starts(tasks);
    }
    TimelineBounds(tasks);
  }

  /**
    With 40-pixel columns and 50-pixel rows there is exactly one connector;
    it leaves task 1's bar end (two lead columns plus five days: x = 280) on
    the first row's midline (y = 25) and ends 5 pixels before task 2's bar
    (which also starts at x = 280) on the second row's midline (y = 75).
   */
  lemma AdjacentRowsExample()
    ensures Edges(AdjacentTasks()) == [Edge(1, 0, 0)]
    ensures Timeline(AdjacentTasks()) != []
    ensures Route(AdjacentTasks(), Timeline(AdjacentTasks()), 40.0, 50.0, Edge(1, 0, 0)).path
      == [Point(280.0, 25.0), Point(280.0, 25.0), Point(280.0, 75.0), Point(275.0, 75.0)]
  {
    AdjacentEdges();
    AdjacentTimeline();
    var tasks := AdjacentTasks();
    var timeline := Timeline(tasks);
    assert TaskLeft(timeline, tasks[0], 40.0) == 80.0;
    assert TaskWidth(tasks[0], 40.0) == 200.0;
    assert TaskLeft(timeline, tasks[1], 40.0) == 280.0;
    assert RowMidline(0, 50.0) == 25.0;
    assert RowMidline(1, 50.0) == 75.0;
  }

  /** A task whose only dependency names no task yields no connector, and no error. */
  lemma DanglingExample()
    ensures Edges([Task("A", "Alone", NewYear2025, NewYear2025, ["Z"])]) == []
  {
    var tasks := [Task("A", "Alone", NewYear2025, NewYear2025, ["Z"])];
    assert FindIndex(tasks, "Z") == None;
    assert TaskEdges(tasks, 0, 1) == [];
  }
}
