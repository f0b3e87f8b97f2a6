/** The dashboard's view logic over the task listings it fetches: the
    progress bar of a task, the leader's statistics cards, and the active
    and completed tabs. */
module Dashboard {
  import opened Common
  import opened Schema
  import opened Tasks

  /** `calculateProgress`: the rounded percentage of a task's subtasks
      whose status is completed, or 0 for a task without subtasks. */
  function CalculateProgress(task: TaskView): (r: nat)
    ensures r <= 100
    ensures task.subtasks == [] ==> r == 0
    ensures task.subtasks != [] ==>
      var n, c := |task.subtasks|, |Filter(task.subtasks, IsCompletedSubtask)|;
      2 * n * r <= 200 * c + n < 2 * n * (r + 1)
    ensures task.subtasks != [] && (forall i :: 0 <= i < |task.subtasks| ==> IsCompletedSubtask(task.subtasks[i])) ==>
      r == 100
  {
    if |task.subtasks| == 0 then 0
    else
      AllCompletedCount(task.subtasks);
      RoundedPercent(|Filter(task.subtasks, IsCompletedSubtask)|, |task.subtasks|)
  }

  lemma AllCompletedCount(subtasks: seq<Subtask>)
    ensures (forall i :: 0 <= i < |subtasks| ==> IsCompletedSubtask(subtasks[i])) ==>
      |Filter(subtasks, IsCompletedSubtask)| == |subtasks|
  {
    if forall i :: 0 <= i < |subtasks| ==> IsCompletedSubtask(subtasks[i]) {
      FilterAll(subtasks, IsCompletedSubtask);
    }
  }

  /** The tab conditions: `some` subtask not completed; at least one
      subtask and `every` subtask completed. */
  predicate ShowsAsActive(v: TaskView) {
    exists i :: 0 <= i < |v.subtasks| && !IsCompletedSubtask(v.subtasks[i])
  }

  predicate ShowsAsCompleted(v: TaskView) {
    |v.subtasks| > 0 && forall i :: 0 <= i < |v.subtasks| ==> IsCompletedSubtask(v.subtasks[i])
  }

  /** `displayActiveTasks` and `displayCompletedTasks`. */
  function ActiveTasks(views: seq<TaskView>): seq<TaskView> {
    Filter(views, ShowsAsActive)
  }

  function CompletedTasks(views: seq<TaskView>): seq<TaskView> {
    Filter(views, ShowsAsCompleted)
  }

  // The two conditions of the statistics cards.
  predicate HasWorkInProgress(v: TaskView) {
    exists i :: 0 <= i < |v.subtasks| && v.subtasks[i].progress == InProgress
  }

  predicate AllSubtasksCompleted(v: TaskView) {
    forall i :: 0 <= i < |v.subtasks| ==> IsCompletedSubtask(v.subtasks[i])
  }

  datatype Stats = Stats(totalTasks: nat, inProgressTasks: nat, completedTasks: nat)

  /** `updateStats`: only a leader sees the cards. A task with no subtasks
      counts as completed here, since `every` holds of an empty list. */
  function UpdateStats(role: Role, views: seq<TaskView>): (r: Option<Stats>)
    ensures r.None? <==> role != Leader
    ensures r.Some? ==>
      && r.value.totalTasks == |views|
      && r.value.inProgressTasks <= |views| && r.value.completedTasks <= |views|
      && r.value.completedTasks == |Filter(views, AllSubtasksCompleted)|
      && r.value.inProgressTasks == |Filter(views, HasWorkInProgress)|
  {
    if role != Leader then None
    else Some(Stats(|views|, |Filter(views, HasWorkInProgress)|, |Filter(views, AllSubtasksCompleted)|))
  }

  /** No task is on both tabs, and every task with subtasks is on one. */
  lemma {:induction false} TabsPartition(views: seq<TaskView>)
    ensures |ActiveTasks(views)| + |CompletedTasks(views)| == |Filter(views, (v: TaskView) => v.subtasks != [])|
    ensures forall v :: !(ShowsAsActive(v) && ShowsAsCompleted(v))
  {
    if views != [] {
      var front, last := views[..|views| - 1], views[|views| - 1];
      TabsPartition(front);
      assert views == front + [last];
      FilterAppend(front, last, ShowsAsActive);
      FilterAppend(front, last, ShowsAsCompleted);
      FilterAppend(front, last, (v: TaskView) => v.subtasks != []);
    }
  }

  /** On views that all have subtasks, the completed card counts exactly
      the completed tab. */
  lemma StatsCountCompletedTab(views: seq<TaskView>)
    requires forall i :: 0 <= i < |views| ==> views[i].subtasks != []
    ensures UpdateStats(Leader, views).value.completedTasks == |CompletedTasks(views)|
  {
    FilterEquivalent(views, AllSubtasksCompleted, ShowsAsCompleted);
  }

  /** Without that condition the two disagree: a task without subtasks is
      counted on the completed card but shown on no tab. */
  lemma EmptyTaskCountedAsCompleted(t: Task)
    ensures var views := [TaskView(t, 0, 0, [])];
      UpdateStats(Leader, views).value.completedTasks == 1 && CompletedTasks(views) == []
  {
    var views := [TaskView(t, 0, 0, [])];
    assert views == [] + [views[0]];
    FilterAppend([], views[0], AllSubtasksCompleted);
    FilterAppend([], views[0], ShowsAsCompleted);
  }

  /** The view of a task shows as active or completed exactly when the
      server's conditions hold of the task. */
  lemma ViewConditions(subtasks: seq<Subtask>, t: Task)
    ensures ShowsAsActive(ViewOf(subtasks, t)) <==> HasUnfinishedSubtask(subtasks, t.id)
    ensures ShowsAsCompleted(ViewOf(subtasks, t)) <==>
      HasSubtaskOf(subtasks, t.id) && !HasUnfinishedSubtask(subtasks, t.id)
  {
    var own := SubtasksOf(subtasks, t.id);
    FilterMembers(subtasks, (s: Subtask) => s.taskId == t.id);
    if HasUnfinishedSubtask(subtasks, t.id) {
      var i :| 0 <= i < |subtasks| && subtasks[i].taskId == t.id && !IsCompletedSubtask(subtasks[i]);
      assert subtasks[i] in own;
    }
    if HasSubtaskOf(subtasks, t.id) {
      var i :| 0 <= i < |subtasks| && subtasks[i].taskId == t.id;
      assert subtasks[i] in own;
    }
    if own != [] {
      assert own[0] in subtasks;
    }
  }

  /** The active tab over the whole team listing shows exactly what the
      server's `active` query returns, in the same order. */
  lemma ActiveTabMatchesServer(tasks: seq<Task>, subtasks: seq<Subtask>, teamCode: TeamCode)
    ensures ActiveTasks(Listing(tasks, subtasks, teamCode, AnyStatus)) == Listing(tasks, subtasks, teamCode, ActiveOnly)
  {
    var any := SelectTasks(tasks, subtasks, teamCode, AnyStatus);
    var view := (t: Task) => ViewOf(subtasks, t);
    var unfinished := (t: Task) => HasUnfinishedSubtask(subtasks, t.id);
    forall i | 0 <= i < |any|
      ensures unfinished(any[i]) == ShowsAsActive(view(any[i]))
    {
      ViewConditions(subtasks, any[i]);
    }
    FilterMap(any, view, unfinished, ShowsAsActive);
    FilterTwice(tasks, (t: Task) => t.teamCode == teamCode && MatchesFilter(subtasks, t, AnyStatus), unfinished,
                (t: Task) => t.teamCode == teamCode && MatchesFilter(subtasks, t, ActiveOnly));
  }

  /** The completed tab over the whole team listing shows exactly what the
      server's `completed` query returns, in the same order. */
  lemma CompletedTabMatchesServer(tasks: seq<Task>, subtasks: seq<Subtask>, teamCode: TeamCode)
    ensures CompletedTasks(Listing(tasks, subtasks, teamCode, AnyStatus)) == Listing(tasks, subtasks, teamCode, CompletedOnly)
  {
    var any := SelectTasks(tasks, subtasks, teamCode, AnyStatus);
    var view := (t: Task) => ViewOf(subtasks, t);
    var finished := (t: Task) => !HasUnfinishedSubtask(subtasks, t.id) && HasSubtaskOf(subtasks, t.id);
    forall i | 0 <= i < |any|
      ensures finished(any[i]) == ShowsAsCompleted(view(any[i]))
    {
      ViewConditions(subtasks, any[i]);
    }
    FilterMap(any, view, finished, ShowsAsCompleted);
    FilterTwice(tasks, (t: Task) => t.teamCode == teamCode && MatchesFilter(subtasks, t, AnyStatus), finished,
                (t: Task) => t.teamCode == teamCode && MatchesFilter(subtasks, t, CompletedOnly));
  }

  /** Filtering the server's status listing again on the client removes
      nothing. */
  lemma TabsKeepServerListings(tasks: seq<Task>, subtasks: seq<Subtask>, teamCode: TeamCode)
    ensures ActiveTasks(Listing(tasks, subtasks, teamCode, ActiveOnly)) == Listing(tasks, subtasks, teamCode, ActiveOnly)
    ensures CompletedTasks(Listing(tasks, subtasks, teamCode, CompletedOnly)) == Listing(tasks, subtasks, teamCode, CompletedOnly)
  {
    var active := SelectTasks(tasks, subtasks, teamCode, ActiveOnly);
    var completed := SelectTasks(tasks, subtasks, teamCode, CompletedOnly);
    FilterMembers(tasks, (t: Task) => t.teamCode == teamCode && MatchesFilter(subtasks, t, ActiveOnly));
    FilterMembers(tasks, (t: Task) => t.teamCode == teamCode && MatchesFilter(subtasks, t, CompletedOnly));
    forall i | 0 <= i < |active|
      ensures ShowsAsActive(Listing(tasks, subtasks, teamCode, ActiveOnly)[i])
    {
      ViewConditions(subtasks, active[i]);
    }
    forall i | 0 <= i < |completed|
      ensures ShowsAsCompleted(Listing(tasks, subtasks, teamCode, CompletedOnly)[i])
    {
      ViewConditions(subtasks, completed[i]);
    }
    FilterAll(Listing(tasks, subtasks, teamCode, ActiveOnly), ShowsAsActive);
    FilterAll(Listing(tasks, subtasks, teamCode, CompletedOnly), ShowsAsCompleted);
  }

  /** In every state the routes keep, each listed task has subtasks. */
  lemma ListedTasksHaveSubtasks(db: Database, teamCode: TeamCode, filter: StatusFilter)
    requires db.Valid()
    ensures forall i :: 0 <= i < |Listing(db.tasks, db.subtasks, teamCode, filter)| ==>
      Listing(db.tasks, db.subtasks, teamCode, filter)[i].subtasks != []
  {
    var ss := db.subtasks;
    var selected := SelectTasks(db.tasks, ss, teamCode, filter);
    FilterMembers(db.tasks, (t: Task) => t.teamCode == teamCode && MatchesFilter(ss, t, filter));
    forall i | 0 <= i < |selected|
      ensures ViewOf(db.subtasks, selected[i]).subtasks != []
    {
      ViewConditions(db.subtasks, selected[i]);
      var j :| 0 <= j < |db.tasks| && db.tasks[j] == selected[i];
      assert HasSubtaskOf(db.subtasks, db.tasks[j].id);
      var k :| 0 <= k < |db.subtasks| && db.subtasks[k].taskId == selected[i].id;
      FilterMembers(db.subtasks, (s: Subtask) => s.taskId == selected[i].id);
      assert db.subtasks[k] in SubtasksOf(db.subtasks, selected[i].id);
    }
  }

  /** So in those states the leader's completed card agrees with the
      completed tab. */
  lemma StatsCardMatchesCompletedTab(db: Database, teamCode: TeamCode)
    requires db.Valid()
    ensures UpdateStats(Leader, Listing(db.tasks, db.subtasks, teamCode, AnyStatus)).value.completedTasks
         == |Listing(db.tasks, db.subtasks, teamCode, CompletedOnly)|
  {
    ListedTasksHaveSubtasks(db, teamCode, AnyStatus);
    StatsCountCompletedTab(Listing(db.tasks, db.subtasks, teamCode, AnyStatus));
    CompletedTabMatchesServer(db.tasks, db.subtasks, teamCode);
  }
}
