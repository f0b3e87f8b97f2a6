/** The task routes: creating a task with its subtasks, members taking
    subtasks, leaders assigning them, progress updates, editing and
    deleting under the creator-or-leader rule, and the team listings that
    attach each task's subtasks. */
module Tasks {
  import opened Common
  import opened Schema

  // ---------------------------------------------------------------
  // Creating a task
  // ---------------------------------------------------------------

  /** A subtask as the create route receives it in the request body. */
  datatype NewSubtask = NewSubtask(title: string, description: string, assignedTo: Option<UserId>)

  /** The row inserted for a requested subtask: it starts assigned to the
      requested member only when the leader asked for specific assignment
      and named a member; otherwise it is available to be taken. */
  function NewSubtaskRow(id: SubtaskId, taskId: TaskId, spec: NewSubtask, assignSpecific: bool): (s: Subtask)
    ensures s.id == id && s.taskId == taskId && s.title == spec.title && s.description == spec.description
    ensures AssignmentConsistent(s)
    ensures s.status == Available <==> !(assignSpecific && Present(spec.assignedTo))
    ensures s.status == Available ==> s.progress == NotStarted && s.assignedTo == None
    ensures s.status != Available ==>
      s.status == SubtaskStatus.Assigned && s.progress == Progress.Assigned && s.assignedTo == spec.assignedTo
  {
    if assignSpecific && Present(spec.assignedTo) then
      Subtask(id, taskId, spec.title, spec.description, spec.assignedTo, SubtaskStatus.Assigned, Progress.Assigned)
    else
      Subtask(id, taskId, spec.title, spec.description, None, Available, NotStarted)
  }

  /** The rows inserted for `specs`, with ids taken from the sequence in order. */
  function NewSubtaskRows(firstId: SubtaskId, taskId: TaskId, specs: seq<NewSubtask>, assignSpecific: bool): (rows: seq<Subtask>)
    ensures |rows| == |specs|
    ensures forall i :: 0 <= i < |rows| ==> rows[i] == NewSubtaskRow(firstId + i, taskId, specs[i], assignSpecific)
  {
    seq(|specs|, i requires 0 <= i < |specs| => NewSubtaskRow(firstId + i, taskId, specs[i], assignSpecific))
  }

  /** Appending the rows of a new task with fresh ids keeps the invariants. */
  lemma CreateKeepsInvariants(tasks: seq<Task>, subtasks: seq<Subtask>, nextTaskId: TaskId, nextSubtaskId: SubtaskId,
                               task: Task, rows: seq<Subtask>)
    requires WorkValid(tasks, subtasks, nextTaskId, nextSubtaskId)
    requires task.id == nextTaskId && |rows| > 0
    requires forall i :: 0 <= i < |rows| ==>
      rows[i].id == nextSubtaskId + i && rows[i].taskId == task.id && AssignmentConsistent(rows[i])
    ensures WorkValid(tasks + [task], subtasks + rows, nextTaskId + 1, nextSubtaskId + |rows|)
  {
    var tasks', subtasks' := tasks + [task], subtasks + rows;
    AppendKeepsUnique(tasks, task, TaskIdOf);
    forall i, j | 0 <= i < j < |subtasks'|
      ensures SubtaskIdOf(subtasks'[i]) != SubtaskIdOf(subtasks'[j])
    {
      if j < |subtasks| {
        assert SubtaskIdOf(subtasks[i]) != SubtaskIdOf(subtasks[j]);
      }
    }
    forall i | 0 <= i < |subtasks'|
      ensures HasTask(tasks', subtasks'[i].taskId)
    {
      if i < |subtasks| {
        assert HasTask(tasks, subtasks[i].taskId);
        var k :| 0 <= k < |tasks| && tasks[k].id == subtasks[i].taskId;
        assert tasks'[k] == tasks[k];
      } else {
        assert tasks'[|tasks|] == task;
      }
    }
    forall i | 0 <= i < |tasks'|
      ensures HasSubtaskOf(subtasks', tasks'[i].id)
    {
      if i < |tasks| {
        var k :| 0 <= k < |subtasks| && subtasks[k].taskId == tasks[i].id;
        assert subtasks'[k] == subtasks[k];
      } else {
        assert subtasks'[|subtasks|] == rows[0];
      }
    }
  }

  /** The insert loop of the create route: one subtask row per requested
      subtask, each with the next subtask id. */
  method InsertSubtasks(db: Database, taskId: TaskId, specs: seq<NewSubtask>, assignSpecific: bool)
    modifies db
    ensures db.subtasks == old(db.subtasks) + NewSubtaskRows(old(db.nextSubtaskId), taskId, specs, assignSpecific)
    ensures db.nextSubtaskId == old(db.nextSubtaskId) + |specs|
    ensures db.users == old(db.users) && db.teams == old(db.teams) && db.tasks == old(db.tasks)
    ensures db.nextUserId == old(db.nextUserId) && db.nextTaskId == old(db.nextTaskId)
  {
    var firstId := db.nextSubtaskId;
    for k := 0 to |specs|
      invariant db.subtasks == old(db.subtasks) + NewSubtaskRows(firstId, taskId, specs[..k], assignSpecific)
      invariant db.nextSubtaskId == firstId + k
      invariant db.users == old(db.users) && db.teams == old(db.teams) && db.tasks == old(db.tasks)
      invariant db.nextUserId == old(db.nextUserId) && db.nextTaskId == old(db.nextTaskId)
    {
      var row := NewSubtaskRow(db.nextSubtaskId, taskId, specs[k], assignSpecific);
      assert NewSubtaskRows(firstId, taskId, specs[..k + 1], assignSpecific)
          == NewSubtaskRows(firstId, taskId, specs[..k], assignSpecific) + [row];
      db.subtasks := db.subtasks + [row];
      db.nextSubtaskId := db.nextSubtaskId + 1;
    }
    assert specs[..|specs|] == specs;
  }

  /** `POST /create`: inserts the task, then one subtask row per requested
      subtask, in one transaction. */
  method CreateTask(db: Database, title: string, description: string, teamCode: TeamCode,
                    createdBy: Option<UserId>, specs: seq<NewSubtask>, assignSpecific: bool)
      returns (r: Reply, taskId: Option<TaskId>)
    requires db.Valid()
    modifies db
    ensures db.Valid()
    ensures title == "" || teamCode == "" || !Present(createdBy) || |specs| == 0 ==>
      r == Error(400, "Missing required fields") && taskId == None && unchanged(db)
    ensures !(title == "" || teamCode == "" || !Present(createdBy) || |specs| == 0) ==>
      && r == Ok && taskId == Some(old(db.nextTaskId))
      && db.tasks == old(db.tasks) + [Task(old(db.nextTaskId), title, description, teamCode, createdBy.value)]
      && db.subtasks == old(db.subtasks) + NewSubtaskRows(old(db.nextSubtaskId), old(db.nextTaskId), specs, assignSpecific)
      && db.nextTaskId == old(db.nextTaskId) + 1
      && db.nextSubtaskId == old(db.nextSubtaskId) + |specs|
    ensures db.users == old(db.users) && db.teams == old(db.teams) && db.nextUserId == old(db.nextUserId)
  {
    if title == "" || teamCode == "" || !Present(createdBy) || |specs| == 0 {
      r, taskId := Error(400, "Missing required fields"), None;
    } else {
      var id := db.nextTaskId;
      var task := Task(id, title, description, teamCode, createdBy.value);
      CreateKeepsInvariants(db.tasks, db.subtasks, db.nextTaskId, db.nextSubtaskId, task,
                            NewSubtaskRows(db.nextSubtaskId, id, specs, assignSpecific));
      db.tasks := db.tasks + [task];
      db.nextTaskId := db.nextTaskId + 1;
      InsertSubtasks(db, id, specs, assignSpecific);
      r, taskId := Ok, Some(id);
    }
  }

  // ---------------------------------------------------------------
  // Rewriting subtask rows
  // ---------------------------------------------------------------

  /** `subtasks` with every row of this id replaced by `f` of it
      (`UPDATE subtasks SET … WHERE id = $n`). */
  function UpdateSubtask(subtasks: seq<Subtask>, id: SubtaskId, f: Subtask -> Subtask): (r: seq<Subtask>)
    ensures |r| == |subtasks|
  {
    seq(|subtasks|, i requires 0 <= i < |subtasks| =>
      if subtasks[i].id == id then f(subtasks[i]) else subtasks[i])
  }

  /** A row rewrite the invariants survive: it keeps the row's id and task,
      and a consistent row stays consistent. */
  predicate KeepsRow(s: Subtask, t: Subtask) {
    t.id == s.id && t.taskId == s.taskId && (AssignmentConsistent(s) ==> AssignmentConsistent(t))
  }

  /** Rewriting the rows of one id with a rewrite that keeps rows keeps
      the work invariants. */
  lemma UpdateKeepsWorkValid(tasks: seq<Task>, subtasks: seq<Subtask>, id: SubtaskId, f: Subtask -> Subtask,
                             nextTaskId: TaskId, nextSubtaskId: SubtaskId)
    requires WorkValid(tasks, subtasks, nextTaskId, nextSubtaskId)
    requires forall s: Subtask :: KeepsRow(s, f(s))
    ensures WorkValid(tasks, UpdateSubtask(subtasks, id, f), nextTaskId, nextSubtaskId)
  {
    var after := UpdateSubtask(subtasks, id, f);
    forall i | 0 <= i < |after|
      ensures after[i].id == subtasks[i].id && after[i].taskId == subtasks[i].taskId && AssignmentConsistent(after[i])
    {
      assert KeepsRow(subtasks[i], f(subtasks[i]));
    }
    RewriteKeepsWorkValid(tasks, subtasks, after, nextTaskId, nextSubtaskId);
  }

  /** The subtask once a member took it. */
  function TakenRow(s: Subtask, userId: UserId): (t: Subtask)
    ensures t.status == Taken && t.assignedTo == Some(userId) && t.progress == InProgress
    ensures t.id == s.id && t.taskId == s.taskId && t.title == s.title && t.description == s.description
    ensures userId != 0 ==> KeepsRow(s, t)
  {
    s.(assignedTo := Some(userId), status := Taken, progress := InProgress)
  }

  /** The subtask once a leader assigned it. */
  function AssignedRow(s: Subtask, userId: UserId): (t: Subtask)
    ensures t.status == SubtaskStatus.Assigned && t.assignedTo == Some(userId) && t.progress == Progress.Assigned
    ensures t.id == s.id && t.taskId == s.taskId && t.title == s.title && t.description == s.description
    ensures userId != 0 ==> KeepsRow(s, t)
  {
    s.(assignedTo := Some(userId), status := SubtaskStatus.Assigned, progress := Progress.Assigned)
  }

  /** `PUT /subtask/:subtaskId/take`: a member takes an available subtask.
      The row is locked, so a subtask is taken at most once. */
  method TakeSubtask(db: Database, subtaskId: SubtaskId, userId: Option<UserId>) returns (r: Reply)
    requires db.Valid()
    modifies db
    ensures db.Valid()
    ensures !Present(userId) ==> r == Error(400, "User ID is required")
    ensures Present(userId) ==>
      match FindById(old(db.subtasks), SubtaskIdOf, subtaskId)
      case None => r == Error(404, "Subtask not found")
      case Some(s) =>
        if s.status != Available then r == Error(400, "This subtask is no longer available")
        else r == Ok
    ensures !r.Ok? ==> unchanged(db)
    ensures r.Ok? ==> db.subtasks == UpdateSubtask(old(db.subtasks), subtaskId, (s: Subtask) => TakenRow(s, userId.value))
    ensures db.users == old(db.users) && db.teams == old(db.teams) && db.tasks == old(db.tasks)
    ensures db.nextSubtaskId == old(db.nextSubtaskId) && db.nextTaskId == old(db.nextTaskId)
  {
    if !Present(userId) {
      r := Error(400, "User ID is required");
    } else {
      var found := FindById(db.subtasks, SubtaskIdOf, subtaskId);
      if found.None? {
        r := Error(404, "Subtask not found");
      } else if found.value.status != Available {
        r := Error(400, "This subtask is no longer available");
      } else {
        UpdateKeepsWorkValid(db.tasks, db.subtasks, subtaskId, (s: Subtask) => TakenRow(s, userId.value),
                             db.nextTaskId, db.nextSubtaskId);
        db.subtasks := UpdateSubtask(db.subtasks, subtaskId, (s: Subtask) => TakenRow(s, userId.value));
        r := Ok;
      }
    }
  }

  /** Once taken, a subtask is no longer available. */
  lemma TakenIsUnavailable(before: seq<Subtask>, subtaskId: SubtaskId, userId: Option<UserId>)
    requires userId.Some?
    requires FindById(before, SubtaskIdOf, subtaskId).Some?
    ensures var after := UpdateSubtask(before, subtaskId, (s: Subtask) => TakenRow(s, userId.value));
      FindById(after, SubtaskIdOf, subtaskId).Some? && FindById(after, SubtaskIdOf, subtaskId).value.status == Taken
  {
    var after := UpdateSubtask(before, subtaskId, (s: Subtask) => TakenRow(s, userId.value));
    var k :| 0 <= k < |before| && before[k] == FindById(before, SubtaskIdOf, subtaskId).value;
    assert after[k].id == subtaskId;
    var found := FindById(after, SubtaskIdOf, subtaskId);
    var j :| 0 <= j < |after| && after[j] == found.value;
    assert after[j] == TakenRow(before[j], userId.value);
  }

  /** Whoever asks second for the same subtask is refused and changes nothing. */
  method TakeTwice(db: Database, subtaskId: SubtaskId, first: UserId, second: UserId)
      returns (r1: Reply, r2: Reply)
    requires db.Valid()
    requires first != 0 && second != 0
    modifies db
    ensures r1.Ok? ==> r2 == Error(400, "This subtask is no longer available")
  {
    r1 := TakeSubtask(db, subtaskId, Some(first));
    if r1.Ok? {
      TakenIsUnavailable(old(db.subtasks), subtaskId, Some(first));
    }
    r2 := TakeSubtask(db, subtaskId, Some(second));
  }

  /** `PUT /subtask/:subtaskId/assign-to`: assigns a subtask to a member,
      whatever its current state. The route does not check that
      `assignedBy` is a leader. */
  method AssignSubtask(db: Database, subtaskId: SubtaskId, userId: Option<UserId>, assignedBy: Option<UserId>)
      returns (r: Reply)
    requires db.Valid()
    modifies db
    ensures db.Valid()
    ensures !Present(userId) || !Present(assignedBy) ==> r == Error(400, "User ID and assignedBy are required")
    ensures Present(userId) && Present(assignedBy) ==>
      if FindById(old(db.subtasks), SubtaskIdOf, subtaskId).None? then r == Error(404, "Subtask not found") else r == Ok
    ensures !r.Ok? ==> unchanged(db)
    ensures r.Ok? ==> db.subtasks == UpdateSubtask(old(db.subtasks), subtaskId, (s: Subtask) => AssignedRow(s, userId.value))
    ensures db.users == old(db.users) && db.teams == old(db.teams) && db.tasks == old(db.tasks)
    ensures db.nextSubtaskId == old(db.nextSubtaskId) && db.nextTaskId == old(db.nextTaskId)
  {
    if !Present(userId) || !Present(assignedBy) {
      r := Error(400, "User ID and assignedBy are required");
    } else if FindById(db.subtasks, SubtaskIdOf, subtaskId).None? {
      r := Error(404, "Subtask not found");
    } else {
      UpdateKeepsWorkValid(db.tasks, db.subtasks, subtaskId, (s: Subtask) => AssignedRow(s, userId.value),
                           db.nextTaskId, db.nextSubtaskId);
      db.subtasks := UpdateSubtask(db.subtasks, subtaskId, (s: Subtask) => AssignedRow(s, userId.value));
      r := Ok;
    }
  }

  // ---------------------------------------------------------------
  // Progress
  // ---------------------------------------------------------------

  /** The status that goes with a progress update: completing the work
      completes the subtask; starting work on an assigned subtask makes it
      taken; anything else leaves the status as it was. */
  function DeriveStatus(status: SubtaskStatus, progress: Progress): (r: SubtaskStatus)
    ensures r == SubtaskStatus.Completed <==> progress == Progress.Completed || status == SubtaskStatus.Completed
    ensures r == Taken <==> (status == Taken && progress != Progress.Completed) || (status == SubtaskStatus.Assigned && progress == InProgress)
    ensures r == Available <==> status == Available && progress != Progress.Completed
  {
    if progress == Progress.Completed then SubtaskStatus.Completed
    else if progress == InProgress && status == SubtaskStatus.Assigned then Taken
    else status
  }

  function ProgressRow(s: Subtask, progress: Progress): (t: Subtask)
    ensures KeepsRow(s, t)
    ensures t.progress == progress && t.assignedTo == s.assignedTo
  {
    s.(progress := progress, status := DeriveStatus(s.status, progress))
  }

  /** The creator-or-leader rule: the task's creator, or a leader of the
      team the task belongs to. */
  predicate CanManageTask(task: Task, user: User, userId: UserId) {
    task.createdBy == userId || (user.role == Leader && user.teamCode == task.teamCode)
  }

  /** The leader of the team a task belongs to. */
  predicate IsLeaderOf(task: Task, user: User) {
    user.role == Leader && user.teamCode == task.teamCode
  }

  /** The team code of the subtask's task (the `JOIN tasks`). */
  function TaskOfSubtask(db: Database, s: Subtask): (t: Task)
    reads db
    requires db.Valid() && s in db.subtasks
    ensures t in db.tasks && t.id == s.taskId
  {
    FindTask(db.tasks, s.taskId).value
  }

  /** `PUT /subtask/:subtaskId/progress`: the assignee, or a leader of the
      task's team, sets the progress, and the status follows it. */
  method UpdateProgress(db: Database, subtaskId: SubtaskId, progress: Option<Progress>, userId: Option<UserId>)
      returns (r: Reply)
    requires db.Valid()
    modifies db
    ensures db.Valid()
    ensures progress.None? || !Present(userId) ==> r == Error(400, "Progress and user ID are required")
    ensures progress.Some? && Present(userId) ==>
      match FindById(old(db.subtasks), SubtaskIdOf, subtaskId)
      case None => r == Error(404, "Subtask not found")
      case Some(s) =>
        match FindById(old(db.users), UserIdOf, userId.value)
        case None => r == Error(403, "User not found")
        case Some(u) =>
          if s.assignedTo == Some(userId.value) || IsLeaderOf(FindTask(old(db.tasks), s.taskId).value, u) then r == Ok
          else r == Error(403, "Not authorized to update this subtask")
    ensures !r.Ok? ==> unchanged(db)
    ensures r.Ok? ==> db.subtasks == UpdateSubtask(old(db.subtasks), subtaskId, (s: Subtask) => ProgressRow(s, progress.value))
    ensures db.users == old(db.users) && db.teams == old(db.teams) && db.tasks == old(db.tasks)
    ensures db.nextSubtaskId == old(db.nextSubtaskId) && db.nextTaskId == old(db.nextTaskId)
  {
    if progress.None? || !Present(userId) {
      r := Error(400, "Progress and user ID are required");
    } else {
      var found := FindById(db.subtasks, SubtaskIdOf, subtaskId);
      var user := FindById(db.users, UserIdOf, userId.value);
      if found.None? {
        r := Error(404, "Subtask not found");
      } else if user.None? {
        r := Error(403, "User not found");
      } else {
        var task := TaskOfSubtask(db, found.value);
        var isOwner := found.value.assignedTo == Some(userId.value);
        var isLeader := IsLeaderOf(task, user.value);
        if !isOwner && !isLeader {
          r := Error(403, "Not authorized to update this subtask");
        } else {
          UpdateKeepsWorkValid(db.tasks, db.subtasks, subtaskId, (t: Subtask) => ProgressRow(t, progress.value),
                               db.nextTaskId, db.nextSubtaskId);
          db.subtasks := UpdateSubtask(db.subtasks, subtaskId, (t: Subtask) => ProgressRow(t, progress.value));
          r := Ok;
        }
      }
    }
  }

  /** After a successful update to completed, the subtask counts as done by
      both measures the application uses: its status (the dashboard) and
      its progress (the performance report). */
  method CompletingCompletes(db: Database, subtaskId: SubtaskId, userId: UserId) returns (r: Reply)
    requires db.Valid()
    modifies db
    ensures r.Ok? ==> exists i :: 0 <= i < |db.subtasks| && db.subtasks[i].id == subtaskId
    ensures r.Ok? ==> forall i :: 0 <= i < |db.subtasks| && db.subtasks[i].id == subtaskId ==>
      db.subtasks[i].status == SubtaskStatus.Completed && db.subtasks[i].progress == Progress.Completed
  {
    r := UpdateProgress(db, subtaskId, Some(Progress.Completed), Some(userId));
    if r.Ok? {
      ghost var s := FindById(old(db.subtasks), SubtaskIdOf, subtaskId).value;
      ghost var j :| 0 <= j < |old(db.subtasks)| && old(db.subtasks)[j] == s;
      assert db.subtasks[j].id == subtaskId;
      forall i | 0 <= i < |db.subtasks| && db.subtasks[i].id == subtaskId
        ensures db.subtasks[i].status == SubtaskStatus.Completed && db.subtasks[i].progress == Progress.Completed
      {
        assert db.subtasks[i] == ProgressRow(old(db.subtasks)[i], Progress.Completed);
      }
    }
  }

  // ---------------------------------------------------------------
  // Editing and deleting
  // ---------------------------------------------------------------

  function WithoutTask(tasks: seq<Task>, id: TaskId): seq<Task> {
    Filter(tasks, (t: Task) => t.id != id)
  }

  function WithoutSubtasksOf(subtasks: seq<Subtask>, id: TaskId): seq<Subtask> {
    Filter(subtasks, (s: Subtask) => s.taskId != id)
  }

  /** Deleting a task together with its subtasks keeps the invariants. */
  lemma DeleteKeepsInvariants(tasks: seq<Task>, subtasks: seq<Subtask>, nextTaskId: TaskId, nextSubtaskId: SubtaskId,
                               id: TaskId)
    requires WorkValid(tasks, subtasks, nextTaskId, nextSubtaskId)
    ensures WorkValid(WithoutTask(tasks, id), WithoutSubtasksOf(subtasks, id), nextTaskId, nextSubtaskId)
    ensures !HasTask(WithoutTask(tasks, id), id) && !HasSubtaskOf(WithoutSubtasksOf(subtasks, id), id)
  {
    var pt := (t: Task) => t.id != id;
    var ps := (s: Subtask) => s.taskId != id;
    var tasks', subtasks' := Filter(tasks, pt), Filter(subtasks, ps);
    FilterKeepsUnique(tasks, pt, TaskIdOf);
    FilterKeepsUnique(subtasks, ps, SubtaskIdOf);
    FilterMembers(tasks, pt);
    FilterMembers(subtasks, ps);
    forall i | 0 <= i < |subtasks'|
      ensures HasTask(tasks', subtasks'[i].taskId)
    {
      var j :| 0 <= j < |subtasks| && subtasks[j] == subtasks'[i];
      var k :| 0 <= k < |tasks| && tasks[k].id == subtasks[j].taskId;
      assert tasks[k] in tasks';
    }
    forall i | 0 <= i < |tasks'|
      ensures HasSubtaskOf(subtasks', tasks'[i].id)
    {
      var j :| 0 <= j < |tasks| && tasks[j] == tasks'[i];
      var k :| 0 <= k < |subtasks| && subtasks[k].taskId == tasks[j].id;
      assert subtasks[k] in subtasks';
    }
  }

  /** `DELETE /:taskId`: the task's creator or a leader of its team deletes
      it, and its subtasks go with it. */
  method DeleteTask(db: Database, taskId: TaskId, userId: Option<UserId>) returns (r: Reply)
    requires db.Valid()
    modifies db
    ensures db.Valid()
    ensures !Present(userId) ==> r == Error(400, "User ID is required")
    ensures Present(userId) ==>
      match FindTask(old(db.tasks), taskId)
      case None => r == Error(404, "Task not found")
      case Some(t) =>
        match FindById(old(db.users), UserIdOf, userId.value)
        case None => r == Error(403, "User not found")
        case Some(u) =>
          if CanManageTask(t, u, userId.value) then r == Ok
          else r == Error(403, "Not authorized to delete this task")
    ensures !r.Ok? ==> unchanged(db)
    ensures r.Ok? ==>
      && db.tasks == WithoutTask(old(db.tasks), taskId)
      && db.subtasks == WithoutSubtasksOf(old(db.subtasks), taskId)
      && !HasTask(db.tasks, taskId) && !HasSubtaskOf(db.subtasks, taskId)
    ensures db.users == old(db.users) && db.teams == old(db.teams)
    ensures db.nextSubtaskId == old(db.nextSubtaskId) && db.nextTaskId == old(db.nextTaskId)
  {
    if !Present(userId) {
      r := Error(400, "User ID is required");
    } else {
      var task := FindTask(db.tasks, taskId);
      var user := FindById(db.users, UserIdOf, userId.value);
      if task.None? {
        r := Error(404, "Task not found");
      } else if user.None? {
        r := Error(403, "User not found");
      } else if !CanManageTask(task.value, user.value, userId.value) {
        r := Error(403, "Not authorized to delete this task");
      } else {
        DeleteKeepsInvariants(db.tasks, db.subtasks, db.nextTaskId, db.nextSubtaskId, taskId);
        db.tasks := WithoutTask(db.tasks, taskId);
        db.subtasks := WithoutSubtasksOf(db.subtasks, taskId);
        r := Ok;
      }
    }
  }

  /** `PUT /:taskId`: the task's creator or a leader of its team replaces
      its title and description. */
  method EditTask(db: Database, taskId: TaskId, title: string, description: string, userId: Option<UserId>)
      returns (r: Reply)
    requires db.Valid()
    modifies db
    ensures db.Valid()
    ensures !Present(userId) ==> r == Error(400, "User ID is required")
    ensures Present(userId) ==>
      match FindTask(old(db.tasks), taskId)
      case None => r == Error(404, "Task not found")
      case Some(t) =>
        match FindById(old(db.users), UserIdOf, userId.value)
        case None => r == Error(403, "User not found")
        case Some(u) =>
          if CanManageTask(t, u, userId.value) then r == Ok
          else r == Error(403, "Not authorized to edit this task")
    ensures !r.Ok? ==> unchanged(db)
    ensures r.Ok? ==> db.tasks == UpdateTask(old(db.tasks), taskId, title, description)
    ensures db.users == old(db.users) && db.teams == old(db.teams) && db.subtasks == old(db.subtasks)
    ensures db.nextSubtaskId == old(db.nextSubtaskId) && db.nextTaskId == old(db.nextTaskId)
  {
    if !Present(userId) {
      r := Error(400, "User ID is required");
    } else {
      var task := FindTask(db.tasks, taskId);
      var user := FindById(db.users, UserIdOf, userId.value);
      if task.None? {
        r := Error(404, "Task not found");
      } else if user.None? {
        r := Error(403, "User not found");
      } else if !CanManageTask(task.value, user.value, userId.value) {
        r := Error(403, "Not authorized to edit this task");
      } else {
        TaskEditKeepsWorkValid(db.tasks, db.subtasks, taskId, title, description, db.nextTaskId, db.nextSubtaskId);
        db.tasks := UpdateTask(db.tasks, taskId, title, description);
        r := Ok;
      }
    }
  }

  /** `tasks` with the title and description of the task of this id
      replaced (`UPDATE tasks SET title = $1, description = $2 WHERE id = $3`). */
  function UpdateTask(tasks: seq<Task>, id: TaskId, title: string, description: string): (r: seq<Task>)
    ensures |r| == |tasks|
  {
    seq(|tasks|, i requires 0 <= i < |tasks| =>
      if tasks[i].id == id then tasks[i].(title := title, description := description) else tasks[i])
  }

  /** Editing a task changes the title and description of the rows of its
      id and nothing else. */
  lemma UpdateTaskRows(tasks: seq<Task>, id: TaskId, title: string, description: string)
    ensures var after := UpdateTask(tasks, id, title, description);
      && (forall i :: 0 <= i < |after| ==> after[i].id == tasks[i].id)
      && (forall i :: 0 <= i < |after| && tasks[i].id != id ==> after[i] == tasks[i])
      && (forall i :: 0 <= i < |after| && tasks[i].id == id ==>
            after[i].title == title && after[i].description == description
            && after[i].teamCode == tasks[i].teamCode && after[i].createdBy == tasks[i].createdBy)
  {
  }

  /** Editing a task keeps the work invariants. */
  lemma TaskEditKeepsWorkValid(tasks: seq<Task>, subtasks: seq<Subtask>, id: TaskId, title: string, description: string,
                               nextTaskId: TaskId, nextSubtaskId: SubtaskId)
    requires WorkValid(tasks, subtasks, nextTaskId, nextSubtaskId)
    ensures WorkValid(UpdateTask(tasks, id, title, description), subtasks, nextTaskId, nextSubtaskId)
  {
    UpdateTaskRows(tasks, id, title, description);
    var after := UpdateTask(tasks, id, title, description);
    forall i, j | 0 <= i < j < |after|
      ensures TaskIdOf(after[i]) != TaskIdOf(after[j])
    {
      assert TaskIdOf(tasks[i]) != TaskIdOf(tasks[j]);
    }
    forall i | 0 <= i < |subtasks|
      ensures HasTask(after, subtasks[i].taskId)
    {
      assert HasTask(tasks, subtasks[i].taskId);
      var k :| 0 <= k < |tasks| && tasks[k].id == subtasks[i].taskId;
      assert after[k].id == tasks[k].id;
    }
  }

  /** The subtask after a leader's edit: an assignee makes it assigned,
      none makes it available again, and progress restarts either way. */
  function EditedRow(s: Subtask, title: string, description: string, assignedTo: Option<UserId>): (t: Subtask)
    ensures KeepsRow(s, t) && AssignmentConsistent(t) && t.assignedTo == assignedTo
    ensures Present(assignedTo) <==> t.status == SubtaskStatus.Assigned
    ensures Present(assignedTo) <==> t.progress == Progress.Assigned
    ensures !Present(assignedTo) <==> t.status == Available && t.progress == NotStarted
  {
    if Present(assignedTo) then
      s.(title := title, description := description, assignedTo := assignedTo,
         status := SubtaskStatus.Assigned, progress := Progress.Assigned)
    else
      s.(title := title, description := description, assignedTo := assignedTo,
         status := Available, progress := NotStarted)
  }

  /** `PUT /subtask/:subtaskId`: only a leader of the task's team may edit a
      subtask. */
  method EditSubtask(db: Database, subtaskId: SubtaskId, title: string, description: string,
                     assignedTo: Option<UserId>, userId: Option<UserId>) returns (r: Reply)
    requires db.Valid()
    modifies db
    ensures db.Valid()
    ensures !Present(userId) ==> r == Error(400, "User ID is required")
    ensures Present(userId) ==>
      match FindById(old(db.subtasks), SubtaskIdOf, subtaskId)
      case None => r == Error(404, "Subtask not found")
      case Some(s) =>
        match FindById(old(db.users), UserIdOf, userId.value)
        case None => r == Error(403, "User not found")
        case Some(u) =>
          if IsLeaderOf(FindTask(old(db.tasks), s.taskId).value, u) then r == Ok
          else r == Error(403, "Not authorized to edit this subtask")
    ensures !r.Ok? ==> unchanged(db)
    ensures r.Ok? ==>
      db.subtasks == UpdateSubtask(old(db.subtasks), subtaskId, (s: Subtask) => EditedRow(s, title, description, assignedTo))
    ensures db.users == old(db.users) && db.teams == old(db.teams) && db.tasks == old(db.tasks)
    ensures db.nextSubtaskId == old(db.nextSubtaskId) && db.nextTaskId == old(db.nextTaskId)
  {
    if !Present(userId) {
      r := Error(400, "User ID is required");
    } else {
      var found := FindById(db.subtasks, SubtaskIdOf, subtaskId);
      var user := FindById(db.users, UserIdOf, userId.value);
      if found.None? {
        r := Error(404, "Subtask not found");
      } else if user.None? {
        r := Error(403, "User not found");
      } else if !IsLeaderOf(TaskOfSubtask(db, found.value), user.value) {
        r := Error(403, "Not authorized to edit this subtask");
      } else {
        UpdateKeepsWorkValid(db.tasks, db.subtasks, subtaskId, (s: Subtask) => EditedRow(s, title, description, assignedTo),
                             db.nextTaskId, db.nextSubtaskId);
        db.subtasks := UpdateSubtask(db.subtasks, subtaskId, (s: Subtask) => EditedRow(s, title, description, assignedTo));
        r := Ok;
      }
    }
  }

  // ---------------------------------------------------------------
  // Listings
  // ---------------------------------------------------------------

  /** The subtasks of one task, in table order. */
  function SubtasksOf(subtasks: seq<Subtask>, id: TaskId): seq<Subtask> {
    Filter(subtasks, (s: Subtask) => s.taskId == id)
  }

  predicate IsCompletedSubtask(s: Subtask) {
    s.status == SubtaskStatus.Completed
  }

  /** A task as the listings return it: the row, the two counts of the
      `SELECT`'s sub-queries, and the attached subtasks. */
  datatype TaskView = TaskView(task: Task, totalSubtasks: nat, completedSubtasks: nat, subtasks: seq<Subtask>)

  /** The `:status` segment of the by-status route: `active`, `completed`,
      or anything else, which applies no status condition. */
  datatype StatusFilter = ActiveOnly | CompletedOnly | AnyStatus

  function ParseStatusFilter(status: string): (f: StatusFilter)
    ensures f == ActiveOnly <==> status == "active"
    ensures f == CompletedOnly <==> status == "completed"
  {
    if status == "active" then ActiveOnly
    else if status == "completed" then CompletedOnly
    else AnyStatus
  }

  /** The `EXISTS (… s.status != 'completed')` condition. */
  predicate HasUnfinishedSubtask(subtasks: seq<Subtask>, id: TaskId) {
    exists i :: 0 <= i < |subtasks| && subtasks[i].taskId == id && !IsCompletedSubtask(subtasks[i])
  }

  predicate MatchesFilter(subtasks: seq<Subtask>, t: Task, filter: StatusFilter) {
    match filter
    case ActiveOnly => HasUnfinishedSubtask(subtasks, t.id)
    case CompletedOnly => !HasUnfinishedSubtask(subtasks, t.id) && HasSubtaskOf(subtasks, t.id)
    case AnyStatus => true
  }

  /** The rows of the tasks query: the team's tasks meeting the filter. */
  function SelectTasks(tasks: seq<Task>, subtasks: seq<Subtask>, teamCode: TeamCode, filter: StatusFilter): seq<Task> {
    Filter(tasks, (t: Task) => t.teamCode == teamCode && MatchesFilter(subtasks, t, filter))
  }

  /** How one selected task is returned. */
  function ViewOf(subtasks: seq<Subtask>, t: Task): TaskView {
    var own := SubtasksOf(subtasks, t.id);
    TaskView(t, |own|, |Filter(own, IsCompletedSubtask)|, own)
  }

  /** What a listing returns, one view per selected task in query order. */
  function Listing(tasks: seq<Task>, subtasks: seq<Subtask>, teamCode: TeamCode, filter: StatusFilter): (views: seq<TaskView>)
    ensures var selected := SelectTasks(tasks, subtasks, teamCode, filter);
      |views| == |selected| && forall i :: 0 <= i < |views| ==> views[i] == ViewOf(subtasks, selected[i])
  {
    Map(SelectTasks(tasks, subtasks, teamCode, filter), (t: Task) => ViewOf(subtasks, t))
  }

  /** The `forEach` that groups the fetched subtask rows by task id. */
  method GroupByTask(rows: seq<Subtask>) returns (byTask: map<TaskId, seq<Subtask>>)
    ensures forall k :: k in byTask <==> exists i :: 0 <= i < |rows| && rows[i].taskId == k
    ensures forall k :: k in byTask ==> byTask[k] == SubtasksOf(rows, k)
    ensures forall k :: k !in byTask ==> SubtasksOf(rows, k) == []
  {
    byTask := map[];
    for i := 0 to |rows|
      invariant forall k :: k in byTask <==> exists j :: 0 <= j < i && rows[j].taskId == k
      invariant forall k :: k in byTask ==> byTask[k] == SubtasksOf(rows[..i], k)
      invariant forall k :: k !in byTask ==> SubtasksOf(rows[..i], k) == []
    {
      var s := rows[i];
      if s.taskId !in byTask {
        byTask := byTask[s.taskId := []];
      }
      byTask := byTask[s.taskId := byTask[s.taskId] + [s]];
      assert rows[..i + 1] == rows[..i] + [s];
      forall k
        ensures SubtasksOf(rows[..i + 1], k) == SubtasksOf(rows[..i], k) + (if s.taskId == k then [s] else [])
      {
        FilterAppend(rows[..i], s, (t: Subtask) => t.taskId == k);
      }
    }
    assert rows[..|rows|] == rows;
  }

  /** The subtasks of the selected tasks are all the subtasks of each. */
  lemma FetchedSubtasks(subtasks: seq<Subtask>, ids: set<TaskId>, k: TaskId)
    requires k in ids
    ensures SubtasksOf(Filter(subtasks, (s: Subtask) => s.taskId in ids), k) == SubtasksOf(subtasks, k)
  {
    FilterTwice(subtasks, (s: Subtask) => s.taskId in ids, (s: Subtask) => s.taskId == k, (s: Subtask) => s.taskId == k);
  }

  /** `GET /team/:teamCode` (with `AnyStatus`) and
      `GET /team/:teamCode/status/:status`: the selected tasks, each with
      the counts and the list of its subtasks, fetched in one query and
      grouped. */
  method ListTasks(db: Database, teamCode: TeamCode, filter: StatusFilter) returns (views: seq<TaskView>)
    ensures views == Listing(db.tasks, db.subtasks, teamCode, filter)
  {
    var selected := SelectTasks(db.tasks, db.subtasks, teamCode, filter);
    if selected == [] {
      return [];
    }
    var all := db.subtasks;
    var ids := set i | 0 <= i < |selected| :: selected[i].id;
    var rows := Filter(all, (s: Subtask) => s.taskId in ids);
    var byTask := GroupByTask(rows);
    views := seq(|selected|, i requires 0 <= i < |selected| =>
      var own := if selected[i].id in byTask then byTask[selected[i].id] else [];
      var counted := SubtasksOf(all, selected[i].id);
      TaskView(selected[i], |counted|, |Filter(counted, IsCompletedSubtask)|, own));
    forall i | 0 <= i < |selected|
      ensures views[i] == ViewOf(db.subtasks, selected[i])
    {
      FetchedSubtasks(db.subtasks, ids, selected[i].id);
    }
  }

  // ---------------------------------------------------------------
  // Properties of the listings
  // ---------------------------------------------------------------

  /** Every listed view belongs to the team, carries exactly its task's
      subtasks, and its counts agree with the attached list. */
  lemma ListingViews(tasks: seq<Task>, subtasks: seq<Subtask>, teamCode: TeamCode, filter: StatusFilter)
    ensures forall v :: v in Listing(tasks, subtasks, teamCode, filter) ==>
      && v.task in tasks && v.task.teamCode == teamCode
      && (forall j :: 0 <= j < |v.subtasks| ==> v.subtasks[j] in subtasks && v.subtasks[j].taskId == v.task.id)
      && (forall j :: 0 <= j < |subtasks| && subtasks[j].taskId == v.task.id ==> subtasks[j] in v.subtasks)
      && v.totalSubtasks == |v.subtasks|
      && v.completedSubtasks <= v.totalSubtasks
  {
    var selected := SelectTasks(tasks, subtasks, teamCode, filter);
    FilterMembers(tasks, (t: Task) => t.teamCode == teamCode && MatchesFilter(subtasks, t, filter));
    forall v | v in Listing(tasks, subtasks, teamCode, filter)
      ensures v.task in tasks && v.task.teamCode == teamCode
      ensures forall j :: 0 <= j < |v.subtasks| ==> v.subtasks[j] in subtasks && v.subtasks[j].taskId == v.task.id
      ensures forall j :: 0 <= j < |subtasks| && subtasks[j].taskId == v.task.id ==> subtasks[j] in v.subtasks
      ensures v.completedSubtasks <= v.totalSubtasks
    {
      var i :| 0 <= i < |selected| && v == ViewOf(subtasks, selected[i]);
      FilterMembers(subtasks, (s: Subtask) => s.taskId == v.task.id);
    }
  }

  /** The active listing holds exactly the team's tasks with an unfinished
      subtask, the completed listing those that have subtasks and none
      unfinished; the two never share a task. */
  lemma StatusListingsSeparate(tasks: seq<Task>, subtasks: seq<Subtask>, teamCode: TeamCode)
    ensures forall t :: t in SelectTasks(tasks, subtasks, teamCode, ActiveOnly) <==>
      t in tasks && t.teamCode == teamCode && HasUnfinishedSubtask(subtasks, t.id)
    ensures forall t :: t in SelectTasks(tasks, subtasks, teamCode, CompletedOnly) <==>
      t in tasks && t.teamCode == teamCode && HasSubtaskOf(subtasks, t.id) && !HasUnfinishedSubtask(subtasks, t.id)
    ensures forall t :: !(t in SelectTasks(tasks, subtasks, teamCode, ActiveOnly) &&
                          t in SelectTasks(tasks, subtasks, teamCode, CompletedOnly))
  {
    FilterMembers(tasks, (t: Task) => t.teamCode == teamCode && MatchesFilter(subtasks, t, ActiveOnly));
    FilterMembers(tasks, (t: Task) => t.teamCode == teamCode && MatchesFilter(subtasks, t, CompletedOnly));
  }
}
