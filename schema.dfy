/** The four tables of the task tracker (users, teams, tasks, subtasks),
    held in memory as sequences of rows in insertion order, with the
    integrity constraints every route handler keeps. */
module Schema {
  import opened Common

  type UserId = nat
  type TaskId = nat
  type SubtaskId = nat
  type TeamCode = string

  datatype Role = Leader | Member

  /** A member's approval state. `Unverified` is only produced by an
      older onboarding path that this model does not contain; the
      status-check route still distinguishes it. */
  datatype MemberStatus = Unverified | Pending | Approved | Rejected

  /** Who holds a subtask. */
  datatype SubtaskStatus = Available | Assigned | Taken | Completed

  /** How far the work on a subtask has got. */
  datatype Progress = NotStarted | Assigned | InProgress | Testing | Completed

  /** A row of `users`. `password` is the stored bcrypt hash;
      `approvedAt`/`rejectedAt` are the clock readings of the last
      approval or rejection. */
  datatype User = User(
    id: UserId,
    email: string,
    password: string,
    name: string,
    role: Role,
    teamCode: TeamCode,
    status: MemberStatus,
    emailVerified: bool,
    approvedBy: Option<UserId>,
    approvedAt: Option<int>,
    rejectedBy: Option<UserId>,
    rejectedAt: Option<int>)

  datatype Team = Team(teamCode: TeamCode, teamName: string, leaderId: Option<UserId>)

  datatype Task = Task(id: TaskId, title: string, description: string, teamCode: TeamCode, createdBy: UserId)

  datatype Subtask = Subtask(
    id: SubtaskId,
    taskId: TaskId,
    title: string,
    description: string,
    assignedTo: Option<UserId>,
    status: SubtaskStatus,
    progress: Progress)

  /** An HTTP answer of a route: success, or a status code with the
      `error` text of the JSON body. */
  datatype Reply = Ok | Error(status: int, message: string)

  /** JavaScript truthiness of an optional id from a request body:
      an absent value and the number 0 are both falsy. */
  predicate Present(x: Option<nat>) {
    x.Some? && x.value != 0
  }

  function UserIdOf(u: User): UserId { u.id }
  function EmailOf(u: User): string { u.email }
  function TeamCodeOf(t: Team): TeamCode { t.teamCode }
  function TaskIdOf(t: Task): TaskId { t.id }
  function SubtaskIdOf(s: Subtask): SubtaskId { s.id }

  /** The status of a subtask agrees with whether it has an assignee
      (a truthy `assigned_to`): an available subtask has none, an assigned
      or taken one has one. */
  predicate AssignmentConsistent(s: Subtask) {
    && (s.status == Available ==> !Present(s.assignedTo))
    && (s.status == SubtaskStatus.Assigned || s.status == Taken ==> Present(s.assignedTo))
  }

  predicate HasUserWithEmail(users: seq<User>, email: string) {
    exists i :: 0 <= i < |users| && users[i].email == email
  }

  predicate HasTeam(teams: seq<Team>, code: TeamCode) {
    exists i :: 0 <= i < |teams| && teams[i].teamCode == code
  }

  predicate HasTask(tasks: seq<Task>, id: TaskId) {
    exists i :: 0 <= i < |tasks| && tasks[i].id == id
  }

  predicate HasSubtaskOf(subtasks: seq<Subtask>, id: TaskId) {
    exists i :: 0 <= i < |subtasks| && subtasks[i].taskId == id
  }

  /** The first row whose key column holds `id` (`SELECT … WHERE id = $1`
      on `users` or `subtasks`). */
  function FindById<T>(rows: seq<T>, key: T -> nat, id: nat): (r: Option<T>)
    ensures r.Some? ==> r.value in rows && key(r.value) == id
    ensures r.None? <==> forall i :: 0 <= i < |rows| ==> key(rows[i]) != id
  {
    if rows == [] then None
    else if key(rows[0]) == id then Some(rows[0])
    else FindById(rows[1..], key, id)
  }

  /** The first row of `users` with this email and team code
      (`SELECT … WHERE email = $1 AND team_code = $2`). */
  function FindByEmailAndTeam(users: seq<User>, email: string, teamCode: TeamCode): (r: Option<User>)
    ensures r.Some? ==> r.value in users && r.value.email == email && r.value.teamCode == teamCode
    ensures r.None? <==> forall i :: 0 <= i < |users| ==> !(users[i].email == email && users[i].teamCode == teamCode)
  {
    if users == [] then None
    else if users[0].email == email && users[0].teamCode == teamCode then Some(users[0])
    else FindByEmailAndTeam(users[1..], email, teamCode)
  }

  function FindTeam(teams: seq<Team>, code: TeamCode): (r: Option<Team>)
    ensures r.Some? ==> r.value in teams && r.value.teamCode == code
    ensures r.None? <==> !HasTeam(teams, code)
  {
    if teams == [] then None
    else if teams[0].teamCode == code then Some(teams[0])
    else
      assert forall i :: 1 <= i < |teams| ==> teams[i] == teams[1..][i - 1];
      FindTeam(teams[1..], code)
  }

  function FindTask(tasks: seq<Task>, id: TaskId): (r: Option<Task>)
    ensures r.Some? ==> r.value in tasks && r.value.id == id
    ensures r.None? <==> !HasTask(tasks, id)
  {
    if tasks == [] then None
    else if tasks[0].id == id then Some(tasks[0])
    else
      assert forall i :: 1 <= i < |tasks| ==> tasks[i] == tasks[1..][i - 1];
      FindTask(tasks[1..], id)
  }

  /** The invariants of `users`: unique ids and e-mails, ids below the
      sequence, and leaders always approved. */
  ghost predicate UsersValid(users: seq<User>, nextUserId: UserId) {
    && UniqueBy(users, UserIdOf)
    && UniqueBy(users, EmailOf)
    && 0 < nextUserId
    && (forall i :: 0 <= i < |users| ==> 0 < users[i].id < nextUserId)
    && (forall i :: 0 <= i < |users| && users[i].role == Leader ==> users[i].status == Approved)
  }

  /** The invariant of `teams`: team codes are keys. */
  ghost predicate TeamsValid(teams: seq<Team>) {
    UniqueBy(teams, TeamCodeOf)
  }

  /** The invariants of `tasks` and `subtasks`: unique ids below their
      sequences, every subtask belonging to an existing task, every task
      having a subtask (tasks are only ever created with some, and subtasks
      are only ever deleted with their task), and subtask status agreeing
      with its assignee. */
  ghost predicate WorkValid(tasks: seq<Task>, subtasks: seq<Subtask>, nextTaskId: TaskId, nextSubtaskId: SubtaskId) {
    && UniqueBy(tasks, TaskIdOf)
    && UniqueBy(subtasks, SubtaskIdOf)
    && 0 < nextTaskId && 0 < nextSubtaskId
    && (forall i :: 0 <= i < |tasks| ==> 0 < tasks[i].id < nextTaskId)
    && (forall i :: 0 <= i < |subtasks| ==> 0 < subtasks[i].id < nextSubtaskId)
    && (forall i :: 0 <= i < |subtasks| ==> HasTask(tasks, subtasks[i].taskId))
    && (forall i :: 0 <= i < |tasks| ==> HasSubtaskOf(subtasks, tasks[i].id))
    && (forall i :: 0 <= i < |subtasks| ==> AssignmentConsistent(subtasks[i]))
  }

  /** A per-row rewrite of `subtasks` that keeps ids and tasks and leaves
      every row consistent keeps the work invariants. */
  lemma RewriteKeepsWorkValid(tasks: seq<Task>, before: seq<Subtask>, after: seq<Subtask>,
                              nextTaskId: TaskId, nextSubtaskId: SubtaskId)
    requires WorkValid(tasks, before, nextTaskId, nextSubtaskId)
    requires |after| == |before|
    requires forall i :: 0 <= i < |before| ==>
      after[i].id == before[i].id && after[i].taskId == before[i].taskId && AssignmentConsistent(after[i])
    ensures WorkValid(tasks, after, nextTaskId, nextSubtaskId)
  {
    forall i | 0 <= i < |tasks|
      ensures HasSubtaskOf(after, tasks[i].id)
    {
      var j :| 0 <= j < |before| && before[j].taskId == tasks[i].id;
      assert after[j].taskId == tasks[i].id;
    }
    forall i, j | 0 <= i < j < |after|
      ensures SubtaskIdOf(after[i]) != SubtaskIdOf(after[j])
    {
      assert SubtaskIdOf(before[i]) != SubtaskIdOf(before[j]);
    }
  }

  /** The relational database: one sequence of rows per table and the
      next value of each `SERIAL` id column. */
  class Database {
    var users: seq<User>
    var teams: seq<Team>
    var tasks: seq<Task>
    var subtasks: seq<Subtask>
    var nextUserId: UserId
    var nextTaskId: TaskId
    var nextSubtaskId: SubtaskId

    /** The constraints of the schema and the invariants the routes keep. */
    ghost predicate Valid()
      reads this
    {
      && UsersValid(users, nextUserId)
      && TeamsValid(teams)
      && WorkValid(tasks, subtasks, nextTaskId, nextSubtaskId)
    }

    /** An empty database whose sequences start at 1. */
    constructor ()
      ensures Valid()
      ensures users == [] && teams == [] && tasks == [] && subtasks == []
    {
      users, teams, tasks, subtasks := [], [], [], [];
      nextUserId, nextTaskId, nextSubtaskId := 1, 1, 1;
    }
  }
}
