# Team task tracker: registration, approval and subtask lifecycle

This project is a Dafny model of the server logic of a small team task
tracker, together with the view logic of its dashboard.

- A team leader signs up, confirms the e-mail address by token or by a
  six-digit code, and so creates a team with a unique team code.
- Members sign up for an existing team. They wait for the leader's
  approval, and the leader can reject them, approve them again, or
  remove them.
- A leader creates tasks made of subtasks. Members take available
  subtasks, or the leader assigns them, and whoever holds a subtask
  reports its progress.
- A performance report ranks the approved members by completion rate.
  The dashboard shows progress bars, statistics cards, and active and
  completed tabs.

The four tables (`users`, `teams`, `tasks`, `subtasks`) are sequences of
rows in one `Database` object. The two in-memory pre-registration maps,
for leaders and for members, are `PreRegistrationMap` objects. A
JavaScript `Map` keeps insertion order, so each map holds a sequence of
entries with distinct tokens.

Each route handler is a method. It returns a `Reply`: `Ok`, or the HTTP
error status with its message. Every handler keeps the database
invariant `Database.Valid()`:

- user ids and e-mails are unique, and leaders are approved;
- team codes are unique;
- every subtask belongs to an existing task, and every task has a subtask;
- a subtask's status agrees with whether it has an assignee.

A refused request leaves the database unchanged.

The modules are:

- `Common`: `Filter`, `Map`, rounding and uniqueness helpers.
- `Schema`: the rows, the lookup queries and the invariants.
- `PreRegistration`: the pre-registration store and its scans.
- `Auth`: the authentication routes.
- `Tasks`: the task routes and listings.
- `Performance`: the team report and its in-place sort.
- `Dashboard`: the client-side computations.

## Model

| member | source | states |
|---|---|---|
| Common.RoundedPercent | backend/routes/performance.js:52 | `Math.round(part / whole * 100)` in exact arithmetic: `2·whole·r ≤ 200·part + whole < 2·whole·(r+1)`; at most 100 when part ≤ whole, exactly 100 when part = whole, 0 when part = 0 |
| Schema.FindById | backend/routes/tasks.js:308-316 | the lookup by id of `users` and `subtasks`: Some exactly when a row whose id column holds the id exists, and then it is such a row of the table |
| Schema.FindByEmailAndTeam | backend/routes/auth.js:615-623 | Some exactly when a row with both the e-mail and the team code exists, and the row found has both |
| Schema.FindTeam | backend/routes/auth.js:444-450 | Some exactly when a team with the code exists, and it is that team |
| Schema.FindTask | backend/routes/tasks.js:472-479 | Some exactly when a task with the id exists, and it is such a task |
| Schema.RewriteKeepsWorkValid | backend/routes/auth.js:1087-1090 | a per-row rewrite of the subtasks that keeps ids and tasks and leaves each row consistent keeps the work invariants |
| PreRegistration.FirstLiveMatchStops | backend/routes/auth.js:147-159 | no entry before the position the code search stops at is an unexpired entry with the code, and the entry at that position is one |
| PreRegistration.IndexOf | backend/routes/auth.js:297 | -1 exactly when no entry holds the token; otherwise the entry at the position holds it |
| PreRegistration.PreRegistrationMap.constructor | backend/routes/auth.js:23-24 | a new store is empty and valid |
| PreRegistration.PreRegistrationMap.Get | backend/routes/auth.js:297 | None exactly when no entry holds the token; Some(d) means the entry (token, d) is stored |
| PreRegistration.PreRegistrationMap.Set | backend/routes/auth.js:100-103 | a new token is appended and an existing one keeps its place with the new data; tokens stay unique; the token then maps to the data |
| PreRegistration.PreRegistrationMap.Delete | backend/routes/auth.js:304 | the store without the token's entry, in order; no entry holds the token any more; nothing new appears |
| PreRegistration.PreRegistrationMap.CleanupExpired | backend/routes/auth.js:49-57 | after the sweep, exactly the entries with `expires ≥ now` remain, in their order |
| PreRegistration.PreRegistrationMap.FindByCode | backend/routes/auth.js:144-159 | the result is the first unexpired entry with the code (None exactly when there is none); the expired entries with the code before it are deleted and every other entry is untouched |
| Auth.HasSpecialCharacter | backend/routes/auth.js:43 | true exactly when some character of the password is in the special set |
| Auth.Utf16Length | backend/routes/auth.js:40 | JavaScript's `length`: between one and two code units per character, and equal to the number of characters exactly when none lies outside the Basic Multilingual Plane |
| Auth.ValidatePassword | backend/routes/auth.js:39-47 | too short exactly when under 6 UTF-16 code units; otherwise no special character exactly when none is present; accepted exactly when long enough and one is present |
| Auth.AstralCharactersCountTwice | backend/routes/auth.js:39-47 | three characters outside the Basic Multilingual Plane and `!` make an accepted password; five characters and `!` are accepted, four and `!` are too short |
| Auth.SendVerification | backend/routes/auth.js:75-125 | missing field → 400; password error → 400 with its message; an e-mail already registered → 400; otherwise the leader's sign-up is stored under the token with the code and a one-hour expiry; a refusal stores nothing |
| Auth.SendMemberVerification | backend/routes/auth.js:431-492 | the same checks, plus a team code that must exist; stores a sign-up that joins that team, carrying its name; the member store only ever holds joining sign-ups |
| Auth.ResolveTeamCode | backend/routes/auth.js:189-201 | at most 5 regenerations; every candidate before the chosen one is in use; a chosen code is not in `teams`; None only when all six candidates collide |
| Auth.LeaderRow | backend/routes/auth.js:212-217 | a verified leader is created as a leader, approved, with the e-mail verified |
| Auth.MemberRow | backend/routes/auth.js:538-543 | a verified member is created as a member of the sign-up's team, pending, with the e-mail verified |
| Auth.AddUserKeepsUsersValid | backend/routes/auth.js:538-543 | adding an account with the next id and an unused e-mail keeps the user invariants, provided a leader's account is approved |
| Auth.CompleteLeaderRegistration | backend/routes/auth.js:310-416 | an e-mail already used → 400, no user, and the token is deleted; all six team codes taken → 500 with everything rolled back; otherwise exactly one team with a fresh code and its leader are inserted, the team's leader is that user, and the token is deleted |
| Auth.VerifyEmail | backend/routes/auth.js:285-425 | missing token → 400; unknown token → 400 with no change; expired token → 400 and the token is deleted; for a live token, its e-mail already used → 400 with the token deleted and no user; all six team codes taken → 500 with nothing changed; success exactly in the remaining case, and then the leader and team come from the token's sign-up and the token is deleted |
| Auth.VerifyEmailCode | backend/routes/auth.js:128-282 | empty or malformed code → 400 before any search; no live match → 400, nothing created, only the expired matches passed are deleted; once the first live match is found, its e-mail already used → 400, no user, and its token deleted from the swept store; all six team codes taken → 500 with only the sweep kept; success exactly in the remaining case, and then the leader comes from that match and its token is deleted |
| Auth.VerifyMemberEmail | backend/routes/auth.js:495-600 | the token checks of `VerifyEmail`; then an e-mail already used → 400 and the token is deleted; otherwise exactly one pending member row is added and the token is deleted |
| Auth.Login | backend/routes/auth.js:606-678 | missing field → 400; no account or a wrong password → 401; a pending or rejected member → 403; everyone else logs in as the account found |
| Auth.CheckMemberStatus | backend/routes/auth.js:682-761 | missing field; no account; otherwise a leader always can log in, and a member can exactly when the e-mail is verified and the status is approved; an unverified e-mail reads as unverified, a verified member's status is reported as stored, a leader reads as approved, and the role is reported exactly for the accounts that can log in |
| Auth.LoginAgreesWithStatusCheck | backend/routes/auth.js:704-748 | for a verified account with a status the approval routes produce and a matching password, login succeeds exactly when the status check says it can |
| Auth.UnverifiedMemberLogsIn | backend/routes/auth.js:625-645 | a member with an unverified e-mail and an approved or unverified status logs in with a matching password, while the status check says that member cannot |
| Auth.RewriteKeepsUserInvariants | backend/routes/auth.js:845-850 | a per-row rewrite of the users that keeps ids, e-mails and roles and touches no leader keeps the user invariants |
| Auth.ApproveMember | backend/routes/auth.js:830-902 | missing field → 400; no member with that id in that team → 404 with no change; otherwise exactly the matching rows become approved, with the approver and time, and no other row changes |
| Auth.RejectMember | backend/routes/auth.js:905-948 | as approve, with rejected, the rejecter and time |
| Auth.ApproveRejectedMember | backend/routes/auth.js:951-1016 | only a rejected member of that team qualifies (otherwise 404, no change); it becomes approved and its rejection fields are cleared |
| Auth.DeleteKeepsUserInvariants | backend/routes/auth.js:1023-1026 | deleting user rows keeps the user invariants |
| Auth.DeleteRejectedMember | backend/routes/auth.js:1019-1042 | succeeds exactly when a rejected member with the id exists; then exactly those rows are removed, and no other row changes or disappears; otherwise 404 with no change |
| Auth.UnassignedRow | backend/routes/auth.js:1087-1090 | a released subtask has no assignee and is available, keeps its id, task, title, description and progress, and is consistent |
| Auth.DeleteTeamMember | backend/routes/auth.js:1045-1108 | missing leader → 400; not a leader of the team → 403; self-deletion → 400; no such member in the team → 404; otherwise every subtask assigned to the member is released, the member's row is gone, and nothing else changes |
| Auth.TokenIsSingleUse | backend/routes/auth.js:394-395 | once a verification by token succeeds, a second one with the same token is refused, and the only user added is the first one's leader |
| Auth.FindsUniqueEmail | backend/routes/auth.js:615-618 | with unique e-mails, the login lookup finds the one account holding the e-mail |
| Auth.LoginFindsApprovedMember | backend/routes/auth.js:625-645 | an approved member logs in exactly when the password matches, and as that member |
| Auth.ApprovedMemberCanLogIn | backend/routes/auth.js:844-850 | after approval, the member's login succeeds exactly when the password matches, as that member and approved |
| Tasks.NewSubtaskRow | backend/routes/tasks.js:118-133 | a requested subtask starts assigned/assigned with the requested member exactly when specific assignment was asked for and a member was named; otherwise available/not started with no assignee |
| Tasks.NewSubtaskRows | backend/routes/tasks.js:118-134 | one row per requested subtask, in order, with consecutive ids |
| Tasks.CreateKeepsInvariants | backend/routes/tasks.js:110-134 | appending a task with the next id and at least one new subtask row keeps the work invariants |
| Tasks.InsertSubtasks | backend/routes/tasks.js:118-134 | the loop appends exactly the new rows and advances the subtask id sequence by their number |
| Tasks.CreateTask | backend/routes/tasks.js:95-154 | a missing title, team code or creator, or no subtasks → 400 with no change; otherwise exactly the task and its rows are inserted |
| Tasks.UpdateKeepsWorkValid | backend/routes/tasks.js:439-442 | rewriting the rows of one subtask id with a rewrite that keeps ids, tasks and consistency keeps the work invariants |
| Tasks.TakenRow | backend/routes/tasks.js:325-330 | a taken subtask is taken, held by the taker and in progress, and keeps its id, task, title and description |
| Tasks.AssignedRow | backend/routes/tasks.js:364-370 | an assigned subtask is assigned, held by the assignee and at progress assigned, and keeps its id, task, title and description |
| Tasks.TakeSubtask | backend/routes/tasks.js:294-349 | missing user → 400; unknown subtask → 404; not available → 400 with no change; otherwise exactly that subtask is taken by the user |
| Tasks.TakenIsUnavailable | backend/routes/tasks.js:320-330 | after a successful take, the subtask's status is taken |
| Tasks.TakeTwice | backend/routes/tasks.js:308-330 | of two takes of the same subtask, once the first succeeds the second is always refused as no longer available |
| Tasks.AssignSubtask | backend/routes/tasks.js:352-388 | missing field → 400; an unknown subtask → 404; any existing subtask becomes assigned/assigned to the member, whatever its state |
| Tasks.DeriveStatus | backend/routes/tasks.js:432-437 | completed progress gives completed; in-progress on an assigned subtask gives taken; otherwise the status stays, stated as three if-and-only-ifs |
| Tasks.ProgressRow | backend/routes/tasks.js:432-442 | the progress is set to the requested value, the assignee is kept, and a consistent row stays consistent |
| Tasks.TaskOfSubtask | backend/routes/tasks.js:403-409 | in a valid database, the join finds the subtask's task |
| Tasks.UpdateProgress | backend/routes/tasks.js:391-456 | missing field → 400; unknown subtask → 404; unknown user → 403; neither the assignee nor a leader of the task's team → 403 with no change; otherwise only that subtask is rewritten by `ProgressRow` |
| Tasks.CompletingCompletes | backend/routes/tasks.js:432-442 | after a successful update to completed, the subtask exists and is completed by both status and progress |
| Tasks.DeleteKeepsInvariants | backend/routes/tasks.js:499 | deleting a task with its subtasks keeps the work invariants and leaves no trace of the task |
| Tasks.DeleteTask | backend/routes/tasks.js:459-508 | missing user → 400; unknown task → 404; unknown user → 403; neither the creator nor a leader of the team → 403 with no change; otherwise the task and its subtasks are gone and nothing else changes |
| Tasks.EditTask | backend/routes/tasks.js:511-572 | the same checks; on success only the title and description of that task change |
| Tasks.UpdateTaskRows | backend/routes/tasks.js:551-554 | the edit changes the title and description of the rows of that id and nothing else |
| Tasks.TaskEditKeepsWorkValid | backend/routes/tasks.js:551-554 | editing a task keeps the work invariants |
| Tasks.EditedRow | backend/routes/tasks.js:617-629 | an edited subtask is assigned/assigned exactly when an assignee is given, otherwise available/not started, and it takes the given assignee |
| Tasks.EditSubtask | backend/routes/tasks.js:575-648 | missing user → 400; unknown subtask → 404; unknown user → 403; not a leader of the task's team → 403 with no change; otherwise only that subtask is rewritten by `EditedRow` |
| Tasks.ParseStatusFilter | backend/routes/tasks.js:666-670 | `active` and `completed` select their conditions; any other value selects none |
| Tasks.Listing | backend/routes/tasks.js:183-208 | one view per selected task, in query order, each the view of that task |
| Tasks.GroupByTask | backend/routes/tasks.js:20-27 | a key is present exactly when some row carries it; each list holds exactly that task's rows, in order; an absent key has no rows |
| Tasks.FetchedSubtasks | backend/routes/tasks.js:184-191 | fetching the subtask rows of the selected tasks loses no subtask of a selected task |
| Tasks.ListTasks | backend/routes/tasks.js:157-214 | the grouped listing equals `Listing`: each selected task paired with its counts and exactly its subtasks |
| Tasks.ListingViews | backend/routes/tasks.js:163-176 | every listed view is a task of the team, carries exactly its task's subtasks, and its counts agree with the list |
| Tasks.StatusListingsSeparate | backend/routes/tasks.js:666-670 | the active listing is exactly the team's tasks with an unfinished subtask; the completed listing is exactly those with subtasks and none unfinished; no task is in both |
| Performance.BucketsPartition | backend/routes/performance.js:28-31 | the completed, under-way and not-started counts add up to the total |
| Performance.CompletionRate | backend/routes/performance.js:52 | 0 for no subtasks, otherwise the rounded percentage, between 0 and 100, and 100 when all are completed |
| Performance.AlmostAllReadsAsComplete | backend/routes/performance.js:52 | 3 of 4 gives 75, 1 of 3 gives 33, 2 of 3 gives 67, and 199 of 200 already reads as 100 |
| Performance.MemberStats | backend/routes/performance.js:39-54 | the row carries the member's identity, counts the member's subtasks: completed by progress completed, under way by in progress or testing, not started by not started or assigned; the buckets add up to the total; the rate is `CompletionRate` of completed over total, at most 100, and 0 for a member with no subtasks |
| Performance.TeamStats | backend/routes/performance.js:39-54 | one row per approved member, in table order |
| Performance.Swap | backend/routes/performance.js:57-62 | exchanges two neighbouring rows, keeping the multiset of rows |
| Performance.InsertDown | backend/routes/performance.js:57-62 | extends a sorted prefix by one row, keeping the multiset of rows |
| Performance.SortByRank | backend/routes/performance.js:57-62 | the array ends sorted by rate descending, ties broken by completed count descending, as a permutation of the input |
| Performance.TeamPerformance | backend/routes/performance.js:7-64 | the report is sorted and is a permutation of the approved members' rows, so it is empty exactly when there are none |
| Performance.ReportCoversMembers | backend/routes/performance.js:12-20 | every row of the report is an approved member's row, and every approved member has one |
| Dashboard.CalculateProgress | frontend/js/dashboard.js:190-194 | 0 without subtasks; otherwise the rounded percentage of completed subtasks, at most 100, and 100 when all are completed |
| Dashboard.AllCompletedCount | frontend/js/dashboard.js:192 | when every subtask is completed, the completed count is the number of subtasks |
| Dashboard.UpdateStats | frontend/js/dashboard.js:196-210 | nothing for a non-leader; for a leader the total, the tasks with some in-progress subtask, and the tasks whose subtasks are all completed |
| Dashboard.TabsPartition | frontend/js/dashboard.js:637-653 | no task shows on both tabs, and the two tab sizes add up to the number of tasks with subtasks |
| Dashboard.StatsCountCompletedTab | frontend/js/dashboard.js:203-205 | when every task has subtasks, the completed card counts exactly the completed tab |
| Dashboard.EmptyTaskCountedAsCompleted | frontend/js/dashboard.js:203-205 | a task without subtasks is counted on the completed card but shown on no tab |
| Dashboard.ViewConditions | frontend/js/dashboard.js:637-653 | a task's view shows as active or completed exactly when the server's conditions hold of the task |
| Dashboard.ActiveTabMatchesServer | frontend/js/dashboard.js:637-644 | the active tab over the full listing is exactly the server's active listing, in order |
| Dashboard.CompletedTabMatchesServer | frontend/js/dashboard.js:646-653 | the completed tab over the full listing is exactly the server's completed listing, in order |
| Dashboard.TabsKeepServerListings | frontend/js/dashboard.js:621-631 | filtering a status listing again on the client removes nothing |
| Dashboard.ListedTasksHaveSubtasks | frontend/js/dashboard.js:144-159 | in every state the routes keep, every listed task has subtasks |
| Dashboard.StatsCardMatchesCompletedTab | frontend/js/dashboard.js:196-210 | so in those states the leader's completed card equals the size of the completed listing |

## Notes on the source

Where the code and the documented intent of the application differ, the model follows the code.

- Approve and reject do not look at the member's current status. Approve
  accepts a rejected or already approved member. Reject accepts an
  approved one. The model does the same.
- Login turns away only pending and rejected members. A member with an
  unverified e-mail or the `unverified` status logs in whenever the
  password matches, although the status check says that member cannot.
  `Auth.UnverifiedMemberLogsIn` exhibits this.
  `Auth.LoginAgreesWithStatusCheck` therefore assumes a verified e-mail
  and one of the statuses the approval routes produce.
- Assign-to does not check that `assignedBy` is a leader, and it
  overrides a taken or completed subtask.
- Removing a member releases the member's subtasks. It does not reset
  their progress, so a released subtask can be available and in
  progress at once.
- On the dashboard, a task without subtasks counts as completed on the
  statistics card but appears on no tab. The routes never leave a task
  without subtasks, so in reachable states the card and the tab agree.
  `Dashboard.StatsCardMatchesCompletedTab` proves this.

## Left out

- E-mail sending is not modelled. Its result never changes the committed state.
- JWT signing is not modelled: login returns the account found instead of a token.
- bcrypt hashing and comparison are parameters: a hashed-password string and a comparison function.
- Random tokens, six-digit codes and team codes are parameters. The codes are assumed to be six decimal digits, which the generator ensures by construction.
- The clock is the `now` parameter.
- The hourly `setInterval` timer is not modelled; `CleanupExpired` models only the sweep it runs.
- `ORDER BY t.created_at DESC` and `ORDER BY s.task_id, s.created_at` are not modelled: listings keep table (insertion) order. Creation timestamps and `updated_at` are not stored.
- Concurrency, `SELECT … FOR UPDATE`, the connection pool and transactions are modelled as atomic handlers. A rollback leaves the state unchanged.
- The `catch` blocks that answer 500 after a failed query are not modelled, except the team-code exhaustion in `CompleteLeaderRegistration`.
- The second 404 of task edit and subtask edit is not modelled: it happens only when the row disappears between two queries.
- Progress values arrive already parsed into the `Progress` enumeration. An unknown progress string would fail in the database with a 500; that path is not modelled.
- Task deletion also deletes the task's subtasks. The route issues only `DELETE FROM tasks`, so this assumes the schema cascades, which matches its design. The schema itself is not part of this model.
- Foreign keys from subtasks to users are not modelled. An assignee id is any positive number.
- `description || null` in task creation is modelled as storing the description as given.
- The joined display columns (creator and assignee names and e-mails) are not modelled.
- The GET routes outside the listings are not modelled: single task, available subtasks, a user's subtasks and member lists. Neither are the test and health routes.
- The request-body checks treat an absent id and id 0 as missing, which is JavaScript truthiness. `Present` models this.
- `Common.RoundedPercent`, `Performance.CompletionRate` and `Dashboard.CalculateProgress` use exact rational rounding, half up. They do not model the floating-point `Math.round(c / t * 100)`, which can differ on values within a rounding error of a half.
- `Performance.SortByRank` is an insertion sort. `Array.prototype.sort` is stable, but the members query at `backend/routes/performance.js:12-14` has no `ORDER BY`, so the order of rows that compare equal is unspecified anyway. The model promises only a sorted permutation and fixes no order between them.
- Performance counts by progress while the dashboard counts by status, as the source does. No invariant ties the two together. `Tasks.CompletingCompletes` shows only that a successful update to completed sets both.
