# Tasks API: the database rules behind the controllers

This project models the request handlers of a small task/team REST API (users register, admins
create teams and tasks, tasks move through `pending`, `inProgress` and `completed`) as operations
on an in-memory database: three tables (`users`, `teams`, `tasks`, each a map from id to record)
and an append-only `history` log of task status transitions.

- `domain.dfy` (module `Domain`): the records, the enum schemas (`pending`/`inProgress`/`completed`,
  `low`/`medium`/`high`, `admin`/`member`), the error reply (`Invalid` for a schema failure listing
  every offending field, `AppError(message, code)` for the controllers' own errors, `StoreError`
  for an exception of the database client), and `Consistent`: unique emails, every task's assignee
  and team exist, and no history entry starts from `completed`.
- One module per controller (`TaskStatusController`, `TaskController`, `TeamController`,
  `UsersController`, `TaskPriorityController`) holding each action as a function from the database
  and the request to the reply and the new database. Their contracts give the guard order, the
  exact error of each guard, when the action succeeds (both directions), that a failed request
  leaves the database as it was, exactly what a successful one writes, and that it keeps
  `Consistent`.
- `database.dfy` (module `Database`): the `Store` class whose fields are the three tables and the
  log, with one method per controller action that checks its guards in the controller's order and
  then updates the fields in place; each is proved to return and leave exactly what the
  controller's function describes. The `findFirst` lookups by email and by team are scans of the
  key set with loop invariants.
- `requests.dfy` (module `Requests`): any sequence of requests from the empty database keeps
  `Consistent`, and the history log only grows.

The libraries the controllers call are a parameter `Externals`: Zod's `uuid()` and `email()`
formats (`isUuid`, `isEmail`) and bcrypt's `hash`. Keys that the database generates for new rows
are parameters required not to be keys already in use. The acting user comes from the bearer
token and is a parameter `actor`; `request.user?.id` counts as present only when it is a non-empty
string, as in JavaScript.

Where the tests and the controllers disagree, the model follows the controllers:
src/tests/teams.test.ts:139 expects 401 for deleting a missing team, while
src/controllers/team-controller.ts:37 answers 404, which is what `TeamController.Delete` states.
The status codes that schema failures get (400) come from an error handler that is not part of
this model; the model records them only as `Invalid` with the offending fields.

## Model

| member | source | states |
|---|---|---|
| `Domain.ParseStatus` | src/controllers/task-status-controller.ts:12-14 | the status schema accepts a string exactly when it is the name of one of the three statuses, and yields that status |
| `Domain.ParsePriority` | src/controllers/task-priority-controller.ts:12-14 | the priority schema accepts exactly the names `low`, `medium`, `high`, yielding that priority |
| `Domain.ParseRole` | src/controllers/users-controller.ts:13 | the role schema accepts exactly `admin` and `member` |
| `Domain.ParseNameRoundTrip` | src/controllers/task-controller.ts:50-51 | every status, priority and role name is read back as itself |
| `TaskStatusController.Update` | src/controllers/task-status-controller.ts:7-52 | id then status are validated before any lookup; a missing task is 404 "task not found" even without a user; then 401 "User not authenticated"; a completed task is refused with "Task is already completed" and no code, and the database stays as it was; success iff all guards pass, so a same-status request is accepted; a failure changes nothing; success appends exactly one entry (prior status, requested status, task id, acting user) and changes only that task's status; no appended entry starts from `completed`; keeps `Consistent` |
| `TaskController.HistoryOf` | src/controllers/task-controller.ts:8-10 | the history included with a task holds exactly the log entries about that task, each as many times as it occurs in the log, and no other entry |
| `TaskController.CreateIssues` | src/controllers/task-controller.ts:16-21 | the creation body is valid iff title and description have at least 6 characters and both ids are uuids; each failing field is reported |
| `TaskController.Create` | src/controllers/task-controller.ts:15-44 | schema issues first; a missing assignee is 404 "User not found" before the team is checked; a missing team is 404 "Team not found"; success iff valid and both exist; on failure nothing is inserted; on success exactly one task with the given fields, status `pending` and priority `low` is inserted and returned; keeps `Consistent` |
| `TaskController.UpdateIssues` | src/controllers/task-controller.ts:47-52 | the edit body is valid iff status and priority name enum values; title and description are free |
| `TaskController.Update` | src/controllers/task-controller.ts:46-86 | id, then body, then 401 unauthenticated, then 404 "Task not found", then 403 "You can only modify your own task"; success iff the caller is the assignee; a failure changes nothing; success overwrites exactly title, description, status and priority, keeps assignee and team, appends no history; keeps `Consistent` |
| `TaskController.Delete` | src/controllers/task-controller.ts:88-106 | a non-uuid id is rejected; a missing task is 404 "Task not found"; otherwise exactly that task is removed and the rest of the database is unchanged; keeps `Consistent` |
| `TaskController.OwnerMayReopenCompleted` | src/controllers/task-controller.ts:76-83 | the assignee can move a completed task back to `pending`, and nothing is logged |
| `TeamController.CreateIssues` | src/controllers/team-controller.ts:14-17 | the team body is valid iff the name has at least 3 characters and the description at least 6 |
| `TeamController.Create` | src/controllers/team-controller.ts:13-24 | invalid bodies change nothing; success iff the body is valid, inserting exactly one team with the given fields; keeps `Consistent` |
| `TeamController.Delete` | src/controllers/team-controller.ts:26-52 | a non-uuid id is rejected; a missing team is 404 before the task scan; a team with any task is refused with the open-tasks message and 401; success iff the team exists and no task refers to it; a failure changes nothing; success removes exactly that team; keeps `Consistent` |
| `UsersController.CreateIssues` | src/controllers/users-controller.ts:9-14 | the registration body is valid iff name and password have at least 6 characters, the email is an email, and a role, if given, is `admin` or `member` |
| `UsersController.RoleOrMember` | src/controllers/users-controller.ts:31 | a missing role becomes `member`, a given one is kept |
| `UsersController.ProjectionForgetsOnlyPassword` | src/controllers/users-controller.ts:35-37 | the reply drops the password and nothing else |
| `UsersController.Create` | src/controllers/users-controller.ts:8-38 | schema issues first; a taken email is refused with "Email is already use" and no code; success iff valid and the email is free; a failure inserts nothing; success inserts exactly one user storing `hash(password)` and the defaulted role, and replies with that user minus the password; keeps emails unique and `Consistent` |
| `TaskPriorityController.Update` | src/controllers/task-priority-controller.ts:7-25 | id then priority are validated; a missing task is the database client's error; success iff valid and the task exists; success changes only that task's priority, whatever its status, and logs nothing; keeps `Consistent` |
| `Database.Store.FindUserByEmail` | src/controllers/users-controller.ts:18 | the lookup finds a user with that email, and finds none exactly when no user has it |
| `Database.Store.FindTaskOfTeam` | src/controllers/team-controller.ts:40 | the lookup finds a task of that team, and finds none exactly when the team has no task |
| `Database.Store.CreateUser` | src/controllers/users-controller.ts:8-38 | the in-place registration returns and leaves exactly what `UsersController.Create` gives, keeping `Consistent` |
| `Database.Store.TeamIndex` | src/controllers/team-controller.ts:7-11 | lists exactly the teams in the table, changing nothing |
| `Database.Store.CreateTeam` | src/controllers/team-controller.ts:13-24 | the in-place creation matches `TeamController.Create` |
| `Database.Store.DeleteTeam` | src/controllers/team-controller.ts:26-52 | the in-place deletion, with its scan of the task table, matches `TeamController.Delete` |
| `Database.Store.TaskIndex` | src/controllers/task-controller.ts:7-13 | lists every task exactly once with its own history entries and its team (always present in a consistent database), changing nothing |
| `Database.Store.CreateTask` | src/controllers/task-controller.ts:15-44 | the in-place creation matches `TaskController.Create` |
| `Database.Store.UpdateTask` | src/controllers/task-controller.ts:46-86 | the in-place owner edit matches `TaskController.Update` |
| `Database.Store.DeleteTask` | src/controllers/task-controller.ts:88-106 | the in-place deletion matches `TaskController.Delete` |
| `Database.Store.UpdateTaskStatus` | src/controllers/task-status-controller.ts:19-51 | appends the history entry, then rewrites the task's status, ending exactly as `TaskStatusController.Update` describes |
| `Database.Store.UpdateTaskPriority` | src/controllers/task-priority-controller.ts:19-24 | the single-column write matches `TaskPriorityController.Update` |
| `Requests.Apply` | src/routes/task-routes.ts:13-32 | every state-changing request keeps `Consistent`, never removes a user, and extends the history log by at most one entry, and only for a status update |
| `Requests.RunKeepsConsistent` | src/controllers/team-controller.ts:40-49 | any sequence of requests from a consistent database ends in a consistent one |
| `Requests.RunExtendsHistory` | src/controllers/task-status-controller.ts:37-44 | across any sequence of requests the history log is only appended to, at most one entry per request |
| `Requests.ReachableIsConsistent` | src/controllers/task-controller.ts:28-37 | every database reachable from the empty one has unique emails, tasks whose assignee and team exist, and no history entry leaving `completed` |
| `Requests.OnlyOwnerEditReopens` | src/controllers/task-status-controller.ts:33-35 | no request other than the owner edit takes a task out of `completed` |
| `Requests.TeamDeletableAfterItsTask` | src/controllers/team-controller.ts:40-49 | a team with one task cannot be deleted; after that task is deleted it can, and is gone |

## Left out

- HTTP and Express: requests, responses, status-code plumbing and `next` are replaced by the
  `Outcome` value (reply and new database). The error handler that turns a Zod failure or an
  unhandled database exception into a response is not part of this model.
- Authentication and role gates: JWT signing and verification, `EnsureAuthenticator` and
  `verifyUserAuthorization` are not part of this model; the acting user is the `actor` parameter,
  and the admin-only gates of the status, priority and team routes are not modelled.
- The sessions and team-member endpoints are not part of this model (their controllers are not
  among the modelled files); route wiring holds no logic.
- Zod, bcrypt and Prisma are library code: the uuid and email formats and the hash are the
  `Externals` parameter, and the tables are maps. Zod's length limits count UTF-16 code units;
  the model counts `char`s. Request fields are modelled as present strings, so a missing or
  non-string field, which Zod also rejects, is not modelled (only the optional role is).
- UsersController.Create: bcrypt salts at random, so the stored hash is not a function of the
  password; the model fixes `hash` as a function.
- Row ids come from the database's generator as parameters required to be unused; `createdAt`,
  `updatedAt` and the history entry's id and timestamp are not modelled (clocks).
- TaskController.Create: the `pending`/`low` defaults are column defaults of the database
  schema, which is not part of this model; they are taken from the expectation in
  src/tests/tasks.test.ts:107-108.
- TaskPriorityController.Update: the controller does no existence check; what Prisma raises for
  a missing row, and how it is answered, is not visible, so the model reports `StoreError`.
- TaskController.Delete: foreign-key behaviour of the history table when a task with history is
  deleted is decided by the database schema, which is not part of this model; the model removes
  the task and keeps its history entries.
- The status code `AppError` uses when none is passed (already-completed task, taken email) is
  not part of this model; the model records no code.
- TaskController.HistoryOf: the contract fixes which entries a task's history holds and how
  often; that they stay in log order is what the definition does but is not stated.
- The order of the rows `findMany` returns and which row `findFirst` picks are unspecified; the
  listings are sets and the lookups return any matching row.
- Concurrency: the check-then-write steps are modelled as atomic; races between requests are a
  matter of database isolation.
