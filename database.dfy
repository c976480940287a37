/** The database the controllers share, as one object whose tables the request handlers update in
    place. Each handler runs its guards in the controller's order and then writes; its contract
    equates the reply and the new tables with the controller's function on the old tables, whose
    properties are stated where that function is defined. */
module Database {
  import opened Domain
  import TaskController
  import TeamController
  import UsersController
  import TaskStatusController
  import TaskPriorityController

  class Store {
    var users: map<Id, User>
    var teams: map<Id, Team>
    var tasks: map<Id, Task>
    var history: seq<TaskHistory>

    function Snapshot(): Db
      reads this
    {
      Db(users, teams, tasks, history)
    }

    /** A fresh, empty database. */
    constructor ()
      ensures Snapshot() == Empty()
    {
      users, teams, tasks, history := map[], map[], map[], [];
    }

    /** prisma.user.findFirst({ where: { email } }): a scan of the user table. */
    method FindUserByEmail(email: string) returns (found: Option<Id>)
      ensures found.Some? ==> found.value in users && users[found.value].email == email
      ensures found.None? <==> !EmailTaken(users, email)
    {
      var unseen := users.Keys;
      while unseen != {}
        invariant unseen <= users.Keys
        invariant forall k :: k in users && k !in unseen ==> users[k].email != email
        decreases unseen
      {
        var k :| k in unseen;
        if users[k].email == email {
          return Some(k);
        }
        unseen := unseen - {k};
      }
      return None;
    }

    /** prisma.task.findFirst({ where: { teamId } }): a scan of the task table. */
    method FindTaskOfTeam(teamId: Id) returns (found: Option<Id>)
      ensures found.Some? ==> found.value in tasks && tasks[found.value].teamId == teamId
      ensures found.None? <==> !TeamController.HasTask(tasks, teamId)
    {
      var unseen := tasks.Keys;
      while unseen != {}
        invariant unseen <= tasks.Keys
        invariant forall k :: k in tasks && k !in unseen ==> tasks[k].teamId != teamId
        decreases unseen
      {
        var k :| k in unseen;
        if tasks[k].teamId == teamId {
          return Some(k);
        }
        unseen := unseen - {k};
      }
      return None;
    }

    /** UsersController.create. */
    method CreateUser(ext: Externals, newId: Id, name: string, email: string, password: string,
                      role: Option<string>) returns (r: Result<PublicUser>)
      requires newId !in users
      modifies this
      ensures var out := UsersController.Create(ext, old(Snapshot()), newId, name, email, password, role);
              r == out.result && Snapshot() == out.db
      ensures old(Consistent(Snapshot())) ==> Consistent(Snapshot())
    {
      var issues := UsersController.CreateIssues(ext, name, email, password, role);
      if issues != [] {
        return Err(Invalid(issues));
      }
      var existing := FindUserByEmail(email);
      if existing.Some? {
        return Err(AppError(UsersController.EmailInUse, None));
      }
      var user := User(name, email, ext.hash(password), UsersController.RoleOrMember(role));
      users := users[newId := user];
      r := Ok(UsersController.WithoutPassword(newId, user));
    }

    /** TeamController.index: every team, nothing changed. */
    method TeamIndex() returns (all: set<Row<Team>>)
      ensures forall row :: row in all <==> row.id in teams && teams[row.id] == row.fields
    {
      all := set k | k in teams :: Row(k, teams[k]);
    }

    /** TeamController.create. */
    method CreateTeam(newId: Id, name: string, description: string) returns (r: Result<Row<Team>>)
      requires newId !in teams
      modifies this
      ensures var out := TeamController.Create(old(Snapshot()), newId, name, description);
              r == out.result && Snapshot() == out.db
      ensures old(Consistent(Snapshot())) ==> Consistent(Snapshot())
    {
      var issues := TeamController.CreateIssues(name, description);
      if issues != [] {
        return Err(Invalid(issues));
      }
      var team := Team(name, description);
      teams := teams[newId := team];
      r := Ok(Row(newId, team));
    }

    /** TeamController.delete. */
    method DeleteTeam(ext: Externals, id: string) returns (r: Result<()>)
      modifies this
      ensures var out := TeamController.Delete(ext, old(Snapshot()), id);
              r == out.result && Snapshot() == out.db
      ensures old(Consistent(Snapshot())) ==> Consistent(Snapshot())
    {
      if !ext.isUuid(id) {
        return Err(Invalid(["id"]));
      }
      if id !in teams {
        return Err(AppError(TeamController.TeamNotFound, Some(404)));
      }
      var open := FindTaskOfTeam(id);
      if open.Some? {
        return Err(AppError(TeamController.OpenTasks, Some(401)));
      }
      teams := teams - {id};
      r := Ok(());
    }

    /** The listing of task `k`: the row, its history entries and its team. */
    function ListingOf(k: Id): TaskController.TaskListing
      requires k in tasks
      reads this
    {
      TaskController.TaskListing(Row(k, tasks[k]), TaskController.HistoryOf(history, k),
                                 if tasks[k].teamId in teams then Some(teams[tasks[k].teamId]) else None)
    }

    /** TaskController.index: every task with its history and team, nothing changed. */
    method TaskIndex() returns (all: set<TaskController.TaskListing>)
      ensures forall k :: k in tasks ==> ListingOf(k) in all
      ensures forall l :: l in all ==> l.task.id in tasks && l == ListingOf(l.task.id)
      ensures forall l, h :: l in all && h in l.history ==> h in history && h.taskId == l.task.id
      ensures ReferencesResolve(Snapshot()) ==> forall l :: l in all ==> l.team.Some?
    {
      all := set k | k in tasks :: ListingOf(k);
    }

    /** TaskController.create. */
    method CreateTask(ext: Externals, newId: Id, title: string, description: string,
                      assignedTo: string, teamId: string) returns (r: Result<Row<Task>>)
      requires newId !in tasks
      modifies this
      ensures var out := TaskController.Create(ext, old(Snapshot()), newId, title, description, assignedTo, teamId);
              r == out.result && Snapshot() == out.db
      ensures old(Consistent(Snapshot())) ==> Consistent(Snapshot())
    {
      var issues := TaskController.CreateIssues(ext, title, description, assignedTo, teamId);
      if issues != [] {
        return Err(Invalid(issues));
      }
      if assignedTo !in users {
        return Err(AppError(TaskController.UserNotFound, Some(404)));
      }
      if teamId !in teams {
        return Err(AppError(TaskController.TeamNotFound, Some(404)));
      }
      var task := Task(title, description, Pending, Low, assignedTo, teamId);
      tasks := tasks[newId := task];
      r := Ok(Row(newId, task));
    }

    /** TaskController.update: the owner-only edit. */
    method UpdateTask(ext: Externals, id: string, title: string, description: string,
                      status: string, priority: string, actor: Option<Id>) returns (r: Result<Row<Task>>)
      modifies this
      ensures var out := TaskController.Update(ext, old(Snapshot()), id, title, description, status, priority, actor);
              r == out.result && Snapshot() == out.db
      ensures old(Consistent(Snapshot())) ==> Consistent(Snapshot())
    {
      if !ext.isUuid(id) {
        return Err(Invalid(["id"]));
      }
      var issues := TaskController.UpdateIssues(status, priority);
      if issues != [] {
        return Err(Invalid(issues));
      }
      if !Authenticated(actor) {
        return Err(AppError(TaskController.Unauthenticated, Some(401)));
      }
      if id !in tasks {
        return Err(AppError(TaskController.TaskNotFound, Some(404)));
      }
      if tasks[id].assignedTo != actor.value {
        return Err(AppError(TaskController.NotOwner, Some(403)));
      }
      var task := tasks[id].(title := title, description := description,
                             status := ParseStatus(status).value, priority := ParsePriority(priority).value);
      tasks := tasks[id := task];
      r := Ok(Row(id, task));
    }

    /** TaskController.delete. */
    method DeleteTask(ext: Externals, id: string) returns (r: Result<()>)
      modifies this
      ensures var out := TaskController.Delete(ext, old(Snapshot()), id);
              r == out.result && Snapshot() == out.db
      ensures old(Consistent(Snapshot())) ==> Consistent(Snapshot())
    {
      if !ext.isUuid(id) {
        return Err(Invalid(["id"]));
      }
      if id !in tasks {
        return Err(AppError(TaskController.TaskNotFound, Some(404)));
      }
      tasks := tasks - {id};
      r := Ok(());
    }

    /** TaskStatusController.update: the history entry is appended before the task row is
        rewritten. */
    method UpdateTaskStatus(ext: Externals, id: string, status: string, actor: Option<Id>)
      returns (r: Result<Row<Task>>)
      modifies this
      ensures var out := TaskStatusController.Update(ext, old(Snapshot()), id, status, actor);
              r == out.result && Snapshot() == out.db
      ensures old(Consistent(Snapshot())) ==> Consistent(Snapshot())
    {
      if !ext.isUuid(id) {
        return Err(Invalid(["id"]));
      }
      var requested := ParseStatus(status);
      if requested.None? {
        return Err(Invalid(["status"]));
      }
      if id !in tasks {
        return Err(AppError(TaskStatusController.NotFound, Some(404)));
      }
      var task := tasks[id];
      if !Authenticated(actor) {
        return Err(AppError(TaskStatusController.Unauthenticated, Some(401)));
      }
      var oldStatus := task.status;
      if oldStatus == Completed {
        return Err(AppError(TaskStatusController.AlreadyCompleted, None));
      }
      history := history + [TaskHistory(id, oldStatus, requested.value, actor.value)];
      var updated := task.(status := requested.value);
      tasks := tasks[id := updated];
      r := Ok(Row(id, updated));
    }

    /** TaskPriorityController.update. */
    method UpdateTaskPriority(ext: Externals, id: string, priority: string) returns (r: Result<Row<Task>>)
      modifies this
      ensures var out := TaskPriorityController.Update(ext, old(Snapshot()), id, priority);
              r == out.result && Snapshot() == out.db
      ensures old(Consistent(Snapshot())) ==> Consistent(Snapshot())
    {
      if !ext.isUuid(id) {
        return Err(Invalid(["id"]));
      }
      var requested := ParsePriority(priority);
      if requested.None? {
        return Err(Invalid(["priority"]));
      }
      if id !in tasks {
        return Err(StoreError);
      }
      var updated := tasks[id].(priority := requested.value);
      tasks := tasks[id := updated];
      r := Ok(Row(id, updated));
    }
  }
}
