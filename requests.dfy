/** Sequences of requests against the database, and the invariants every reachable state keeps:
    unique emails, task references that resolve, and a history log that only grows and never
    records a transition out of `completed`. */
module Requests {
  import opened Domain
  import TaskController
  import TeamController
  import UsersController
  import TaskStatusController
  import TaskPriorityController

  /** Every request that can change the database. Creations carry the key the database
      generates for the new row. */
  datatype Request =
    | CreateUser(newId: Id, name: string, email: string, password: string, role: Option<string>)
    | CreateTeam(newId: Id, name: string, description: string)
    | DeleteTeam(id: string)
    | CreateTask(newId: Id, title: string, description: string, assignedTo: string, teamId: string)
    | UpdateTask(id: string, title: string, description: string, status: string, priority: string,
                 actor: Option<Id>)
    | DeleteTask(id: string)
    | UpdateStatus(id: string, status: string, actor: Option<Id>)
    | UpdatePriority(id: string, priority: string)

  /** Generated keys are never keys already in use. */
  predicate FreshFor(db: Db, req: Request)
  {
    match req
    case CreateUser(newId, _, _, _, _) => newId !in db.users
    case CreateTeam(newId, _, _) => newId !in db.teams
    case CreateTask(newId, _, _, _, _) => newId !in db.tasks
    case _ => true
  }

  /** The database after handling `req`. */
  function Apply(ext: Externals, db: Db, req: Request): (after: Db)
    requires FreshFor(db, req)
    ensures Consistent(db) ==> Consistent(after)
    ensures db.history <= after.history
    ensures db.users.Keys <= after.users.Keys
    // only an accepted status update writes to the log, one entry at a time
    ensures !req.UpdateStatus? ==> after.history == db.history
    ensures |after.history| <= |db.history| + 1
  {
    match req
    case CreateUser(newId, name, email, password, role) =>
      UsersController.Create(ext, db, newId, name, email, password, role).db
    case CreateTeam(newId, name, description) =>
      TeamController.Create(db, newId, name, description).db
    case DeleteTeam(id) =>
      TeamController.Delete(ext, db, id).db
    case CreateTask(newId, title, description, assignedTo, teamId) =>
      TaskController.Create(ext, db, newId, title, description, assignedTo, teamId).db
    case UpdateTask(id, title, description, status, priority, actor) =>
      TaskController.Update(ext, db, id, title, description, status, priority, actor).db
    case DeleteTask(id) =>
      TaskController.Delete(ext, db, id).db
    case UpdateStatus(id, status, actor) =>
      TaskStatusController.Update(ext, db, id, status, actor).db
    case UpdatePriority(id, priority) =>
      TaskPriorityController.Update(ext, db, id, priority).db
  }

  /** Each request of `reqs`, handled in turn from `db`, gets fresh keys. */
  ghost predicate Issuable(ext: Externals, db: Db, reqs: seq<Request>)
    decreases |reqs|
  {
    reqs == [] || (FreshFor(db, reqs[0]) && Issuable(ext, Apply(ext, db, reqs[0]), reqs[1..]))
  }

  /** The database after handling `reqs` in order. */
  ghost function Run(ext: Externals, db: Db, reqs: seq<Request>): Db
    requires Issuable(ext, db, reqs)
    decreases |reqs|
  {
    if reqs == [] then db else Run(ext, Apply(ext, db, reqs[0]), reqs[1..])
  }

  lemma {:induction false} RunKeepsConsistent(ext: Externals, db: Db, reqs: seq<Request>)
    requires Issuable(ext, db, reqs)
    requires Consistent(db)
    ensures Consistent(Run(ext, db, reqs))
    decreases |reqs|
  {
    if reqs != [] {
      RunKeepsConsistent(ext, Apply(ext, db, reqs[0]), reqs[1..]);
    }
  }

  /** The history log is append-only: a later state's log extends an earlier one's. */
  lemma {:induction false} RunExtendsHistory(ext: Externals, db: Db, reqs: seq<Request>)
    requires Issuable(ext, db, reqs)
    ensures db.history <= Run(ext, db, reqs).history
    ensures |Run(ext, db, reqs).history| <= |db.history| + |reqs|
    decreases |reqs|
  {
    if reqs != [] {
      RunExtendsHistory(ext, Apply(ext, db, reqs[0]), reqs[1..]);
    }
  }

  /** Every state reachable from the empty database is consistent: emails are unique, each
      task's assignee and team exist, and no logged transition starts from `completed`. */
  lemma ReachableIsConsistent(ext: Externals, reqs: seq<Request>)
    requires Issuable(ext, Empty(), reqs)
    ensures Consistent(Run(ext, Empty(), reqs))
  {
    EmptyIsConsistent();
    RunKeepsConsistent(ext, Empty(), reqs);
  }

  /** Of all requests only the owner edit can take a task out of `completed`. */
  lemma OnlyOwnerEditReopens(ext: Externals, db: Db, req: Request, k: Id)
    requires FreshFor(db, req) && !req.UpdateTask?
    requires k in db.tasks && db.tasks[k].status == Completed
    ensures var after := Apply(ext, db, req);
            k in after.tasks ==> after.tasks[k].status == Completed
  {
  }

  /** A team is deleted once its last task is: the open-tasks refusal lasts exactly as long as
      a task refers to the team. */
  lemma TeamDeletableAfterItsTask(ext: Externals, db: Db, teamId: Id, taskId: Id)
    requires ext.isUuid(teamId) && ext.isUuid(taskId)
    requires teamId in db.teams && taskId in db.tasks && db.tasks[taskId].teamId == teamId
    requires forall k :: k in db.tasks && k != taskId ==> db.tasks[k].teamId != teamId
    ensures TeamController.Delete(ext, db, teamId).result == Err(AppError(TeamController.OpenTasks, Some(401)))
    ensures var afterTask := TaskController.Delete(ext, db, taskId);
            && afterTask.result.Ok?
            && TeamController.Delete(ext, afterTask.db, teamId).result.Ok?
            && teamId !in TeamController.Delete(ext, afterTask.db, teamId).db.teams
  {
  }
}
