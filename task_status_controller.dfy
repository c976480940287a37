/** PATCH /task/:id/status: the task status state machine. `completed` is terminal for this
    endpoint, and every accepted transition is logged in the task history before the task row
    is rewritten. */
module TaskStatusController {
  import opened Domain

  const NotFound := "task not found"
  const Unauthenticated := "User not authenticated"
  const AlreadyCompleted := "Task is already completed"

  /** The request `id` (route parameter), `status` (body) from the user `actor` named by the
      bearer token, if any. The already-completed error passes no status code. */
  function Update(ext: Externals, db: Db, id: string, status: string, actor: Option<Id>)
    : (out: Outcome<Row<Task>>)
    // the schemas run before the database is read: the route parameter first, then the body
    ensures !ext.isUuid(id) ==> out.result == Err(Invalid(["id"]))
    ensures ext.isUuid(id) && ParseStatus(status).None? ==> out.result == Err(Invalid(["status"]))
    // a missing task is reported even to an unauthenticated caller
    ensures ext.isUuid(id) && ParseStatus(status).Some? && id !in db.tasks ==>
                  out.result == Err(AppError(NotFound, Some(404)))
    ensures ext.isUuid(id) && ParseStatus(status).Some? && id in db.tasks && !Authenticated(actor) ==>
                  out.result == Err(AppError(Unauthenticated, Some(401)))
    ensures (ext.isUuid(id) && ParseStatus(status).Some? && id in db.tasks && Authenticated(actor) &&
             db.tasks[id].status == Completed) ==>
                  out.result == Err(AppError(AlreadyCompleted, None)) && out.db == db
    // accepted exactly when every guard passes; only `completed` is refused, so a request for
    // the status the task already has is accepted
    ensures out.result.Ok? <==>
              ext.isUuid(id) && ParseStatus(status).Some? && id in db.tasks &&
              Authenticated(actor) && db.tasks[id].status != Completed
    ensures out.result.Err? ==> out.db == db
    // an accepted transition: one history entry, then that task's status and nothing else
    ensures out.result.Ok? ==>
              var s := ParseStatus(status).value;
              && out.db.history == db.history + [TaskHistory(id, db.tasks[id].status, s, actor.value)]
              && out.db.tasks == db.tasks[id := db.tasks[id].(status := s)]
              && out.db.users == db.users && out.db.teams == db.teams
              && out.result.value == Row(id, out.db.tasks[id])
    ensures forall i :: |db.history| <= i < |out.db.history| ==> out.db.history[i].oldStatus != Completed
    ensures Consistent(db) ==> Consistent(out.db)
  {
    if !ext.isUuid(id) then Outcome(Err(Invalid(["id"])), db)
    else if ParseStatus(status).None? then Outcome(Err(Invalid(["status"])), db)
    else if id !in db.tasks then Outcome(Err(AppError(NotFound, Some(404))), db)
    else if !Authenticated(actor) then Outcome(Err(AppError(Unauthenticated, Some(401))), db)
    else
      var task := db.tasks[id];
      if task.status == Completed then Outcome(Err(AppError(AlreadyCompleted, None)), db)
      else
        var entry := TaskHistory(id, task.status, ParseStatus(status).value, actor.value);
        var updated := task.(status := ParseStatus(status).value);
        Outcome(Ok(Row(id, updated)),
                db.(history := db.history + [entry], tasks := db.tasks[id := updated]))
  }
}
