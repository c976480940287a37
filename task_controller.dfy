/** The task resource: listing, creation with existence checks on the referenced user and team,
    the owner-only edit, and deletion. */
module TaskController {
  import opened Domain

  const UserNotFound := "User not found"
  const TeamNotFound := "Team not found"
  const TaskNotFound := "Task not found"
  const Unauthenticated := "User not authenticated"
  const NotOwner := "You can only modify your own task"

  /** A task as GET /task lists it, with its history entries and its team included. */
  datatype TaskListing = TaskListing(task: Row<Task>, history: seq<TaskHistory>, team: Option<Team>)

  /** The entries of `log` about task `taskId`, in log order. */
  function HistoryOf(log: seq<TaskHistory>, taskId: Id): (r: seq<TaskHistory>)
    ensures |r| <= |log|
    ensures forall h :: h in r <==> h in log && h.taskId == taskId
    // each entry about the task appears as often as in the log, no other entry at all
    ensures forall h :: multiset(r)[h] == if h.taskId == taskId then multiset(log)[h] else 0
  {
    if log == [] then []
    else
      var init, last := log[..|log| - 1], log[|log| - 1];
      assert log == init + [last];
      if last.taskId == taskId then HistoryOf(init, taskId) + [last]
      else HistoryOf(init, taskId)
  }

  /** The issues of the creation body schema: title and description of at least six characters,
      assignee and team ids in uuid form. */
  function CreateIssues(ext: Externals, title: string, description: string,
                        assignedTo: string, teamId: string): (issues: seq<string>)
    ensures issues == [] <==>
              |title| >= 6 && |description| >= 6 && ext.isUuid(assignedTo) && ext.isUuid(teamId)
    ensures ("title" in issues <==> |title| < 6) && ("team_id" in issues <==> !ext.isUuid(teamId))
    ensures ("description" in issues <==> |description| < 6)
    ensures ("assigned_to" in issues <==> !ext.isUuid(assignedTo))
  {
    Issue(|title| < 6, "title") + Issue(|description| < 6, "description")
    + Issue(!ext.isUuid(assignedTo), "assigned_to") + Issue(!ext.isUuid(teamId), "team_id")
  }

  /** POST /task. `newId` is the key the database generates for the new row; status `pending`
      and priority `low` are the column defaults. */
  function Create(ext: Externals, db: Db, newId: Id, title: string, description: string,
                  assignedTo: string, teamId: string): (out: Outcome<Row<Task>>)
    requires newId !in db.tasks
    ensures CreateIssues(ext, title, description, assignedTo, teamId) != [] ==>
                  out.result == Err(Invalid(CreateIssues(ext, title, description, assignedTo, teamId)))
    // the assignee is looked up before the team
    ensures CreateIssues(ext, title, description, assignedTo, teamId) == [] && assignedTo !in db.users ==>
                  out.result == Err(AppError(UserNotFound, Some(404)))
    ensures (CreateIssues(ext, title, description, assignedTo, teamId) == [] &&
             assignedTo in db.users && teamId !in db.teams) ==>
                  out.result == Err(AppError(TeamNotFound, Some(404)))
    ensures out.result.Ok? <==>
              CreateIssues(ext, title, description, assignedTo, teamId) == [] &&
              assignedTo in db.users && teamId in db.teams
    ensures out.result.Err? ==> out.db == db
    ensures out.result.Ok? ==>
              var task := Task(title, description, Pending, Low, assignedTo, teamId);
              && out.db == db.(tasks := db.tasks[newId := task])
              && out.result.value == Row(newId, task)
    ensures Consistent(db) ==> Consistent(out.db)
  {
    var issues := CreateIssues(ext, title, description, assignedTo, teamId);
    if issues != [] then Outcome(Err(Invalid(issues)), db)
    else if assignedTo !in db.users then Outcome(Err(AppError(UserNotFound, Some(404))), db)
    else if teamId !in db.teams then Outcome(Err(AppError(TeamNotFound, Some(404))), db)
    else
      var task := Task(title, description, Pending, Low, assignedTo, teamId);
      Outcome(Ok(Row(newId, task)), db.(tasks := db.tasks[newId := task]))
  }

  /** The issues of the edit body schema: title and description are any strings, status and
      priority must name enum values. */
  function UpdateIssues(status: string, priority: string): (issues: seq<string>)
    ensures issues == [] <==> ParseStatus(status).Some? && ParsePriority(priority).Some?
    ensures "status" in issues <==> ParseStatus(status).None?
    ensures "priority" in issues <==> ParsePriority(priority).None?
  {
    Issue(ParseStatus(status).None?, "status") + Issue(ParsePriority(priority).None?, "priority")
  }

  /** PATCH /task/:id/updateByUser: the assignee rewrites title, description, status and
      priority. No history entry is written and a completed task may be reopened. */
  function Update(ext: Externals, db: Db, id: string, title: string, description: string,
                  status: string, priority: string, actor: Option<Id>): (out: Outcome<Row<Task>>)
    ensures !ext.isUuid(id) ==> out.result == Err(Invalid(["id"]))
    ensures ext.isUuid(id) && UpdateIssues(status, priority) != [] ==>
                  out.result == Err(Invalid(UpdateIssues(status, priority)))
    // after validation: unauthenticated, then missing task, then not the assignee
    ensures ext.isUuid(id) && UpdateIssues(status, priority) == [] && !Authenticated(actor) ==>
                  out.result == Err(AppError(Unauthenticated, Some(401)))
    ensures (ext.isUuid(id) && UpdateIssues(status, priority) == [] && Authenticated(actor) &&
             id !in db.tasks) ==>
                  out.result == Err(AppError(TaskNotFound, Some(404)))
    ensures (ext.isUuid(id) && UpdateIssues(status, priority) == [] && Authenticated(actor) &&
             id in db.tasks && db.tasks[id].assignedTo != actor.value) ==>
                  out.result == Err(AppError(NotOwner, Some(403)))
    ensures out.result.Ok? <==>
              ext.isUuid(id) && UpdateIssues(status, priority) == [] && Authenticated(actor) &&
              id in db.tasks && db.tasks[id].assignedTo == actor.value
    ensures out.result.Err? ==> out.db == db
    ensures out.result.Ok? ==>
              var prev := db.tasks[id];
              var task := Task(title, description, ParseStatus(status).value,
                               ParsePriority(priority).value, prev.assignedTo, prev.teamId);
              && out.db == db.(tasks := db.tasks[id := task])
              && out.result.value == Row(id, task)
    ensures Consistent(db) ==> Consistent(out.db)
  {
    if !ext.isUuid(id) then Outcome(Err(Invalid(["id"])), db)
    else if UpdateIssues(status, priority) != [] then Outcome(Err(Invalid(UpdateIssues(status, priority))), db)
    else if !Authenticated(actor) then Outcome(Err(AppError(Unauthenticated, Some(401))), db)
    else if id !in db.tasks then Outcome(Err(AppError(TaskNotFound, Some(404))), db)
    else if db.tasks[id].assignedTo != actor.value then Outcome(Err(AppError(NotOwner, Some(403))), db)
    else
      var task := db.tasks[id].(title := title, description := description,
                                status := ParseStatus(status).value,
                                priority := ParsePriority(priority).value);
      Outcome(Ok(Row(id, task)), db.(tasks := db.tasks[id := task]))
  }

  /** DELETE /task/:id. */
  function Delete(ext: Externals, db: Db, id: string): (out: Outcome<()>)
    ensures !ext.isUuid(id) ==> out.result == Err(Invalid(["id"]))
    ensures ext.isUuid(id) && id !in db.tasks ==> out.result == Err(AppError(TaskNotFound, Some(404)))
    ensures out.result.Ok? <==> ext.isUuid(id) && id in db.tasks
    ensures out.result.Err? ==> out.db == db
    ensures out.result.Ok? ==> out.db == db.(tasks := db.tasks - {id})
    ensures Consistent(db) ==> Consistent(out.db)
  {
    if !ext.isUuid(id) then Outcome(Err(Invalid(["id"])), db)
    else if id !in db.tasks then Outcome(Err(AppError(TaskNotFound, Some(404))), db)
    else Outcome(Ok(()), db.(tasks := db.tasks - {id}))
  }

  /** Owner edits do not guard `completed`: the assignee can move a completed task back to
      `pending`, and nothing is logged. */
  lemma OwnerMayReopenCompleted(ext: Externals, db: Db, id: Id, title: string, description: string)
    requires ext.isUuid(id) && id in db.tasks && db.tasks[id].status == Completed
    requires db.tasks[id].assignedTo != ""
    ensures var out := Update(ext, db, id, title, description, "pending", "low",
                              Some(db.tasks[id].assignedTo));
            && out.result.Ok?
            && out.db.tasks[id].status == Pending
            && out.db.history == db.history
  {
  }
}
