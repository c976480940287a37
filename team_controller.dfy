/** The team resource: listing, creation with length checks, and deletion refused while any task
    still belongs to the team. */
module TeamController {
  import opened Domain

  const TeamNotFound := "Team not found"
  const OpenTasks := "You have open tasks for this team. Complete the tasks before deleting the team."

  /** Some task belongs to team `teamId`. */
  predicate HasTask(tasks: map<Id, Task>, teamId: Id)
  {
    exists k :: k in tasks && tasks[k].teamId == teamId
  }

  /** The issues of the creation body schema: a name of at least three characters and a
      description of at least six. */
  function CreateIssues(name: string, description: string): (issues: seq<string>)
    ensures issues == [] <==> |name| >= 3 && |description| >= 6
    ensures "name" in issues <==> |name| < 3
    ensures "description" in issues <==> |description| < 6
  {
    Issue(|name| < 3, "name") + Issue(|description| < 6, "description")
  }

  /** POST /team. `newId` is the key the database generates for the new row. */
  function Create(db: Db, newId: Id, name: string, description: string): (out: Outcome<Row<Team>>)
    requires newId !in db.teams
    ensures CreateIssues(name, description) != [] ==>
                  out.result == Err(Invalid(CreateIssues(name, description))) && out.db == db
    ensures out.result.Ok? <==> CreateIssues(name, description) == []
    ensures out.result.Ok? ==>
                  && out.db == db.(teams := db.teams[newId := Team(name, description)])
                  && out.result.value == Row(newId, Team(name, description))
    ensures Consistent(db) ==> Consistent(out.db)
  {
    if CreateIssues(name, description) != [] then Outcome(Err(Invalid(CreateIssues(name, description))), db)
    else Outcome(Ok(Row(newId, Team(name, description))), db.(teams := db.teams[newId := Team(name, description)]))
  }

  /** DELETE /team/:id. The open-tasks refusal carries status 401. */
  function Delete(ext: Externals, db: Db, id: string): (out: Outcome<()>)
    ensures !ext.isUuid(id) ==> out.result == Err(Invalid(["id"]))
    // a missing team is reported before the task scan
    ensures ext.isUuid(id) && id !in db.teams ==> out.result == Err(AppError(TeamNotFound, Some(404)))
    ensures ext.isUuid(id) && id in db.teams && HasTask(db.tasks, id) ==>
                  out.result == Err(AppError(OpenTasks, Some(401)))
    // deletion succeeds exactly when no task refers to the team; never half done
    ensures out.result.Ok? <==> ext.isUuid(id) && id in db.teams && !HasTask(db.tasks, id)
    ensures out.result.Err? ==> out.db == db
    ensures out.result.Ok? ==>
                  out.db == db.(teams := db.teams - {id})
    ensures Consistent(db) ==> Consistent(out.db)
  {
    if !ext.isUuid(id) then Outcome(Err(Invalid(["id"])), db)
    else if id !in db.teams then Outcome(Err(AppError(TeamNotFound, Some(404))), db)
    else if HasTask(db.tasks, id) then Outcome(Err(AppError(OpenTasks, Some(401))), db)
    else Outcome(Ok(()), db.(teams := db.teams - {id}))
  }
}
