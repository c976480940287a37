/** PATCH /task/:id/priority: a single-column write, with no existence, ownership or
    completed-status check in the controller. */
module TaskPriorityController {
  import opened Domain

  /** A missing task surfaces as the exception the database client raises on an update of a
      row that is not there. */
  function Update(ext: Externals, db: Db, id: string, priority: string): (out: Outcome<Row<Task>>)
    ensures !ext.isUuid(id) ==> out.result == Err(Invalid(["id"]))
    ensures ext.isUuid(id) && ParsePriority(priority).None? ==> out.result == Err(Invalid(["priority"]))
    ensures ext.isUuid(id) && ParsePriority(priority).Some? && id !in db.tasks ==>
                  out.result == Err(StoreError)
    ensures out.result.Ok? <==> ext.isUuid(id) && ParsePriority(priority).Some? && id in db.tasks
    ensures out.result.Err? ==> out.db == db
    // only the priority column of that one task changes, whatever its status; nothing is logged
    ensures out.result.Ok? ==>
                  && out.db == db.(tasks := db.tasks[id := db.tasks[id].(priority := ParsePriority(priority).value)])
                  && out.result.value == Row(id, out.db.tasks[id])
    ensures Consistent(db) ==> Consistent(out.db)
  {
    if !ext.isUuid(id) then Outcome(Err(Invalid(["id"])), db)
    else if ParsePriority(priority).None? then Outcome(Err(Invalid(["priority"])), db)
    else if id !in db.tasks then Outcome(Err(StoreError), db)
    else
      var task := db.tasks[id].(priority := ParsePriority(priority).value);
      Outcome(Ok(Row(id, task)), db.(tasks := db.tasks[id := task]))
  }
}
