/** The records of the task/team API, the shape of its error replies, and the
    consistency conditions the database keeps between its tables. */
module Domain {

  /** Primary keys are the strings Prisma generates. */
  type Id = string

  datatype Option<+T> = None | Some(value: T)

  datatype Status = Pending | InProgress | Completed
  datatype Priority = Low | Medium | High
  datatype Role = Admin | Member

  function StatusName(s: Status): string
  {
    match s
    case Pending => "pending"
    case InProgress => "inProgress"
    case Completed => "completed"
  }

  function PriorityName(p: Priority): string
  {
    match p
    case Low => "low"
    case Medium => "medium"
    case High => "high"
  }

  function RoleName(r: Role): string
  {
    match r
    case Admin => "admin"
    case Member => "member"
  }

  /** z.enum(["pending", "inProgress", "completed"]): accepts exactly the three names. */
  function ParseStatus(s: string): (r: Option<Status>)
    ensures r.Some? ==> StatusName(r.value) == s
    ensures r.None? ==> forall st: Status :: StatusName(st) != s
  {
    if s == "pending" then Some(Pending)
    else if s == "inProgress" then Some(InProgress)
    else if s == "completed" then Some(Completed)
    else None
  }

  /** z.enum(["low", "medium", "high"]). */
  function ParsePriority(s: string): (r: Option<Priority>)
    ensures r.Some? ==> PriorityName(r.value) == s
    ensures r.None? ==> forall p: Priority :: PriorityName(p) != s
  {
    if s == "low" then Some(Low)
    else if s == "medium" then Some(Medium)
    else if s == "high" then Some(High)
    else None
  }

  /** z.enum(["admin", "member"]). */
  function ParseRole(s: string): (r: Option<Role>)
    ensures r.Some? ==> RoleName(r.value) == s
    ensures r.None? ==> forall ro: Role :: RoleName(ro) != s
  {
    if s == "admin" then Some(Admin)
    else if s == "member" then Some(Member)
    else None
  }

  /** Every enum value is read back as itself: the parsers reject nothing they should accept. */
  lemma ParseNameRoundTrip(st: Status, p: Priority, ro: Role)
    ensures ParseStatus(StatusName(st)) == Some(st)
    ensures ParsePriority(PriorityName(p)) == Some(p)
    ensures ParseRole(RoleName(ro)) == Some(ro)
  {
  }

  datatype User = User(name: string, email: string, password: string, role: Role)

  /** What the API returns for a user: every column but the password. */
  datatype PublicUser = PublicUser(id: Id, name: string, email: string, role: Role)

  datatype Team = Team(name: string, description: string)

  datatype Task = Task(title: string, description: string, status: Status, priority: Priority,
                       assignedTo: Id, teamId: Id)

  datatype TaskHistory = TaskHistory(taskId: Id, oldStatus: Status, newStatus: Status, changedBy: Id)

  /** A row as Prisma returns it: its key together with its columns. */
  datatype Row<T> = Row(id: Id, fields: T)

  /** The error a request ends with. `Invalid` is a schema (Zod) failure, answered with 400 and
      listing every offending field; `AppError` carries the controller's message and, when the
      controller passes one, its status code; `StoreError` is an exception raised by the
      database client itself. */
  datatype Failure =
    | Invalid(issues: seq<string>)
    | AppError(message: string, code: Option<nat>)
    | StoreError

  datatype Result<T> = Ok(value: T) | Err(failure: Failure)

  /** Library code the controllers call but that is not part of this model: Zod's uuid() and
      email() string formats and bcrypt's hash. */
  datatype Externals = Externals(isUuid: string -> bool, isEmail: string -> bool, hash: string -> string)

  /** The database: three tables keyed by id and the append-only task-history log. */
  datatype Db = Db(users: map<Id, User>, teams: map<Id, Team>, tasks: map<Id, Task>,
                   history: seq<TaskHistory>)

  /** A handled request: what the caller gets back and the database afterwards. */
  datatype Outcome<T> = Outcome(result: Result<T>, db: Db)

  function Empty(): Db
  {
    Db(map[], map[], map[], [])
  }

  /** `request.user?.id` is truthy: present and not the empty string. */
  predicate Authenticated(actor: Option<Id>)
  {
    actor.Some? && actor.value != ""
  }

  /** One Zod issue when `failed`, none otherwise. */
  function Issue(failed: bool, field: string): seq<string>
  {
    if failed then [field] else []
  }

  predicate EmailTaken(users: map<Id, User>, email: string)
  {
    exists k :: k in users && users[k].email == email
  }

  ghost predicate EmailsUnique(users: map<Id, User>)
  {
    forall a, b :: a in users && b in users && a != b ==> users[a].email != users[b].email
  }

  /** Every task's assignee and team name existing rows. */
  ghost predicate ReferencesResolve(db: Db)
  {
    forall k :: k in db.tasks ==> db.tasks[k].assignedTo in db.users && db.tasks[k].teamId in db.teams
  }

  /** No logged transition starts from `completed`. */
  ghost predicate NeverLeavesCompleted(history: seq<TaskHistory>)
  {
    forall i :: 0 <= i < |history| ==> history[i].oldStatus != Completed
  }

  ghost predicate Consistent(db: Db)
  {
    EmailsUnique(db.users) && ReferencesResolve(db) && NeverLeavesCompleted(db.history)
  }

  lemma EmptyIsConsistent()
    ensures Consistent(Empty())
  {
  }
}
