/** POST /users: registration with a unique email, a hashed password and `member` as the
    default role. */
module UsersController {
  import opened Domain

  const EmailInUse := "Email is already use"

  /** The issues of the registration body schema: name of at least six characters, an email,
      a password of at least six characters, and a role, when one is given, naming a role. */
  function CreateIssues(ext: Externals, name: string, email: string, password: string,
                        role: Option<string>): (issues: seq<string>)
    ensures issues == [] <==>
                  |name| >= 6 && ext.isEmail(email) && |password| >= 6 &&
                  (role.None? || ParseRole(role.value).Some?)
    ensures ("name" in issues <==> |name| < 6) && ("email" in issues <==> !ext.isEmail(email))
    ensures "password" in issues <==> |password| < 6
    ensures "role" in issues <==> role.Some? && ParseRole(role.value).None?
  {
    Issue(|name| < 6, "name") + Issue(!ext.isEmail(email), "email") + Issue(|password| < 6, "password")
    + Issue(role.Some? && ParseRole(role.value).None?, "role")
  }

  /** The role a registration stores: the one given, else `member`. */
  function RoleOrMember(role: Option<string>): (r: Role)
    requires role.None? || ParseRole(role.value).Some?
    ensures role.None? ==> r == Member
    ensures role.Some? ==> RoleName(r) == role.value
  {
    if role.None? then Member else ParseRole(role.value).value
  }

  /** The reply to a registration: the stored user without its password. */
  function WithoutPassword(id: Id, u: User): PublicUser
  {
    PublicUser(id, u.name, u.email, u.role)
  }

  /** The projection forgets the password and nothing else: two users project alike exactly
      when they differ at most in their passwords. */
  lemma ProjectionForgetsOnlyPassword(id: Id, u: User, v: User)
    ensures WithoutPassword(id, u) == WithoutPassword(id, v) <==> u == v.(password := u.password)
  {
  }

  /** POST /users. `newId` is the key the database generates for the new row. The duplicate-email
      error passes no status code. */
  function Create(ext: Externals, db: Db, newId: Id, name: string, email: string, password: string,
                  role: Option<string>): (out: Outcome<PublicUser>)
    requires newId !in db.users
    ensures CreateIssues(ext, name, email, password, role) != [] ==>
                  out.result == Err(Invalid(CreateIssues(ext, name, email, password, role)))
    ensures CreateIssues(ext, name, email, password, role) == [] && EmailTaken(db.users, email) ==>
                  out.result == Err(AppError(EmailInUse, None))
    ensures out.result.Ok? <==>
                  CreateIssues(ext, name, email, password, role) == [] && !EmailTaken(db.users, email)
    ensures out.result.Err? ==> out.db == db
    // one user is inserted, storing hash(password), with the role defaulted to member
    ensures out.result.Ok? ==>
                  && newId in out.db.users
                  && out.db == db.(users := db.users[newId := out.db.users[newId]])
                  && out.db.users[newId].name == name && out.db.users[newId].email == email
                  && out.db.users[newId].password == ext.hash(password)
                  && (role.None? ==> out.db.users[newId].role == Member)
                  && (role.Some? ==> RoleName(out.db.users[newId].role) == role.value)
                  && out.result.value == WithoutPassword(newId, out.db.users[newId])
    ensures EmailsUnique(db.users) ==> EmailsUnique(out.db.users)
    ensures Consistent(db) ==> Consistent(out.db)
  {
    if CreateIssues(ext, name, email, password, role) != [] then
      Outcome(Err(Invalid(CreateIssues(ext, name, email, password, role))), db)
    else if EmailTaken(db.users, email) then Outcome(Err(AppError(EmailInUse, None)), db)
    else
      var user := User(name, email, ext.hash(password), RoleOrMember(role));
      Outcome(Ok(WithoutPassword(newId, user)), db.(users := db.users[newId := user]))
  }
}
