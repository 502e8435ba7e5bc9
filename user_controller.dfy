/** User management of src/controllers/userController.ts: the role-dependent user listing,
    the partial update of a user row, and the deletion of an inactive user. */
module UserController {
  import opened Wrappers
  import opened Seqs
  import opened Model
  import opened Database
  import AuthMiddleware

  /** The columns the listing selects: every column but the password (userController.ts:16). */
  datatype UserSummary = UserSummary(id: nat, name: string, email: string, role: Role,
                                     isActive: bool, createdBy: Option<nat>)

  function Summarize(u: User): UserSummary
  {
    UserSummary(u.id, u.name, u.email, u.role, u.isActive, u.createdBy)
  }

  /** A list for staff callers; a single row, or none, for everyone else. */
  datatype UserView = Listing(users: seq<UserSummary>) | Single(user: Option<UserSummary>)

  /** Who sees which user: a superadmin everyone, an admin the `user` rows it created, anyone
      else only their own row. */
  predicate Sees(caller: Caller, u: User)
  {
    match caller.role
    case SuperAdminRole => true
    case AdminRole => u.createdBy == Some(caller.id) && u.role == UserRole
    case _ => u.id == caller.id
  }

  /** The rows a staff caller's query selects (userController.ts:15-25). */
  function StaffQuery(caller: Caller): User -> bool
  {
    if caller.role == SuperAdminRole then (u: User) => true
    else (u: User) => u.createdBy == Some(caller.id) && u.role == UserRole
  }

  /** getUser (userController.ts:8-39). */
  function GetUser(caller: Caller, users: seq<User>): (v: UserView)
    ensures v.Listing? <==> IsStaff(caller.role)
    ensures v.Single? ==> (v.user.Some? <==> Registered(users, caller.id))
    ensures v.Single? && v.user.Some? ==> v.user.value.id == caller.id
    ensures v.Single? && v.user.Some? ==> exists u :: u in users && u.id == caller.id && v.user.value == Summarize(u)
    ensures v.Listing? ==> forall u :: u in users && Sees(caller, u) ==> Summarize(u) in v.users
    ensures v.Listing? ==> forall k :: 0 <= k < |v.users| ==>
              exists u :: u in users && Sees(caller, u) && Summarize(u) == v.users[k]
  {
    if IsStaff(caller.role) then
      var rows := NewestFirst(users, StaffQuery(caller));
      MapSeqMembers(Summarize, rows);
      Listing(MapSeq(Summarize, rows))
    else
      match FindUser(users, caller.id)
      case None => Single(None)
      case Some(i) => Single(Some(Summarize(users[i])))
  }

  /** With unique ids the listing holds a user exactly when the caller sees that user. */
  lemma GetUserExact(caller: Caller, users: seq<User>, u: User)
    requires forall i, j :: 0 <= i < j < |users| ==> users[i].id < users[j].id
    requires IsStaff(caller.role) && u in users
    ensures Summarize(u) in GetUser(caller, users).users <==> Sees(caller, u)
  {
    var listed := GetUser(caller, users).users;
    if Summarize(u) in listed {
      var k :| 0 <= k < |listed| && listed[k] == Summarize(u);
      var v :| v in users && Sees(caller, v) && Summarize(v) == listed[k];
      var a :| 0 <= a < |users| && users[a] == u;
      var b :| 0 <= b < |users| && users[b] == v;
      assert users[a].id == users[b].id;
      assert a == b;
    }
  }

  /** Over a table in ascending id order the listing is in strictly descending id order. */
  lemma GetUserNewestFirst(caller: Caller, users: seq<User>)
    requires forall i, j :: 0 <= i < j < |users| ==> users[i].id < users[j].id
    requires IsStaff(caller.role)
    ensures var listed := GetUser(caller, users).users;
      forall i, j :: 0 <= i < j < |listed| ==> listed[i].id > listed[j].id
  {
    NewestFirstDescends(users, StaffQuery(caller), (u: User) => u.id as int);
  }

  /** The checks updateuser makes before it writes (userController.ts:54-69, and the same code
      at authControllers.ts:150-165): the target exists; an admin may update only `user` rows
      other than its own; a `user` may update no one; anyone else may update anyone. */
  function UpdateGuard(caller: Caller, users: seq<User>, id: nat): (r: Result<nat>)
    ensures FindUser(users, id).None? ==> r == Err(NotFound)
    ensures FindUser(users, id).Some? ==>
      var i := FindUser(users, id).value;
      && (caller.role == UserRole ==> r == Err(Forbidden))
      && (caller.role == AdminRole ==>
            r == if users[i].role == UserRole && users[i].id != caller.id then Ok(i) else Err(Forbidden))
      && (caller.role == SuperAdminRole || caller.role.OtherRole? ==> r == Ok(i))
  {
    match FindUser(users, id)
    case None => Err(NotFound)
    case Some(i) =>
      if caller.role == AdminRole then
        if users[i].role != UserRole then Err(Forbidden)
        else if users[i].id == caller.id then Err(Forbidden)
        else Ok(i)
      else if caller.role == UserRole then Err(Forbidden)
      else Ok(i)
  }

  /** The handler's own guard decides exactly as the roleCheckUpdateDelete middleware in
      front of it: the repeated check never refuses what the middleware let through. */
  lemma GuardAgreesWithMiddleware(caller: Caller, users: seq<User>, id: nat)
    ensures UpdateGuard(caller, users, id).Ok? <==> AuthMiddleware.RoleCheckUpdateDelete(Some(caller), users, id) == Pass
    ensures UpdateGuard(caller, users, id).Err? ==>
              AuthMiddleware.RoleCheckUpdateDelete(Some(caller), users, id) == Fail(UpdateGuard(caller, users, id).error)
  {
  }

  /** Another row already holds `email`. */
  predicate EmailTakenByOther(users: seq<User>, i: nat, email: string)
  {
    exists k :: 0 <= k < |users| && k != i && users[k].email == email
  }

  /** The row updateuser writes (userController.ts:72-76): a field changes only when the
      request supplies it (a non-empty string; for `isActive`, a boolean), and then takes the
      supplied value, the password hashed; the id and `createdBy` never change. */
  function Patched(before: User, name: Option<string>, email: Option<string>, password: Option<string>,
                   role: Option<string>, isActive: Option<bool>, hash: string -> string): (u: User)
    ensures u.id == before.id && u.createdBy == before.createdBy
    ensures u.name != before.name ==> Supplied(name)
    ensures u.email != before.email ==> Supplied(email)
    ensures u.password != before.password ==> Supplied(password)
    ensures u.role != before.role ==> Supplied(role)
    ensures u.isActive != before.isActive ==> isActive.Some?
    ensures Supplied(name) ==> u.name == name.value
    ensures Supplied(email) ==> u.email == email.value
    ensures Supplied(password) ==> u.password == hash(password.value)
    ensures Supplied(role) ==> RoleName(u.role) == role.value
    ensures isActive.Some? ==> u.isActive == isActive.value
  {
    before.(name := if Supplied(name) then name.value else before.name,
            email := if Supplied(email) then email.value else before.email,
            password := if Supplied(password) then hash(password.value) else before.password,
            role := if Supplied(role) then ParseRole(role.value) else before.role,
            isActive := if isActive.Some? then isActive.value else before.isActive)
  }

  /** updateuser (userController.ts:49-84): after the guard the target row is patched field
      by field. Saving an email that another row holds violates the unique column
      (User.ts:19), and the handler answers 500 with nothing written. */
  method UpdateUser(db: Db, caller: Caller, id: nat, name: Option<string>, email: Option<string>,
                    password: Option<string>, role: Option<string>, isActive: Option<bool>,
                    hash: string -> string) returns (r: Result<User>)
    requires db.Valid()
    modifies db`users
    ensures db.Valid()
    ensures UpdateGuard(caller, old(db.users), id).Err? ==>
              r == Err(UpdateGuard(caller, old(db.users), id).error) && db.users == old(db.users)
    ensures UpdateGuard(caller, old(db.users), id).Ok? ==>
              var i := UpdateGuard(caller, old(db.users), id).value;
              var patched := Patched(old(db.users)[i], name, email, password, role, isActive, hash);
              if EmailTakenByOther(old(db.users), i, patched.email) then
                r == Err(ServerError) && db.users == old(db.users)
              else
                r == Ok(patched) && db.users == old(db.users)[i := patched]
  {
    var guard := UpdateGuard(caller, db.users, id);
    if guard.Err? {
      return Err(guard.error);
    }
    var i := guard.value;
    var user := db.users[i];
    if Supplied(name) { user := user.(name := name.value); }
    if Supplied(password) { user := user.(password := hash(password.value)); }
    if Supplied(email) { user := user.(email := email.value); }
    if Supplied(role) { user := user.(role := ParseRole(role.value)); }
    if isActive.Some? { user := user.(isActive := isActive.value); }
    assert user == Patched(db.users[i], name, email, password, role, isActive, hash);

    if EmailTakenByOther(db.users, i, user.email) {
      return Err(ServerError);
    }
    ReplaceUserKeepsWellFormed(db.users, db.tokens, db.accounts, db.bedash,
                               db.nextUserId, db.nextTokenId, db.nextBedashId, i, user);
    db.users := db.users[i := user];
    r := Ok(user);
  }

  /** The checks deleteUser makes (userController.ts:89-96, and the same code at
      authControllers.ts:197-204): the user must exist and must have been deactivated. */
  function DeleteCheck(users: seq<User>, id: nat): (o: Outcome)
    ensures FindUser(users, id).None? ==> o == Fail(NotFound)
    ensures FindUser(users, id).Some? ==> (o == Pass <==> !users[FindUser(users, id).value].isActive)
    ensures o.Fail? && FindUser(users, id).Some? ==> o.error == Forbidden
    ensures o == Pass ==> exists k :: 0 <= k < |users| && users[k].id == id && !users[k].isActive
  {
    match FindUser(users, id)
    case None => Fail(NotFound)
    case Some(i) => if users[i].isActive then Fail(Forbidden) else Pass
  }

  /** deleteUser (userController.ts:86-104, and the same code at authControllers.ts:194-212):
      after the checks, removing the row removes the user's tokens, accounts and bedash
      entries with it (their foreign keys cascade). */
  method DeleteUser(db: Db, id: nat) returns (r: Outcome)
    requires db.Valid()
    modifies db`users, db`tokens, db`accounts, db`bedash
    ensures db.Valid()
    ensures r == DeleteCheck(old(db.users), id)
    ensures r.Fail? ==> db.users == old(db.users) && db.tokens == old(db.tokens)
                        && db.accounts == old(db.accounts) && db.bedash == old(db.bedash)
    ensures r.Pass? ==>
      && db.users == WithoutUser(old(db.users), id)
      && db.tokens == TokensWithout(old(db.tokens), id)
      && db.accounts == AccountsWithout(old(db.accounts), id)
      && db.bedash == BedashWithout(old(db.bedash), id)
  {
    r := DeleteCheck(db.users, id);
    if r.Pass? {
      DeleteUserKeepsWellFormed(db.users, db.tokens, db.accounts, db.bedash, id,
                                db.nextUserId, db.nextTokenId, db.nextBedashId);
      db.users, db.tokens, db.accounts, db.bedash :=
        WithoutUser(db.users, id), TokensWithout(db.tokens, id),
        AccountsWithout(db.accounts, id), BedashWithout(db.bedash, id);
    }
  }
}
