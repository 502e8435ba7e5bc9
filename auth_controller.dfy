/** Account handling of src/controllers/authControllers.ts: registration, login, and that
    file's own revision of the user update. Its deleteUser is the same code as the one in
    userController.ts and is modelled by UserController.DeleteUser. Password hashing, the
    password comparison and token signing are parameters. */
module AuthController {
  import opened Wrappers
  import opened Model
  import opened Database
  import UserController

  /** The role a new row gets: the column default `user` when the request names none,
      otherwise the named role as it was sent. */
  function NewRole(role: Option<string>): (r: Role)
    ensures role.None? ==> r == UserRole
    ensures role.Some? ==> RoleName(r) == role.value
  {
    match role
    case None => UserRole
    case Some(s) => ParseRole(s)
  }

  /** register (authControllers.ts:19-39): an email that is already registered is refused
      with nothing stored; otherwise one user is appended with the next id, the given email,
      the hashed password and the requested role, and the column defaults for the rest
      (User.ts:16-29). The handler never sets `createdBy`. */
  method Register(db: Db, email: string, password: string, role: Option<string>,
                  hash: string -> string) returns (r: Outcome)
    requires db.Valid()
    modifies db`users, db`nextUserId
    ensures db.Valid()
    ensures r == Fail(BadRequest) <==> FindUserByEmail(old(db.users), email).Some?
    ensures r.Pass? <==> FindUserByEmail(old(db.users), email).None?
    ensures r.Fail? ==> db.users == old(db.users) && db.nextUserId == old(db.nextUserId)
    ensures r.Pass? ==>
      && db.users == old(db.users) + [User(old(db.nextUserId), "Unknown", email, hash(password),
                                           NewRole(role), true, None)]
      && db.nextUserId == old(db.nextUserId) + 1
  {
    if FindUserByEmail(db.users, email).Some? {
      return Fail(BadRequest);
    }
    var user := User(db.nextUserId, "Unknown", email, hash(password), NewRole(role), true, None);
    AppendUserKeepsWellFormed(db.users, db.tokens, db.accounts, db.bedash,
                              db.nextUserId, db.nextTokenId, db.nextBedashId, user);
    db.users := db.users + [user];
    db.nextUserId := db.nextUserId + 1;
    r := Pass;
  }

  /** The response of a successful login: the signed token and the user's role. */
  datatype Session = Session(token: string, role: Role)

  /** login (authControllers.ts:41-70): an unknown email and a wrong password are refused
      alike; otherwise the token is signed over the user's id and role. `matches(p, h)` is
      the password comparison, `sign(id, role)` the token signature. */
  function Login(users: seq<User>, email: string, password: string,
                 matches: (string, string) -> bool, sign: (nat, Role) -> string): (r: Result<Session>)
    ensures FindUserByEmail(users, email).None? ==> r == Err(BadRequest)
    ensures r.Err? ==> r.error == BadRequest
    ensures r.Ok? <==> exists k :: 0 <= k < |users| && users[k].email == email
                                  && matches(password, users[k].password)
                                  && FindUserByEmail(users, email) == Some(k)
    ensures r.Ok? ==> var k := FindUserByEmail(users, email).value;
                      r.value == Session(sign(users[k].id, users[k].role), users[k].role)
  {
    match FindUserByEmail(users, email)
    case None => Err(BadRequest)
    case Some(i) =>
      if !matches(password, users[i].password) then Err(BadRequest)
      else
        assert users[i].email == email;
        Ok(Session(sign(users[i].id, users[i].role), users[i].role))
  }

  /** A freshly registered user logs in with the password it registered with, in the role it
      registered with, whenever the comparison accepts the hash of that password. */
  lemma {:induction false} RegisterThenLogin(users: seq<User>, u: User, password: string,
                                             matches: (string, string) -> bool, sign: (nat, Role) -> string)
    requires forall k :: 0 <= k < |users| ==> users[k].email != u.email
    requires matches(password, u.password)
    ensures Login(users + [u], u.email, password, matches, sign) == Ok(Session(sign(u.id, u.role), u.role))
  {
    var users' := users + [u];
    assert users'[|users|] == u;
    var found := FindUserByEmail(users', u.email);
    assert found.Some?;
    assert found.value == |users|;
  }

  /** login never looks at `isActive`: a deactivated user logs in exactly as an active one. */
  lemma LoginIgnoresActivity(users: seq<User>, i: nat, active: bool, email: string, password: string,
                             matches: (string, string) -> bool, sign: (nat, Role) -> string)
    requires i < |users|
    ensures Login(users[i := users[i].(isActive := active)], email, password, matches, sign)
            == Login(users, email, password, matches, sign)
  {
    var users' := users[i := users[i].(isActive := active)];
    assert forall k :: 0 <= k < |users| ==>
      users'[k].email == users[k].email && users'[k].password == users[k].password
      && users'[k].id == users[k].id && users'[k].role == users[k].role;
    SameEmailsSameLookup(users, users', email);
  }

  /** Two tables that agree on every email answer an email lookup alike. */
  lemma {:induction false} SameEmailsSameLookup(users: seq<User>, users': seq<User>, email: string)
    requires |users| == |users'|
    requires forall k :: 0 <= k < |users| ==> users'[k].email == users[k].email
    ensures FindUserByEmail(users', email) == FindUserByEmail(users, email)
  {
    var found, found' := FindUserByEmail(users, email), FindUserByEmail(users', email);
    if found.Some? {
      assert users'[found.value].email == email;
    }
  }

  /** updateuser of authControllers.ts (145-179): the guard of userController.ts, and the
      same partial update without the `name` field. */
  method UpdateUser(db: Db, caller: Caller, id: nat, email: Option<string>, password: Option<string>,
                    role: Option<string>, isActive: Option<bool>, hash: string -> string)
    returns (r: Result<User>)
    requires db.Valid()
    modifies db`users
    ensures db.Valid()
    ensures UserController.UpdateGuard(caller, old(db.users), id).Err? ==>
              r == Err(UserController.UpdateGuard(caller, old(db.users), id).error) && db.users == old(db.users)
    ensures UserController.UpdateGuard(caller, old(db.users), id).Ok? ==>
              var i := UserController.UpdateGuard(caller, old(db.users), id).value;
              var patched := UserController.Patched(old(db.users)[i], None, email, password, role, isActive, hash);
              && patched.name == old(db.users)[i].name
              && if UserController.EmailTakenByOther(old(db.users), i, patched.email) then
                   r == Err(ServerError) && db.users == old(db.users)
                 else
                   r == Ok(patched) && db.users == old(db.users)[i := patched]
  {
    r := UserController.UpdateUser(db, caller, id, None, email, password, role, isActive, hash);
  }
}
