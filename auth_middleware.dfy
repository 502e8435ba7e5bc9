/** The request guards of src/middlewares/authMiddleware.ts. Each one either hands the request
    on (Pass) or answers with an error. Signature verification of the bearer token is a
    parameter: `verify(token)` is the decoded payload, or None when jwt.verify throws. */
module AuthMiddleware {
  import opened Wrappers
  import opened Model

  /** `s.split(sep)` for a one-character separator: the pieces between separators, empty
      pieces included. */
  function Split(s: string, sep: char): (parts: seq<string>)
    ensures |parts| >= 1
    ensures forall k :: 0 <= k < |parts| ==> sep !in parts[k]
  {
    if |s| == 0 then [""]
    else if s[0] == sep then [""] + Split(s[1..], sep)
    else
      var rest := Split(s[1..], sep);
      [[s[0]] + rest[0]] + rest[1..]
  }

  /** The pieces put back together with the separator between them. */
  function Join(parts: seq<string>, sep: char): string
  {
    if |parts| == 0 then ""
    else if |parts| == 1 then parts[0]
    else parts[0] + [sep] + Join(parts[1..], sep)
  }

  /** Splitting loses nothing. */
  lemma {:induction false} JoinSplit(s: string, sep: char)
    ensures Join(Split(s, sep), sep) == s
  {
    if |s| == 0 {
    } else if s[0] == sep {
      JoinSplit(s[1..], sep);
      var rest := Split(s[1..], sep);
      assert ([""] + rest)[1..] == rest;
      assert [sep] + s[1..] == s;
    } else {
      JoinSplit(s[1..], sep);
      var rest := Split(s[1..], sep);
      var parts := [[s[0]] + rest[0]] + rest[1..];
      assert parts[1..] == rest[1..];
      if |rest| == 1 {
        assert [s[0]] + s[1..] == s;
      } else {
        assert Join(rest, sep) == rest[0] + [sep] + Join(rest[1..], sep);
        assert [s[0]] + rest[0] + [sep] + Join(rest[1..], sep) == [s[0]] + (rest[0] + [sep] + Join(rest[1..], sep));
        assert [s[0]] + s[1..] == s;
      }
    }
  }

  /** Splitting `a + [sep] + b` where neither part holds the separator gives exactly the
      two parts. */
  lemma {:induction false} SplitTwo(a: string, b: string, sep: char)
    requires sep !in a && sep !in b
    ensures Split(a + [sep] + b, sep) == [a, b]
  {
    if |a| == 0 {
      assert [] + [sep] + b == [sep] + b;
      assert ([sep] + b)[1..] == b;
      SplitNone(b, sep);
    } else {
      var s := a + [sep] + b;
      assert s[0] == a[0] && s[1..] == a[1..] + [sep] + b;
      SplitTwo(a[1..], b, sep);
      assert [a[0]] + a[1..] == a;
    }
  }

  /** A string without the separator splits into itself. */
  lemma {:induction false} SplitNone(s: string, sep: char)
    requires sep !in s
    ensures Split(s, sep) == [s]
  {
    if |s| > 0 {
      assert sep !in s[1..] by { assert forall c :: c in s[1..] ==> c in s; }
      SplitNone(s[1..], sep);
      assert [s[0]] + s[1..] == s;
    }
  }

  /** `req.headers["authorization"]?.split(" ")[1]`, kept only when it is a non-empty
      string (the `if (!token)` test, authMiddleware.ts:19-22). */
  function BearerToken(header: Option<string>): (token: Option<string>)
    ensures token.Some? ==> token.value != "" && ' ' !in token.value
    ensures header.None? ==> token.None?
    ensures header.Some? ==>
              var parts := Split(header.value, ' ');
              token == if |parts| >= 2 && parts[1] != "" then Some(parts[1]) else None
  {
    match header
    case None => None
    case Some(h) =>
      var parts := Split(h, ' ');
      if |parts| >= 2 && parts[1] != "" then Some(parts[1]) else None
  }

  /** The header a client sends, "Bearer <token>", yields exactly the token. */
  lemma BearerRoundTrip(scheme: string, token: string)
    requires ' ' !in scheme && ' ' !in token && token != ""
    ensures BearerToken(Some(scheme + " " + token)) == Some(token)
  {
    assert scheme + " " + token == scheme + [' '] + token;
    SplitTwo(scheme, token, ' ');
  }

  /** authMiddleWare (authMiddleware.ts:13-42): a missing token and a revoked token are
      refused before any signature check; otherwise the verified payload becomes the caller. */
  function Authenticate(header: Option<string>, blacklist: set<string>,
                        verify: string -> Option<Caller>): (r: Result<Caller>)
    ensures BearerToken(header).None? ==> r == Err(Unauthorized)
    ensures BearerToken(header).Some? && BearerToken(header).value in blacklist ==> r == Err(Unauthorized)
    ensures r.Err? ==> r.error == Unauthorized
    ensures r.Ok? <==> BearerToken(header).Some? && BearerToken(header).value !in blacklist
                       && verify(BearerToken(header).value).Some?
    ensures r.Ok? ==> r.value == verify(BearerToken(header).value).value
  {
    match BearerToken(header)
    case None => Err(Unauthorized)
    case Some(token) =>
      if token in blacklist then Err(Unauthorized)
      else match verify(token)
        case None => Err(Unauthorized)
        case Some(payload) => Ok(payload)
  }

  /** A revoked token is refused whatever the signature check would say. */
  lemma BlacklistBeforeVerify(header: Option<string>, blacklist: set<string>,
                              verify1: string -> Option<Caller>, verify2: string -> Option<Caller>)
    requires BearerToken(header).Some? && BearerToken(header).value in blacklist
    ensures Authenticate(header, blacklist, verify1) == Authenticate(header, blacklist, verify2)
  {
  }

  /** adminMiddleware (authMiddleware.ts:44-53). */
  function AdminOnly(user: Option<Caller>): (o: Outcome)
    ensures o == Pass <==> user.Some? && IsStaff(user.value.role)
    ensures o.Fail? ==> o.error == Forbidden
  {
    if user.None? || (user.value.role != AdminRole && user.value.role != SuperAdminRole) then Fail(Forbidden)
    else Pass
  }

  /** roleCheckMiddleware (authMiddleware.ts:68-92), in front of register: who may create an
      account of the role the request names. */
  function RoleCheckCreate(user: Option<Caller>, newRole: Option<string>): (o: Outcome)
    ensures o.Fail? ==> o.error == Forbidden
    ensures user.Some? && user.value.role == SuperAdminRole ==> o == Pass
    ensures user.Some? && user.value.role == UserRole ==> o.Fail?
    ensures user.Some? && user.value.role == AdminRole ==>
              (o == Pass <==> !Supplied(newRole) || newRole.value == "user")
    ensures user.None? || user.value.role.OtherRole? ==> o == Pass
  {
    var creator := if user.Some? then Some(user.value.role) else None;
    if creator == Some(AdminRole) && Supplied(newRole) && newRole.value != "user" then Fail(Forbidden)
    else if creator == Some(SuperAdminRole) then Pass
    else if creator == Some(UserRole) then Fail(Forbidden)
    else Pass
  }

  /** roleCheckUpdateDelete (authMiddleware.ts:96-136), in front of the update and delete
      handlers: the target must exist, and then the requester's role decides. */
  function RoleCheckUpdateDelete(user: Option<Caller>, users: seq<User>, targetId: nat): (o: Outcome)
    ensures FindUser(users, targetId).None? ==> o == Fail(NotFound)
    ensures o.Fail? && o.error != NotFound ==> o.error == Forbidden
    ensures FindUser(users, targetId).Some? && o.Fail? ==> o.error == Forbidden
    ensures FindUser(users, targetId).Some? ==>
              var target := users[FindUser(users, targetId).value];
              && (user.Some? && user.value.role == UserRole ==> o == Fail(Forbidden))
              && (user.Some? && user.value.role == AdminRole ==>
                    (o == Pass <==> target.role == UserRole && user.value.id != targetId))
              && (user.Some? && user.value.role == SuperAdminRole ==> o == Pass)
              && (user.None? || user.value.role.OtherRole? ==> o == Pass)
  {
    match FindUser(users, targetId)
    case None => Fail(NotFound)
    case Some(i) =>
      var requesterRole := if user.Some? then Some(user.value.role) else None;
      if requesterRole == Some(UserRole) then Fail(Forbidden)
      else if requesterRole == Some(AdminRole) && users[i].role != UserRole then Fail(Forbidden)
      else if requesterRole == Some(AdminRole) && user.value.id == targetId then Fail(Forbidden)
      else Pass
  }

  /** Whatever the role, an admin never passes for itself or for another staff member. */
  lemma AdminNeverManagesPeers(admin: Caller, users: seq<User>, i: nat)
    requires admin.role == AdminRole && i < |users|
    requires FindUser(users, users[i].id) == Some(i)
    requires users[i].role != UserRole || users[i].id == admin.id
    ensures RoleCheckUpdateDelete(Some(admin), users, users[i].id) == Fail(Forbidden)
  {
  }
}
