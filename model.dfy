/** The records of the dashboard (the entities under src/models), the role names, the lookups
    the handlers make, and the well-formedness of the tables. */
module Model {
  import opened Wrappers
  import opened Seqs

  /** Rupees per ton of flyash or bedash; both the balance top-up and the token billing use it. */
  const RatePerTon: real := 180.0

  /** A role. The source keeps roles as free strings; the three it compares against are
      recognised and every other string is kept as it is. */
  datatype Role = UserRole | AdminRole | SuperAdminRole | OtherRole(name: string)

  function RoleName(r: Role): string
  {
    match r
    case UserRole => "user"
    case AdminRole => "admin"
    case SuperAdminRole => "superadmin"
    case OtherRole(n) => n
  }

  /** Reads a role string: the inverse of RoleName, losing nothing. */
  function ParseRole(s: string): (r: Role)
    ensures RoleName(r) == s
    ensures r.OtherRole? <==> s != "user" && s != "admin" && s != "superadmin"
  {
    if s == "user" then UserRole
    else if s == "admin" then AdminRole
    else if s == "superadmin" then SuperAdminRole
    else OtherRole(s)
  }

  /** A role value as ParseRole produces it: an OtherRole never carries a recognised name. */
  predicate CanonicalRole(r: Role)
  {
    r.OtherRole? ==> r.name != "user" && r.name != "admin" && r.name != "superadmin"
  }

  lemma RoleNameRoundTrip(r: Role)
    requires CanonicalRole(r)
    ensures ParseRole(RoleName(r)) == r
  {
  }

  /** The roles the handlers treat as staff (`["admin", "superadmin"].includes(role)`). */
  predicate IsStaff(r: Role)
  {
    r.AdminRole? || r.SuperAdminRole?
  }

  /** The decoded payload of a verified bearer token: who is calling. */
  datatype Caller = Caller(id: nat, role: Role)

  /** A string field of the request body counts as supplied when it is present and non-empty
      (JavaScript truthiness of a string). */
  predicate Supplied(s: Option<string>)
  {
    s.Some? && s.value != ""
  }

  datatype Material = Flyash | Bedash

  function MaterialName(m: Material): string
  {
    match m
    case Flyash => "flyash"
    case Bedash => "bedash"
  }

  /** Each material has its own name. */
  lemma MaterialNameInjective(m1: Material, m2: Material)
    ensures MaterialName(m1) == MaterialName(m2) ==> m1 == m2
  {
  }

  datatype TokenStatus = Pending | Updated | Completed

  datatype BedashStatus = BedashPending | BedashCompleted

  /** A user row (User.ts). `createdBy` is the id of the staff member who created the row. */
  datatype User = User(id: nat, name: string, email: string, password: string,
                       role: Role, isActive: bool, createdBy: Option<nat>)

  /** A truck-weighing token (Token.ts); `owner` is the user the token belongs to and
      `materialType` is the string the request gave. */
  datatype Token = Token(id: nat, customerName: string, truckNumber: Option<string>,
                         materialType: string, weight: real, ratePerTon: real,
                         commission: real, totalAmount: real, paidAmount: real,
                         carryForward: real, status: TokenStatus, owner: nat)

  /** A per-user, per-material ton balance (materialaccount.ts). */
  datatype MaterialAccount = MaterialAccount(owner: nat, material: Material, totalTons: real,
                                             usedTons: real, remainingTons: real)

  /** A bedash delivery entry (bedashMessage.ts), with the `createdBy` reference that the
      listing filters on. */
  datatype BedashMessage = BedashMessage(id: nat, user: nat, amount: real, materialType: string,
                                         customDate: Option<string>, targetDate: Option<string>,
                                         status: BedashStatus, createdBy: Option<nat>)

  // Lookups: `findOne` by key, the first matching row.

  function FindUser(users: seq<User>, id: nat): (r: Option<nat>)
    ensures r.Some? ==> r.value < |users| && users[r.value].id == id
    ensures r.None? ==> forall k :: 0 <= k < |users| ==> users[k].id != id
  {
    FindFirst(users, (u: User) => u.id == id)
  }

  function FindUserByEmail(users: seq<User>, email: string): (r: Option<nat>)
    ensures r.Some? ==> r.value < |users| && users[r.value].email == email
    ensures r.Some? ==> forall k :: 0 <= k < r.value ==> users[k].email != email
    ensures r.None? ==> forall k :: 0 <= k < |users| ==> users[k].email != email
  {
    FindFirst(users, (u: User) => u.email == email)
  }

  function FindToken(tokens: seq<Token>, id: nat): (r: Option<nat>)
    ensures r.Some? ==> r.value < |tokens| && tokens[r.value].id == id
    ensures r.None? ==> forall k :: 0 <= k < |tokens| ==> tokens[k].id != id
  {
    FindFirst(tokens, (t: Token) => t.id == id)
  }

  function FindBedash(entries: seq<BedashMessage>, id: nat): (r: Option<nat>)
    ensures r.Some? ==> r.value < |entries| && entries[r.value].id == id
    ensures r.None? ==> forall k :: 0 <= k < |entries| ==> entries[k].id != id
  {
    FindFirst(entries, (e: BedashMessage) => e.id == id)
  }

  /** The account of `owner` whose material is named `materialType`. A material string other
      than "flyash" or "bedash" matches no account. */
  function FindAccount(accounts: seq<MaterialAccount>, owner: nat, materialType: string): (r: Option<nat>)
    ensures r.Some? ==> r.value < |accounts| && accounts[r.value].owner == owner
                        && MaterialName(accounts[r.value].material) == materialType
    ensures r.None? ==> forall k :: 0 <= k < |accounts| ==>
                          !(accounts[k].owner == owner && MaterialName(accounts[k].material) == materialType)
  {
    FindFirst(accounts, (a: MaterialAccount) => a.owner == owner && MaterialName(a.material) == materialType)
  }

  predicate Registered(users: seq<User>, id: nat)
  {
    exists k :: 0 <= k < |users| && users[k].id == id
  }

  // Well-formedness of the tables: what every handler of the model keeps.

  /** Ids ascend in insertion order and lie below the next id; emails are unique (User.ts:19). */
  predicate UsersWellFormed(users: seq<User>, nextId: nat)
  {
    && (forall i, j :: 0 <= i < j < |users| ==> users[i].id < users[j].id)
    && (forall i, j :: 0 <= i < j < |users| ==> users[i].email != users[j].email)
    && (forall i :: 0 <= i < |users| ==> users[i].id < nextId)
  }

  /** A token's billing is in agreement with itself: the total is weight times rate plus
      commission, the carry-forward is what is still owed, and a pending token is unbilled. */
  predicate TokenConsistent(t: Token)
  {
    && t.totalAmount == t.weight * t.ratePerTon + t.commission
    && t.carryForward == t.totalAmount - t.paidAmount
    && (t.status == Pending ==>
          t.weight == 0.0 && t.ratePerTon == 0.0 && t.commission == 0.0
          && t.totalAmount == 0.0 && t.paidAmount == 0.0 && t.carryForward == 0.0)
  }

  predicate TokensWellFormed(tokens: seq<Token>, users: seq<User>, nextId: nat)
  {
    && (forall i, j :: 0 <= i < j < |tokens| ==> tokens[i].id < tokens[j].id)
    && (forall i :: 0 <= i < |tokens| ==> tokens[i].id < nextId)
    && (forall i :: 0 <= i < |tokens| ==> Registered(users, tokens[i].owner))
    && (forall i :: 0 <= i < |tokens| ==> TokenConsistent(tokens[i]))
  }

  /** The ton ledger of an account adds up. */
  predicate Balanced(a: MaterialAccount)
  {
    a.totalTons == a.usedTons + a.remainingTons
  }

  /** At most one account per user and material. */
  predicate AccountsUnique(accounts: seq<MaterialAccount>)
  {
    forall i, j :: 0 <= i < j < |accounts| ==>
      !(accounts[i].owner == accounts[j].owner && accounts[i].material == accounts[j].material)
  }

  predicate AccountsWellFormed(accounts: seq<MaterialAccount>, users: seq<User>)
  {
    && AccountsUnique(accounts)
    && (forall i :: 0 <= i < |accounts| ==> Registered(users, accounts[i].owner))
    && (forall i :: 0 <= i < |accounts| ==> Balanced(accounts[i]))
  }

  predicate BedashWellFormed(entries: seq<BedashMessage>, users: seq<User>, nextId: nat)
  {
    && (forall i, j :: 0 <= i < j < |entries| ==> entries[i].id < entries[j].id)
    && (forall i :: 0 <= i < |entries| ==> entries[i].id < nextId)
    && (forall i :: 0 <= i < |entries| ==> Registered(users, entries[i].user))
  }

  /** All four tables well formed together. */
  predicate TablesWellFormed(users: seq<User>, tokens: seq<Token>, accounts: seq<MaterialAccount>,
                             entries: seq<BedashMessage>, nextUser: nat, nextToken: nat, nextBedash: nat)
  {
    && UsersWellFormed(users, nextUser)
    && TokensWellFormed(tokens, users, nextToken)
    && AccountsWellFormed(accounts, users)
    && BedashWellFormed(entries, users, nextBedash)
  }

  /** Users whose id is `id` are removed; with unique ids that is exactly one row when the id
      is registered. */
  function WithoutUser(users: seq<User>, id: nat): seq<User>
  {
    Filter(users, (u: User) => u.id != id)
  }

  /** The rows left when the user `id` is deleted: the foreign keys of tokens, accounts and
      bedash entries are declared `onDelete: "CASCADE"`, so their rows go with the user. */
  function TokensWithout(tokens: seq<Token>, id: nat): seq<Token>
  {
    Filter(tokens, (t: Token) => t.owner != id)
  }

  function AccountsWithout(accounts: seq<MaterialAccount>, id: nat): seq<MaterialAccount>
  {
    Filter(accounts, (a: MaterialAccount) => a.owner != id)
  }

  function BedashWithout(entries: seq<BedashMessage>, id: nat): seq<BedashMessage>
  {
    Filter(entries, (e: BedashMessage) => e.user != id)
  }

  /** Rewriting users in place without changing any id keeps every id registered. */
  lemma SameIdsKeepRegistered(users: seq<User>, users': seq<User>)
    requires |users'| == |users|
    requires forall k :: 0 <= k < |users| ==> users'[k].id == users[k].id
    ensures forall x :: Registered(users, x) ==> Registered(users', x)
  {
    forall x | Registered(users, x) ensures Registered(users', x) {
      var k :| 0 <= k < |users| && users[k].id == x;
      assert users'[k].id == x;
    }
  }

  /** Rewriting one user row in place, keeping its id and taking an email no other row holds,
      keeps every table well formed. */
  lemma ReplaceUserKeepsWellFormed(users: seq<User>, tokens: seq<Token>, accounts: seq<MaterialAccount>,
                                   entries: seq<BedashMessage>, nextUser: nat, nextToken: nat,
                                   nextBedash: nat, i: nat, u: User)
    requires UsersWellFormed(users, nextUser)
    requires TokensWellFormed(tokens, users, nextToken)
    requires AccountsWellFormed(accounts, users)
    requires BedashWellFormed(entries, users, nextBedash)
    requires i < |users| && u.id == users[i].id
    requires forall k :: 0 <= k < |users| && k != i ==> users[k].email != u.email
    ensures TablesWellFormed(users[i := u], tokens, accounts, entries, nextUser, nextToken, nextBedash)
  {
    SameIdsKeepRegistered(users, users[i := u]);
  }

  /** Appending a user with the next id and an email no row holds keeps every table well
      formed, with the counter advanced. */
  lemma AppendUserKeepsWellFormed(users: seq<User>, tokens: seq<Token>, accounts: seq<MaterialAccount>,
                                  entries: seq<BedashMessage>, nextUser: nat, nextToken: nat,
                                  nextBedash: nat, u: User)
    requires TablesWellFormed(users, tokens, accounts, entries, nextUser, nextToken, nextBedash)
    requires u.id == nextUser
    requires forall k :: 0 <= k < |users| ==> users[k].email != u.email
    ensures TablesWellFormed(users + [u], tokens, accounts, entries, nextUser + 1, nextToken, nextBedash)
  {
    AppendKeepsRegistered(users, u);
  }

  /** Appending a user keeps every id registered. */
  lemma AppendKeepsRegistered(users: seq<User>, u: User)
    ensures forall x :: Registered(users, x) ==> Registered(users + [u], x)
  {
    forall x | Registered(users, x) ensures Registered(users + [u], x) {
      var k :| 0 <= k < |users| && users[k].id == x;
      assert (users + [u])[k].id == x;
    }
  }

  /** Removing an id no row holds changes nothing. */
  lemma {:induction false} WithoutAbsentUser(users: seq<User>, id: nat)
    requires forall k :: 0 <= k < |users| ==> users[k].id != id
    ensures WithoutUser(users, id) == users
  {
    if |users| > 0 {
      WithoutAbsentUser(users[1..], id);
      assert [users[0]] + users[1..] == users;
    }
  }

  /** With unique ids, removing a registered id removes exactly one row. */
  lemma {:induction false} WithoutUserRemovesOne(users: seq<User>, id: nat)
    requires forall i, j :: 0 <= i < j < |users| ==> users[i].id < users[j].id
    requires Registered(users, id)
    ensures |WithoutUser(users, id)| == |users| - 1
  {
    if users[0].id == id {
      WithoutAbsentUser(users[1..], id);
    } else {
      var k :| 0 <= k < |users| && users[k].id == id;
      assert users[1..][k - 1].id == id;
      WithoutUserRemovesOne(users[1..], id);
    }
  }

  /** Removing a user keeps the user table well formed, and every other registered id stays
      registered. */
  lemma WithoutUserKeepsUsers(users: seq<User>, id: nat, nextUser: nat)
    requires UsersWellFormed(users, nextUser)
    ensures UsersWellFormed(WithoutUser(users, id), nextUser)
    ensures forall x :: Registered(users, x) && x != id ==> Registered(WithoutUser(users, id), x)
  {
    var keepUser := (u: User) => u.id != id;
    var users' := WithoutUser(users, id);
    FilterKeepsPairwise(users, keepUser, (a: User, b: User) => a.id < b.id);
    FilterKeepsPairwise(users, keepUser, (a: User, b: User) => a.email != b.email);
    forall x | Registered(users, x) && x != id ensures Registered(users', x) {
      var k :| 0 <= k < |users| && users[k].id == x;
      assert users[k] in users';
      var m :| 0 <= m < |users'| && users'[m] == users[k];
    }
  }

  lemma CascadeKeepsTokens(users: seq<User>, tokens: seq<Token>, id: nat, nextUser: nat, nextToken: nat)
    requires UsersWellFormed(users, nextUser)
    requires TokensWellFormed(tokens, users, nextToken)
    ensures TokensWellFormed(TokensWithout(tokens, id), WithoutUser(users, id), nextToken)
  {
    WithoutUserKeepsUsers(users, id, nextUser);
    var users' := WithoutUser(users, id);
    var keepToken := (t: Token) => t.owner != id;
    var tokens' := TokensWithout(tokens, id);
    FilterKeepsPairwise(tokens, keepToken, (a: Token, b: Token) => a.id < b.id);
    forall k | 0 <= k < |tokens'|
      ensures Registered(users', tokens'[k].owner) && tokens'[k].id < nextToken && TokenConsistent(tokens'[k])
    {
      var m :| 0 <= m < |tokens| && tokens[m] == tokens'[k];
    }
  }

  lemma CascadeKeepsAccounts(users: seq<User>, accounts: seq<MaterialAccount>, id: nat, nextUser: nat)
    requires UsersWellFormed(users, nextUser)
    requires AccountsWellFormed(accounts, users)
    ensures AccountsWellFormed(AccountsWithout(accounts, id), WithoutUser(users, id))
  {
    WithoutUserKeepsUsers(users, id, nextUser);
    var users' := WithoutUser(users, id);
    var keepAccount := (a: MaterialAccount) => a.owner != id;
    var accounts' := AccountsWithout(accounts, id);
    FilterKeepsPairwise(accounts, keepAccount,
      (a: MaterialAccount, b: MaterialAccount) => !(a.owner == b.owner && a.material == b.material));
    forall k | 0 <= k < |accounts'| ensures Registered(users', accounts'[k].owner) && Balanced(accounts'[k]) {
      var m :| 0 <= m < |accounts| && accounts[m] == accounts'[k];
    }
  }

  lemma CascadeKeepsBedash(users: seq<User>, entries: seq<BedashMessage>, id: nat, nextUser: nat, nextBedash: nat)
    requires UsersWellFormed(users, nextUser)
    requires BedashWellFormed(entries, users, nextBedash)
    ensures BedashWellFormed(BedashWithout(entries, id), WithoutUser(users, id), nextBedash)
  {
    WithoutUserKeepsUsers(users, id, nextUser);
    var users' := WithoutUser(users, id);
    var keepEntry := (e: BedashMessage) => e.user != id;
    var entries' := BedashWithout(entries, id);
    FilterKeepsPairwise(entries, keepEntry, (a: BedashMessage, b: BedashMessage) => a.id < b.id);
    forall k | 0 <= k < |entries'| ensures Registered(users', entries'[k].user) && entries'[k].id < nextBedash {
      var m :| 0 <= m < |entries| && entries[m] == entries'[k];
    }
  }

  /** Deleting a user together with the rows that reference it keeps every table well formed. */
  lemma DeleteUserKeepsWellFormed(users: seq<User>, tokens: seq<Token>, accounts: seq<MaterialAccount>,
                                  entries: seq<BedashMessage>, id: nat, nextUser: nat, nextToken: nat,
                                  nextBedash: nat)
    requires UsersWellFormed(users, nextUser)
    requires TokensWellFormed(tokens, users, nextToken)
    requires AccountsWellFormed(accounts, users)
    requires BedashWellFormed(entries, users, nextBedash)
    ensures TablesWellFormed(WithoutUser(users, id), TokensWithout(tokens, id), AccountsWithout(accounts, id),
                             BedashWithout(entries, id), nextUser, nextToken, nextBedash)
  {
    WithoutUserKeepsUsers(users, id, nextUser);
    CascadeKeepsTokens(users, tokens, id, nextUser, nextToken);
    CascadeKeepsAccounts(users, accounts, id, nextUser);
    CascadeKeepsBedash(users, entries, id, nextUser, nextBedash);
  }
}
