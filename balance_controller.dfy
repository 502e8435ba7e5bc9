/** Material balances of src/controllers/AddBalance.ts: topping up a user's flyash and bedash
    accounts with rupee amounts converted to tons, and reading them back. */
module BalanceController {
  import opened Wrappers
  import opened Seqs
  import opened Model
  import opened Database

  /** An amount field of the request counts as given when present and non-zero
      (JavaScript truthiness of a number). */
  predicate Given(amount: Option<real>)
  {
    amount.Some? && amount.value != 0.0
  }

  /** `amount ? amount / RATE_PER_TON : 0` (AddBalance.ts:44-45): the tons that the amount buys;
      a missing or zero amount buys none, and converting back at the rate gives the amount. */
  function TonsFor(amount: Option<real>): (tons: real)
    ensures !Given(amount) ==> tons == 0.0
    ensures amount.Some? ==> tons * RatePerTon == amount.value
    ensures amount.Some? && amount.value >= 0.0 ==> tons >= 0.0
  {
    if Given(amount) then amount.value / RatePerTon else 0.0
  }

  /** The permission rule of addBalance (AddBalance.ts:17-39): a caller is needed; the target
      must exist; a `user` tops up only their own balance; staff top up anyone but themselves;
      any other role is refused. */
  function TopUpGuard(caller: Option<Caller>, users: seq<User>, userId: nat): (o: Outcome)
    ensures caller.None? ==> o == Fail(Unauthorized)
    ensures caller.Some? && !Registered(users, userId) ==> o == Fail(NotFound)
    ensures caller.Some? && Registered(users, userId) ==>
      && (caller.value.role == UserRole ==> (o == Pass <==> caller.value.id == userId))
      && (IsStaff(caller.value.role) ==> (o == Pass <==> caller.value.id != userId))
      && (caller.value.role.OtherRole? ==> o == Fail(Forbidden))
      && (o.Fail? ==> o.error == Forbidden)
  {
    match caller
    case None => Fail(Unauthorized)
    case Some(c) =>
      if FindUser(users, userId).None? then Fail(NotFound)
      else if c.role == UserRole then (if c.id != userId then Fail(Forbidden) else Pass)
      else if c.role == AdminRole || c.role == SuperAdminRole then (if c.id == userId then Fail(Forbidden) else Pass)
      else Fail(Forbidden)
  }

  /** A fresh account holding the tons bought (AddBalance.ts:52-59). */
  function Opened(owner: nat, m: Material, tons: real): (a: MaterialAccount)
    ensures a.owner == owner && a.material == m
    ensures a.totalTons == tons && a.remainingTons == tons && a.usedTons == 0.0
    ensures Balanced(a)
  {
    MaterialAccount(owner, m, tons, 0.0, tons)
  }

  /** An existing account credited with the tons bought (AddBalance.ts:60-63): total and
      remaining grow by the tons, used stays, so the ledger still adds up. */
  function Credited(a: MaterialAccount, tons: real): (r: MaterialAccount)
    ensures r.owner == a.owner && r.material == a.material
    ensures r.totalTons == a.totalTons + tons && r.remainingTons == a.remainingTons + tons
    ensures r.usedTons == a.usedTons
    ensures Balanced(a) ==> Balanced(r)
    ensures tons >= 0.0 && a.remainingTons >= 0.0 ==> r.remainingTons >= 0.0
  {
    a.(totalTons := a.totalTons + tons, remainingTons := a.remainingTons + tons)
  }

  /** The account table after one material's top-up: the owner's account for `m` is credited,
      or created when there is none. */
  function ApplyTopUp(accounts: seq<MaterialAccount>, owner: nat, m: Material, tons: real): (r: seq<MaterialAccount>)
    ensures FindAccount(r, owner, MaterialName(m)).Some?
    ensures FindAccount(accounts, owner, MaterialName(m)).None? ==>
              r == accounts + [Opened(owner, m, tons)]
    ensures FindAccount(accounts, owner, MaterialName(m)).Some? ==>
              var j := FindAccount(accounts, owner, MaterialName(m)).value;
              r == accounts[j := Credited(accounts[j], tons)]
  {
    match FindAccount(accounts, owner, MaterialName(m))
    case None =>
      var r := accounts + [Opened(owner, m, tons)];
      assert r[|accounts|].owner == owner && MaterialName(r[|accounts|].material) == MaterialName(m);
      r
    case Some(j) =>
      var r := accounts[j := Credited(accounts[j], tons)];
      assert r[j].owner == owner && MaterialName(r[j].material) == MaterialName(m);
      r
  }

  /** A top-up for a registered user keeps the account table well formed: still one account
      per user and material, each adding up. */
  lemma TopUpKeepsWellFormed(accounts: seq<MaterialAccount>, users: seq<User>, owner: nat, m: Material, tons: real)
    requires AccountsWellFormed(accounts, users)
    requires Registered(users, owner)
    ensures AccountsWellFormed(ApplyTopUp(accounts, owner, m, tons), users)
  {
    var r := ApplyTopUp(accounts, owner, m, tons);
    match FindAccount(accounts, owner, MaterialName(m))
    case None =>
      assert r == accounts + [Opened(owner, m, tons)];
      forall i, j | 0 <= i < j < |r|
        ensures !(r[i].owner == r[j].owner && r[i].material == r[j].material)
      {
        if j == |accounts| {
          MaterialNameInjective(r[i].material, m);
        }
      }
    case Some(k) =>
      assert r == accounts[k := Credited(accounts[k], tons)];
  }

  /** A top-up of one material leaves an account of any other material where it was. */
  lemma TopUpKeepsOtherAccount(accounts: seq<MaterialAccount>, owner: nat, m: Material, tons: real, other: Material)
    requires m != other
    requires FindAccount(accounts, owner, MaterialName(other)).Some?
    ensures var k := FindAccount(accounts, owner, MaterialName(other)).value;
      var r := ApplyTopUp(accounts, owner, m, tons);
      FindAccount(r, owner, MaterialName(other)) == Some(k) && r[k] == accounts[k]
  {
    var k := FindAccount(accounts, owner, MaterialName(other)).value;
    var r := ApplyTopUp(accounts, owner, m, tons);
    MaterialNameInjective(m, other);
    assert r[k] == accounts[k];
    var k' := FindAccount(r, owner, MaterialName(other)).value;
    assert k' < k ==> r[k'] == accounts[k'];
  }

  /** The amounts addBalance reports back (AddBalance.ts:88-100). */
  datatype TopUpReceipt = TopUpReceipt(flyashAdded: real, flyashRemaining: real,
                                       bedashAdded: real, bedashRemaining: real)

  /** One material's block of addBalance (AddBalance.ts:47-65 and 67-85): create the account
      or credit it in place, then save. */
  method TopUpAccount(db: Db, owner: nat, m: Material, tons: real) returns (account: MaterialAccount)
    requires db.Valid() && Registered(db.users, owner)
    modifies db`accounts
    ensures db.Valid()
    ensures db.accounts == ApplyTopUp(old(db.accounts), owner, m, tons)
    ensures account == db.accounts[FindAccount(db.accounts, owner, MaterialName(m)).value]
  {
    TopUpKeepsWellFormed(db.accounts, db.users, owner, m, tons);
    var found := FindAccount(db.accounts, owner, MaterialName(m));
    if found.None? {
      account := MaterialAccount(owner, m, tons, 0.0, tons);
      db.accounts := db.accounts + [account];
    } else {
      var j := found.value;
      account := db.accounts[j];
      account := account.(totalTons := account.totalTons + tons);
      account := account.(remainingTons := account.remainingTons + tons);
      db.accounts := db.accounts[j := account];
    }
    var after := FindAccount(db.accounts, owner, MaterialName(m)).value;
    assert db.accounts[after].material == m by { MaterialNameInjective(db.accounts[after].material, m); }
    assert account == db.accounts[after];
  }

  /** addBalance (AddBalance.ts:12-105). A refused request writes nothing. An accepted one
      leaves the target with exactly one flyash and one bedash account (whatever the
      amounts), credited with the tons the amounts buy. */
  method AddBalance(db: Db, caller: Option<Caller>, userId: nat, flyashAmount: Option<real>,
                    bedashAmount: Option<real>) returns (r: Result<TopUpReceipt>)
    requires db.Valid()
    modifies db`accounts
    ensures db.Valid()
    ensures var guard := TopUpGuard(caller, old(db.users), userId);
      && (guard.Fail? ==> r == Err(guard.error) && db.accounts == old(db.accounts))
      && (guard.Pass? ==>
            var flyashTons, bedashTons := TonsFor(flyashAmount), TonsFor(bedashAmount);
            && db.accounts == ApplyTopUp(ApplyTopUp(old(db.accounts), userId, Flyash, flyashTons),
                                         userId, Bedash, bedashTons)
            && FindAccount(db.accounts, userId, MaterialName(Flyash)).Some?
            && FindAccount(db.accounts, userId, MaterialName(Bedash)).Some?
            && r.Ok? && r.value.flyashAdded == flyashTons && r.value.bedashAdded == bedashTons
            && r.value.flyashRemaining == db.accounts[FindAccount(db.accounts, userId, MaterialName(Flyash)).value].remainingTons
            && r.value.bedashRemaining == db.accounts[FindAccount(db.accounts, userId, MaterialName(Bedash)).value].remainingTons)
  {
    var guard := TopUpGuard(caller, db.users, userId);
    if guard.Fail? {
      return Err(guard.error);
    }
    var flyashTons := TonsFor(flyashAmount);
    var bedashTons := TonsFor(bedashAmount);
    assert Registered(db.users, userId);
    var flyash := TopUpAccount(db, userId, Flyash, flyashTons);
    ghost var between := db.accounts;
    var bedash := TopUpAccount(db, userId, Bedash, bedashTons);
    TopUpKeepsOtherAccount(between, userId, Bedash, bedashTons, Flyash);
    r := Ok(TopUpReceipt(flyashTons, flyash.remainingTons, bedashTons, bedash.remainingTons));
  }

  /** One material's figures in the balance report. */
  datatype Figures = Figures(total: real, used: real, remaining: real)

  /** An account's figures, or all zeros when there is no account (AddBalance.ts:127-139). */
  function FiguresOf(accounts: seq<MaterialAccount>, owner: nat, m: Material): (f: Figures)
    ensures (forall k :: 0 <= k < |accounts| ==> !(accounts[k].owner == owner && accounts[k].material == m))
              ==> f == Figures(0.0, 0.0, 0.0)
    ensures AccountsUnique(accounts) ==>
              forall k :: 0 <= k < |accounts| && accounts[k].owner == owner && accounts[k].material == m ==>
                f == Figures(accounts[k].totalTons, accounts[k].usedTons, accounts[k].remainingTons)
  {
    match FindAccount(accounts, owner, MaterialName(m))
    case None =>
      Figures(0.0, 0.0, 0.0)
    case Some(j) =>
      MaterialNameInjective(accounts[j].material, m);
      Figures(accounts[j].totalTons, accounts[j].usedTons, accounts[j].remainingTons)
  }

  datatype BalanceReport = BalanceReport(user: nat, flyash: Figures, bedash: Figures)

  /** getBalance (AddBalance.ts:107-144): a `user` caller reads only their own balance; the
      user must exist. */
  function GetBalance(caller: Caller, userId: nat, users: seq<User>, accounts: seq<MaterialAccount>): (r: Result<BalanceReport>)
    ensures caller.role == UserRole && caller.id != userId ==> r == Err(Forbidden)
    ensures !(caller.role == UserRole && caller.id != userId) ==> (r.Ok? <==> Registered(users, userId))
    ensures !(caller.role == UserRole && caller.id != userId) && !Registered(users, userId) ==> r == Err(NotFound)
    ensures r.Err? ==> r.error == Forbidden || r.error == NotFound
    ensures r.Ok? ==> r.value.user == userId
    ensures r.Ok? ==> r.value.flyash == FiguresOf(accounts, userId, Flyash)
                      && r.value.bedash == FiguresOf(accounts, userId, Bedash)
  {
    if caller.role == UserRole && caller.id != userId then Err(Forbidden)
    else if FindUser(users, userId).None? then Err(NotFound)
    else Ok(BalanceReport(userId, FiguresOf(accounts, userId, Flyash), FiguresOf(accounts, userId, Bedash)))
  }

  /** A top-up with a negative amount is accepted and leaves an empty account with a negative
      remainder; only non-negative amounts keep a non-negative balance non-negative. */
  lemma NegativeTopUpGoesBelowZero(a: MaterialAccount, amount: real)
    requires a.remainingTons == 0.0 && amount < 0.0
    ensures Credited(a, TonsFor(Some(amount))).remainingTons < 0.0
  {
    var tons := TonsFor(Some(amount));
    assert tons * 180.0 == amount;
    assert tons < 0.0;
  }
}
