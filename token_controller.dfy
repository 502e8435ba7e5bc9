/** The token ledger of src/controllers/crateToken.ts: creating a pending token, billing it
    against the owner's material account, confirming its payment, and listing a user's tokens. */
module TokenController {
  import opened Wrappers
  import opened Seqs
  import opened Model
  import opened Database

  /** createToken (crateToken.ts:14-36): no role check; the owner must exist. The new row has
      the column defaults: status pending and every amount 0. */
  method CreateToken(db: Db, customerName: string, truckNumber: Option<string>,
                     materialType: string, userId: nat) returns (r: Result<Token>)
    requires db.Valid()
    modifies db`tokens, db`nextTokenId
    ensures db.Valid()
    ensures !Registered(old(db.users), userId) <==> r == Err(NotFound)
    ensures r.Ok? <==> Registered(old(db.users), userId)
    ensures r.Err? ==> db.tokens == old(db.tokens) && db.nextTokenId == old(db.nextTokenId)
    ensures r.Ok? ==>
      && db.tokens == old(db.tokens) + [r.value]
      && db.nextTokenId == old(db.nextTokenId) + 1
      && r.value.id == old(db.nextTokenId) && r.value.owner == userId
      && r.value.customerName == customerName && r.value.truckNumber == truckNumber
      && r.value.materialType == materialType && r.value.status == Pending
      && r.value.weight == 0.0 && r.value.ratePerTon == 0.0 && r.value.commission == 0.0
      && r.value.totalAmount == 0.0 && r.value.paidAmount == 0.0 && r.value.carryForward == 0.0
  {
    if FindUser(db.users, userId).None? {
      return Err(NotFound);
    }
    var token := Token(db.nextTokenId, customerName, truckNumber, materialType,
                       0.0, 0.0, 0.0, 0.0, 0.0, 0.0, Pending, userId);
    db.tokens := db.tokens + [token];
    db.nextTokenId := db.nextTokenId + 1;
    r := Ok(token);
  }

  /** The rows updateToken writes to: the token, its new owner and the owner's account. */
  datatype UpdatePlan = UpdatePlan(tokenIndex: nat, target: nat, accountIndex: nat)

  /** The checks updateToken makes before it writes anything, in its order
      (crateToken.ts:154-197): the token exists; a `user` caller owns it; a staff caller
      re-targets it to `userId`, which must exist; the target has an account for the token's
      material; and the requested weight does not exceed that account's remaining tons. */
  function PlanUpdate(users: seq<User>, tokens: seq<Token>, accounts: seq<MaterialAccount>,
                      caller: Caller, tokenId: nat, userId: nat, weight: real): (r: Result<UpdatePlan>)
    ensures FindToken(tokens, tokenId).None? ==> r == Err(NotFound)
    ensures FindToken(tokens, tokenId).Some? ==>
      var t := tokens[FindToken(tokens, tokenId).value];
      var target := if IsStaff(caller.role) then userId else t.owner;
      && (caller.role == UserRole && caller.id != t.owner ==> r == Err(Forbidden))
      && (IsStaff(caller.role) && !Registered(users, userId) ==> r == Err(NotFound))
      && (!(caller.role == UserRole && caller.id != t.owner) && (IsStaff(caller.role) ==> Registered(users, userId)) ==>
            match FindAccount(accounts, target, t.materialType)
            case None => r == Err(BadRequest)
            case Some(j) =>
              (weight > accounts[j].remainingTons ==> r == Err(InsufficientBalance))
              && (weight <= accounts[j].remainingTons ==> r == Ok(UpdatePlan(FindToken(tokens, tokenId).value, target, j))))
    ensures r.Ok? ==>
      && r.value.tokenIndex < |tokens| && tokens[r.value.tokenIndex].id == tokenId
      && r.value.accountIndex < |accounts|
      && accounts[r.value.accountIndex].owner == r.value.target
      && MaterialName(accounts[r.value.accountIndex].material) == tokens[r.value.tokenIndex].materialType
      && weight <= accounts[r.value.accountIndex].remainingTons
      && (caller.role == UserRole ==> caller.id == tokens[r.value.tokenIndex].owner)
      && (IsStaff(caller.role) ==> r.value.target == userId && Registered(users, userId))
      && (!IsStaff(caller.role) ==> r.value.target == tokens[r.value.tokenIndex].owner)
  {
    match FindToken(tokens, tokenId)
    case None => Err(NotFound)
    case Some(i) =>
      if caller.role == UserRole && caller.id != tokens[i].owner then Err(Forbidden)
      else if IsStaff(caller.role) && FindUser(users, userId).None? then Err(NotFound)
      else
        var target := if IsStaff(caller.role) then userId else tokens[i].owner;
        match FindAccount(accounts, target, tokens[i].materialType)
        case None => Err(BadRequest)
        case Some(j) =>
          if weight > accounts[j].remainingTons then Err(InsufficientBalance)
          else Ok(UpdatePlan(i, target, j))
  }

  /** The token as updateToken leaves it (crateToken.ts:199-212). */
  function Billed(t: Token, target: nat, weight: real, commission: real, paidAmount: real): (r: Token)
    ensures TokenConsistent(r)
    ensures r.status == Updated && r.owner == target
    ensures r.weight == weight && r.commission == commission && r.paidAmount == paidAmount
    ensures r.ratePerTon == RatePerTon
    ensures r.totalAmount == weight * 180.0 + commission
    ensures r.carryForward == r.totalAmount - paidAmount
    ensures r.id == t.id && r.customerName == t.customerName && r.truckNumber == t.truckNumber
            && r.materialType == t.materialType
  {
    var totalAmount := weight * RatePerTon + commission;
    t.(owner := target, weight := weight, commission := commission, ratePerTon := RatePerTon,
       totalAmount := totalAmount, paidAmount := paidAmount,
       carryForward := totalAmount - paidAmount, status := Updated)
  }

  /** The account as updateToken leaves it (crateToken.ts:217-219): the full weight moves
      from remaining to used, and a negative remainder is clamped to 0. */
  function Debited(a: MaterialAccount, weight: real): (r: MaterialAccount)
    ensures r.owner == a.owner && r.material == a.material && r.totalTons == a.totalTons
    ensures r.usedTons == a.usedTons + weight
    ensures r.remainingTons >= 0.0
    ensures weight <= a.remainingTons ==> r.remainingTons == a.remainingTons - weight
    ensures weight <= a.remainingTons ==> r.usedTons + r.remainingTons == a.usedTons + a.remainingTons
    ensures Balanced(a) ==> (Balanced(r) <==> weight <= a.remainingTons)
  {
    var remaining := a.remainingTons - weight;
    a.(usedTons := a.usedTons + weight, remainingTons := if remaining < 0.0 then 0.0 else remaining)
  }

  /** Rewriting one token in place, keeping its id, with a registered owner and consistent
      billing, keeps the token table well formed. */
  lemma ReplaceTokenKeepsWellFormed(tokens: seq<Token>, users: seq<User>, nextId: nat, i: nat, t: Token)
    requires TokensWellFormed(tokens, users, nextId)
    requires i < |tokens| && t.id == tokens[i].id
    requires Registered(users, t.owner) && TokenConsistent(t)
    ensures TokensWellFormed(tokens[i := t], users, nextId)
  {
  }

  /** Rewriting one account in place, keeping its owner and material, with a ledger that
      adds up, keeps the account table well formed. */
  lemma ReplaceAccountKeepsWellFormed(accounts: seq<MaterialAccount>, users: seq<User>, j: nat, a: MaterialAccount)
    requires AccountsWellFormed(accounts, users)
    requires j < |accounts| && a.owner == accounts[j].owner && a.material == accounts[j].material
    requires Balanced(a)
    ensures AccountsWellFormed(accounts[j := a], users)
  {
  }

  /** updateToken (crateToken.ts:149-232). A rejected request writes nothing. An accepted one
      bills the token and debits the target's account by the full new weight (not by the
      change in weight); the balance check means the clamp never changes anything. */
  method UpdateToken(db: Db, caller: Caller, tokenId: nat, userId: nat, weight: real,
                     commission: real, paidAmount: real) returns (r: Result<Token>)
    requires db.Valid()
    modifies db`tokens, db`accounts
    ensures db.Valid()
    ensures var plan := PlanUpdate(old(db.users), old(db.tokens), old(db.accounts), caller, tokenId, userId, weight);
      && (plan.Err? ==> r == Err(plan.error) && db.tokens == old(db.tokens) && db.accounts == old(db.accounts))
      && (plan.Ok? ==>
            var p := plan.value;
            var t := Billed(old(db.tokens)[p.tokenIndex], p.target, weight, commission, paidAmount);
            && r == Ok(t)
            && db.tokens == old(db.tokens)[p.tokenIndex := t]
            && db.accounts == old(db.accounts)[p.accountIndex := Debited(old(db.accounts)[p.accountIndex], weight)]
            && db.accounts[p.accountIndex].remainingTons == old(db.accounts)[p.accountIndex].remainingTons - weight)
  {
    var plan := PlanUpdate(db.users, db.tokens, db.accounts, caller, tokenId, userId, weight);
    if plan.Err? {
      return Err(plan.error);
    }
    var p := plan.value;

    var totalAmount := weight * RatePerTon + commission;
    var carryForward := totalAmount - paidAmount;
    var token := db.tokens[p.tokenIndex];
    token := token.(owner := p.target);
    token := token.(weight := weight);
    token := token.(commission := commission);
    token := token.(ratePerTon := RatePerTon);
    token := token.(totalAmount := totalAmount);
    token := token.(paidAmount := paidAmount);
    token := token.(carryForward := carryForward);
    token := token.(status := Updated);
    assert token == Billed(db.tokens[p.tokenIndex], p.target, weight, commission, paidAmount);
    ReplaceTokenKeepsWellFormed(db.tokens, db.users, db.nextTokenId, p.tokenIndex, token);
    db.tokens := db.tokens[p.tokenIndex := token];

    var account := db.accounts[p.accountIndex];
    account := account.(usedTons := account.usedTons + weight);
    account := account.(remainingTons := account.remainingTons - weight);
    if account.remainingTons < 0.0 {
      account := account.(remainingTons := 0.0);
    }
    assert account == Debited(db.accounts[p.accountIndex], weight);
    ReplaceAccountKeepsWellFormed(db.accounts, db.users, p.accountIndex, account);
    db.accounts := db.accounts[p.accountIndex := account];
    r := Ok(token);
  }

  /** What the confirmation note says about a carry-forward (crateToken.ts:290-297). */
  datatype PaymentNote = StillOwed(amount: real) | ExtraPaid(amount: real) | FullyPaid

  /** The signed carry-forward a note stands for. */
  function Signed(n: PaymentNote): real
  {
    match n
    case StillOwed(a) => a
    case ExtraPaid(a) => -a
    case FullyPaid => 0.0
  }

  /** Positive means still owed, negative means credit, zero means fully paid; the note's
      amount is the magnitude, so the note determines the carry-forward. */
  function Classify(carryForward: real): (n: PaymentNote)
    ensures n.StillOwed? <==> carryForward > 0.0
    ensures n.ExtraPaid? <==> carryForward < 0.0
    ensures n.FullyPaid? <==> carryForward == 0.0
    ensures !n.FullyPaid? ==> n.amount > 0.0
    ensures Signed(n) == carryForward
  {
    if carryForward > 0.0 then StillOwed(carryForward)
    else if carryForward < 0.0 then ExtraPaid(-carryForward)
    else FullyPaid
  }

  /** The token as confirmToken leaves it (crateToken.ts:257-265): the payment is recorded
      against the billed total and the token is completed; nothing else changes. */
  function Settled(t: Token, paid: real): (r: Token)
    ensures r.paidAmount == paid && r.carryForward == t.totalAmount - paid && r.status == Completed
    ensures r.weight == t.weight && r.ratePerTon == t.ratePerTon && r.commission == t.commission
            && r.totalAmount == t.totalAmount
    ensures r.id == t.id && r.owner == t.owner && r.customerName == t.customerName
            && r.truckNumber == t.truckNumber && r.materialType == t.materialType
    ensures TokenConsistent(t) ==> TokenConsistent(r)
  {
    t.(paidAmount := paid, carryForward := t.totalAmount - paid, status := Completed)
  }

  /** The checks confirmToken makes (crateToken.ts:243-255): the token exists and a `user`
      caller owns it. */
  function ConfirmCheck(tokens: seq<Token>, caller: Caller, tokenId: nat): (r: Result<nat>)
    ensures FindToken(tokens, tokenId).None? ==> r == Err(NotFound)
    ensures FindToken(tokens, tokenId).Some? ==>
      var i := FindToken(tokens, tokenId).value;
      if caller.role == UserRole && caller.id != tokens[i].owner then r == Err(Forbidden) else r == Ok(i)
  {
    match FindToken(tokens, tokenId)
    case None => Err(NotFound)
    case Some(i) => if caller.role == UserRole && caller.id != tokens[i].owner then Err(Forbidden) else Ok(i)
  }

  datatype Confirmation = Confirmation(token: Token, note: PaymentNote)

  /** confirmToken (crateToken.ts:238-320): acts on the one token named; the material account
      is read and saved back unchanged. */
  method ConfirmToken(db: Db, caller: Caller, tokenId: nat, paidAmount: real) returns (r: Result<Confirmation>)
    requires db.Valid()
    modifies db`tokens
    ensures db.Valid()
    ensures var check := ConfirmCheck(old(db.tokens), caller, tokenId);
      && (check.Err? ==> r == Err(check.error) && db.tokens == old(db.tokens))
      && (check.Ok? ==>
            var t := Settled(old(db.tokens)[check.value], paidAmount);
            && db.tokens == old(db.tokens)[check.value := t]
            && r == Ok(Confirmation(t, Classify(t.carryForward))))
  {
    var check := ConfirmCheck(db.tokens, caller, tokenId);
    if check.Err? {
      return Err(check.error);
    }
    var i := check.value;
    var token := db.tokens[i];
    var carryForward := token.totalAmount - paidAmount;
    token := token.(paidAmount := paidAmount);
    token := token.(carryForward := carryForward);
    token := token.(status := Completed);
    db.tokens := db.tokens[i := token];
    r := Ok(Confirmation(token, Classify(carryForward)));
  }

  /** getAllTokens (crateToken.ts:348-377): a `user` caller may list only their own tokens;
      the user must exist; the list is that user's tokens, newest first. */
  function GetAllTokens(caller: Caller, userId: nat, users: seq<User>, tokens: seq<Token>): (r: Result<seq<Token>>)
    ensures caller.role == UserRole && caller.id != userId ==> r == Err(Forbidden)
    ensures !(caller.role == UserRole && caller.id != userId) ==> (r.Ok? <==> Registered(users, userId))
    ensures !(caller.role == UserRole && caller.id != userId) && !Registered(users, userId) ==> r == Err(NotFound)
    ensures r.Err? ==> r.error == Forbidden || r.error == NotFound
    ensures r.Ok? ==> forall t :: t in r.value <==> t in tokens && t.owner == userId
  {
    if caller.role == UserRole && caller.id != userId then Err(Forbidden)
    else if FindUser(users, userId).None? then Err(NotFound)
    else Ok(NewestFirst(tokens, (t: Token) => t.owner == userId))
  }

  /** Over a table in ascending id order the listing is in strictly descending id order. */
  lemma GetAllTokensNewestFirst(caller: Caller, userId: nat, users: seq<User>, tokens: seq<Token>)
    requires forall i, j :: 0 <= i < j < |tokens| ==> tokens[i].id < tokens[j].id
    requires GetAllTokens(caller, userId, users, tokens).Ok?
    ensures var r := GetAllTokens(caller, userId, users, tokens).value;
      forall i, j :: 0 <= i < j < |r| ==> r[i].id > r[j].id
  {
    NewestFirstDescends(tokens, (t: Token) => t.owner == userId, (t: Token) => t.id as int);
  }
}
