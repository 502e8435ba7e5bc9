# role_dashboard: a Dafny model of the handler logic

role_dashboard is an Express/TypeORM backend for a fly-ash and bed-ash dispatch desk. Staff
(`admin`, `superadmin`) and customers (`user`) hold per-material ton balances, bought with
rupees at 180 rupees per ton. Truck tokens are billed against those balances and then settled.
Bedash delivery entries are listed with the balance that remains. Every request passes role
rules before it touches the data.

This project models the bookkeeping and permission logic of the request handlers, as
operations on an in-memory store:

- `Database.Db` is a class holding the four tables (users, tokens, material accounts, bedash
  entries) as sequences in insertion order, the revoked-token set, and the auto-increment
  counters. `Db.Valid()` is the invariant every handler keeps:
  - ids are unique and ascending, and emails are unique;
  - every token, account and entry belongs to a registered user;
  - a user has at most one account per material, and each account's ledger adds up
    (total = used + remaining);
  - every token's billing is consistent (total = weight × rate + commission, carry-forward =
    total − paid, and a pending token is all zeros).
- Handlers that write (create, update, confirm, top up, register, delete) are methods of
  their controller's module that take the store as a `db: Db` argument. Each one states its new tables in terms of record-level functions (`Billed`,
  `Debited`, `Settled`, `Credited`, `ApplyTopUp`, `Patched`) and keeps `Valid()`.
- Guards and read-only handlers are pure functions that return `Ok`/`Pass` or a typed
  error:
  - `NotFound` is 404, `Forbidden` is 403 and `Unauthorized` is 401;
  - `BadRequest` (400) is the duplicate email, a bad login and the missing account;
  - `InsufficientBalance` is updateToken's 400 for weight above the remaining tons;
  - `ServerError` is a 500.
- Foreign calls are parameters: `jwt.verify` is `verify`, `jwt.sign` is `sign`,
  `bcrypt.hash` is `hash`, and `bcrypt.compare` is `matches`.

Modules: `Wrappers` (Option, Result, Outcome, Error), `Seqs` (repository queries as
sequence operations: `findOne` is the first match, `find` is a filter, `order: {id: "DESC"}`
is a reversal), `Model` (entities, roles, lookups, table invariants), `Database`, and one
module per source file: `TokenController`, `BalanceController`, `AuthMiddleware`,
`UserController`, `AuthController`, `BedashController`.

Behaviour of the code worth knowing:

- The update and delete paths (roleCheckUpdateDelete and both updateuser handlers) never look at
  `createdBy`: an admin may update or delete any `user` row except its own.
- updateToken debits the account by the full new weight on every call, not by the change in
  weight, so re-billing a token debits it again.
- confirmToken settles only the one token it is given. It does not distribute a payment over
  several tokens, and it saves the material account back unchanged.
- createToken makes no role check, and register never sets `createdBy`.
- addBalance accepts negative amounts. `BalanceController.NegativeTopUpGoesBelowZero` shows
  such a top-up leaving a negative remainder.
- updateuser saves an email that another row already holds. The unique column
  (src/models/User.ts:19) makes the save fail, and the handler answers 500 with nothing
  written.
- Deleting a user also deletes that user's tokens, accounts and bedash entries, because those
  foreign keys are declared `onDelete: "CASCADE"`.

## Model

| member | source | states |
|---|---|---|
| Model.ParseRole | src/models/User.ts:25-26 | the stored role string is kept exactly (`RoleName(ParseRole(s)) == s`); it is one of the three known roles exactly when it is "user", "admin" or "superadmin" |
| Model.RoleNameRoundTrip | src/models/User.ts:25-26 | reading back the name of a role gives the role again, so a stored role string and the role it is read as determine each other |
| Model.FindUser | src/controllers/userController.ts:54-55 | `findOneBy({id})`: the row found has the id; None means no row has it |
| Model.FindUserByEmail | src/controllers/authControllers.ts:25-26 | `findOneBy({email})`: the first row with the email; None means no row has it |
| Model.FindToken | src/controllers/crateToken.ts:244-248 | the token found has the id; None means no token has it |
| Model.FindBedash | src/controllers/bedashController.ts:159-164 | the entry found has the id; None means no entry has it |
| Model.FindAccount | src/controllers/crateToken.ts:179-184 | the account found belongs to the owner and its material is named by the string; None means there is no such account, including when the string names no material |
| Model.ReplaceUserKeepsWellFormed | src/controllers/userController.ts:72-78 | rewriting one user row with the same id and an email no other row holds keeps all four tables well formed |
| Model.AppendUserKeepsWellFormed | src/controllers/authControllers.ts:31-32 | appending a user with the next id and an unused email keeps all four tables well formed |
| Model.WithoutUserRemovesOne | src/controllers/userController.ts:99 | with unique ids, removing a registered user removes exactly one row |
| Model.WithoutUserKeepsUsers | src/controllers/userController.ts:99 | the user table without the deleted user stays well formed, and every other user stays registered |
| Model.CascadeKeepsTokens | src/models/Token.ts:50-54 | the tokens left after the cascade are well formed against the remaining users |
| Model.CascadeKeepsAccounts | src/models/materialaccount.ts:30-31 | the accounts left after the cascade are well formed against the remaining users |
| Model.CascadeKeepsBedash | src/models/bedashMessage.ts:16-17 | the bedash entries left after the cascade are well formed against the remaining users |
| Model.DeleteUserKeepsWellFormed | src/controllers/userController.ts:99 | removing a user together with the rows that cascade keeps all four tables well formed |
| Seqs.FindFirst | src/controllers/userController.ts:54 | `findOneBy`: the index found holds the first matching row; None means no row matches |
| Seqs.Filter | src/controllers/crateToken.ts:362-364 | `find` with a `where`: exactly the matching rows, each from the table, never more than the table holds |
| Seqs.FilterCounts | src/controllers/crateToken.ts:362-364 | `find` returns each matching row as often as the table holds it and no other row, so nothing is repeated or dropped |
| Seqs.NewestFirst | src/controllers/userController.ts:15-25 | `find` with `order: { id: "DESC" }`: exactly the matching rows, in the reverse of the table's insertion order |
| Seqs.NewestFirstDescends | src/controllers/crateToken.ts:362-366 | `order: { id: "DESC" }` over a table in ascending id order, after any filter, gives strictly descending ids |
| TokenController.CreateToken | src/controllers/crateToken.ts:14-36 | NotFound, with nothing stored, exactly when the owner is missing; otherwise one token is appended with the next id, the owner, the given fields, status pending and every amount 0 (src/models/Token.ts:23-42) |
| TokenController.PlanUpdate | src/controllers/crateToken.ts:155-197 | the checks in source order: NotFound for a missing token; Forbidden for a `user` who does not own it; NotFound for a missing re-target user (staff only); BadRequest when the target has no account for the token's material; InsufficientBalance when the weight exceeds the remaining tons; otherwise the rows to write |
| TokenController.Billed | src/controllers/crateToken.ts:199-212 | rate 180; total = weight·180 + commission; carry-forward = total − paid; status updated; owner is the target; the result's billing is consistent; identity fields are kept |
| TokenController.Debited | src/controllers/crateToken.ts:217-221 | used grows by the full weight; total is unchanged; remaining is never negative and equals remaining − weight whenever the weight passed the balance check; a balanced account stays balanced exactly when the weight fits |
| TokenController.UpdateToken | src/controllers/crateToken.ts:149-232 | a rejected plan writes nothing; an accepted one writes `Billed` to the token and `Debited` to the account, the clamp never fires, and `Valid()` is kept |
| TokenController.Classify | src/controllers/crateToken.ts:290-297 | still owed iff carry-forward > 0; credit iff < 0; fully paid iff = 0; the note's amount is positive and gives back the carry-forward |
| TokenController.Settled | src/controllers/crateToken.ts:257-265 | paid and carry-forward = total − paid recorded, status completed; weight, rate, commission, total and identity unchanged; billing consistency kept |
| TokenController.ConfirmCheck | src/controllers/crateToken.ts:243-255 | NotFound for a missing token; Forbidden for a `user` who does not own it; otherwise the token's position |
| TokenController.ConfirmToken | src/controllers/crateToken.ts:238-320 | a refused request writes nothing; otherwise only that token is replaced by `Settled`, the account table is not touched, and the note is `Classify` of the new carry-forward |
| TokenController.GetAllTokens | src/controllers/crateToken.ts:348-376 | Forbidden for a `user` asking about another id; otherwise NotFound exactly when the user is missing; the list holds exactly that user's tokens |
| TokenController.GetAllTokensNewestFirst | src/controllers/crateToken.ts:362-366 | the listed tokens are in strictly descending id order |
| BalanceController.TonsFor | src/controllers/AddBalance.ts:44-45 | a missing or zero amount buys 0 tons; otherwise tons × 180 is the amount; a non-negative amount buys non-negative tons |
| BalanceController.TopUpGuard | src/controllers/AddBalance.ts:17-39 | Unauthorized without a caller; NotFound for a missing target; a `user` passes only for itself; staff pass for anyone but themselves; any other role is Forbidden |
| BalanceController.Opened | src/controllers/AddBalance.ts:52-59 | a new account has total = remaining = tons and used 0, so it is balanced |
| BalanceController.Credited | src/controllers/AddBalance.ts:60-63 | total and remaining grow by the tons; used is unchanged; a balanced account stays balanced |
| BalanceController.ApplyTopUp | src/controllers/AddBalance.ts:47-65 | afterwards the owner has an account for the material; it is a new `Opened` account when there was none, otherwise the existing one `Credited` in place |
| BalanceController.TopUpKeepsWellFormed | src/controllers/AddBalance.ts:47-85 | a top-up keeps one account per user and material, each balanced |
| BalanceController.TopUpKeepsOtherAccount | src/controllers/AddBalance.ts:67-85 | the bedash top-up leaves the flyash account at the same position and unchanged |
| BalanceController.TopUpAccount | src/controllers/AddBalance.ts:47-65 | the accounts become `ApplyTopUp` of the old ones; the account returned is the one now stored |
| BalanceController.AddBalance | src/controllers/AddBalance.ts:12-105 | a refused request writes nothing; an accepted one applies both top-ups, leaves both accounts present, and reports the tons added and the remaining tons now stored |
| BalanceController.FiguresOf | src/controllers/AddBalance.ts:127-139 | zeros when the user has no account for the material; with one account per material, that account's total, used and remaining |
| BalanceController.GetBalance | src/controllers/AddBalance.ts:107-144 | Forbidden for a `user` reading another id; otherwise NotFound exactly when the user is missing; the report holds both materials' figures |
| BalanceController.NegativeTopUpGoesBelowZero | src/controllers/AddBalance.ts:44-63 | every negative amount is accepted, and topping up an account with nothing remaining by it leaves a negative remainder |
| AuthMiddleware.Split | src/middlewares/authMiddleware.ts:19 | `split(" ")` yields at least one piece and no piece contains the separator |
| AuthMiddleware.JoinSplit | src/middlewares/authMiddleware.ts:19 | the pieces of a split, joined with the separator, give back the string |
| AuthMiddleware.SplitTwo | src/middlewares/authMiddleware.ts:19 | two separator-free parts joined by one space split back into exactly those two parts |
| AuthMiddleware.SplitNone | src/middlewares/authMiddleware.ts:19 | a string without a space splits into itself alone |
| AuthMiddleware.BearerToken | src/middlewares/authMiddleware.ts:19-22 | for a present header the token is its second space-separated piece when that piece exists and is non-empty, and there is none otherwise; there is no token without a header; a token never holds a space |
| AuthMiddleware.BearerRoundTrip | src/middlewares/authMiddleware.ts:19 | the header "Bearer <token>" yields exactly the token |
| AuthMiddleware.Authenticate | src/middlewares/authMiddleware.ts:13-42 | Unauthorized for a missing token and for a revoked one; otherwise Ok exactly when verification succeeds, and the caller is the verified payload |
| AuthMiddleware.BlacklistBeforeVerify | src/middlewares/authMiddleware.ts:25-36 | a revoked token is refused whatever verification would answer |
| AuthMiddleware.AdminOnly | src/middlewares/authMiddleware.ts:44-53 | passes iff there is a caller whose role is admin or superadmin; otherwise Forbidden |
| AuthMiddleware.RoleCheckCreate | src/middlewares/authMiddleware.ts:68-92 | a superadmin passes; a `user` is refused; an admin passes iff the new role is unspecified or "user"; no caller or any other role passes |
| AuthMiddleware.RoleCheckUpdateDelete | src/middlewares/authMiddleware.ts:96-136 | NotFound for a missing target before any role rule, and every refusal of an existing target is Forbidden; a `user` is refused; an admin passes iff the target has role `user` and is not itself; a superadmin, another role or no caller passes |
| AuthMiddleware.AdminNeverManagesPeers | src/middlewares/authMiddleware.ts:117-130 | an admin is refused for itself and for every staff target |
| UserController.GetUser | src/controllers/userController.ts:8-39 | a list for staff and a single row otherwise; the list holds a summary of every user the caller sees and only such summaries; the single row is the summary of the caller's own row, present iff registered |
| UserController.GetUserExact | src/controllers/userController.ts:13-25 | with unique ids, a user is listed exactly when the caller sees it (superadmin: all; admin: `user` rows it created) |
| UserController.GetUserNewestFirst | src/controllers/userController.ts:17-24 | the list is in strictly descending id order |
| UserController.UpdateGuard | src/controllers/userController.ts:54-69 | NotFound for a missing target; a `user` is Forbidden; an admin passes only for a role-`user` target other than itself; everyone else passes |
| UserController.GuardAgreesWithMiddleware | src/controllers/userController.ts:54-69 | the handler's guard decides exactly as roleCheckUpdateDelete, with the same error |
| UserController.Patched | src/controllers/userController.ts:72-76 | each field changes only when supplied (non-empty, or a boolean for `isActive`) and then takes the supplied value, the password hashed; id and `createdBy` are kept |
| UserController.UpdateUser | src/controllers/userController.ts:49-84 | a refused request writes nothing; an email held by another row gives ServerError with nothing written; otherwise the target row becomes `Patched` and `Valid()` is kept |
| UserController.DeleteCheck | src/controllers/userController.ts:89-97 | NotFound for a missing user; Forbidden for an active one; passes exactly for an inactive registered user |
| UserController.DeleteUser | src/controllers/userController.ts:86-104 | (the same code is the deleteUser of authControllers.ts:194-212) a refused request writes nothing; otherwise the user row and the rows that cascade from it are removed, nothing else is, and `Valid()` is kept |
| AuthController.NewRole | src/controllers/authControllers.ts:31 | an unspecified role gives the column default `user`; a named role is stored as named |
| AuthController.Register | src/controllers/authControllers.ts:19-39 | BadRequest, with nothing stored, exactly when the email is registered; otherwise one user is appended with the next id, the email, the hashed password, the role and the column defaults |
| AuthController.Login | src/controllers/authControllers.ts:41-70 | BadRequest for an unknown email and for a rejected password; otherwise the session is signed over the found user's id and role |
| AuthController.RegisterThenLogin | src/controllers/authControllers.ts:30-61 | a user just registered with an unused email logs in with its password and gets its own role |
| AuthController.LoginIgnoresActivity | src/controllers/authControllers.ts:49-64 | login answers the same whether or not the user is active |
| AuthController.SameEmailsSameLookup | src/controllers/authControllers.ts:49 | tables that agree on every email find the same row for an email |
| AuthController.UpdateUser | src/controllers/authControllers.ts:145-179 | the guard of userController's updateuser and the same patch without a `name` field |
| BedashController.CreateGuard | src/controllers/bedashController.ts:19-26 | Forbidden unless the role is admin, superadmin or user; then NotFound exactly when the user is missing |
| BedashController.EntryMaterial | src/models/bedashMessage.ts:22-23 | a missing material takes the column default "bedash" |
| BedashController.CreateBedash | src/controllers/bedashController.ts:14-47 | a refused request stores nothing; otherwise one pending entry is appended with the next id, the user, amount, material and dates, and no `createdBy` |
| BedashController.RowOf | src/controllers/bedashController.ts:118-136 | the row carries the entry's fields; its remaining tons are the user's account's for that material, or 0 when there is none; its name is the user's |
| BedashController.GetBedashList | src/controllers/bedashController.ts:94-145 | the rows are exactly `RowOf` of the entries the caller sees: every visible entry has its row, every row comes from a visible entry, and there are exactly as many rows as visible entries, each selected entry giving one row |
| BedashController.GetBedashListExact | src/controllers/bedashController.ts:99-116 | with unique entry ids, an entry's id appears in the list exactly when the caller sees the entry |
| BedashController.ConfirmGuard | src/controllers/bedashController.ts:153-164 | Forbidden for anyone but admin and superadmin; NotFound for a missing id; otherwise the entry's position |
| BedashController.ConfirmBedash | src/controllers/bedashController.ts:148-175 | a refused request writes nothing; otherwise only the entry's status becomes completed |

## Left out

- JWT signing, JWT verification, bcrypt hashing and bcrypt comparison are foreign library
  calls. They are function parameters; token expiry (`expiresIn: "1h"`) is part of
  verification and is not modelled.
- `hash` and `sign` are deterministic functions, whereas `bcrypt.hash` draws a random salt and
  `jwt.sign` stamps the issue time (`iat`). No property proved here depends on the same input
  giving the same hash or the same token twice.
- TypeORM persistence (repositories, `AppDataSource`, src/config/db.ts) is replaced by the
  in-memory tables of `Database.Db`. Each handler is one atomic step: the separate token and
  account saves of updateToken cannot interleave with other requests.
- Express wiring, status codes, JSON response shapes, logging and server start-up are not
  modelled. Results are typed errors instead of responses.
- Routes (src/routes/*.ts) are wiring only. The model does not fix which guard runs in front
  of which handler. The handlers those routes import but the controllers do not contain are
  not part of this model: deleteToken, getAdminAllUserTokens, editBalance, deleteBalance and
  getAllUsersBalanceReport. Nor is superAdminMiddleware, which is commented out.
- The commented-out earlier revisions of updateToken, getAllTokens, updateuser, deleteUser
  and getBedashList are not live code.
- The getUser of authControllers.ts (72-81) is not modelled. It is a plain column selection
  with no guard logic.
- `toFixed(2)` display rounding and floating point are not modelled: amounts and tons are
  exact reals.
- JavaScript coercions (`Number(...)`, `parseInt`, NaN) are not modelled. Numeric fields
  arrive as reals and ids as naturals.
- A request with a missing required field is not modelled. Examples are register or login
  without an email, which TypeORM turns into an unfiltered `findOneBy`.
- BedashController.GetBedashList: the BedashMessage entity (src/models/bedashMessage.ts)
  has no `createdBy` column, yet the listing filters on one and loads it as a relation.
  - The model gives entries an optional `createdBy` that createBedash never sets.
  - It follows the intended filter. It does not model TypeORM rejecting the unknown
    relation.
  - The listing keeps table order: the handler asks for no order.
- Transactions (src/models/Transaction.ts) and the revoked-token table's own handlers are not
  part of this model. No shown handler writes them.
- Creation and update timestamps (`createdAt`, `updatedAt`, `confirmedAt`) are not modelled.
- UserController.DeleteUser: the row count is stated separately, by
  `Model.WithoutUserRemovesOne`, not in the method's own contract.
