/** Bedash delivery entries of src/controllers/bedashController.ts: creating an entry, the
    role-dependent listing with each row's remaining tons, and marking an entry completed. */
module BedashController {
  import opened Wrappers
  import opened Seqs
  import opened Model
  import opened Database

  /** The checks createBedash makes (bedashController.ts:19-26): the caller's role must be
      admin, superadmin or user, and then the named user must exist. */
  function CreateGuard(caller: Caller, users: seq<User>, userId: nat): (o: Outcome)
    ensures caller.role.OtherRole? ==> o == Fail(Forbidden)
    ensures !caller.role.OtherRole? ==> (o == Pass <==> Registered(users, userId))
    ensures !caller.role.OtherRole? && o.Fail? ==> o.error == NotFound
  {
    if caller.role.OtherRole? then Fail(Forbidden)
    else if FindUser(users, userId).None? then Fail(NotFound)
    else Pass
  }

  /** The material an entry gets: the column default "bedash" when the request names none. */
  function EntryMaterial(materialType: Option<string>): (m: string)
    ensures materialType.Some? ==> m == materialType.value
    ensures materialType.None? ==> m == MaterialName(Bedash)
  {
    if materialType.Some? then materialType.value else "bedash"
  }

  /** createBedash (bedashController.ts:14-47): after the checks, one pending entry for the
      user is appended with the given amount, material and dates. The handler sets no
      `createdBy`. */
  method CreateBedash(db: Db, caller: Caller, userId: nat, materialType: Option<string>,
                      customDate: Option<string>, targetDate: Option<string>, amount: real)
    returns (r: Result<BedashMessage>)
    requires db.Valid()
    modifies db`bedash, db`nextBedashId
    ensures db.Valid()
    ensures var guard := CreateGuard(caller, old(db.users), userId);
      && (guard.Fail? ==> r == Err(guard.error) && db.bedash == old(db.bedash)
                          && db.nextBedashId == old(db.nextBedashId))
      && (guard.Pass? ==>
            && r == Ok(BedashMessage(old(db.nextBedashId), userId, amount, EntryMaterial(materialType),
                                     customDate, targetDate, BedashPending, None))
            && db.bedash == old(db.bedash) + [r.value]
            && db.nextBedashId == old(db.nextBedashId) + 1)
  {
    var guard := CreateGuard(caller, db.users, userId);
    if guard.Fail? {
      return Err(guard.error);
    }
    var entry := BedashMessage(db.nextBedashId, userId, amount, EntryMaterial(materialType),
                               customDate, targetDate, BedashPending, None);
    db.bedash := db.bedash + [entry];
    db.nextBedashId := db.nextBedashId + 1;
    r := Ok(entry);
  }

  /** Which entries a caller's listing holds (bedashController.ts:99-116): a superadmin all of
      them; an admin those it created and those of the users it created; anyone else those
      of its own user. */
  predicate EntryVisible(caller: Caller, users: seq<User>, e: BedashMessage)
  {
    match caller.role
    case SuperAdminRole => true
    case AdminRole =>
      || e.createdBy == Some(caller.id)
      || (exists k :: 0 <= k < |users| && users[k].id == e.user && users[k].createdBy == Some(caller.id))
    case _ => e.user == caller.id
  }

  /** One row of the listing. */
  datatype BedashRow = BedashRow(id: nat, userName: string, materialType: string, remainingTons: real,
                                 status: BedashStatus, customDate: Option<string>,
                                 targetDate: Option<string>)

  /** The row shown for an entry (bedashController.ts:118-136): the entry's own fields, the
      name of its user, and the remaining tons of that user's account for the entry's
      material, or 0 when it has none. */
  function RowOf(users: seq<User>, accounts: seq<MaterialAccount>, e: BedashMessage): (row: BedashRow)
    ensures row.id == e.id && row.materialType == e.materialType && row.status == e.status
    ensures row.customDate == e.customDate && row.targetDate == e.targetDate
    ensures (forall k :: 0 <= k < |accounts| ==>
               !(accounts[k].owner == e.user && MaterialName(accounts[k].material) == e.materialType))
            ==> row.remainingTons == 0.0
    ensures AccountsUnique(accounts) ==>
              forall k :: 0 <= k < |accounts| && accounts[k].owner == e.user
                          && MaterialName(accounts[k].material) == e.materialType
                ==> row.remainingTons == accounts[k].remainingTons
    ensures (forall i, j :: 0 <= i < j < |users| ==> users[i].id < users[j].id) ==>
              forall k :: 0 <= k < |users| && users[k].id == e.user ==> row.userName == users[k].name
  {
    var name := match FindUser(users, e.user)
                case None => ""
                case Some(i) =>
                  assert forall k :: 0 <= k < |users| && users[k].id == e.user ==> users[k].id == users[i].id;
                  users[i].name;
    var remaining := match FindAccount(accounts, e.user, e.materialType)
                     case None => 0.0
                     case Some(i) =>
                       assert AccountsUnique(accounts) ==>
                         forall k :: (0 <= k < |accounts| && accounts[k].owner == e.user
                                      && MaterialName(accounts[k].material) == e.materialType) ==> k == i by {
                         if AccountsUnique(accounts) {
                           forall k | 0 <= k < |accounts| && accounts[k].owner == e.user
                                      && MaterialName(accounts[k].material) == e.materialType
                             ensures k == i
                           {
                             MaterialNameInjective(accounts[k].material, accounts[i].material);
                           }
                         }
                       }
                       accounts[i].remainingTons;
    BedashRow(e.id, name, e.materialType, remaining, e.status, e.customDate, e.targetDate)
  }

  /** The entries a caller's listing selects. */
  function VisibleTo(caller: Caller, users: seq<User>): BedashMessage -> bool
  {
    (e: BedashMessage) => EntryVisible(caller, users, e)
  }

  /** getBedashList (bedashController.ts:94-145): the rows of the entries the caller sees, in
      table order. */
  function GetBedashList(caller: Caller, users: seq<User>, accounts: seq<MaterialAccount>,
                         entries: seq<BedashMessage>): (rows: seq<BedashRow>)
    ensures |rows| <= |entries|
    ensures |rows| == |Filter(entries, VisibleTo(caller, users))|
    ensures forall e :: e in entries && EntryVisible(caller, users, e) ==> RowOf(users, accounts, e) in rows
    ensures forall k :: 0 <= k < |rows| ==>
              exists e :: e in entries && EntryVisible(caller, users, e) && rows[k] == RowOf(users, accounts, e)
  {
    var visible := Filter(entries, VisibleTo(caller, users));
    MapSeqMembers((e: BedashMessage) => RowOf(users, accounts, e), visible);
    MapSeq((e: BedashMessage) => RowOf(users, accounts, e), visible)
  }

  /** With unique entry ids the listing shows an entry exactly when the caller sees it. */
  lemma GetBedashListExact(caller: Caller, users: seq<User>, accounts: seq<MaterialAccount>,
                           entries: seq<BedashMessage>, e: BedashMessage)
    requires forall i, j :: 0 <= i < j < |entries| ==> entries[i].id < entries[j].id
    requires e in entries
    ensures (exists k :: 0 <= k < |GetBedashList(caller, users, accounts, entries)|
                         && GetBedashList(caller, users, accounts, entries)[k].id == e.id)
            <==> EntryVisible(caller, users, e)
  {
    var rows := GetBedashList(caller, users, accounts, entries);
    forall k | 0 <= k < |rows| && rows[k].id == e.id ensures EntryVisible(caller, users, e) {
      var f :| f in entries && EntryVisible(caller, users, f) && rows[k] == RowOf(users, accounts, f);
      var a :| 0 <= a < |entries| && entries[a] == e;
      var b :| 0 <= b < |entries| && entries[b] == f;
      assert entries[a].id == entries[b].id;
      assert a == b;
    }
    if EntryVisible(caller, users, e) {
      assert RowOf(users, accounts, e) in rows;
      var k :| 0 <= k < |rows| && rows[k] == RowOf(users, accounts, e);
      assert rows[k].id == e.id;
    }
  }

  /** The checks confirmBedash makes (bedashController.ts:153-164): only admin and superadmin
      may confirm, and the entry must exist; the result is the entry's position. */
  function ConfirmGuard(caller: Caller, entries: seq<BedashMessage>, id: nat): (r: Result<nat>)
    ensures !IsStaff(caller.role) ==> r == Err(Forbidden)
    ensures IsStaff(caller.role) && FindBedash(entries, id).None? ==> r == Err(NotFound)
    ensures r.Ok? ==> r.value < |entries| && entries[r.value].id == id && IsStaff(caller.role)
    ensures IsStaff(caller.role) && (exists k :: 0 <= k < |entries| && entries[k].id == id) ==> r.Ok?
  {
    if !IsStaff(caller.role) then Err(Forbidden)
    else match FindBedash(entries, id)
      case None => Err(NotFound)
      case Some(i) => Ok(i)
  }

  /** confirmBedash (bedashController.ts:148-175): after the checks the entry's status becomes
      completed and nothing else changes. */
  method ConfirmBedash(db: Db, caller: Caller, id: nat) returns (r: Result<BedashMessage>)
    requires db.Valid()
    modifies db`bedash
    ensures db.Valid()
    ensures var guard := ConfirmGuard(caller, old(db.bedash), id);
      && (guard.Err? ==> r == Err(guard.error) && db.bedash == old(db.bedash))
      && (guard.Ok? ==>
            && r == Ok(old(db.bedash)[guard.value].(status := BedashCompleted))
            && db.bedash == old(db.bedash)[guard.value := r.value])
  {
    var guard := ConfirmGuard(caller, db.bedash, id);
    if guard.Err? {
      return Err(guard.error);
    }
    var i := guard.value;
    var entry := db.bedash[i];
    entry := entry.(status := BedashCompleted);
    db.bedash := db.bedash[i := entry];
    r := Ok(entry);
  }
}
