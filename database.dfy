/** The repositories the handlers share (the TypeORM data source), as one object holding one
    table per entity. Every handler method of the controllers takes it explicitly. */
module Database {
  import opened Model

  class Db {
    var users: seq<User>
    var tokens: seq<Token>
    var accounts: seq<MaterialAccount>
    var bedash: seq<BedashMessage>
    /** The revoked bearer tokens (BlackListToken.ts). */
    var blacklist: set<string>
    /** The next value of each table's auto-increment id. */
    var nextUserId: nat
    var nextTokenId: nat
    var nextBedashId: nat

    /** What every handler keeps: unique, ascending ids; unique emails; rows that reference a
        user reference a registered one; one account per user and material, each adding up;
        every token's billing consistent. */
    ghost predicate Valid()
      reads this
    {
      TablesWellFormed(users, tokens, accounts, bedash, nextUserId, nextTokenId, nextBedashId)
    }

    /** An empty database; auto-increment ids start at 1. */
    constructor ()
      ensures Valid()
      ensures users == [] && tokens == [] && accounts == [] && bedash == [] && blacklist == {}
      ensures nextUserId == 1 && nextTokenId == 1 && nextBedashId == 1
    {
      users, tokens, accounts, bedash, blacklist := [], [], [], [], {};
      nextUserId, nextTokenId, nextBedashId := 1, 1, 1;
    }
  }
}
