/** The data-access layer and the Redis client as objects with mutable state. A transaction works on
    a private copy of the tables until it commits. Its connection may break at any statement. */
module Store {
  import opened Common
  import opened Uuids
  import opened Ledger
  import opened Serial
  import Protocol

  /** Every transaction row with the id gets the status: UPDATE transactions ... WHERE id. */
  function WithStatus(transactions: seq<Transaction>, id: nat, status: TransactionStatus): (r: seq<Transaction>)
    ensures |r| == |transactions|
    ensures forall i :: 0 <= i < |r| ==>
              r[i] == if transactions[i].id == id then transactions[i].(status := status) else transactions[i]
  {
    if transactions == [] then []
    else
      var t := transactions[|transactions| - 1];
      WithStatus(transactions[..|transactions| - 1], id, status) + [if t.id == id then t.(status := status) else t]
  }

  /** How the commit ends: acknowledged, refused, or done with the acknowledgement lost. */
  datatype CommitReply = Acked | Refused | AckLost

  class Tx {
    var accounts: map<Uuid, Account>
    var transactions: seq<Transaction>
    var ledger: seq<Entry>
    var locked: seq<Uuid>  // rows locked FOR UPDATE, in the order of the statements
    var lifetime: nat      // statements until the connection breaks

    constructor (db: Database, lifetime: nat)
      ensures Db() == db && locked == [] && this.lifetime == lifetime
    {
      accounts, transactions, ledger := db.accounts, db.transactions, db.ledger;
      locked := [];
      this.lifetime := lifetime;
    }

    function Db(): Database
      reads this
    {
      Database(accounts, transactions, ledger)
    }

    /** SELECT ... FOR UPDATE. */
    method GetAccountForUpdate(account: Uuid) returns (r: Result<Account, Error>)
      modifies this`locked, this`lifetime
      ensures old(lifetime) == 0 ==> r == Failure(DatabaseUnavailable) && lifetime == 0
      ensures old(lifetime) > 0 ==> lifetime == old(lifetime) - 1
      ensures old(lifetime) > 0 ==>
                r == if account in accounts then Success(accounts[account]) else Failure(AccountNotFound)
      ensures locked == old(locked) + if r.Success? then [account] else []
    {
      if lifetime == 0 {
        return Failure(DatabaseUnavailable);
      }
      lifetime := lifetime - 1;
      if account !in accounts {
        return Failure(AccountNotFound);
      }
      locked := locked + [account];
      return Success(accounts[account]);
    }

    method GetBalance(account: Uuid) returns (r: Result<int, Error>)
      modifies this`lifetime
      ensures old(lifetime) == 0 ==> r == Failure(DatabaseUnavailable) && lifetime == 0
      ensures old(lifetime) > 0 ==> lifetime == old(lifetime) - 1 && r == Success(Balance(ledger, account))
    {
      if lifetime == 0 {
        return Failure(DatabaseUnavailable);
      }
      lifetime := lifetime - 1;
      return Success(Balance(ledger, account));
    }

    method CreateTransaction(id: nat, r: Request) returns (result: Result<(), Error>)
      modifies this`transactions, this`lifetime
      ensures old(lifetime) == 0 ==> result == Failure(DatabaseUnavailable) && lifetime == 0
      ensures old(lifetime) > 0 ==> lifetime == old(lifetime) - 1
      ensures old(lifetime) > 0 ==> result.Success? == old(NewTransaction(Db(), id, r)).Success?
      ensures old(lifetime) > 0 && result.Failure? ==> result.error == old(NewTransaction(Db(), id, r)).error
      ensures transactions
              == old(transactions) + if result.Success? then [old(NewTransaction(Db(), id, r)).value] else []
    {
      if lifetime == 0 {
        return Failure(DatabaseUnavailable);
      }
      lifetime := lifetime - 1;
      var row := NewTransaction(Db(), id, r);
      if row.Failure? {
        return Failure(row.error);
      }
      transactions := transactions + [row.value];
      return Success(());
    }

    method InsertLedgerEntry(account: Uuid, id: nat, amount: real, entryType: EntryType) returns (result: Result<(), Error>)
      modifies this`ledger, this`lifetime
      ensures old(lifetime) == 0 ==> result == Failure(DatabaseUnavailable) && lifetime == 0
      ensures old(lifetime) > 0 ==> lifetime == old(lifetime) - 1
      ensures old(lifetime) > 0 ==> result.Success? == NewEntry(account, id, amount, entryType).Success?
      ensures old(lifetime) > 0 && result.Failure? ==> result.error == NewEntry(account, id, amount, entryType).error
      ensures ledger == old(ledger) + if result.Success? then [NewEntry(account, id, amount, entryType).value] else []
    {
      if lifetime == 0 {
        return Failure(DatabaseUnavailable);
      }
      lifetime := lifetime - 1;
      var entry := NewEntry(account, id, amount, entryType);
      if entry.Failure? {
        return Failure(entry.error);
      }
      ledger := ledger + [entry.value];
      return Success(());
    }

    method UpdateTransactionStatus(id: nat, status: TransactionStatus) returns (result: Result<(), Error>)
      modifies this`transactions, this`lifetime
      ensures old(lifetime) == 0 ==> result == Failure(DatabaseUnavailable) && lifetime == 0
      ensures old(lifetime) > 0 ==> lifetime == old(lifetime) - 1
      ensures old(lifetime) > 0 ==>
                result == if HasTransaction(old(transactions), id) then Success(()) else Failure(TransactionMissing)
      ensures transactions == if result.Success? then WithStatus(old(transactions), id, status) else old(transactions)
    {
      if lifetime == 0 {
        return Failure(DatabaseUnavailable);
      }
      lifetime := lifetime - 1;
      if !HasTransaction(transactions, id) {
        return Failure(TransactionMissing);
      }
      transactions := WithStatus(transactions, id, status);
      return Success(());
    }
  }

  class Store {
    var accounts: map<Uuid, Account>
    var transactions: seq<Transaction>
    var ledger: seq<Entry>

    constructor (db: Database)
      ensures Db() == db
    {
      accounts, transactions, ledger := db.accounts, db.transactions, db.ledger;
    }

    function Db(): Database
      reads this
    {
      Database(accounts, transactions, ledger)
    }

    method BeginTx(lifetime: nat) returns (tx: Tx)
      ensures fresh(tx) && tx.Db() == Db() && tx.locked == [] && tx.lifetime == lifetime
    {
      tx := new Tx(Db(), lifetime);
    }

    /** The end of WithTx: roll back after an error, commit otherwise. */
    method EndTx(tx: Tx, outcome: Result<(), Error>, reply: CommitReply) returns (result: Result<(), Error>)
      modifies this
      ensures outcome.Failure? ==> result == outcome && Db() == old(Db())
      ensures outcome.Success? && reply.Acked? ==> result == Success(()) && Db() == tx.Db()
      ensures outcome.Success? && reply.Refused? ==> result == Failure(SerializationFailure) && Db() == old(Db())
      ensures outcome.Success? && reply.AckLost? ==> result == Failure(CommitUnknown) && Db() == tx.Db()
    {
      if outcome.Failure? {
        return outcome;
      }
      if reply.Refused? {
        return Failure(SerializationFailure);
      }
      accounts, transactions, ledger := tx.accounts, tx.transactions, tx.ledger;
      if reply.AckLost? {
        return Failure(CommitUnknown);
      }
      return Success(());
    }
  }

  /** Whether a Redis call works, or is reported as an error with or without having been applied. */
  datatype RedisReply = Works | ErrorApplied | ErrorIgnored

  class RedisClient {
    var keys: map<Uuid, Protocol.Marker>

    constructor ()
      ensures keys == map[]
    {
      keys := map[];
    }

    method SetNX(key: Uuid, reply: RedisReply) returns (wasSet: Result<bool, Error>)
      modifies this
      ensures wasSet == if reply.Works? then Success(key !in old(keys)) else Failure(RedisUnavailable)
      ensures keys == if reply.ErrorIgnored? || key in old(keys) then old(keys)
                      else old(keys)[key := Protocol.Processing]
    {
      wasSet := if reply.Works? then Success(key !in keys) else Failure(RedisUnavailable);
      if !reply.ErrorIgnored? && key !in keys {
        keys := keys[key := Protocol.Processing];
      }
    }

    method Set(key: Uuid, transaction: nat, reply: RedisReply)
      modifies this
      ensures keys == if reply.ErrorIgnored? then old(keys) else old(keys)[key := Protocol.Done(transaction)]
    {
      if !reply.ErrorIgnored? {
        keys := keys[key := Protocol.Done(transaction)];
      }
    }

    method Del(key: Uuid, reply: RedisReply)
      modifies this
      ensures keys == if reply.ErrorIgnored? then old(keys) else old(keys) - {key}
    {
      if !reply.ErrorIgnored? {
        keys := keys - {key};
      }
    }
  }
}
