/** TransferFunds, FundAccount and GetBalance as written, statement by statement, on mutable state;
    each is proved to do what the sequential specification says, whatever fails along the way. */
module Services {
  import opened Common
  import opened Uuids
  import opened Ledger
  import opened Serial
  import opened Store
  import opened Protocol
  import Money

  /** What goes wrong around one call. */
  datatype Faults = Faults(gate: RedisReply, lookupFails: bool, lifetime: nat, commit: CommitReply, settle: RedisReply)

  const TRANSFER_STATEMENTS := 9
  const FUNDING_STATEMENTS := 4

  /** Promoting the row that was just inserted changes that row only. */
  lemma PromoteNewRow(transactions: seq<Transaction>, row: Transaction)
    requires !HasTransaction(transactions, row.id)
    ensures WithStatus(transactions + [row], row.id, Completed) == transactions + [row.(status := Completed)]
    ensures HasTransaction(transactions + [row], row.id)
  {
    assert (transactions + [row])[|transactions|] == row;
  }

  /** No sequential operation fails with the error that reports an unknown commit. */
  lemma SerialErrors(db: Database, id: nat, r: Request)
    ensures Apply(db, Posted(id, r)) != Failure(CommitUnknown)
    ensures r.Transfer? ==> ApplyTransfer(db, id, r) != Failure(CommitUnknown)
    ensures r.Funding? ==> ApplyFunding(db, id, r) != Failure(CommitUnknown)
  {
  }

  // ---------------------------------------------------------------- what a broken connection leaves of a result

  /** A sequence of statements that would end after `needed` of them, on a connection for `lifetime`. */
  function Until<T>(outcome: Result<T, Error>, needed: nat, lifetime: nat): Result<T, Error> {
    if lifetime >= needed then outcome else Failure(DatabaseUnavailable)
  }

  /** The outcome of statements whose effect on the tables is described elsewhere. */
  function Ended<T>(outcome: Result<T, Error>): Result<(), Error> {
    match outcome
    case Success(_) => Success(())
    case Failure(e) => Failure(e)
  }

  /** The first check of a transfer that fails, if any. */
  function CheckResult(db: Database, r: Request): Result<(), Error>
    requires r.Transfer?
  {
    if r.from !in db.accounts || r.to !in db.accounts then Failure(AccountNotFound)
    else if !db.accounts[r.from].status.Active? || !db.accounts[r.to].status.Active? then Failure(AccountNotActive)
    else if Money.ToDecimal(Balance(db.ledger, r.from)) < r.amount then Failure(InsufficientFunds)
    else Success(())
  }

  /** After how many statements it is known. */
  function CheckStatements(db: Database, r: Request): nat
    requires r.Transfer?
  {
    if First(r) !in db.accounts then 1
    else if Second(r) !in db.accounts then 2
    else if !db.accounts[r.from].status.Active? || !db.accounts[r.to].status.Active? then 4
    else 5
  }

  /** How many statements the sequential transfer executes before it ends. */
  function TransferStatements(db: Database, id: nat, r: Request): nat
    requires r.Transfer?
  {
    if CheckResult(db, r).Failure? then CheckStatements(db, r)
    else if NewTransaction(db, id, r).Failure? then 6
    else TRANSFER_STATEMENTS
  }

  function FundingStatements(db: Database, id: nat, r: Request): nat
    requires r.Funding?
  {
    if ActiveAccount(db, r.to).Failure? then 1
    else if NewTransaction(db, id, r).Failure? then 2
    else FUNDING_STATEMENTS
  }

  /** What the end of WithTx makes of statements that succeeded. */
  function Committed(reply: CommitReply): Result<(), Error> {
    match reply
    case Acked => Success(())
    case Refused => Failure(SerializationFailure)
    case AckLost => Failure(CommitUnknown)
  }

  class TransferService {
    var store: Store
    var rdb: RedisClient

    constructor (store: Store, rdb: RedisClient)
      ensures this.store == store && this.rdb == rdb
    {
      this.store, this.rdb := store, rdb;
    }

    /** The writing half of the database transaction: the row, its two entries, the promotion. */
    method RecordTransfer(tx: Tx, r: Request, txnID: nat) returns (result: Result<(), Error>)
      requires r.Transfer?
      modifies tx`transactions, tx`ledger, tx`lifetime
      ensures result.Success? <==> old(NewTransaction(tx.Db(), txnID, r)).Success? && old(tx.lifetime) >= 4
      ensures result.Success? ==>
                && tx.transactions == old(tx.transactions) + [old(NewTransaction(tx.Db(), txnID, r)).value.(status := Completed)]
                && tx.ledger == old(tx.ledger) + [NewEntry(r.from, txnID, r.amount, Debit).value, NewEntry(r.to, txnID, r.amount, Credit).value]
      ensures result == Until(Ended(old(NewTransaction(tx.Db(), txnID, r))),
                              if old(NewTransaction(tx.Db(), txnID, r)).Success? then 4 else 1, old(tx.lifetime))
      ensures old(NewTransaction(tx.Db(), txnID, r)).Success? ==>
                NewEntry(r.from, txnID, r.amount, Debit).Success? && NewEntry(r.to, txnID, r.amount, Credit).Success?
    {
      ghost var db := tx.Db();
      var _ :- tx.CreateTransaction(txnID, r);
      var _ :- tx.InsertLedgerEntry(r.from, txnID, r.amount, Debit);
      var _ :- tx.InsertLedgerEntry(r.to, txnID, r.amount, Credit);
      PromoteNewRow(db.transactions, NewTransaction(db, txnID, r).value);
      var _ :- tx.UpdateTransactionStatus(txnID, Completed);
      return Success(());
    }

    /** The reading half: both locks in UUID order, the re-fetches in logical order, the status
        checks and the balance check. */
    method LockAndCheck(tx: Tx, r: Request) returns (result: Result<(), Error>)
      requires r.Transfer? && tx.locked == []
      modifies tx`locked, tx`lifetime
      ensures result == Until(CheckResult(tx.Db(), r), CheckStatements(tx.Db(), r), old(tx.lifetime))
      ensures result.Success? <==>
                && old(tx.lifetime) >= 5
                && old(ActiveAccount(tx.Db(), r.from)).Success? && old(ActiveAccount(tx.Db(), r.to)).Success?
                && r.amount <= Money.ToDecimal(Balance(tx.ledger, r.from))
      ensures result.Success? ==> tx.lifetime == old(tx.lifetime) - 5
      ensures tx.locked <= [First(r), Second(r), r.from, r.to]
      ensures result.Success? ==> tx.locked == [First(r), Second(r), r.from, r.to]
    {
      var firstLock, secondLock := r.from, r.to;
      if TextLess(Text(r.to), Text(r.from)) {
        firstLock, secondLock := r.to, r.from;
      }
      assert firstLock == First(r) && secondLock == Second(r);

      var _ :- tx.GetAccountForUpdate(firstLock);
      var _ :- tx.GetAccountForUpdate(secondLock);
      var fromAccount :- tx.GetAccountForUpdate(r.from);
      var toAccount :- tx.GetAccountForUpdate(r.to);
      if !fromAccount.status.Active? {
        return Failure(AccountNotActive);
      }
      if !toAccount.status.Active? {
        return Failure(AccountNotActive);
      }
      var senderBalance :- tx.GetBalance(r.from);
      if Money.ToDecimal(senderBalance) < r.amount {
        return Failure(InsufficientFunds);
      }
      return Success(());
    }

    /** The statements inside the database transaction. */
    method TransferInTx(tx: Tx, r: Request, txnID: nat) returns (result: Result<(), Error>)
      requires r.Transfer? && r.from != r.to && r.amount > 0.0 && tx.locked == []
      modifies tx
      ensures result.Success? <==> old(ApplyTransfer(tx.Db(), txnID, r)).Success? && old(tx.lifetime) >= TRANSFER_STATEMENTS
      ensures result.Success? ==> Success(tx.Db()) == old(ApplyTransfer(tx.Db(), txnID, r))
      ensures result == old(Until(Ended(ApplyTransfer(tx.Db(), txnID, r)), TransferStatements(tx.Db(), txnID, r), tx.lifetime))
      ensures result.Success? ==> tx.locked == [First(r), Second(r), r.from, r.to]
      ensures tx.locked <= [First(r), Second(r), r.from, r.to]
    {
      var _ :- LockAndCheck(tx, r);
      result := RecordTransfer(tx, r, txnID);
    }

    /** WithTx around those statements. */
    method ExecuteTransfer(r: Request, txnID: nat, faults: Faults) returns (err: Result<(), Error>)
      requires r.Transfer? && r.from != r.to && r.amount > 0.0
      modifies store
      ensures err.Success? <==>
                && old(ApplyTransfer(store.Db(), txnID, r)).Success?
                && faults.lifetime >= TRANSFER_STATEMENTS && faults.commit.Acked?
      ensures err.Success? || err == Failure(CommitUnknown) ==>
                Success(store.Db()) == old(ApplyTransfer(store.Db(), txnID, r))
      ensures err == Failure(CommitUnknown) ==> faults.commit.AckLost?
      ensures err.Failure? && err.error != CommitUnknown ==> store.Db() == old(store.Db())
      ensures var needed := old(TransferStatements(store.Db(), txnID, r));
              err == if faults.lifetime < needed then Failure(DatabaseUnavailable)
                     else if old(ApplyTransfer(store.Db(), txnID, r)).Failure? then Failure(old(ApplyTransfer(store.Db(), txnID, r)).error)
                     else Committed(faults.commit)
    {
      SerialErrors(store.Db(), txnID, r);
      hide ApplyTransfer;
      var tx := store.BeginTx(faults.lifetime);
      var body := TransferInTx(tx, r, txnID);
      err := store.EndTx(tx, body, faults.commit);
    }

    /** The whole operation. Past the gate the call succeeds exactly when the sequential transfer
        does and nothing breaks; the tables then are those of the sequential transfer and the key
        stays. Any reported failure but a lost acknowledgement leaves the tables as they were, and
        the key is released unless Redis fails. */
    method TransferFunds(r: Request, txnID: nat, faults: Faults) returns (result: Result<nat, Error>)
      requires r.Transfer?
      modifies store, rdb
      ensures r.from == r.to ==> result == Failure(SameAccount)
      ensures r.from != r.to && r.amount <= 0.0 ==> result == Failure(InvalidAmount)
      ensures r.from == r.to || r.amount <= 0.0 ==> rdb.keys == old(rdb.keys)
      ensures r.from != r.to && r.amount > 0.0 && faults.gate.Works? && r.key in old(rdb.keys) ==>
                result == Failure(DuplicateTransaction) && rdb.keys == old(rdb.keys)
      ensures r.from != r.to && r.amount > 0.0 && !faults.gate.Works? ==> result == Failure(RedisUnavailable)
      ensures result.Success? <==>
                && faults.gate.Works? && r.key !in old(rdb.keys)
                && old(ApplyTransfer(store.Db(), txnID, r)).Success?
                && faults.lifetime >= TRANSFER_STATEMENTS && faults.commit.Acked?
      ensures result.Success? ==>
                && result.value == txnID
                && Success(store.Db()) == old(ApplyTransfer(store.Db(), txnID, r))
                && rdb.keys == old(rdb.keys)[r.key := if faults.settle.ErrorIgnored? then Processing else Done(txnID)]
      ensures result == Failure(CommitUnknown) ==>
                && faults.commit.AckLost?
                && Success(store.Db()) == old(ApplyTransfer(store.Db(), txnID, r))
      ensures result.Failure? && result.error != CommitUnknown ==> store.Db() == old(store.Db())
      ensures result.Failure? && faults.gate.Works? && r.key !in old(rdb.keys) ==>
                rdb.keys == if r.from != r.to && r.amount > 0.0 && faults.settle.ErrorIgnored?
                            then old(rdb.keys)[r.key := Processing] else old(rdb.keys)
      ensures r.from != r.to && r.amount > 0.0 && faults.gate.Works? && r.key !in old(rdb.keys) ==>
                var needed := old(TransferStatements(store.Db(), txnID, r));
                && (faults.lifetime < needed ==> result == Failure(DatabaseUnavailable))
                && (faults.lifetime >= needed && old(ApplyTransfer(store.Db(), txnID, r)).Failure? ==>
                      result == Failure(old(ApplyTransfer(store.Db(), txnID, r)).error))
                && (faults.lifetime >= needed && old(ApplyTransfer(store.Db(), txnID, r)).Success? ==>
                      && (faults.commit.Refused? ==> result == Failure(SerializationFailure))
                      && (faults.commit.AckLost? ==> result == Failure(CommitUnknown)))
    {
      if r.from == r.to {
        return Failure(SameAccount);
      }
      if r.amount <= 0.0 {
        return Failure(InvalidAmount);
      }

      var wasSet :- rdb.SetNX(r.key, faults.gate);
      if !wasSet {
        return Failure(DuplicateTransaction);
      }

      var rollbackIdemKey := true;
      var err := ExecuteTransfer(r, txnID, faults);
      if err.Success? {
        rollbackIdemKey := false;
        rdb.Set(r.key, txnID, faults.settle);
        result := Success(txnID);
      } else {
        result := Failure(err.error);
      }

      if rollbackIdemKey {
        rdb.Del(r.key, faults.settle);
      }
    }

    /** The locked balance query: it changes nothing. */
    method GetBalance(account: Uuid, faults: Faults) returns (result: Result<int, Error>)
      modifies store
      ensures store.Db() == old(store.Db())
      ensures faults.lifetime == 0 ==> result == Failure(DatabaseUnavailable)
      ensures faults.lifetime > 0 && account !in store.accounts ==> result == Failure(AccountNotFound)
      ensures faults.lifetime == 1 && account in store.accounts ==> result == Failure(DatabaseUnavailable)
      ensures faults.lifetime >= 2 && account in store.accounts ==>
                match faults.commit
                case Acked => result == Success(Balance(store.ledger, account))
                case Refused => result == Failure(SerializationFailure)
                case AckLost => result == Failure(CommitUnknown)
    {
      var tx := store.BeginTx(faults.lifetime);
      var row := tx.GetAccountForUpdate(account);
      var balance: Result<int, Error> := Failure(DatabaseUnavailable);
      if row.Success? {
        balance := tx.GetBalance(account);
      } else {
        balance := Failure(row.error);
      }
      var outcome: Result<(), Error> := if balance.Success? then Success(()) else Failure(balance.error);
      var err := store.EndTx(tx, outcome, faults.commit);
      if err.Failure? {
        return Failure(err.error);
      }
      return balance;
    }
  }

  class FundingService {
    var store: Store

    constructor (store: Store)
      ensures this.store == store
    {
      this.store := store;
    }

    method FundInTx(tx: Tx, r: Request, txnID: nat) returns (result: Result<(), Error>)
      requires r.Funding? && r.amount > 0.0 && tx.locked == []
      modifies tx
      ensures result.Success? <==> old(ApplyFunding(tx.Db(), txnID, r)).Success? && old(tx.lifetime) >= FUNDING_STATEMENTS
      ensures result.Success? ==> Success(tx.Db()) == old(ApplyFunding(tx.Db(), txnID, r))
      ensures result == old(Until(Ended(ApplyFunding(tx.Db(), txnID, r)), FundingStatements(tx.Db(), txnID, r), tx.lifetime))
      ensures tx.locked <= [r.to]
    {
      ghost var db := tx.Db();
      var target :- tx.GetAccountForUpdate(r.to);
      if !target.status.Active? {
        return Failure(AccountNotActive);
      }
      var _ :- tx.CreateTransaction(txnID, r);
      var _ :- tx.InsertLedgerEntry(r.to, txnID, r.amount, Credit);
      PromoteNewRow(db.transactions, NewTransaction(db, txnID, r).value);
      var _ :- tx.UpdateTransactionStatus(txnID, Completed);
      return Success(());
    }

    /** A funding succeeds exactly when its source is active, its sequential form succeeds and
        nothing breaks; every reported failure but a lost acknowledgement changes nothing. */
    method FundAccount(r: Request, txnID: nat, faults: Faults) returns (result: Result<nat, Error>)
      requires r.Funding?
      modifies store
      ensures result.Success? <==>
                && !faults.lookupFails && old(ActiveAccount(store.Db(), r.source)).Success?
                && old(ApplyFunding(store.Db(), txnID, r)).Success?
                && faults.lifetime >= FUNDING_STATEMENTS && faults.commit.Acked?
      ensures result.Success? || result == Failure(CommitUnknown) ==>
                Success(store.Db()) == old(ApplyFunding(store.Db(), txnID, r))
      ensures result.Success? ==> result.value == txnID
      ensures result.Failure? && result.error != CommitUnknown ==> store.Db() == old(store.Db())
      ensures r.amount <= 0.0 ==> result == Failure(InvalidAmount)
      ensures r.amount > 0.0 && faults.lookupFails ==> result == Failure(DatabaseUnavailable)
      ensures r.amount > 0.0 && !faults.lookupFails && old(ActiveAccount(store.Db(), r.source)).Failure? ==>
                result == Failure(AccountNotFound)
      ensures r.amount > 0.0 && !faults.lookupFails && old(ActiveAccount(store.Db(), r.source)).Success? ==>
                var needed := old(FundingStatements(store.Db(), txnID, r));
                && (faults.lifetime < needed ==> result == Failure(DatabaseUnavailable))
                && (faults.lifetime >= needed && old(ApplyFunding(store.Db(), txnID, r)).Failure? ==>
                      result == Failure(old(ApplyFunding(store.Db(), txnID, r)).error))
                && (faults.lifetime >= needed && old(ApplyFunding(store.Db(), txnID, r)).Success? ==>
                      && (faults.commit.Refused? ==> result == Failure(SerializationFailure))
                      && (faults.commit.AckLost? ==> result == Failure(CommitUnknown)))
    {
      if r.amount <= 0.0 {
        return Failure(InvalidAmount);
      }
      if faults.lookupFails {
        return Failure(DatabaseUnavailable);
      }
      if ActiveAccount(store.Db(), r.source).Failure? {
        return Failure(AccountNotFound);
      }
      var tx := store.BeginTx(faults.lifetime);
      var body := FundInTx(tx, r, txnID);
      var err := store.EndTx(tx, body, faults.commit);
      if err.Failure? {
        return Failure(err.error);
      }
      return Success(txnID);
    }
  }
}
