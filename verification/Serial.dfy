/** The sequential specification: what one transfer, one funding or one change of an account
    does when it has the database to itself. A history is a list of such operations. */
module Serial {
  import opened Common
  import opened Uuids
  import opened Ledger
  import Money

  datatype Request =
    | Transfer(from: Uuid, to: Uuid, amount: real, key: Uuid)
    | Funding(source: Uuid, to: Uuid, amount: real, key: Uuid)

  /** A committed operation. The id is the transaction id generated for the request. */
  datatype Operation =
    | Posted(id: nat, request: Request)
    | AccountSet(account: Uuid, status: AccountStatus)

  /** What the row stores in from_account_id. */
  function Source(r: Request): Uuid {
    if r.Transfer? then r.from else r.source
  }

  function ActiveAccount(db: Database, account: Uuid): Result<Account, Error> {
    if account !in db.accounts then Failure(AccountNotFound)
    else if !db.accounts[account].status.Active? then Failure(AccountNotActive)
    else Success(db.accounts[account])
  }

  /** INSERT INTO transactions: the column type, the checks, the unique indexes, the foreign keys. */
  function NewTransaction(db: Database, id: nat, r: Request): Result<Transaction, Error> {
    var stored :- Money.StoreAmount(r.amount);
    if Source(r) == r.to then Failure(CheckViolation)
    else if HasTransaction(db.transactions, id) || HasKey(db.transactions, r.key) then Failure(UniqueViolation)
    else if Source(r) !in db.accounts || r.to !in db.accounts then Failure(ForeignKeyViolation)
    else Success(Transaction(id, Source(r), r.to, stored, Pending, r.key))
  }

  /** INSERT INTO ledger: the amount is rounded and checked again for every row. */
  function NewEntry(account: Uuid, id: nat, amount: real, entryType: EntryType): Result<Entry, Error> {
    var stored :- Money.StoreAmount(amount);
    Success(Entry(account, id, stored, entryType))
  }

  function ApplyTransfer(db: Database, id: nat, r: Request): Result<Database, Error>
    requires r.Transfer?
  {
    if r.from == r.to then Failure(SameAccount)
    else if r.amount <= 0.0 then Failure(InvalidAmount)
    else if r.from !in db.accounts || r.to !in db.accounts then Failure(AccountNotFound)
    else
      var _ :- ActiveAccount(db, r.from);
      var _ :- ActiveAccount(db, r.to);
      if Money.ToDecimal(Balance(db.ledger, r.from)) < r.amount then Failure(InsufficientFunds)
      else
        var row :- NewTransaction(db, id, r);
        var debit :- NewEntry(r.from, id, r.amount, Debit);
        var credit :- NewEntry(r.to, id, r.amount, Credit);
        Success(db.(transactions := db.transactions + [row.(status := Completed)],
                    ledger := db.ledger + [debit, credit]))
  }

  /** The part of a funding that runs inside its database transaction. */
  function ApplyFunding(db: Database, id: nat, r: Request): Result<Database, Error>
    requires r.Funding?
  {
    if r.amount <= 0.0 then Failure(InvalidAmount)
    else
      var _ :- ActiveAccount(db, r.to);
      var row :- NewTransaction(db, id, r);
      var credit :- NewEntry(r.to, id, r.amount, Credit);
      Success(db.(transactions := db.transactions + [row.(status := Completed)],
                  ledger := db.ledger + [credit]))
  }

  /** Opening an account or changing its status: a one-row transaction from outside these services. */
  function ApplyAccount(db: Database, account: Uuid, status: AccountStatus): Database {
    var version := if account in db.accounts then db.accounts[account].version + 1 else 0;
    db.(accounts := db.accounts[account := Account(status, version)])
  }

  function Apply(db: Database, op: Operation): Result<Database, Error> {
    match op
    case Posted(id, r) => if r.Transfer? then ApplyTransfer(db, id, r) else ApplyFunding(db, id, r)
    case AccountSet(account, status) => Success(ApplyAccount(db, account, status))
  }

  /** The seeded account that fundings are recorded from. */
  const SYSTEM_ACCOUNT: Uuid := 1

  /** The migrated schema: empty tables and the seeded system account. */
  const SEEDED := Database(map[SYSTEM_ACCOUNT := Account(Active, 0)], [], [])

  /** Executes a history one operation at a time; fails as soon as one of them fails. */
  function Replay(log: seq<Operation>): Result<Database, Error> {
    if log == [] then Success(SEEDED)
    else
      var db :- Replay(log[..|log| - 1]);
      Apply(db, log[|log| - 1])
  }

  /** A history is legal when every operation passes its own checks at its place. */
  predicate Legal(log: seq<Operation>) {
    Replay(log).Success?
  }

  lemma ReplayAppend(log: seq<Operation>, op: Operation)
    requires Legal(log)
    ensures Replay(log + [op]) == Apply(Replay(log).value, op)
  {
    assert (log + [op])[..|log|] == log;
  }

  lemma {:induction false} LegalPrefix(log: seq<Operation>, n: nat)
    requires Legal(log) && n <= |log|
    ensures Legal(log[..n])
  {
    if n == |log| {
      assert log[..n] == log;
    } else {
      LegalPrefix(log[..|log| - 1], n);
      assert log[..|log| - 1][..n] == log[..n];
    }
  }
}
