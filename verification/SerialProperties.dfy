/** What holds after every legal history: no overdraft, conservation, double entry, unique keys,
    and agreement of the transactions table with the ledger. */
module SerialProperties {
  import opened Uuids
  import opened Ledger
  import opened Serial
  import Money

  /** The ledger rows one operation appends. */
  function Posting(op: Operation): seq<Entry> {
    match op
    case Posted(id, Transfer(from, to, amount, _)) =>
      var units := Money.RoundToUnits(amount);
      [Entry(from, id, units, Debit), Entry(to, id, units, Credit)]
    case Posted(id, Funding(_, to, amount, _)) =>
      [Entry(to, id, Money.RoundToUnits(amount), Credit)]
    case AccountSet(_, _) => []
  }

  /** The transaction row one operation leaves behind. */
  function Record(op: Operation): seq<Transaction> {
    match op
    case Posted(id, r) => [Transaction(id, Source(r), r.to, Money.RoundToUnits(r.amount), Completed, r.key)]
    case AccountSet(_, _) => []
  }

  /** One operation, described by what it appends and to which state it may be applied. */
  lemma ApplyEffect(db: Database, op: Operation)
    requires Apply(db, op).Success?
    ensures Apply(db, op).value.ledger == db.ledger + Posting(op)
    ensures Apply(db, op).value.transactions == db.transactions + Record(op)
    ensures db.accounts.Keys <= Apply(db, op).value.accounts.Keys
    ensures op.Posted? ==>
              && Apply(db, op).value.accounts == db.accounts
              && Money.RoundToUnits(op.request.amount) > 0
              && op.request.to in db.accounts && Source(op.request) in db.accounts
              && op.request.to != Source(op.request)
              && !HasTransaction(db.transactions, op.id) && !HasKey(db.transactions, op.request.key)
    ensures op.Posted? && op.request.Transfer? ==>
              Money.RoundToUnits(op.request.amount) <= Balance(db.ledger, op.request.from)
  {
    if op.Posted? && op.request.Transfer? {
      Money.RoundingStaysWithinBalance(op.request.amount, Balance(db.ledger, op.request.from));
    } else if op.AccountSet? {
      assert db.ledger + [] == db.ledger && db.transactions + [] == db.transactions;
    }
  }

  /** Rounding is safe: an operation that succeeds stored the same positive number of units in every
      row, the nearest number with halves rounded up, and, for a transfer, within the sender's balance; an
      amount that rounds to zero or needs more than eighteen digits aborts the whole operation. */
  lemma StoredAmountsAreSafe(db: Database, op: Operation)
    requires op.Posted?
    ensures Apply(db, op).Success? ==>
              && 0.00005 <= op.request.amount < 99999999999999.99995
              && var units := Money.RoundToUnits(op.request.amount);
                 && op.request.amount - 0.00005 < Money.ToDecimal(units) <= op.request.amount + 0.00005
                 && (forall row <- Posting(op) :: row.amount == units) && Record(op)[0].amount == units
                 && (op.request.Transfer? ==> units <= Balance(db.ledger, op.request.from))
  {
    Money.StorableExactly(op.request.amount);
    if Apply(db, op).Success? {
      ApplyEffect(db, op);
    }
  }

  /** Exactly which operations succeed, in terms of the request and the columns of the tables. */
  lemma ApplySucceedsExactly(db: Database, id: nat, r: Request)
    ensures Apply(db, Posted(id, r)).Success? <==>
            && 0.00005 <= r.amount < 99999999999999.99995
            && Source(r) != r.to && Source(r) in db.accounts
            && r.to in db.accounts && db.accounts[r.to].status == Active
            && (r.Transfer? ==>
                  && db.accounts[r.from].status == Active
                  && r.amount <= Money.ToDecimal(Balance(db.ledger, r.from)))
            && forall t <- db.transactions :: t.id != id && t.key != r.key
  {
    Money.StorableExactly(r.amount);
    hide Money.StoreAmount, Balance, Money.ToDecimal;
    if t :| t in db.transactions && (t.id == id || t.key == r.key) {
      assert HasTransaction(db.transactions, id) || HasKey(db.transactions, r.key);
    }
  }

  /** Why a sequential operation fails: each error states a fact about the request or the tables. */
  lemma ApplyErrorIsTruthful(db: Database, id: nat, r: Request)
    requires Apply(db, Posted(id, r)).Failure?
    ensures match Apply(db, Posted(id, r)).error
            case SameAccount => r.Transfer? && r.from == r.to
            case InvalidAmount => r.amount <= 0.0
            case AccountNotFound => r.to !in db.accounts || (r.Transfer? && r.from !in db.accounts)
            case AccountNotActive =>
              || (r.to in db.accounts && db.accounts[r.to].status != Active)
              || (r.Transfer? && r.from in db.accounts && db.accounts[r.from].status != Active)
            case InsufficientFunds => r.Transfer? && Money.ToDecimal(Balance(db.ledger, r.from)) < r.amount
            case AmountRejected => !(0.00005 <= r.amount < 99999999999999.99995)
            case CheckViolation => r.Funding? && r.source == r.to
            case UniqueViolation => exists t <- db.transactions :: t.id == id || t.key == r.key
            case ForeignKeyViolation => r.Funding? && r.source !in db.accounts
            case _ => false
  {
    Money.StorableExactly(r.amount);
    hide Balance, Money.ToDecimal;
  }

  lemma ReplayStep(log: seq<Operation>)
    requires Legal(log) && log != []
    ensures Legal(log[..|log| - 1])
    ensures var db := Replay(log[..|log| - 1]).value;
            Apply(db, log[|log| - 1]).Success? && Replay(log) == Apply(db, log[|log| - 1])
  {
  }

  lemma PostingBalance(op: Operation, account: Uuid)
    ensures Balance(Posting(op), account) ==
            if op.AccountSet? then 0
            else
              var units := Money.RoundToUnits(op.request.amount);
              (if op.request.to == account then units else 0)
              - (if op.request.Transfer? && op.request.from == account then units else 0)
  {
    if op.Posted? && op.request.Transfer? {
      var units := Money.RoundToUnits(op.request.amount);
      var debit, credit := Entry(op.request.from, op.id, units, Debit), Entry(op.request.to, op.id, units, Credit);
      assert Posting(op) == [debit] + [credit];
      BalanceOfAppend([debit], credit, account);
      assert [debit] == [] + [debit];
      BalanceOfAppend([], debit, account);
    } else if op.Posted? {
      var credit := Entry(op.request.to, op.id, Money.RoundToUnits(op.request.amount), Credit);
      assert Posting(op) == [] + [credit];
      BalanceOfAppend([], credit, account);
    }
  }

  // ---------------------------------------------------------------- no overdraft

  lemma {:induction false} BalancesAreNonNegative(log: seq<Operation>, account: Uuid)
    requires Legal(log)
    ensures Balance(Replay(log).value.ledger, account) >= 0
  {
    if log != [] {
      var prefix, op := log[..|log| - 1], log[|log| - 1];
      ReplayStep(log);
      BalancesAreNonNegative(prefix, account);
      ApplyEffect(Replay(prefix).value, op);
      PostingBalance(op, account);
      BalanceOfConcat(Replay(prefix).value.ledger, Posting(op), account);
    }
  }

  /** While no transfer out of an account commits, its balance cannot fall. */
  lemma {:induction false} BalanceGrowsWithoutDebits(log: seq<Operation>, n: nat, account: Uuid)
    requires Legal(log) && n <= |log|
    requires forall i :: n <= i < |log| ==>
               !(log[i].Posted? && log[i].request.Transfer? && log[i].request.from == account)
    ensures Legal(log[..n])
    ensures Balance(Replay(log[..n]).value.ledger, account) <= Balance(Replay(log).value.ledger, account)
  {
    if n == |log| {
      assert log[..n] == log;
    } else {
      var prefix, op := log[..|log| - 1], log[|log| - 1];
      ReplayStep(log);
      BalanceGrowsWithoutDebits(prefix, n, account);
      assert prefix[..n] == log[..n];
      ApplyEffect(Replay(prefix).value, op);
      PostingBalance(op, account);
      BalanceOfConcat(Replay(prefix).value.ledger, Posting(op), account);
    }
  }

  // ---------------------------------------------------------------- conservation

  /** Sum of the balances of a set of accounts. */
  ghost function SumOfBalances(accounts: set<Uuid>, ledger: seq<Entry>): int {
    if accounts == {} then 0
    else
      var a :| a in accounts;
      Balance(ledger, a) + SumOfBalances(accounts - {a}, ledger)
  }

  /** Sum of the stored amounts of the fundings of a history. */
  function Minted(log: seq<Operation>): int {
    if log == [] then 0
    else
      var op := log[|log| - 1];
      Minted(log[..|log| - 1])
      + if op.Posted? && op.request.Funding? then Money.RoundToUnits(op.request.amount) else 0
  }

  lemma {:induction false} SumOfBalancesAppend(accounts: set<Uuid>, ledger: seq<Entry>, e: Entry)
    ensures SumOfBalances(accounts, ledger + [e])
            == SumOfBalances(accounts, ledger) + if e.account in accounts then Signed(e) else 0
    decreases accounts
  {
    if accounts != {} {
      var a :| a in accounts && SumOfBalances(accounts, ledger) == Balance(ledger, a) + SumOfBalances(accounts - {a}, ledger)
                             && SumOfBalances(accounts, ledger + [e]) == Balance(ledger + [e], a) + SumOfBalances(accounts - {a}, ledger + [e]);
      BalanceOfAppend(ledger, e, a);
      SumOfBalancesAppend(accounts - {a}, ledger, e);
    }
  }

  lemma {:induction false} SumOfEmptyLedger(accounts: set<Uuid>, ledger: seq<Entry>)
    requires ledger == []
    ensures SumOfBalances(accounts, ledger) == 0
    decreases accounts
  {
    if accounts != {} {
      var a :| a in accounts && SumOfBalances(accounts, ledger) == Balance(ledger, a) + SumOfBalances(accounts - {a}, ledger);
      SumOfEmptyLedger(accounts - {a}, ledger);
      assert Balance(ledger, a) == 0;
    }
  }

  lemma {:induction false} ConservationOver(log: seq<Operation>, accounts: set<Uuid>)
    requires Legal(log) && Replay(log).value.accounts.Keys <= accounts
    ensures SumOfBalances(accounts, Replay(log).value.ledger) == Minted(log)
  {
    if log == [] {
      SumOfEmptyLedger(accounts, SEEDED.ledger);
    } else {
      var prefix, op := log[..|log| - 1], log[|log| - 1];
      ReplayStep(log);
      var db := Replay(prefix).value;
      ApplyEffect(db, op);
      ConservationOver(prefix, accounts);
      if op.Posted? {
        var p := Posting(op);
        SumOfBalancesAppend(accounts, db.ledger, p[0]);
        if op.request.Transfer? {
          SumOfBalancesAppend(accounts, db.ledger + [p[0]], p[1]);
          assert db.ledger + p == (db.ledger + [p[0]]) + [p[1]];
        } else {
          assert p == [p[0]];
        }
      } else {
        assert db.ledger + Posting(op) == db.ledger;
      }
    }
  }

  /** Transfers neither create nor destroy money: all balances together are what was minted. */
  lemma MoneyIsConserved(log: seq<Operation>)
    requires Legal(log)
    ensures SumOfBalances(Replay(log).value.accounts.Keys, Replay(log).value.ledger) == Minted(log)
  {
    ConservationOver(log, Replay(log).value.accounts.Keys);
  }

  // ---------------------------------------------------------------- shape of the tables

  /** Every row of the transactions table comes from one operation of the history, and back. */
  lemma {:induction false} TransactionsAreTheHistory(log: seq<Operation>, t: Transaction)
    requires Legal(log)
    ensures t in Replay(log).value.transactions <==> exists op :: op in log && op.Posted? && [t] == Record(op)
  {
    if log != [] {
      var prefix, op := log[..|log| - 1], log[|log| - 1];
      ReplayStep(log);
      TransactionsAreTheHistory(prefix, t);
      ApplyEffect(Replay(prefix).value, op);
      assert log == prefix + [op];
      if op.Posted? {
        assert Record(op) == [Record(op)[0]];
        if exists o :: o in log && o.Posted? && [t] == Record(o) {
          var o :| o in log && o.Posted? && [t] == Record(o);
          assert o in prefix || o == op;
          if o == op {
            assert [t][0] == Record(op)[0];
          }
        }
      }
    }
  }

  lemma RecordedId(log: seq<Operation>, op: Operation)
    requires Legal(log) && op in log && op.Posted?
    ensures HasTransaction(Replay(log).value.transactions, op.id)
    ensures HasKey(Replay(log).value.transactions, op.request.key)
  {
    TransactionsAreTheHistory(log, Record(op)[0]);
    assert [Record(op)[0]] == Record(op);
    assert Record(op)[0] in Replay(log).value.transactions;
  }

  /** At most one operation per transaction id and at most one per idempotency key. */
  lemma {:induction false} KeysAndIdsAreUnique(log: seq<Operation>, i: nat, j: nat)
    requires Legal(log) && i < j < |log| && log[i].Posted? && log[j].Posted?
    ensures log[i].id != log[j].id && log[i].request.key != log[j].request.key
  {
    var prefix, op := log[..|log| - 1], log[|log| - 1];
    ReplayStep(log);
    if j < |log| - 1 {
      KeysAndIdsAreUnique(prefix, i, j);
    } else {
      assert log[i] == prefix[i];
      ApplyEffect(Replay(prefix).value, op);
      RecordedId(prefix, log[i]);
    }
  }

  lemma {:induction false} RowsOfUnknownId(ledger: seq<Entry>, id: nat)
    requires forall e <- ledger :: e.transaction != id
    ensures RowsOf(ledger, id) == []
  {
    if ledger != [] {
      RowsOfUnknownId(ledger[..|ledger| - 1], id);
    }
  }

  /** No ledger row lacks its transaction. */
  lemma {:induction false} NoOrphanEntries(log: seq<Operation>, e: Entry)
    requires Legal(log) && e in Replay(log).value.ledger
    ensures exists op :: op in log && op.Posted? && op.id == e.transaction && e in Posting(op)
  {
    if log != [] {
      var prefix, op := log[..|log| - 1], log[|log| - 1];
      ReplayStep(log);
      ApplyEffect(Replay(prefix).value, op);
      if e in Replay(prefix).value.ledger {
        NoOrphanEntries(prefix, e);
        var o :| o in prefix && o.Posted? && o.id == e.transaction && e in Posting(o);
        assert o in log;
      } else {
        assert op in log && e in Posting(op);
      }
    }
  }

  lemma PostingRows(op: Operation, id: nat)
    ensures RowsOf(Posting(op), id) == if op.Posted? && op.id == id then Posting(op) else []
  {
    if op.Posted? && op.request.Transfer? {
      var p := Posting(op);
      assert p == [p[0]] + [p[1]];
      RowsOfConcat([p[0]], [p[1]], id);
      assert [p[0]][..0] == [] && [p[1]][..0] == [];
    } else if op.Posted? {
      var p := Posting(op);
      assert p == [p[0]] && [p[0]][..0] == [];
    }
  }

  lemma UnusedIdHasNoRows(log: seq<Operation>, id: nat)
    requires Legal(log) && !HasTransaction(Replay(log).value.transactions, id)
    ensures RowsOf(Replay(log).value.ledger, id) == []
  {
    forall e | e in Replay(log).value.ledger
      ensures e.transaction != id
    {
      NoOrphanEntries(log, e);
      var op :| op in log && op.Posted? && op.id == e.transaction && e in Posting(op);
      RecordedId(log, op);
    }
    RowsOfUnknownId(Replay(log).value.ledger, id);
  }

  /** The rows of one id before and after one more operation. */
  lemma RowsAfterStep(log: seq<Operation>, id: nat)
    requires Legal(log) && log != []
    ensures Legal(log[..|log| - 1])
    ensures var last := log[|log| - 1];
            RowsOf(Replay(log).value.ledger, id) ==
            RowsOf(Replay(log[..|log| - 1]).value.ledger, id)
            + (if last.Posted? && last.id == id then Posting(last) else [])
  {
    hide RowsOf;
    var prefix, last := log[..|log| - 1], log[|log| - 1];
    ReplayStep(log);
    ApplyEffect(Replay(prefix).value, last);
    RowsOfConcat(Replay(prefix).value.ledger, Posting(last), id);
    PostingRows(last, id);
  }

  /** Double entry: the rows of a committed transfer are exactly one debit of its sender and one
      credit of its receiver, those of a funding exactly one credit of its target. */
  lemma {:induction false} DoubleEntry(log: seq<Operation>, i: nat)
    requires Legal(log) && i < |log| && log[i].Posted?
    ensures RowsOf(Replay(log).value.ledger, log[i].id) == Posting(log[i])
  {
    hide RowsOf, Posting, Apply;
    var prefix, last := log[..|log| - 1], log[|log| - 1];
    RowsAfterStep(log, log[i].id);
    if i < |log| - 1 {
      DoubleEntry(prefix, i);
      if last.Posted? {
        KeysAndIdsAreUnique(log, i, |log| - 1);
      }
    } else {
      ReplayStep(log);
      ApplyEffect(Replay(prefix).value, last);
      UnusedIdHasNoRows(prefix, last.id);
    }
  }

  // ---------------------------------------------------------------- the two tables agree

  function Received(transactions: seq<Transaction>, account: Uuid): int {
    if transactions == [] then 0
    else
      var t := transactions[|transactions| - 1];
      Received(transactions[..|transactions| - 1], account)
      + if t.to == account && t.status.Completed? then t.amount else 0
  }

  function Sent(transactions: seq<Transaction>, account: Uuid): int {
    if transactions == [] then 0
    else
      var t := transactions[|transactions| - 1];
      Sent(transactions[..|transactions| - 1], account)
      + if t.from == account && t.status.Completed? then t.amount else 0
  }

  /** What was minted with the account recorded as the source. */
  function MintedFrom(log: seq<Operation>, account: Uuid): int {
    if log == [] then 0
    else
      var op := log[|log| - 1];
      MintedFrom(log[..|log| - 1], account)
      + if op.Posted? && op.request.Funding? && op.request.source == account
        then Money.RoundToUnits(op.request.amount) else 0
  }

  /** A balance is what the account received minus what it sent, except that fundings are
      recorded as sent by their source but never debited from it. */
  lemma {:induction false} TablesAgree(log: seq<Operation>, account: Uuid)
    requires Legal(log)
    ensures var db := Replay(log).value;
            Balance(db.ledger, account)
            == Received(db.transactions, account) - Sent(db.transactions, account) + MintedFrom(log, account)
  {
    if log != [] {
      var prefix, op := log[..|log| - 1], log[|log| - 1];
      ReplayStep(log);
      TablesAgree(prefix, account);
      var db, db' := Replay(prefix).value, Replay(log).value;
      ApplyEffect(db, op);
      PostingBalance(op, account);
      BalanceOfConcat(db.ledger, Posting(op), account);
      if op.Posted? {
        var n := |db.transactions|;
        assert db'.transactions[..n] == db.transactions;
      } else {
        assert db'.transactions == db.transactions;
      }
    }
  }

  // ---------------------------------------------------------------- the ledger only grows

  lemma {:induction false} TablesOnlyGrow(log: seq<Operation>, n: nat)
    requires Legal(log) && n <= |log|
    ensures Legal(log[..n])
    ensures Replay(log[..n]).value.ledger <= Replay(log).value.ledger
    ensures Replay(log[..n]).value.transactions <= Replay(log).value.transactions
    ensures Replay(log[..n]).value.accounts.Keys <= Replay(log).value.accounts.Keys
  {
    if n == |log| {
      assert log[..n] == log;
    } else {
      var prefix := log[..|log| - 1];
      ReplayStep(log);
      TablesOnlyGrow(prefix, n);
      assert prefix[..n] == log[..n];
      ApplyEffect(Replay(prefix).value, log[|log| - 1]);
    }
  }
}
