/** The tables of the schema, and the balance that is always derived from the ledger. */
module Ledger {
  import opened Uuids

  datatype AccountStatus = Active | Frozen | Closed

  /** An account row; `version` counts the updates of the row. */
  datatype Account = Account(status: AccountStatus, version: nat)

  datatype TransactionStatus = Pending | Completed | Failed | Reversed

  datatype Transaction =
    Transaction(id: nat, from: Uuid, to: Uuid, amount: int, status: TransactionStatus, key: Uuid)

  datatype EntryType = Credit | Debit

  datatype Entry = Entry(account: Uuid, transaction: nat, amount: int, entryType: EntryType)

  datatype Database =
    Database(accounts: map<Uuid, Account>, transactions: seq<Transaction>, ledger: seq<Entry>)

  function Signed(e: Entry): int {
    if e.entryType.Credit? then e.amount else -e.amount
  }

  /** Sum of credits minus sum of debits of one account. */
  function Balance(ledger: seq<Entry>, account: Uuid): int {
    if ledger == [] then 0
    else
      var e := ledger[|ledger| - 1];
      Balance(ledger[..|ledger| - 1], account) + if e.account == account then Signed(e) else 0
  }

  /** The ledger rows of one transaction, in insertion order. */
  function RowsOf(ledger: seq<Entry>, transaction: nat): seq<Entry> {
    if ledger == [] then []
    else
      var e := ledger[|ledger| - 1];
      RowsOf(ledger[..|ledger| - 1], transaction) + if e.transaction == transaction then [e] else []
  }

  predicate HasTransaction(transactions: seq<Transaction>, id: nat) {
    exists i :: 0 <= i < |transactions| && transactions[i].id == id
  }

  predicate HasKey(transactions: seq<Transaction>, key: Uuid) {
    exists i :: 0 <= i < |transactions| && transactions[i].key == key
  }

  lemma BalanceOfAppend(ledger: seq<Entry>, e: Entry, account: Uuid)
    ensures Balance(ledger + [e], account)
            == Balance(ledger, account) + if e.account == account then Signed(e) else 0
  {
    assert (ledger + [e])[..|ledger|] == ledger;
  }

  lemma {:induction false} BalanceOfConcat(ledger: seq<Entry>, suffix: seq<Entry>, account: Uuid)
    ensures Balance(ledger + suffix, account) == Balance(ledger, account) + Balance(suffix, account)
  {
    if suffix == [] {
      assert ledger + suffix == ledger;
    } else {
      var init, e := suffix[..|suffix| - 1], suffix[|suffix| - 1];
      BalanceOfConcat(ledger, init, account);
      BalanceOfAppend(ledger + init, e, account);
      assert (ledger + init) + [e] == ledger + suffix;
    }
  }

  lemma {:induction false} RowsOfConcat(ledger: seq<Entry>, suffix: seq<Entry>, id: nat)
    ensures RowsOf(ledger + suffix, id) == RowsOf(ledger, id) + RowsOf(suffix, id)
  {
    if suffix == [] {
      assert ledger + suffix == ledger;
    } else {
      var init, e := suffix[..|suffix| - 1], suffix[|suffix| - 1];
      RowsOfConcat(ledger, init, id);
      assert (ledger + suffix)[..|ledger + suffix| - 1] == ledger + init;
    }
  }
}
