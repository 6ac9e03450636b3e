/** The four ways the system computes a balance, as SQL evaluates them, and the balance map one
    would maintain incrementally: all give the balance of the ledger. */
module Views {
  import opened Common
  import opened Uuids
  import opened Ledger
  import Money

  // ---------------------------------------------------------------- SQL aggregates

  /** CASE entry_type WHEN 'Credit' THEN amount WHEN 'Debit' THEN -amount END; a null row gives null. */
  function CaseAmount(row: Option<Entry>): Option<int> {
    match row
    case None => None
    case Some(e) => if e.entryType.Credit? then Some(e.amount) else Some(-e.amount)
  }

  /** SUM over a group: nulls are ignored, and the sum of no values is null. */
  function SqlSum(rows: seq<Option<Entry>>): Option<int> {
    if rows == [] then None
    else
      var sum := SqlSum(rows[..|rows| - 1]);
      match CaseAmount(rows[|rows| - 1])
      case None => sum
      case Some(v) => Some((if sum.Some? then sum.value else 0) + v)
  }

  function Coalesce(value: Option<int>, otherwise: int): int {
    if value.Some? then value.value else otherwise
  }

  /** FROM ledger WHERE account_id = ... */
  function Where(ledger: seq<Entry>, account: Uuid): seq<Option<Entry>> {
    if ledger == [] then []
    else
      var e := ledger[|ledger| - 1];
      Where(ledger[..|ledger| - 1], account) + if e.account == account then [Some(e)] else []
  }

  /** The query of GetBalance and of GetBalanceReadOnly. */
  function BalanceQuery(ledger: seq<Entry>, account: Uuid): int {
    Coalesce(SqlSum(Where(ledger, account)), 0)
  }

  /** fn_get_balance: the same query, assigned to a NUMERIC(18,4) variable. */
  function FnGetBalance(ledger: seq<Entry>, account: Uuid): Result<int, Error> {
    var balance := BalanceQuery(ledger, account);
    if -Money.UNIT_LIMIT < balance < Money.UNIT_LIMIT then Success(balance) else Failure(AmountRejected)
  }

  /** The join rows of one account: its entries, or one row of nulls if it has none. */
  function OwnRows(a: Uuid, matches: seq<Option<Entry>>): (rows: seq<(Uuid, Option<Entry>)>)
    ensures forall row <- rows :: row.0 == a
  {
    if matches == [] then [(a, None)] else seq(|matches|, i requires 0 <= i < |matches| => (a, matches[i]))
  }

  /** accounts LEFT JOIN ledger. */
  function LeftJoin(accounts: seq<Uuid>, ledger: seq<Entry>): seq<(Uuid, Option<Entry>)> {
    if accounts == [] then []
    else
      var a := accounts[|accounts| - 1];
      LeftJoin(accounts[..|accounts| - 1], ledger) + OwnRows(a, Where(ledger, a))
  }

  /** GROUP BY account id. */
  function Group(rows: seq<(Uuid, Option<Entry>)>, account: Uuid): seq<Option<Entry>> {
    if rows == [] then []
    else
      var row := rows[|rows| - 1];
      Group(rows[..|rows| - 1], account) + if row.0 == account then [row.1] else []
  }

  /** The balance column of v_account_balances. */
  function ViewBalance(accounts: seq<Uuid>, ledger: seq<Entry>, account: Uuid): int {
    Coalesce(SqlSum(Group(LeftJoin(accounts, ledger), account)), 0)
  }

  /** A balance map updated entry by entry. */
  function Maintained(ledger: seq<Entry>): map<Uuid, int> {
    if ledger == [] then map[]
    else
      var m, e := Maintained(ledger[..|ledger| - 1]), ledger[|ledger| - 1];
      m[e.account := (if e.account in m then m[e.account] else 0) + Signed(e)]
  }

  // ---------------------------------------------------------------- they agree

  lemma SqlSumAppend(rows: seq<Option<Entry>>, e: Entry)
    ensures SqlSum(rows + [Some(e)]) == Some(Coalesce(SqlSum(rows), 0) + Signed(e))
  {
    assert (rows + [Some(e)])[..|rows|] == rows;
  }

  lemma {:induction false} QuerySum(ledger: seq<Entry>, account: Uuid)
    ensures SqlSum(Where(ledger, account)) ==
            if Where(ledger, account) == [] then None else Some(Balance(ledger, account))
    ensures Where(ledger, account) == [] ==> Balance(ledger, account) == 0
  {
    if ledger != [] {
      var init, e := ledger[..|ledger| - 1], ledger[|ledger| - 1];
      QuerySum(init, account);
      if e.account == account {
        assert Where(ledger, account) == Where(init, account) + [Some(e)];
        SqlSumAppend(Where(init, account), e);
      } else {
        assert Where(ledger, account) == Where(init, account);
      }
    }
  }

  lemma {:induction false} GroupConcat(a: seq<(Uuid, Option<Entry>)>, b: seq<(Uuid, Option<Entry>)>, account: Uuid)
    ensures Group(a + b, account) == Group(a, account) + Group(b, account)
  {
    if b == [] {
      assert a + b == a;
    } else {
      var init := b[..|b| - 1];
      GroupConcat(a, init, account);
      assert (a + b)[..|a + b| - 1] == a + init;
    }
  }

  lemma {:induction false} GroupOfOneAccount(rows: seq<(Uuid, Option<Entry>)>, owner: Uuid, account: Uuid)
    requires forall row <- rows :: row.0 == owner
    ensures |Group(rows, account)| == if owner == account then |rows| else 0
    ensures owner == account ==> forall i :: 0 <= i < |rows| ==> Group(rows, account)[i] == rows[i].1
  {
    if rows != [] {
      GroupOfOneAccount(rows[..|rows| - 1], owner, account);
    }
  }

  lemma OwnRowsGrouped(a: Uuid, matches: seq<Option<Entry>>, account: Uuid)
    ensures Group(OwnRows(a, matches), account) ==
            if a != account then [] else if matches == [] then [None] else matches
  {
    GroupOfOneAccount(OwnRows(a, matches), a, account);
  }

  lemma JoinOneMore(init: seq<Uuid>, a: Uuid, ledger: seq<Entry>, account: Uuid)
    ensures Group(LeftJoin(init + [a], ledger), account)
            == Group(LeftJoin(init, ledger), account)
               + (if a != account then [] else if Where(ledger, a) == [] then [None] else Where(ledger, a))
  {
    hide Group, Where;
    assert (init + [a])[..|init|] == init;
    GroupConcat(LeftJoin(init, ledger), OwnRows(a, Where(ledger, a)), account);
    OwnRowsGrouped(a, Where(ledger, a), account);
  }

  lemma JoinNothing(ledger: seq<Entry>, account: Uuid)
    ensures Group(LeftJoin([], ledger), account) == []
  {
  }

  /** The rows of an account in the join: its entries, or one null row, or nothing if it is not listed. */
  lemma {:induction false} JoinedRows(accounts: seq<Uuid>, ledger: seq<Entry>, account: Uuid)
    requires forall i, j :: 0 <= i < j < |accounts| ==> accounts[i] != accounts[j]
    ensures Group(LeftJoin(accounts, ledger), account) ==
            if account !in accounts then []
            else if Where(ledger, account) == [] then [None] else Where(ledger, account)
  {
    hide Group, Where, LeftJoin;
    if accounts == [] {
      JoinNothing(ledger, account);
    } else {
      var init, a := accounts[..|accounts| - 1], accounts[|accounts| - 1];
      JoinedRows(init, ledger, account);
      JoinOneMore(init, a, ledger, account);
      assert accounts == init + [a];
    }
  }

  /** Locked sum, read-only sum, stored function and grouped view agree on every listed account,
      with or without entries; the function only fails outside its eighteen digits. */
  lemma AllBalancesAgree(accounts: seq<Uuid>, ledger: seq<Entry>, account: Uuid)
    requires forall i, j :: 0 <= i < j < |accounts| ==> accounts[i] != accounts[j]
    requires account in accounts
    ensures BalanceQuery(ledger, account) == Balance(ledger, account)
    ensures ViewBalance(accounts, ledger, account) == Balance(ledger, account)
    ensures FnGetBalance(ledger, account) ==
            if -Money.UNIT_LIMIT < Balance(ledger, account) < Money.UNIT_LIMIT
            then Success(Balance(ledger, account)) else Failure(AmountRejected)
  {
    QuerySum(ledger, account);
    JoinedRows(accounts, ledger, account);
    var nulls: seq<Option<Entry>> := [None];
    assert nulls[..0] == [];
  }

  lemma {:induction false} MaintainedAgrees(ledger: seq<Entry>, account: Uuid)
    ensures Balance(ledger, account) == if account in Maintained(ledger) then Maintained(ledger)[account] else 0
    ensures account in Maintained(ledger) <==> Where(ledger, account) != []
  {
    if ledger != [] {
      MaintainedAgrees(ledger[..|ledger| - 1], account);
    }
  }

  lemma RemoveOne(init: seq<Entry>, e: Entry, before: seq<Entry>, after: seq<Entry>)
    requires multiset(init + [e]) == multiset(before + [e] + after)
    ensures multiset(init) == multiset(before + after)
  {
    assert multiset(init + [e]) == multiset(init) + multiset{e};
    assert multiset(before + [e] + after) == multiset(before) + multiset(after) + multiset{e};
    assert multiset(before + after) == multiset(before) + multiset(after);
    assert multiset(init) == multiset(init) + multiset{e} - multiset{e};
    assert multiset(before) + multiset(after) == multiset(before) + multiset(after) + multiset{e} - multiset{e};
  }

  /** The balance does not depend on the order of the rows. */
  lemma {:induction false} OrderDoesNotMatter(a: seq<Entry>, b: seq<Entry>, account: Uuid)
    requires multiset(a) == multiset(b)
    ensures Balance(a, account) == Balance(b, account)
  {
    if a == [] {
      assert |multiset(b)| == 0;
    } else {
      var init, e := a[..|a| - 1], a[|a| - 1];
      assert a == init + [e];
      assert e in multiset(a);
      var i :| 0 <= i < |b| && b[i] == e;
      var before, after := b[..i], b[i + 1..];
      assert b == before + [e] + after;
      RemoveOne(init, e, before, after);
      OrderDoesNotMatter(init, before + after, account);
      BalanceOfAppend(init, e, account);
      BalanceOfAppend(before, e, account);
      BalanceOfConcat(before + [e], after, account);
      BalanceOfConcat(before, after, account);
    }
  }
}
