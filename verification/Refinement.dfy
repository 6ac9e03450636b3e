/** Whole-run theorems: every interleaving refines the sequential specification, so what holds of
    legal histories holds in every reachable state. */
module Refinement {
  import opened Common
  import opened Uuids
  import opened Ledger
  import opened Serial
  import opened SerialProperties
  import opened Protocol
  import opened ProtocolInvariant
  import Money

  // ---------------------------------------------------------------- outcomes and the log

  /** An acknowledged request has committed; a committed one is acknowledged, unless the
      acknowledgement was lost or the server died. */
  ghost predicate OutcomesFitLog(s: State) {
    forall p :: 0 <= p < |s.processes| ==>
      var x := s.processes[p];
      && (x.outcome.Acknowledged? ==> Posted(p, x.request) in s.log)
      && (Posted(p, x.request) in s.log ==>
            x.outcome.Acknowledged? || x.outcome == Refused(CommitUnknown) || x.outcome.Crashed?)
  }

  lemma NotYetInLog(s: State, p: nat)
    requires Inv(s) && p < |s.processes|
    requires !s.processes[p].phase.Settle? && !s.processes[p].phase.Finished?
    ensures forall i :: 0 <= i < |s.log| && s.log[i].Posted? ==> s.log[i].id != p
  {
  }

  /** What an advance of p does to p and to the log; everything else stays. */
  lemma AdvanceIsLocal(s: State, p: nat)
    requires Inv(s) && Enabled(s, Advance(p))
    ensures var x, s' := s.processes[p], AdvanceProcess(s, p);
            && |s'.processes| == |s.processes|
            && (forall q :: 0 <= q < |s.processes| && q != p ==> s'.processes[q] == s.processes[q])
            && s'.processes[p].request == x.request
            && (x.phase.Settle? ==> s'.processes[p].outcome == x.outcome)
            && s'.log == (if x.phase.Commit? && CommitAllowed(s, p) then s.log + [Posted(p, x.request)] else s.log)
            && (!x.phase.Settle? ==>
                  (s'.processes[p].outcome.Acknowledged? <==> x.phase.Commit? && CommitAllowed(s, p)))
  {
    assert ProcessInv(s.db, s.log, p, s.processes[p]);
    if InTransaction(s.processes[p].phase) && !s.processes[p].phase.Commit? {
      StatementNeverAcknowledges(s.db, p, s.processes[p]);
    }
  }

  lemma StatementNeverAcknowledges(db: Database, p: nat, x: Process)
    requires InTransaction(x.phase) && !x.phase.Commit? && x.outcome.Undecided?
    ensures !Statement(db, p, x).outcome.Acknowledged? && Statement(db, p, x).request == x.request
  {
  }

  lemma AdvanceKeepsOutcomes(s: State, p: nat)
    requires Inv(s) && OutcomesFitLog(s) && Enabled(s, Advance(p))
    ensures OutcomesFitLog(AdvanceProcess(s, p))
  {
    AdvanceIsLocal(s, p);
    if !s.processes[p].phase.Settle? {
      NotYetInLog(s, p);
    }
  }

  lemma StepKeepsOutcomes(s: State, step: Step)
    requires Inv(s) && OutcomesFitLog(s) && Enabled(s, step)
    ensures OutcomesFitLog(Do(s, step))
  {
    match step
    case Arrive(r) =>
      forall i | 0 <= i < |s.log|
        ensures s.log[i] != Posted(|s.processes|, r)
      {
      }
    case Advance(p) => AdvanceKeepsOutcomes(s, p);
    case Fail(p) => NotYetInLog(s, p);
    case LoseAck(p) => NotYetInLog(s, p);
    case LoseRedis(p, _) =>
      if AtGate(s.processes[p]) {
        NotYetInLog(s, p);
      }
    case Crash(p) =>
    case Evict(_) =>
    case SetAccount(_, _) =>
  }

  lemma {:induction false} RunsKeepOutcomes(steps: seq<Step>)
    requires Run(steps).Some?
    ensures Inv(Run(steps).value) && OutcomesFitLog(Run(steps).value)
  {
    RunsKeepInv(steps);
    if steps != [] {
      RunsKeepOutcomes(steps[..|steps| - 1]);
      StepKeepsOutcomes(Run(steps[..|steps| - 1]).value, steps[|steps| - 1]);
    }
  }

  // ---------------------------------------------------------------- refinement

  /** Operations of the log are exactly commits of requests that really arrived, executed one at a
      time in commit order, each passing its own checks; the tables hold nothing else. The one check
      made outside the database transaction, that the source of a funding is active, passes at an
      earlier point of the same sequence. */
  lemma EveryRunIsSerializable(s: State)
    requires Reachable(s)
    ensures Legal(s.log) && Replay(s.log).value == s.db
    ensures forall op :: op in s.log && op.Posted? ==>
              op.id < |s.processes| && s.processes[op.id].request == op.request
    ensures forall i :: 0 <= i < |s.log| && s.log[i].Posted? && s.log[i].request.Funding? ==>
              WasActive(s.log[..i], s.log[i].request.source)
    ensures forall p :: 0 <= p < |s.processes| && s.processes[p].outcome.Acknowledged? ==>
              Posted(p, s.processes[p].request) in s.log
    ensures forall p :: 0 <= p < |s.processes| && Posted(p, s.processes[p].request) in s.log ==>
              var o := s.processes[p].outcome; o.Acknowledged? || o == Refused(CommitUnknown) || o.Crashed?
  {
    var steps :| Run(steps) == Some(s);
    RunsKeepOutcomes(steps);
  }

  /** A request that was refused for any reason but an unknown commit left no row behind. */
  lemma RefusedRequestsLeaveNoTrace(s: State, p: nat, error: Error)
    requires Reachable(s) && p < |s.processes|
    requires s.processes[p].outcome == Refused(error) && error != CommitUnknown
    ensures forall t <- s.db.transactions :: t.id != p
    ensures forall e <- s.db.ledger :: e.transaction != p
  {
    EveryRunIsSerializable(s);
    forall t | t in s.db.transactions
      ensures t.id != p
    {
      TransactionsAreTheHistory(s.log, t);
      var op :| op in s.log && op.Posted? && [t] == Record(op);
      assert t == [t][0] == Record(op)[0];
    }
    forall e | e in s.db.ledger
      ensures e.transaction != p
    {
      NoOrphanEntries(s.log, e);
    }
  }

  /** In every reachable state every balance is non-negative. */
  lemma NoOverdraft(s: State, account: Uuid)
    requires Reachable(s)
    ensures Balance(s.db.ledger, account) >= 0
  {
    EveryRunIsSerializable(s);
    BalancesAreNonNegative(s.log, account);
  }

  /** All balances together are the stored amounts of the committed fundings. */
  lemma Conservation(s: State)
    requires Reachable(s)
    ensures SumOfBalances(s.db.accounts.Keys, s.db.ledger) == Minted(s.log)
  {
    EveryRunIsSerializable(s);
    MoneyIsConserved(s.log);
  }

  /** At most one transaction per idempotency key, whatever Redis and the servers do. */
  lemma AtMostOncePerKey(s: State, i: nat, j: nat)
    requires Reachable(s) && i < j < |s.db.transactions|
    ensures s.db.transactions[i].key != s.db.transactions[j].key
    ensures s.db.transactions[i].id != s.db.transactions[j].id
  {
    EveryRunIsSerializable(s);
    TransactionKeysDiffer(s.log, i, j);
  }

  lemma {:induction false} TransactionKeysDiffer(log: seq<Operation>, i: nat, j: nat)
    requires Legal(log) && i < j < |Replay(log).value.transactions|
    ensures var ts := Replay(log).value.transactions; ts[i].key != ts[j].key && ts[i].id != ts[j].id
  {
    var prefix, op := log[..|log| - 1], log[|log| - 1];
    ReplayStep(log);
    ApplyEffect(Replay(prefix).value, op);
    if j < |Replay(prefix).value.transactions| {
      TransactionKeysDiffer(prefix, i, j);
    }
  }

  /** Every committed transaction is Completed and has exactly its double-entry rows. */
  lemma CommittedRowsAreComplete(s: State, t: Transaction)
    requires Reachable(s) && t in s.db.transactions
    ensures t.status.Completed? && t.amount > 0 && t.id < |s.processes|
    ensures var r := s.processes[t.id].request;
            && t.from == Source(r) && t.to == r.to && t.key == r.key && t.amount == Money.RoundToUnits(r.amount)
            && RowsOf(s.db.ledger, t.id) ==
                 if r.Transfer? then [Entry(t.from, t.id, t.amount, Debit), Entry(t.to, t.id, t.amount, Credit)]
                 else [Entry(t.to, t.id, t.amount, Credit)]
  {
    EveryRunIsSerializable(s);
    TransactionsAreTheHistory(s.log, t);
    var op :| op in s.log && op.Posted? && [t] == Record(op);
    assert t == [t][0] == Record(op)[0];
    var i :| 0 <= i < |s.log| && s.log[i] == op;
    DoubleEntry(s.log, i);
    RecordedAmountIsPositive(s.log, op);
  }

  lemma {:induction false} RecordedAmountIsPositive(log: seq<Operation>, op: Operation)
    requires Legal(log) && op in log && op.Posted?
    ensures Money.RoundToUnits(op.request.amount) > 0
  {
    var prefix := log[..|log| - 1];
    ReplayStep(log);
    ApplyEffect(Replay(prefix).value, log[|log| - 1]);
    if op != log[|log| - 1] {
      assert op in prefix;
      RecordedAmountIsPositive(prefix, op);
    }
  }

  /** No ledger row lacks its transaction. */
  lemma EveryEntryHasItsTransaction(s: State, e: Entry)
    requires Reachable(s) && e in s.db.ledger
    ensures HasTransaction(s.db.transactions, e.transaction)
    ensures e in RowsOf(s.db.ledger, e.transaction)
  {
    EveryRunIsSerializable(s);
    NoOrphanEntries(s.log, e);
    var op :| op in s.log && op.Posted? && op.id == e.transaction && e in Posting(op);
    RecordedId(s.log, op);
    var i :| 0 <= i < |s.log| && s.log[i] == op;
    DoubleEntry(s.log, i);
  }

  /** The transactions table and the ledger agree on every account. */
  lemma TransactionsAgreeWithLedger(s: State, account: Uuid)
    requires Reachable(s)
    ensures Balance(s.db.ledger, account)
            == Received(s.db.transactions, account) - Sent(s.db.transactions, account) + MintedFrom(s.log, account)
  {
    EveryRunIsSerializable(s);
    TablesAgree(s.log, account);
  }

  // ---------------------------------------------------------------- time

  lemma StepExtendsLog(s: State, step: Step)
    requires Enabled(s, step)
    ensures s.log <= Do(s, step).log
  {
  }

  lemma {:induction false} LogOnlyGrows(steps: seq<Step>, n: nat)
    requires Run(steps).Some? && n <= |steps|
    ensures Run(steps[..n]).Some? && Run(steps[..n]).value.log <= Run(steps).value.log
  {
    if n == |steps| {
      assert steps[..n] == steps;
    } else {
      var init := steps[..|steps| - 1];
      LogOnlyGrows(init, n);
      assert init[..n] == steps[..n];
      StepExtendsLog(Run(init).value, steps[|steps| - 1]);
    }
  }

  lemma PastBalance(past: State, now: State, account: Uuid)
    requires Inv(past) && Inv(now) && past.log <= now.log
    ensures past.db.ledger <= now.db.ledger && past.db.transactions <= now.db.transactions
    ensures Balance(past.db.ledger, account)
            == Balance(now.db.ledger, account) - Balance(now.db.ledger[|past.db.ledger|..], account)
  {
    TablesOnlyGrow(now.log, |past.log|);
    assert now.log[..|past.log|] == past.log;
    var k := |past.db.ledger|;
    assert now.db.ledger == past.db.ledger + now.db.ledger[k..];
    BalanceOfConcat(past.db.ledger, now.db.ledger[k..], account);
  }

  /** Both tables only grow along a run, so any past balance can be recomputed later:
      it is the current balance less the net of what was appended since. */
  lemma PastBalancesCanBeRecomputed(steps: seq<Step>, n: nat, account: Uuid)
    requires Run(steps).Some? && n <= |steps|
    ensures Run(steps[..n]).Some?
    ensures var past, now := Run(steps[..n]).value.db, Run(steps).value.db;
            && past.ledger <= now.ledger && past.transactions <= now.transactions
            && Balance(past.ledger, account)
               == Balance(now.ledger, account) - Balance(now.ledger[|past.ledger|..], account)
  {
    LogOnlyGrows(steps, n);
    RunsKeepInv(steps);
    RunsKeepInv(steps[..n]);
    PastBalance(Run(steps[..n]).value, Run(steps).value, account);
  }

  /** The commit order respects real time: what had committed before a request arrived comes before
      that request in the equivalent sequential execution. */
  lemma CommitOrderRespectsRealTime(steps: seq<Step>, n: nat, i: nat, j: nat)
    requires Run(steps).Some? && n <= |steps|
    requires var now := Run(steps).value; i < |now.log| && j < |now.log|
    ensures Run(steps[..n]).Some?
    ensures var past, now := Run(steps[..n]).value, Run(steps).value;
            i < |past.log| && now.log[j].Posted? && now.log[j].id >= |past.processes| ==> i < j
  {
    LogOnlyGrows(steps, n);
    RunsKeepInv(steps[..n]);
    var past, now := Run(steps[..n]).value, Run(steps).value;
    assert j < |past.log| ==> past.log[j] == now.log[j];
  }

  // ---------------------------------------------------------------- the source of a funding

  /** Step a of the run admits funding p: its source is looked up in the tables of that moment and
      found active. */
  ghost predicate AdmitsFunding(steps: seq<Step>, a: nat, p: nat) {
    && a < |steps| && steps[a] == Advance(p) && Run(steps[..a]).Some?
    && var s := Run(steps[..a]).value;
       && p < |s.processes| && s.processes[p].phase.Arrived? && s.processes[p].request.Funding?
       && ActiveAccount(s.db, s.processes[p].request.source).Success?
  }

  /** The funding has passed its source check: it may still commit, or has committed. */
  ghost predicate PastSourceCheck(s: State, p: nat) {
    && p < |s.processes| && s.processes[p].request.Funding?
    && (Open(s.processes[p].phase) || Posted(p, s.processes[p].request) in s.log)
  }

  lemma SourceCheckIsAnAdmission(s: State, step: Step, p: nat)
    requires Inv(s) && Enabled(s, step)
    requires PastSourceCheck(Do(s, step), p) && !PastSourceCheck(s, p)
    ensures step == Advance(p) && p < |s.processes| && s.processes[p].phase.Arrived?
    ensures s.processes[p].request == Do(s, step).processes[p].request
    ensures ActiveAccount(s.db, s.processes[p].request.source).Success?
  {
    if step.Advance? {
      AdvanceIsLocal(s, step.p);
    }
  }

  lemma {:induction false} AdmissionOf(steps: seq<Step>, p: nat) returns (a: nat)
    requires Run(steps).Some? && PastSourceCheck(Run(steps).value, p)
    ensures AdmitsFunding(steps, a, p)
    ensures Run(steps[..a]).value.processes[p].request == Run(steps).value.processes[p].request
  {
    var init, step := steps[..|steps| - 1], steps[|steps| - 1];
    var s := Run(init).value;
    RunsKeepInv(init);
    if PastSourceCheck(s, p) {
      a := AdmissionOf(init, p);
      assert init[..a] == steps[..a];
      RequestsStay(s, step, p);
    } else {
      SourceCheckIsAnAdmission(s, step, p);
      a := |init|;
    }
  }

  lemma RequestsStay(s: State, step: Step, p: nat)
    requires Inv(s) && Enabled(s, step) && p < |s.processes|
    ensures p < |Do(s, step).processes| && Do(s, step).processes[p].request == s.processes[p].request
  {
    if step.Advance? {
      AdvanceIsLocal(s, step.p);
    }
  }

  /** The last change of the account among these operations, if there is one, is to Active. */
  predicate EndsActive(ops: seq<Operation>, account: Uuid) {
    ops == [] ||
    var op := ops[|ops| - 1];
    if op.AccountSet? && op.account == account then op.status.Active? else EndsActive(ops[..|ops| - 1], account)
  }

  lemma {:induction false} StatusSince(log: seq<Operation>, n: nat, account: Uuid)
    requires Legal(log) && n <= |log| && ActiveAt(log, n, account)
    ensures ActiveAt(log, |log|, account) <==> EndsActive(log[n..], account)
  {
    assert log[..|log|] == log;
    if n < |log| {
      var prefix, op := log[..|log| - 1], log[|log| - 1];
      ReplayStep(log);
      assert prefix[..n] == log[..n] && prefix[..|prefix|] == prefix;
      StatusSince(prefix, n, account);
      ApplyEffect(Replay(prefix).value, op);
      assert log[n..][..|log| - n - 1] == prefix[n..];
    }
  }

  /** Every committed funding passed its source check after it arrived and before it commits, on the
      tables of that moment; and its source is still active when it commits if and only if the last
      change of the source in between, if there was one, is to Active. */
  lemma FundingSourceWasActive(steps: seq<Step>, i: nat)
    requires Run(steps).Some? && i < |Run(steps).value.log|
    requires var op := Run(steps).value.log[i]; op.Posted? && op.request.Funding?
    ensures var log := Run(steps).value.log;
            exists a: nat ::
              && AdmitsFunding(steps, a, log[i].id)
              && var n := |Run(steps[..a]).value.log|;
                 && n <= i && ActiveAt(log, n, log[i].request.source)
                 && (ActiveAt(log, i, log[i].request.source) <==> EndsActive(log[n..i], log[i].request.source))
  {
    RunsKeepInv(steps);
    var s := Run(steps).value;
    var log, p, source := s.log, s.log[i].id, s.log[i].request.source;
    assert Posted(p, s.processes[p].request) in s.log;
    var a := AdmissionOf(steps, p);
    LogOnlyGrows(steps, a);
    RunsKeepInv(steps[..a]);
    var past := Run(steps[..a]).value;
    NotYetInLog(past, p);
    var n := |past.log|;
    assert forall j :: 0 <= j < n ==> past.log[j] == log[j];
    assert log[..n] == past.log && log[..i][..n] == log[..n];
    LegalPrefix(log, i);
    StatusSince(log[..i], n, source);
    assert log[..i][..i] == log[..i] && log[..i][n..] == log[n..i];
  }
}
