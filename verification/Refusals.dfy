/** Why requests are refused: in every run, whatever the interleaving and the faults, the error a caller
    gets names something that was the case between the arrival of its request and the refusal. */
module Refusals {
  import opened Common
  import opened Uuids
  import opened Ledger
  import opened Serial
  import opened SerialProperties
  import opened Protocol
  import opened ProtocolInvariant
  import opened Refinement
  import opened StaleSnapshot
  import Money

  // ---------------------------------------------------------------- the moment of the refusal

  /** A row the transaction locks has changed since its snapshot. */
  ghost predicate RowChanged(s: State, x: Process) {
    exists a :: a in LockSet(x.request) && a in x.view.accounts && !SameRow(s.db, x.view, a)
  }

  /** What must hold in s for a step that refuses process p with the error. */
  ghost predicate Reason(s: State, step: Step, p: nat, error: Error)
    requires p < |s.processes|
  {
    var x := s.processes[p];
    var r := x.request;
    match error
    case SameAccount => r.Transfer? && r.from == r.to
    case InvalidAmount => r.amount <= 0.0
    case DuplicateTransaction => step == Advance(p) && AtGate(x) && r.key in s.redis
    case AccountNotFound =>
      || (x.phase.Arrived? && r.Funding? && ActiveAccount(s.db, r.source).Failure?)
      || (InTransaction(x.phase) && exists a <- LockSet(r) :: a !in x.view.accounts)
    case AccountNotActive =>
      InTransaction(x.phase) && exists a <- LockSet(r) :: a in x.view.accounts && x.view.accounts[a].status != Active
    case InsufficientFunds =>
      InTransaction(x.phase) && r.Transfer? && Money.ToDecimal(Balance(x.view.ledger, r.from)) < r.amount
    case AmountRejected => Money.StoreAmount(r.amount).Failure?
    case CheckViolation => r.Funding? && r.source == r.to
    case UniqueViolation => InTransaction(x.phase) && HasKey(s.db.transactions, r.key)
    case SerializationFailure => InTransaction(x.phase) && (RowChanged(s, x) || (r.Transfer? && Overtaken(s, p)))
    case DatabaseUnavailable => step == Fail(p)
    case CommitUnknown => step == LoseAck(p)
    case RedisUnavailable => step == LoseRedis(p, true) || step == LoseRedis(p, false)
    case ForeignKeyViolation | TransactionMissing => false
  }

  function OutcomeAfter(s: State, step: Step, p: nat): Outcome
    requires Enabled(s, step)
  {
    var s' := Do(s, step);
    if p < |s'.processes| then s'.processes[p].outcome else Undecided
  }

  lemma FundingSourceExists(s: State, p: nat)
    requires Inv(s) && p < |s.processes| && InTransaction(s.processes[p].phase) && s.processes[p].request.Funding?
    ensures s.processes[p].request.source in s.db.accounts
  {
    assert SourceChecked(s.log, s.processes[p]);
    var past := s.log[..s.processes[p].snapshot];
    var n :| 0 <= n <= |past| && ActiveAt(past, n, s.processes[p].request.source);
    assert past[..n] == s.log[..n];
    TablesOnlyGrow(s.log, n);
  }

  lemma LoggedId(log: seq<Operation>, id: nat)
    requires Legal(log) && HasTransaction(Replay(log).value.transactions, id)
    ensures exists i :: 0 <= i < |log| && log[i].Posted? && log[i].id == id
  {
    var transactions := Replay(log).value.transactions;
    var k :| 0 <= k < |transactions| && transactions[k].id == id;
    TransactionsAreTheHistory(log, transactions[k]);
    var op :| op in log && op.Posted? && [transactions[k]] == Record(op);
    assert transactions[k] == [transactions[k]][0] == Record(op)[0];
  }

  lemma IdIsFresh(s: State, p: nat)
    requires Inv(s) && p < |s.processes| && InTransaction(s.processes[p].phase)
    ensures !HasTransaction(s.db.transactions, p)
  {
    NotYetInLog(s, p);
    if HasTransaction(s.db.transactions, p) {
      LoggedId(s.log, p);
    }
  }

  lemma FetchRefusal(s: State, p: nat, account: Uuid)
    requires p < |s.processes| && InTransaction(s.processes[p].phase) && account in LockSet(s.processes[p].request)
    ensures var r := FetchForUpdate(s.db, s.processes[p].view, account); r.Failure? ==> Reason(s, Advance(p), p, r.error)
  {
  }

  lemma ViewStatus(s: State, p: nat, account: Uuid)
    requires p < |s.processes| && InTransaction(s.processes[p].phase) && account in LockSet(s.processes[p].request)
    requires var x := s.processes[p]; account in x.view.accounts && x.view.accounts[account].status != Active
    ensures Reason(s, Advance(p), p, AccountNotActive)
  {
  }

  lemma OrderedLockRefusal(s: State, p: nat)
    requires p < |s.processes| && (s.processes[p].phase.AwaitFirst? || s.processes[p].phase.AwaitSecond?)
    ensures var y := Statement(s.db, p, s.processes[p]);
            y.outcome.Refused? && !s.processes[p].outcome.Refused? ==> Reason(s, Advance(p), p, y.outcome.error)
  {
    var r, account := s.processes[p].request, if s.processes[p].phase.AwaitFirst? then First(s.processes[p].request) else Second(s.processes[p].request);
    if r.Transfer? {
      LockOrderIsSymmetric(r.from, r.to);
    }
    assert account in LockSet(r);
    FetchRefusal(s, p, account);
    if account in s.processes[p].view.accounts && s.processes[p].view.accounts[account].status != Active {
      ViewStatus(s, p, account);
    }
    hide Reason, LockSet, First, Second;
  }

  lemma RefetchRefusal(s: State, p: nat)
    requires Inv(s) && p < |s.processes| && (s.processes[p].phase.RefetchSender? || s.processes[p].phase.RefetchReceiver?)
    ensures var y := Statement(s.db, p, s.processes[p]);
            y.outcome.Refused? ==> Reason(s, Advance(p), p, y.outcome.error)
  {
    var x := s.processes[p];
    assert ProcessInv(s.db, s.log, p, x);
    hide Inv;
    assert x.request.from in LockSet(x.request) && x.request.to in LockSet(x.request);
    assert SameRow(s.db, x.view, x.request.from) && SameRow(s.db, x.view, x.request.to);
    if x.view.accounts[x.request.from].status != Active {
      ViewStatus(s, p, x.request.from);
    } else if x.view.accounts[x.request.to].status != Active {
      ViewStatus(s, p, x.request.to);
    }
    hide Reason, LockSet;
  }

  lemma LockRefusal(s: State, p: nat)
    requires Inv(s) && p < |s.processes|
    requires var phase := s.processes[p].phase; phase.AwaitFirst? || phase.AwaitSecond? || phase.RefetchSender? || phase.RefetchReceiver?
    ensures var y := Statement(s.db, p, s.processes[p]);
            y.outcome.Refused? ==> Reason(s, Advance(p), p, y.outcome.error)
  {
    ProcessOutcomeFits(s, p);
    hide Inv, Statement, Reason;
    if s.processes[p].phase.AwaitFirst? || s.processes[p].phase.AwaitSecond? {
      OrderedLockRefusal(s, p);
    } else {
      RefetchRefusal(s, p);
    }
  }

  lemma InsertRefusal(s: State, p: nat)
    requires Inv(s) && p < |s.processes|
    requires var phase := s.processes[p].phase; phase.SumBalance? || phase.InsertTransaction?
    ensures var y := Statement(s.db, p, s.processes[p]);
            y.outcome.Refused? ==> Reason(s, Advance(p), p, y.outcome.error)
  {
    var x := s.processes[p];
    assert ProcessInv(s.db, s.log, p, x);
    IdIsFresh(s, p);
    if x.request.Funding? {
      FundingSourceExists(s, p);
      assert x.request.to in x.held;
    } else {
      assert x.request.from in x.held && x.request.to in x.held;
    }
    hide Inv, Overtaken, Balance, HasKey, HasTransaction;
  }

  lemma LedgerRefusal(s: State, p: nat)
    requires Inv(s) && p < |s.processes| && AfterInsert(s.processes[p].phase) && !s.processes[p].phase.Commit?
    ensures !Statement(s.db, p, s.processes[p]).outcome.Refused?
  {
    assert ProcessInv(s.db, s.log, p, s.processes[p]);
  }

  /** An overtaken transfer is told that its commit conflicts, and only such a commit is refused. */
  lemma CommitReports(s: State, p: nat)
    requires Inv(s) && p < |s.processes| && s.processes[p].phase.Commit?
    ensures Enabled(s, Advance(p))
    ensures Do(s, Advance(p)).processes[p].outcome
            == if s.processes[p].request.Transfer? && Overtaken(s, p) then Refused(SerializationFailure) else Acknowledged
  {
    CommitAllowedExactly(s, p);
    hide Overtaken, CommitAllowed;
  }

  lemma AdmitRefusal(s: State, p: nat)
    requires p < |s.processes| && s.processes[p].phase.Arrived? && s.processes[p].outcome.Undecided?
    ensures var y := AdvanceProcess(s, p).processes[p];
            y.outcome.Refused? ==> Reason(s, Advance(p), p, y.outcome.error)
  {
    hide RowChanged, Overtaken, Statement, Balance;
  }

  lemma CommitRefusal(s: State, p: nat)
    requires Inv(s) && p < |s.processes| && s.processes[p].phase.Commit?
    ensures var y := AdvanceProcess(s, p).processes[p];
            y.outcome.Refused? ==> Reason(s, Advance(p), p, y.outcome.error)
  {
    CommitReports(s, p);
    hide Inv, AdvanceProcess, Overtaken, RowChanged, Balance;
  }

  lemma StatementRefusal(s: State, p: nat)
    requires Inv(s) && p < |s.processes| && InTransaction(s.processes[p].phase) && !s.processes[p].phase.Commit?
    ensures var y := Statement(s.db, p, s.processes[p]);
            y.outcome.Refused? ==> Reason(s, Advance(p), p, y.outcome.error)
  {
    hide Inv, Statement, Reason;
    var phase := s.processes[p].phase;
    if phase.SumBalance? || phase.InsertTransaction? {
      InsertRefusal(s, p);
    } else if AfterInsert(phase) {
      LedgerRefusal(s, p);
    } else {
      LockRefusal(s, p);
    }
  }

  lemma AdvanceRefusal(s: State, p: nat)
    requires Inv(s) && Enabled(s, Advance(p)) && s.processes[p].outcome.Undecided?
    ensures var y := AdvanceProcess(s, p).processes[p];
            y.outcome.Refused? ==> Reason(s, Advance(p), p, y.outcome.error)
  {
    var phase := s.processes[p].phase;
    ProcessOutcomeFits(s, p);
    hide Inv, Statement, Reason, Enabled, Blocked;
    if phase.Arrived? {
      AdmitRefusal(s, p);
    } else if phase.Commit? {
      CommitRefusal(s, p);
    } else if InTransaction(phase) {
      StatementRefusal(s, p);
    }
  }

  lemma ProcessOutcomeFits(s: State, p: nat)
    requires Inv(s) && p < |s.processes|
    ensures OutcomeFits(s.processes[p].phase, s.processes[p].outcome)
  {
    assert ProcessInv(s.db, s.log, p, s.processes[p]);
  }

  lemma FaultRefusal(s: State, step: Step, p: nat)
    requires Enabled(s, step) && p < |s.processes| && (step.Fail? || step.LoseAck? || step.LoseRedis? || step.Crash?)
    requires !s.processes[p].outcome.Refused? && OutcomeAfter(s, step, p).Refused?
    ensures step.p == p && Reason(s, step, p, OutcomeAfter(s, step, p).error)
  {
    hide Statement, Blocked, CommitAllowed, RowChanged, Overtaken, Balance, AdvanceProcess;
  }

  lemma AdvanceChangesOne(s: State, q: nat, p: nat)
    requires Inv(s) && Enabled(s, Advance(q)) && p < |s.processes|
    requires !s.processes[p].outcome.Refused? && OutcomeAfter(s, Advance(q), p).Refused?
    ensures q == p && s.processes[p].outcome.Undecided?
  {
    AdvanceIsLocal(s, q);
    ProcessOutcomeFits(s, p);
    hide Inv, AdvanceProcess, Enabled;
  }

  /** The step that refuses a request gives the error for one of its reasons. */
  lemma RefusalHasItsReason(s: State, step: Step, p: nat)
    requires Inv(s) && Enabled(s, step) && p < |s.processes|
    requires !s.processes[p].outcome.Refused? && OutcomeAfter(s, step, p).Refused?
    ensures Reason(s, step, p, OutcomeAfter(s, step, p).error)
  {
    hide Reason, Inv;
    match step
    case Advance(q) =>
      AdvanceChangesOne(s, q, p);
      AdvanceRefusal(s, p);
    case Fail(_) | LoseAck(_) | LoseRedis(_, _) | Crash(_) => FaultRefusal(s, step, p);
    case Arrive(_) =>
    case Evict(_) =>
    case SetAccount(_, _) =>
  }

  // ---------------------------------------------------------------- along a run

  /** After the first n operations one of the accounts is there but not active ... */
  ghost predicate NotActive(log: seq<Operation>, n: nat, accounts: set<Uuid>)
    requires n <= |log|
  {
    && Legal(log[..n])
    && exists a <- accounts :: a in Replay(log[..n]).value.accounts && Replay(log[..n]).value.accounts[a].status != Active
  }

  /** ... or one of them is not there ... */
  ghost predicate NotThere(log: seq<Operation>, n: nat, accounts: set<Uuid>)
    requires n <= |log|
  {
    Legal(log[..n]) && exists a <- accounts :: a !in Replay(log[..n]).value.accounts
  }

  /** ... or the source of a funding is not found active ... */
  ghost predicate NoSource(log: seq<Operation>, n: nat, account: Uuid)
    requires n <= |log|
  {
    Legal(log[..n]) && ActiveAccount(Replay(log[..n]).value, account).Failure?
  }

  /** ... or the sender has less than the amount. */
  ghost predicate TooPoor(log: seq<Operation>, n: nat, r: Request)
    requires n <= |log| && r.Transfer?
  {
    Legal(log[..n]) && Money.ToDecimal(Balance(Replay(log[..n]).value.ledger, r.from)) < r.amount
  }

  /** The operation changes a row the request locks or, for a transfer, overtakes it. */
  predicate Interferes(op: Operation, r: Request) {
    || (op.AccountSet? && op.account in LockSet(r))
    || (r.Transfer? && OvertakenBy(r, op))
  }

  predicate IsFault(error: Error) {
    error.DuplicateTransaction? || error.DatabaseUnavailable? || error.CommitUnknown? || error.RedisUnavailable?
  }

  /** The error names something that was the case after the operation number `since`. */
  ghost predicate TrueOfLog(log: seq<Operation>, since: nat, p: nat, r: Request, error: Error) {
    match error
    case SameAccount => r.Transfer? && r.from == r.to
    case InvalidAmount => r.amount <= 0.0
    case AccountNotFound =>
      exists n :: since <= n <= |log| && (NotThere(log, n, LockSet(r)) || (r.Funding? && NoSource(log, n, r.source)))
    case AccountNotActive => exists n :: since <= n <= |log| && NotActive(log, n, LockSet(r))
    case InsufficientFunds => r.Transfer? && exists n :: since <= n <= |log| && TooPoor(log, n, r)
    case AmountRejected => !(0.00005 <= r.amount < 99999999999999.99995)
    case CheckViolation => r.Funding? && r.source == r.to
    case UniqueViolation => exists op <- log :: op.Posted? && op.request.key == r.key && op.id != p
    case SerializationFailure => exists i :: since <= i < |log| && Interferes(log[i], r)
    case _ => false
  }

  /** The gate found the key, or the fault the error stands for did happen. */
  ghost predicate TrueOfRun(steps: seq<Step>, p: nat, r: Request, error: Error)
    requires Run(steps).Some?
  {
    match error
    case DuplicateTransaction =>
      r.Transfer? && exists j: nat :: j < |steps| && steps[j] == Advance(p) && Run(steps[..j]).Some? && r.key in Run(steps[..j]).value.redis
    case DatabaseUnavailable => Fail(p) in steps
    case CommitUnknown => LoseAck(p) in steps && Posted(p, r) in Run(steps).value.log
    case RedisUnavailable => LoseRedis(p, true) in steps || LoseRedis(p, false) in steps
    case _ => false
  }

  ghost predicate Truthful(steps: seq<Step>, since: nat, p: nat, r: Request, error: Error)
    requires Run(steps).Some?
  {
    if IsFault(error) then TrueOfRun(steps, p, r, error) else TrueOfLog(Run(steps).value.log, since, p, r, error)
  }

  lemma LogTruthStays(log: seq<Operation>, log': seq<Operation>, since: nat, p: nat, r: Request, error: Error)
    requires log <= log' && TrueOfLog(log, since, p, r, error)
    ensures TrueOfLog(log', since, p, r, error)
  {
    assert forall n :: 0 <= n <= |log| ==> log'[..n] == log[..n];
    hide Replay, Balance, Interferes;
    match error
    case AccountNotFound =>
      var n :| since <= n <= |log| && (NotThere(log, n, LockSet(r)) || (r.Funding? && NoSource(log, n, r.source)));
      assert NotThere(log', n, LockSet(r)) || (r.Funding? && NoSource(log', n, r.source));
    case AccountNotActive =>
      var n :| since <= n <= |log| && NotActive(log, n, LockSet(r));
      assert NotActive(log', n, LockSet(r));
    case InsufficientFunds =>
      var n :| since <= n <= |log| && TooPoor(log, n, r);
      assert TooPoor(log', n, r);
    case SerializationFailure =>
      var i :| since <= i < |log| && Interferes(log[i], r);
      assert Interferes(log'[i], r);
    case UniqueViolation =>
      var op :| op in log && op.Posted? && op.request.key == r.key && op.id != p;
      assert op in log';
    case _ =>
  }

  lemma RunTruthStays(steps: seq<Step>, step: Step, p: nat, r: Request, error: Error)
    requires Run(steps + [step]).Some? && Run(steps).Some? && TrueOfRun(steps, p, r, error)
    requires Run(steps).value.log <= Run(steps + [step]).value.log
    ensures TrueOfRun(steps + [step], p, r, error)
  {
    var more := steps + [step];
    hide Run;
    match error
    case DuplicateTransaction =>
      var j: nat :| j < |steps| && steps[j] == Advance(p) && Run(steps[..j]).Some? && r.key in Run(steps[..j]).value.redis;
      assert more[j] == steps[j] && more[..j] == steps[..j];
    case _ =>
  }

  lemma TruthStays(steps: seq<Step>, step: Step, since: nat, p: nat, r: Request, error: Error)
    requires Run(steps + [step]).Some? && Run(steps).Some? && Truthful(steps, since, p, r, error)
    ensures Truthful(steps + [step], since, p, r, error)
  {
    assert (steps + [step])[..|steps|] == steps;
    StepExtendsLog(Run(steps).value, step);
    hide Run, TrueOfRun, TrueOfLog;
    if IsFault(error) {
      RunTruthStays(steps, step, p, r, error);
    } else {
      LogTruthStays(Run(steps).value.log, Run(steps + [step]).value.log, since, p, r, error);
    }
  }

  // ---------------------------------------------------------------- from the moment to the run

  lemma RowAfter(db: Database, op: Operation, account: Uuid)
    requires Apply(db, op).Success? && account in db.accounts
    ensures var accounts := Apply(db, op).value.accounts;
            && account in accounts
            && if op.AccountSet? && op.account == account then accounts[account].version == db.accounts[account].version + 1
               else accounts[account] == db.accounts[account]
  {
    if op.Posted? {
      ApplyEffect(db, op);
    }
    hide Balance;
  }

  predicate Sets(op: Operation, account: Uuid) {
    op.AccountSet? && op.account == account
  }

  ghost predicate SetSince(log: seq<Operation>, n: nat, account: Uuid) {
    exists i :: n <= i < |log| && Sets(log[i], account)
  }

  lemma SetByOneMore(log: seq<Operation>, n: nat, account: Uuid)
    requires n < |log|
    ensures SetSince(log, n, account) <==> SetSince(log[..|log| - 1], n, account) || Sets(log[|log| - 1], account)
  {
    var prefix := log[..|log| - 1];
    if i :| n <= i < |prefix| && Sets(prefix[i], account) {
      assert Sets(log[i], account);
    }
    if i :| n <= i < |log| && Sets(log[i], account) {
      assert i < |prefix| ==> Sets(prefix[i], account);
    }
  }

  /** A row is never set back to what it was: its version counts the changes. */
  lemma {:induction false} VersionsGrow(log: seq<Operation>, n: nat, account: Uuid)
    requires Legal(log) && n <= |log| && Legal(log[..n]) && account in Replay(log[..n]).value.accounts
    ensures var before, after := Replay(log[..n]).value.accounts, Replay(log).value.accounts;
            && account in after && before[account].version <= after[account].version
            && (SetSince(log, n, account) <==> before[account].version != after[account].version)
            && (SetSince(log, n, account) <==> before[account] != after[account])
  {
    assert log[..|log|] == log;
    if n < |log| {
      var prefix, op := log[..|log| - 1], log[|log| - 1];
      ReplayStep(log);
      assert prefix[..n] == log[..n];
      SetByOneMore(log, n, account);
      hide Apply, Replay, SetSince;
      VersionsGrow(prefix, n, account);
      RowAfter(Replay(prefix).value, op, account);
    }
  }

  /** A row can be locked again exactly if no operation since has set it. */
  lemma ChangedBySet(log: seq<Operation>, n: nat, account: Uuid)
    requires Legal(log) && n <= |log| && Legal(log[..n]) && account in Replay(log[..n]).value.accounts
    ensures SameRow(Replay(log).value, Replay(log[..n]).value, account)
            <==> forall i :: n <= i < |log| ==> !(log[i].AccountSet? && log[i].account == account)
  {
    VersionsGrow(log, n, account);
    hide Replay;
  }

  /** The snapshot of an open transaction is not older than its request. */
  lemma {:induction false} SnapshotAfterArrival(steps: seq<Step>, k: nat, p: nat)
    requires Run(steps).Some? && k <= |steps| && p < |Run(steps).value.processes|
    requires InTransaction(Run(steps).value.processes[p].phase)
    ensures Run(steps[..k]).Some?
    ensures p >= |Run(steps[..k]).value.processes| ==> |Run(steps[..k]).value.log| <= Run(steps).value.processes[p].snapshot
  {
    LogOnlyGrows(steps, k);
    if k < |steps| {
      var init, step := steps[..|steps| - 1], steps[|steps| - 1];
      var s := Run(init).value;
      assert init[..k] == steps[..k];
      LogOnlyGrows(init, k);
      RunsKeepInv(init);
      SnapshotStays(s, step, p);
      if InTransaction(s.processes[p].phase) {
        SnapshotAfterArrival(init, k, p);
      }
    } else {
      assert steps[..k] == steps;
    }
  }

  function PhaseAfter(s: State, step: Step, p: nat): Phase
    requires Enabled(s, step)
  {
    var s' := Do(s, step);
    if p < |s'.processes| then s'.processes[p].phase else Arrived
  }

  lemma SnapshotStays(s: State, step: Step, p: nat)
    requires Inv(s) && Enabled(s, step) && InTransaction(PhaseAfter(s, step, p))
    ensures p < |s.processes| && p < |Do(s, step).processes|
    ensures Do(s, step).processes[p].snapshot == if InTransaction(s.processes[p].phase) then s.processes[p].snapshot else |s.log|
  {
    if step.Advance? {
      AdvanceIsLocal(s, step.p);
      if step.p == p {
        AdvanceKeepsSnapshot(s, p);
      }
      hide AdvanceProcess;
    }
    hide Inv, Statement, Blocked, CommitAllowed;
  }

  lemma AdvanceKeepsSnapshot(s: State, p: nat)
    requires p < |s.processes| && p < |AdvanceProcess(s, p).processes| && InTransaction(AdvanceProcess(s, p).processes[p].phase)
    ensures AdvanceProcess(s, p).processes[p].snapshot == if InTransaction(s.processes[p].phase) then s.processes[p].snapshot else |s.log|
  {
    if InTransaction(s.processes[p].phase) && !s.processes[p].phase.Commit? {
      StatementKeepsRequest(s.db, p, s.processes[p]);
    }
    hide Statement, CommitAllowed;
  }

  lemma RefusedStays(s: State, step: Step, p: nat)
    requires Inv(s) && Enabled(s, step) && p < |s.processes|
    requires s.processes[p].outcome.Refused? && OutcomeAfter(s, step, p).Refused?
    ensures OutcomeAfter(s, step, p) == s.processes[p].outcome
  {
    ProcessOutcomeFits(s, p);
    if step.Advance? {
      AdvanceIsLocal(s, step.p);
    }
    hide Inv, Statement, Blocked, CommitAllowed;
  }

  lemma KeyWasCommitted(s: State, p: nat)
    requires Inv(s) && p < |s.processes| && InTransaction(s.processes[p].phase)
    requires HasKey(s.db.transactions, s.processes[p].request.key)
    ensures exists op <- s.log :: op.Posted? && op.request.key == s.processes[p].request.key && op.id != p
  {
    NotYetInLog(s, p);
    var key, transactions := s.processes[p].request.key, s.db.transactions;
    var k :| 0 <= k < |transactions| && transactions[k].key == key;
    TransactionsAreTheHistory(s.log, transactions[k]);
    var op :| op in s.log && op.Posted? && [transactions[k]] == Record(op);
    assert transactions[k] == [transactions[k]][0] == Record(op)[0];
    var i :| 0 <= i < |s.log| && s.log[i] == op;
  }

  lemma ConflictIsInterference(s: State, p: nat)
    requires Inv(s) && p < |s.processes| && InTransaction(s.processes[p].phase)
    requires var x := s.processes[p]; RowChanged(s, x) || (x.request.Transfer? && Overtaken(s, p))
    ensures exists i :: s.processes[p].snapshot <= i < |s.log| && Interferes(s.log[i], s.processes[p].request)
  {
    var x := s.processes[p];
    assert ProcessInv(s.db, s.log, p, x);
    if RowChanged(s, x) {
      var a :| a in LockSet(x.request) && a in x.view.accounts && !SameRow(s.db, x.view, a);
      ChangedBySet(s.log, x.snapshot, a);
      var i :| x.snapshot <= i < |s.log| && s.log[i].AccountSet? && s.log[i].account == a;
      assert Interferes(s.log[i], x.request);
    } else {
      var i :| x.snapshot <= i < |s.log| && OvertakenBy(x.request, s.log[i]);
      assert Interferes(s.log[i], x.request);
    }
  }

  lemma SnapshotIsAPrefix(s: State, p: nat)
    requires Inv(s) && p < |s.processes| && InTransaction(s.processes[p].phase)
    ensures s.processes[p].snapshot <= |s.log| && Replay(s.log[..s.processes[p].snapshot]) == Success(s.processes[p].view)
  {
    assert ProcessInv(s.db, s.log, p, s.processes[p]);
  }

  /** The reason of a refusal is a fact about the history up to it. */
  lemma ReasonIsTruthful(steps: seq<Step>, step: Step, since: nat, p: nat, error: Error)
    requires Run(steps).Some? && Inv(Run(steps).value) && Enabled(Run(steps).value, step)
    requires var s := Run(steps).value;
             && since <= |s.log| && p < |s.processes| && Reason(s, step, p, error)
             && (InTransaction(s.processes[p].phase) ==> since <= s.processes[p].snapshot)
    ensures !IsFault(error) ==>
              Truthful(steps, since, p, Run(steps).value.processes[p].request, error)
  {
    var s := Run(steps).value;
    var x, r, log := s.processes[p], s.processes[p].request, s.log;
    if InTransaction(x.phase) {
      SnapshotIsAPrefix(s, p);
    }
    assert log[..|log|] == log && Replay(log) == Success(s.db);
    match error
    case AccountNotFound =>
      hide Inv;
      if x.phase.Arrived? {
        assert NoSource(log, |log|, r.source);
      } else {
        assert NotThere(log, x.snapshot, LockSet(r));
      }
    case AccountNotActive =>
      hide Inv;
      assert NotActive(log, x.snapshot, LockSet(r));
    case InsufficientFunds =>
      hide Inv;
      assert TooPoor(log, x.snapshot, r);
    case AmountRejected => Money.StorableExactly(r.amount);
    case UniqueViolation => KeyWasCommitted(s, p);
    case SerializationFailure =>
      ConflictIsInterference(s, p);
      hide Inv;
    case _ =>
  }

  lemma FaultIsTruthful(steps: seq<Step>, step: Step, since: nat, p: nat, error: Error)
    requires Run(steps).Some? && Inv(Run(steps).value) && Enabled(Run(steps).value, step)
    requires p < |Run(steps).value.processes| && Reason(Run(steps).value, step, p, error)
    requires IsFault(error)
    ensures Run(steps + [step]).Some?
    ensures Truthful(steps + [step], since, p, Run(steps).value.processes[p].request, error)
  {
    var more, s := steps + [step], Run(steps).value;
    assert more[..|steps|] == steps && more[|steps|] == step;
    assert Run(more) == Some(Do(s, step));
    assert error.CommitUnknown? ==> Do(s, step).log == s.log + [Posted(p, s.processes[p].request)];
    hide Inv, Run, Do, Enabled, RowChanged, Overtaken, Balance, Money.StoreAmount;
  }

  lemma RefusalIsTruthful(steps: seq<Step>, step: Step, since: nat, p: nat)
    requires Run(steps).Some? && Inv(Run(steps).value) && Enabled(Run(steps).value, step)
    requires var s := Run(steps).value;
             && since <= |s.log| && p < |s.processes|
             && !s.processes[p].outcome.Refused? && OutcomeAfter(s, step, p).Refused?
             && (InTransaction(s.processes[p].phase) ==> since <= s.processes[p].snapshot)
    ensures Run(steps + [step]).Some?
    ensures var s := Run(steps).value;
            Truthful(steps + [step], since, p, s.processes[p].request, OutcomeAfter(s, step, p).error)
  {
    var s := Run(steps).value;
    var error := OutcomeAfter(s, step, p).error;
    assert (steps + [step])[..|steps|] == steps;
    assert Run(steps + [step]) == Some(Do(s, step));
    RefusalHasItsReason(s, step, p);
    hide *;
    if IsFault(error) {
      FaultIsTruthful(steps, step, since, p, error);
    } else {
      ReasonIsTruthful(steps, step, since, p, error);
      TruthStays(steps, step, since, p, s.processes[p].request, error);
    }
  }

  /** In every run the error of every refused request is true of it: it names a state of the tables, an
      operation or a fault that lies after the arrival of the request. */
  lemma {:induction false} EveryRefusalIsTruthful(steps: seq<Step>, k: nat, p: nat)
    requires Run(steps).Some? && k <= |steps| && p < |Run(steps).value.processes|
    requires Run(steps).value.processes[p].outcome.Refused?
    ensures Run(steps[..k]).Some?
    ensures p >= |Run(steps[..k]).value.processes| ==>
              var x := Run(steps).value.processes[p];
              Truthful(steps, |Run(steps[..k]).value.log|, p, x.request, x.outcome.error)
  {
    LogOnlyGrows(steps, k);
    assert k == |steps| ==> steps[..k] == steps;
    if p >= |Run(steps[..k]).value.processes| {
      var init, step := steps[..|steps| - 1], steps[|steps| - 1];
      var s := Run(init).value;
      assert init[..k] == steps[..k] && init + [step] == steps;
      RunsKeepInv(init);
      LogOnlyGrows(init, k);
      ArrivedUndecided(s, step, p);
      var since := |Run(steps[..k]).value.log|;
      if s.processes[p].outcome.Refused? {
        RefusedStays(s, step, p);
        RequestsStay(s, step, p);
        EveryRefusalIsTruthful(init, k, p);
        hide Truthful, Inv, Do, Enabled;
        TruthStays(init, step, since, p, s.processes[p].request, s.processes[p].outcome.error);
      } else {
        if InTransaction(s.processes[p].phase) {
          SnapshotAfterArrival(init, k, p);
        }
        RequestsStay(s, step, p);
        hide Truthful, Inv, Do, Enabled;
        RefusalIsTruthful(init, step, since, p);
      }
    }
  }

  lemma ArrivedUndecided(s: State, step: Step, p: nat)
    requires Enabled(s, step) && OutcomeAfter(s, step, p).Refused?
    ensures p < |s.processes|
  {
  }
}
