/** Why the row locks alone do not prevent an overdraft: the balance is summed on a snapshot that may
    be older than the lock. Only the refused commit stands between that sum and a double spend. */
module StaleSnapshot {
  import opened Common
  import opened Uuids
  import opened Ledger
  import opened Serial
  import opened SerialProperties
  import opened Protocol
  import opened ProtocolInvariant
  import opened Refinement
  import opened Progress
  import opened Runs
  import opened Alone
  import Money

  /** p is past its snapshot, its rows have not changed since, and its checks pass on the snapshot. */
  ghost predicate SnapshotPasses(s: State, p: nat) {
    && p < |s.processes| && InTransaction(s.processes[p].phase)
    && var x := s.processes[p];
       && Apply(x.view, Posted(p, x.request)).Success?
       && (forall a <- LockSet(x.request) :: SameRow(s.db, x.view, a))
       && NewTransaction(s.db, p, x.request).Success?
  }

  lemma LockPassesOnSnapshot(db: Database, log: seq<Operation>, p: nat, x: Process)
    requires ProcessInv(db, log, p, x)
    requires x.phase.AwaitFirst? || x.phase.AwaitSecond? || x.phase.RefetchSender? || x.phase.RefetchReceiver?
    requires Apply(x.view, Posted(p, x.request)).Success?
    requires forall a <- LockSet(x.request) :: SameRow(db, x.view, a)
    ensures InTransaction(Statement(db, p, x).phase)
  {
    if x.request.Transfer? {
      LockOrderIsSymmetric(x.request.from, x.request.to);
    }
    assert First(x.request) in LockSet(x.request) && Second(x.request) in LockSet(x.request);
  }

  lemma InsertPassesOnSnapshot(db: Database, log: seq<Operation>, p: nat, x: Process)
    requires ProcessInv(db, log, p, x)
    requires x.phase.SumBalance? || x.phase.InsertTransaction? || (AfterInsert(x.phase) && !x.phase.Commit?)
    requires Apply(x.view, Posted(p, x.request)).Success? && NewTransaction(db, p, x.request).Success?
    ensures InTransaction(Statement(db, p, x).phase)
  {
  }

  /** Such a process, undisturbed, always reaches its commit, whatever the tables hold by now. */
  lemma {:induction false} SnapshotDecides(steps: seq<Step>, s: State, p: nat) returns (steps': seq<Step>, s': State)
    requires Run(steps) == Some(s) && Inv(s) && Undisturbed(s, p) && SnapshotPasses(s, p)
    ensures Run(steps') == Some(s') && s'.db == s.db && s'.log == s.log && |s'.processes| == |s.processes|
    ensures s'.redis == s.redis && (FaultFree(steps) ==> FaultFree(steps'))
    ensures s'.processes[p].phase.Commit? && s'.processes[p].request == s.processes[p].request
    ensures s'.processes[p].snapshot == s.processes[p].snapshot
    decreases Remaining(s.processes[p].phase)
  {
    hide Run;
    var x := s.processes[p];
    steps', s' := steps, s;
    if !x.phase.Commit? {
      UndisturbedNeverWaits(s, p);
      AdvanceKeepsInv(s, p);
      StatementKeepsView(s.db, p, x);
      StatementProgresses(s.db, p, x);
      assert ProcessInv(s.db, s.log, p, x);
      if x.phase.AwaitFirst? || x.phase.AwaitSecond? || x.phase.RefetchSender? || x.phase.RefetchReceiver? {
        LockPassesOnSnapshot(s.db, s.log, p, x);
      } else {
        InsertPassesOnSnapshot(s.db, s.log, p, x);
      }
      hide Inv, ProcessInv, Statement, Apply;
      steps', s' := Extend(steps, s, Advance(p));
      assert s' == Put(s, p, Statement(s.db, p, x));
      steps', s' := SnapshotDecides(steps', s', p);
    }
  }

  // ---------------------------------------------------------------- when the commit is refused

  /** Since the snapshot of the transfer another transfer out of its sender has committed, or one from
      its receiver back to its sender. */
  ghost predicate Overtaken(s: State, p: nat)
    requires p < |s.processes| && s.processes[p].request.Transfer?
  {
    exists i :: s.processes[p].snapshot <= i < |s.log| && OvertakenBy(s.processes[p].request, s.log[i])
  }

  predicate OvertakenBy(t: Request, u: Operation)
    requires t.Transfer?
  {
    u.Posted? && u.request.Transfer? && (u.request.from == t.from || (u.request.from == t.to && u.request.to == t.from))
  }

  lemma ConflictExactly(u: Operation, p: nat, r: Request)
    ensures Conflict(u, Posted(p, r)) <==> r.Transfer? && OvertakenBy(r, u)
  {
    var t := Posted(p, r);
    if r.Transfer? && OvertakenBy(r, u) {
      assert r.from in Wrote(u) * Summed(t) && u.request.from in Summed(u) * Wrote(t);
    }
    if Conflict(u, t) {
      var a, b :| a in Wrote(u) * Summed(t) && b in Summed(u) * Wrote(t);
    }
  }

  /** Which commits serializable isolation must refuse here: never a funding, and a transfer exactly
      when it has been overtaken. */
  lemma CommitAllowedExactly(s: State, p: nat)
    requires p < |s.processes|
    ensures CommitAllowed(s, p) <==> s.processes[p].request.Funding? || !Overtaken(s, p)
  {
    var x := s.processes[p];
    forall i | 0 <= i < |s.log|
      ensures Conflict(s.log[i], Posted(p, x.request)) <==> x.request.Transfer? && OvertakenBy(x.request, s.log[i])
    {
      ConflictExactly(s.log[i], p, x.request);
    }
    hide Conflict, OvertakenBy;
  }

  lemma StatementRefuses(db: Database, p: nat, x: Process)
    requires InTransaction(x.phase) && !x.phase.Commit? && !InTransaction(Statement(db, p, x).phase)
    ensures Statement(db, p, x).outcome.Refused? && TransactionOver(Statement(db, p, x).phase)
  {
  }

  lemma PassedChecksApply(view: Database, p: nat, r: Request)
    requires r.amount > 0.0 && Money.StoreAmount(r.amount).Success? && Source(r) != r.to && Source(r) in view.accounts
    requires !HasTransaction(view.transactions, p) && !HasKey(view.transactions, r.key)
    requires forall a <- LockSet(r) :: ActiveAccount(view, a).Success?
    requires r.Transfer? ==> r.amount <= Money.ToDecimal(Balance(view.ledger, r.from))
    ensures Apply(view, Posted(p, r)).Success?
  {
    assert r.to in LockSet(r);
  }

  lemma UnusedInPrefix(before: seq<Transaction>, after: seq<Transaction>, id: nat, key: Uuid)
    requires before <= after && !HasTransaction(after, id) && !HasKey(after, key)
    ensures !HasTransaction(before, id) && !HasKey(before, key)
  {
  }

  lemma SourceWasVisible(s: State, p: nat)
    requires Inv(s) && p < |s.processes| && s.processes[p].phase.Commit? && s.processes[p].request.Funding?
    ensures s.processes[p].request.source in s.processes[p].view.accounts
  {
    var x := s.processes[p];
    assert ProcessInv(s.db, s.log, p, x) && SourceChecked(s.log, x);
    var past := s.log[..x.snapshot];
    var n :| 0 <= n <= |past| && ActiveAt(past, n, x.request.source);
    TablesOnlyGrow(past, n);
  }

  /** At its commit a process has passed all its checks. */
  lemma CommittingPasses(s: State, p: nat)
    requires Inv(s) && p < |s.processes| && s.processes[p].phase.Commit?
    ensures SnapshotPasses(s, p)
  {
    var x := s.processes[p];
    assert ProcessInv(s.db, s.log, p, x);
    TablesOnlyGrow(s.log, x.snapshot);
    UnusedInPrefix(x.view.transactions, s.db.transactions, p, x.request.key);
    assert forall a <- LockSet(x.request) :: a in x.held;
    assert Money.StoreAmount(x.request.amount).Success?;
    if x.request.Funding? {
      SourceWasVisible(s, p);
    }
    hide Apply, Money.StoreAmount, HasTransaction, HasKey, Balance, Replay;
    PassedChecksApply(x.view, p, x.request);
  }

  /** Whether an open request commits once the others leave it alone, at whatever statement it is: if
      its rows are unchanged since the snapshot, its checks pass on the snapshot, its key is unused, and
      the commit is not one that must be refused. Otherwise it is refused and leaves nothing. */
  lemma {:induction false} CommitsExactly(s: State, p: nat)
    requires Inv(s) && Undisturbed(s, p) && InTransaction(s.processes[p].phase)
    ensures |Complete(s, p).processes| == |s.processes|
    ensures var o := Complete(s, p).processes[p].outcome;
            if SnapshotPasses(s, p) && CommitAllowed(s, p) then o.Acknowledged?
            else o.Refused? && Complete(s, p).db == s.db && (SnapshotPasses(s, p) ==> o == Refused(SerializationFailure))
    decreases Remaining(s.processes[p].phase)
  {
    hide Complete, SnapshotPasses, CommitAllowed;
    var x := s.processes[p];
    var s' := AdvanceProcess(s, p);
    CompleteStep(s, p);
    if x.phase.Commit? {
      CommittingPasses(s, p);
      CompleteOver(s', p);
    } else {
      UndisturbedNeverWaits(s, p);
      AdvanceKeepsInv(s, p);
      if InTransaction(s'.processes[p].phase) {
        SameChecks(s, p);
        hide *;
        CommitsExactly(s', p);
      } else {
        StatementRefuses(s.db, p, x);
        CompleteOver(s', p);
        if SnapshotPasses(s, p) {
          PassingGoesOn(s, p);
        }
      }
    }
  }

  lemma CompleteStep(s: State, p: nat)
    requires p < |s.processes| && InTransaction(s.processes[p].phase)
    ensures p < |AdvanceProcess(s, p).processes| && Complete(s, p) == Complete(AdvanceProcess(s, p), p)
    ensures |AdvanceProcess(s, p).processes| == |s.processes|
    ensures Remaining(AdvanceProcess(s, p).processes[p].phase) < Remaining(s.processes[p].phase)
  {
    AdvanceProgresses(s, p);
  }

  lemma CompleteOver(s: State, p: nat)
    requires p < |s.processes| && TransactionOver(s.processes[p].phase)
    ensures Complete(s, p) == s
  {
  }

  lemma SameChecks(s: State, p: nat)
    requires Undisturbed(s, p) && InTransaction(s.processes[p].phase) && !s.processes[p].phase.Commit?
    requires InTransaction(AdvanceProcess(s, p).processes[p].phase)
    ensures var s' := AdvanceProcess(s, p);
            && s'.db == s.db && Undisturbed(s', p)
            && (SnapshotPasses(s', p) <==> SnapshotPasses(s, p)) && (CommitAllowed(s', p) <==> CommitAllowed(s, p))
  {
    StatementKeepsView(s.db, p, s.processes[p]);
  }

  lemma PassingGoesOn(s: State, p: nat)
    requires Inv(s) && SnapshotPasses(s, p) && !s.processes[p].phase.Commit?
    ensures InTransaction(AdvanceProcess(s, p).processes[p].phase)
  {
    var x := s.processes[p];
    assert ProcessInv(s.db, s.log, p, x);
    if x.phase.AwaitFirst? || x.phase.AwaitSecond? || x.phase.RefetchSender? || x.phase.RefetchReceiver? {
      LockPassesOnSnapshot(s.db, s.log, p, x);
    } else {
      InsertPassesOnSnapshot(s.db, s.log, p, x);
    }
  }

  /** In the caller's terms: once the others leave it alone, an open request commits if and only if its
      rows have not changed since its snapshot, its checks pass on the snapshot, its key is unused and,
      if it is a transfer, it has not been overtaken. */
  lemma UndisturbedCommitsExactly(s: State, p: nat)
    requires Reachable(s) && Undisturbed(s, p) && InTransaction(s.processes[p].phase)
    ensures |Complete(s, p).processes| == |s.processes|
    ensures Complete(s, p).processes[p].outcome.Acknowledged?
            <==> SnapshotPasses(s, p) && (s.processes[p].request.Funding? || !Overtaken(s, p))
    ensures SnapshotPasses(s, p) && s.processes[p].request.Transfer? && Overtaken(s, p) ==>
              Complete(s, p).processes[p].outcome == Refused(SerializationFailure)
  {
    ReachableStatesSatisfyInv(s);
    hide *;
    CommitsExactly(s, p);
    CommitAllowedExactly(s, p);
  }

  // ---------------------------------------------------------------- runs

  function Spend(from: Uuid, to: Uuid, units: int, key: Uuid): Request {
    Transfer(from, to, Money.ToDecimal(units), key)
  }

  /** Process 0 has funded the sender; process 1, a transfer of all of it, has just taken its snapshot. */
  ghost predicate Watched(s: State, from: Uuid, to: Uuid, units: int) {
    && |s.processes| == 2 && NoLocks(s.processes[0]) && NoLocks(s.processes[1])
    && s.processes[1].phase.AwaitFirst? && s.processes[1].request == Spend(from, to, units, 2)
    && s.processes[1].view == s.db && s.processes[1].snapshot == |s.log|
    && s.redis == map[2 := Processing]
    && ActiveAccount(s.db, from).Success? && ActiveAccount(s.db, to).Success?
    && Balance(s.db.ledger, from) == units
    && |s.db.transactions| == 1 && s.db.transactions[0].id == 0 && s.db.transactions[0].key == 0
  }

  lemma FundedAndWatched(from: Uuid, to: Uuid, units: int) returns (steps: seq<Step>, s: State)
    requires from != to && 0 < units < Money.UNIT_LIMIT
    ensures Run(steps) == Some(s) && Watched(s, from, to, units)
  {
    var f := Funding(to, from, Money.ToDecimal(units), 0);
    steps, s := OpenBothAccounts(from, to);
    FundingEffect(s.db, from, to, units);
    hide Run, Apply, Balance;
    steps, s := ServeAlone(steps, s, f);
    steps, s := BeginTransfer(steps, s, Spend(from, to, units, 2));
  }

  lemma FundingEffect(db: Database, from: Uuid, to: Uuid, units: int)
    requires from != to && 0 < units < Money.UNIT_LIMIT
    requires db.transactions == [] && db.ledger == []
    requires ActiveAccount(db, from).Success? && ActiveAccount(db, to).Success?
    ensures var op := Posted(0, Funding(to, from, Money.ToDecimal(units), 0));
            && Apply(db, op).Success?
            && var db' := Apply(db, op).value;
               && db'.accounts == db.accounts && Balance(db'.ledger, from) == units
               && |db'.transactions| == 1 && db'.transactions[0].id == 0 && db'.transactions[0].key == 0
  {
    Money.RoundingFixesStoredAmounts(units);
    var op := Posted(0, Funding(to, from, Money.ToDecimal(units), 0));
    ApplyEffect(db, op);
    PostingBalance(op, from);
    BalanceOfConcat(db.ledger, Posting(op), from);
  }

  /** Spending the whole balance succeeds, and leaves room in the unique indexes for one more try. */
  lemma SpendEffect(db: Database, from: Uuid, to: Uuid, units: int)
    requires from != to && 0 < units < Money.UNIT_LIMIT
    requires |db.transactions| == 1 && db.transactions[0].id == 0 && db.transactions[0].key == 0
    requires ActiveAccount(db, from).Success? && ActiveAccount(db, to).Success?
    requires Balance(db.ledger, from) == units
    ensures Apply(db, Posted(1, Spend(from, to, units, 2))).Success?
    ensures var op := Posted(2, Spend(from, to, units, 1));
            && Apply(db, op).Success?
            && var db' := Apply(db, op).value;
               && db'.accounts == db.accounts && Balance(db'.ledger, from) == 0
               && NewTransaction(db', 1, Spend(from, to, units, 2)).Success?
  {
    Money.RoundingFixesStoredAmounts(units);
    var op := Posted(2, Spend(from, to, units, 1));
    ApplyEffect(db, op);
    PostingBalance(op, from);
    BalanceOfConcat(db.ledger, Posting(op), from);
  }

  /** A third process spends the money behind the snapshot of process 1. */
  lemma SpendBehindSnapshot(steps0: seq<Step>, s0: State, from: Uuid, to: Uuid, units: int)
    returns (steps: seq<Step>, s: State)
    requires from != to && 0 < units < Money.UNIT_LIMIT
    requires Run(steps0) == Some(s0) && Watched(s0, from, to, units)
    ensures Run(steps) == Some(s) && |s.processes| == 3 && s.processes[..2] == s0.processes && NoLocks(s.processes[2])
    ensures Apply(s0.db, Posted(2, Spend(from, to, units, 1))) == Success(s.db)
    ensures s.log == s0.log + [Posted(2, Spend(from, to, units, 1))]
  {
    SpendEffect(s0.db, from, to, units);
    hide Run, Apply, NewTransaction, Balance;
    steps, s := ServeAlone(steps0, s0, Spend(from, to, units, 1));
  }

  lemma WatcherStillPasses(s0: State, s: State, from: Uuid, to: Uuid, units: int)
    requires from != to && 0 < units < Money.UNIT_LIMIT && Watched(s0, from, to, units)
    requires |s.processes| == 3 && s.processes[..2] == s0.processes && NoLocks(s.processes[2])
    requires Apply(s0.db, Posted(2, Spend(from, to, units, 1))) == Success(s.db)
    ensures s.processes[1] == s0.processes[1] && Undisturbed(s, 1) && SnapshotPasses(s, 1)
    ensures Balance(s.db.ledger, from) == 0
  {
    SpendEffect(s0.db, from, to, units);
    hide Apply, NewTransaction, Balance;
    assert s.processes[0] == s.processes[..2][0] && s.processes[1] == s.processes[..2][1];
  }

  lemma SpentSinceConflicts(from: Uuid, to: Uuid, units: int)
    ensures Conflict(Posted(2, Spend(from, to, units, 1)), Posted(1, Spend(from, to, units, 2)))
  {
    var t, u := Posted(2, Spend(from, to, units, 1)), Posted(1, Spend(from, to, units, 2));
    assert from in Wrote(t) * Summed(u) && from in Summed(t) * Wrote(u);
  }

  /** For every amount there is a run in which a transfer holds both row locks and has passed its
      balance check, is about to commit, and the committed balance of its sender is already zero. */
  lemma LocksAloneAreNotEnough(from: Uuid, to: Uuid, units: int)
    requires from != to && 0 < units < Money.UNIT_LIMIT
    ensures exists s, p: nat ::
              && Reachable(s) && p < |s.processes| && s.processes[p].request == Spend(from, to, units, 2)
              && s.processes[p].phase.Commit? && from in s.processes[p].held && to in s.processes[p].held
              && Balance(s.db.ledger, from) == 0 && !CommitAllowed(s, p)
  {
    var steps, s := FundedAndWatched(from, to, units);
    var snapshot := |s.log|;
    hide Run, Inv, Balance, Apply;
    var before := s;
    steps, s := SpendBehindSnapshot(steps, s, from, to, units);
    WatcherStillPasses(before, s, from, to, units);
    RunsKeepInv(steps);
    hide Undisturbed, SnapshotPasses;
    steps, s := SnapshotDecides(steps, s, 1);
    RunsKeepInv(steps);
    ProcessFacts(s, 1);
    SpentSinceConflicts(from, to, units);
    assert Conflict(s.log[snapshot], Posted(1, s.processes[1].request));
    assert Reachable(s);
  }

  /** The status of the source of a funding is read before its database transaction: for every amount
      that can be stored there is a run in which a funding commits although its source is frozen. */
  lemma FrozenSourceStillFunds(source: Uuid, to: Uuid, units: int)
    requires source != to && 0 < units < Money.UNIT_LIMIT
    ensures exists s :: Reachable(s) && |s.processes| == 1 && s.processes[0].outcome.Acknowledged?
                        && s.processes[0].request == Funding(source, to, Money.ToDecimal(units), 0)
                        && StatusOf(s.db, source).Frozen? && Balance(s.db.ledger, to) == units
  {
    var f := Funding(source, to, Money.ToDecimal(units), 0);
    var steps, s := OpenBothAccounts(to, source);
    hide Run;
    steps, s := Extend(steps, s, Arrive(f));
    steps, s := Extend(steps, s, Advance(0));
    assert s.processes == [NewProcess(f).(phase := Admitted)];
    steps, s := Extend(steps, s, SetAccount(source, Frozen));
    FrozenFundingEffect(s.db, source, to, units);
    FinishFunding(steps, s, f);
  }

  lemma FinishFunding(steps0: seq<Step>, s0: State, f: Request)
    requires Run(steps0) == Some(s0) && s0.processes == [NewProcess(f).(phase := Admitted)]
    requires Apply(s0.db, Posted(0, f)).Success?
    ensures exists s :: Reachable(s) && |s.processes| == 1 && s.processes[0].outcome.Acknowledged?
                        && s.processes[0].request == f && s.db == Apply(s0.db, Posted(0, f)).value
  {
    assert Undisturbed(s0, 0) && Reachable(s0);
    hide Run, Complete, Apply;
    AdmittedRequestIsSerial(s0, 0);
    var steps := CompleteIsARun(steps0, s0, 0);
    var s := Complete(s0, 0);
    assert Reachable(s);
    EveryRunIsSerializable(s);
    assert Posted(0, f) in s.log;
  }

  lemma FrozenFundingEffect(db: Database, source: Uuid, to: Uuid, units: int)
    requires source != to && 0 < units < Money.UNIT_LIMIT && db.transactions == [] && db.ledger == []
    requires ActiveAccount(db, to).Success? && StatusOf(db, source).Frozen?
    ensures var op := Posted(0, Funding(source, to, Money.ToDecimal(units), 0));
            && Apply(db, op).Success?
            && StatusOf(Apply(db, op).value, source).Frozen? && Balance(Apply(db, op).value.ledger, to) == units
  {
    Money.RoundingFixesStoredAmounts(units);
    var op := Posted(0, Funding(source, to, Money.ToDecimal(units), 0));
    assert source in db.accounts;
    ApplyEffect(db, op);
    PostingBalance(op, to);
    BalanceOfConcat(db.ledger, Posting(op), to);
  }
}
