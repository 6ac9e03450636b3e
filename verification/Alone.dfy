/** The converse of refinement: a request that meets no other one in the database does exactly what
    the sequential specification says, errors included. */
module Alone {
  import opened Common
  import opened Ledger
  import opened Serial
  import opened Protocol
  import opened ProtocolInvariant
  import opened Progress
  import opened Runs

  /** No other process has an open transaction with locks or rows. */
  ghost predicate Undisturbed(s: State, p: nat) {
    && p < |s.processes|
    && forall q :: 0 <= q < |s.processes| && q != p ==>
         s.processes[q].held == {} && s.processes[q].shared == {} && s.processes[q].row.None?
  }

  predicate TransactionOver(phase: Phase) {
    phase.Settle? || phase.Finished?
  }

  /** Executes the statements of p, and only those, to the end of its transaction. */
  function Complete(s: State, p: nat): State
    requires p < |s.processes|
    decreases Remaining(s.processes[p].phase)
  {
    if TransactionOver(s.processes[p].phase) then s
    else
      AdvanceProgresses(s, p);
      Complete(AdvanceProcess(s, p), p)
  }

  lemma UndisturbedNeverWaits(s: State, p: nat)
    requires Undisturbed(s, p)
    ensures !Blocked(s, p)
  {
  }

  /** If a statement ends the transaction, it is with the error of the sequential operation. */
  lemma LockErrorIsSerial(db: Database, log: seq<Operation>, p: nat, x: Process)
    requires ProcessInv(db, log, p, x) && x.view == db
    requires x.phase.AwaitFirst? || x.phase.AwaitSecond? || x.phase.RefetchSender? || x.phase.RefetchReceiver?
    requires TransactionOver(Statement(db, p, x).phase)
    ensures Apply(db, Posted(p, x.request)).Failure?
    ensures Statement(db, p, x).outcome == Refused(Apply(db, Posted(p, x.request)).error)
  {
  }

  lemma InsertErrorIsSerial(db: Database, log: seq<Operation>, p: nat, x: Process)
    requires ProcessInv(db, log, p, x) && x.view == db
    requires x.phase.SumBalance? || AfterInsert(x.phase) || x.phase.InsertTransaction?
    requires !x.phase.Commit? && TransactionOver(Statement(db, p, x).phase)
    ensures Apply(db, Posted(p, x.request)).Failure?
    ensures Statement(db, p, x).outcome == Refused(Apply(db, Posted(p, x.request)).error)
  {
    if x.request.Transfer? {
      assert x.request.from in x.held && x.request.to in x.held;
    } else {
      assert x.request.to in x.held;
    }
  }

  lemma StatementErrorIsSerial(db: Database, log: seq<Operation>, p: nat, x: Process)
    requires ProcessInv(db, log, p, x) && x.view == db && InTransaction(x.phase) && !x.phase.Commit?
    requires TransactionOver(Statement(db, p, x).phase)
    ensures Apply(db, Posted(p, x.request)).Failure?
    ensures Statement(db, p, x).outcome == Refused(Apply(db, Posted(p, x.request)).error)
  {
    hide ProcessInv, Statement, Apply;
    if x.phase.AwaitFirst? || x.phase.AwaitSecond? || x.phase.RefetchSender? || x.phase.RefetchReceiver? {
      LockErrorIsSerial(db, log, p, x);
    } else {
      InsertErrorIsSerial(db, log, p, x);
    }
  }

  lemma StatementKeepsView(db: Database, p: nat, x: Process)
    requires InTransaction(x.phase) && !x.phase.Commit?
    ensures var y := Statement(db, p, x); y.view == x.view && y.snapshot == x.snapshot && y.request == x.request
  {
  }

  /** The result a request must have, given the tables it started from. */
  ghost predicate HasSerialResult(s: State, p: nat, final: State)
    requires p < |s.processes|
  {
    && |final.processes| == |s.processes|
    && match Apply(s.db, Posted(p, s.processes[p].request))
       case Success(db) =>
         && final.db == db && final.log == s.log + [Posted(p, s.processes[p].request)]
         && final.processes[p].outcome == Acknowledged
       case Failure(e) =>
         && final.db == s.db && final.log == s.log
         && final.processes[p].outcome == Refused(e)
  }

  /** One statement of an undisturbed process on an up-to-date snapshot. */
  lemma UndisturbedStep(s: State, p: nat)
    requires Inv(s) && Undisturbed(s, p) && InTransaction(s.processes[p].phase) && !s.processes[p].phase.Commit?
    requires s.processes[p].view == s.db && s.processes[p].snapshot == |s.log|
    ensures var s' := AdvanceProcess(s, p);
            && Inv(s') && Undisturbed(s', p) && s'.db == s.db && s'.log == s.log && |s'.processes| == |s.processes|
            && s'.processes[p].request == s.processes[p].request
            && s'.processes[p].view == s.db && s'.processes[p].snapshot == |s.log|
            && (TransactionOver(s'.processes[p].phase) ==> HasSerialResult(s, p, s'))
  {
    var x := s.processes[p];
    UndisturbedNeverWaits(s, p);
    AdvanceKeepsInv(s, p);
    StatementKeepsView(s.db, p, x);
    if TransactionOver(Statement(s.db, p, x).phase) {
      StatementErrorIsSerial(s.db, s.log, p, x);
    }
  }

  /** Without interference the transaction is the sequential operation: same tables on success,
      same error and untouched tables on failure. */
  lemma {:induction false} UndisturbedRunIsSerial(s: State, p: nat)
    requires Inv(s) && Undisturbed(s, p) && InTransaction(s.processes[p].phase)
    requires s.processes[p].view == s.db && s.processes[p].snapshot == |s.log|
    ensures HasSerialResult(s, p, Complete(s, p))
    decreases Remaining(s.processes[p].phase)
  {
    assert p < |s.processes|;
    hide Inv, Undisturbed, AdvanceProcess, Apply;
    AdvanceProgresses(s, p);
    var s' := AdvanceProcess(s, p);
    if s.processes[p].phase.Commit? {
      UndisturbedCommit(s, p);
    } else {
      UndisturbedStep(s, p);
      if !TransactionOver(s'.processes[p].phase) {
        UndisturbedRunIsSerial(s', p);
      }
    }
  }

  lemma UndisturbedCommit(s: State, p: nat)
    requires Inv(s) && p < |s.processes| && s.processes[p].phase.Commit? && s.processes[p].snapshot == |s.log|
    ensures TransactionOver(AdvanceProcess(s, p).processes[p].phase)
    ensures HasSerialResult(s, p, AdvanceProcess(s, p))
  {
    CommitIsSerial(s, p);
  }

  /** From the gate's point of view: an admitted request alone in the database. */
  lemma AdmittedRequestIsSerial(s: State, p: nat)
    requires Reachable(s) && Undisturbed(s, p) && s.processes[p].phase.Admitted?
    ensures HasSerialResult(s, p, Complete(s, p))
  {
    ReachableStatesSatisfyInv(s);
    UndisturbedNeverWaits(s, p);
    AdvanceKeepsInv(s, p);
    var s' := AdvanceProcess(s, p);
    UndisturbedRunIsSerial(s', p);
  }

  // ---------------------------------------------------------------- runs of one request at a time

  /** The statements of p to the end of its transaction, as a run. */
  lemma {:induction false} CompleteIsARun(steps: seq<Step>, s: State, p: nat) returns (steps': seq<Step>)
    requires Run(steps) == Some(s) && Undisturbed(s, p)
    ensures Run(steps') == Some(Complete(s, p))
    ensures forall q :: 0 <= q < |s.processes| && q != p ==>
              q < |Complete(s, p).processes| && Complete(s, p).processes[q] == s.processes[q]
    ensures |Complete(s, p).processes| == |s.processes|
    ensures TransactionOver(Complete(s, p).processes[p].phase)
    ensures !s.processes[p].phase.Arrived? ==> Complete(s, p).redis == s.redis
    ensures FaultFree(steps) ==> FaultFree(steps')
    decreases Remaining(s.processes[p].phase)
  {
    hide Run;
    steps' := steps;
    if !TransactionOver(s.processes[p].phase) {
      UndisturbedNeverWaits(s, p);
      AdvanceProgresses(s, p);
      var s';
      steps', s' := Extend(steps, s, Advance(p));
      steps' := CompleteIsARun(steps', s', p);
    }
  }

  predicate NoLocks(x: Process) {
    x.held == {} && x.shared == {} && x.row.None?
  }

  /** A request that arrives when nothing else is open runs to its end; its result is serial. */
  lemma ServeAlone(steps: seq<Step>, s: State, r: Request) returns (steps': seq<Step>, s': State)
    requires Run(steps) == Some(s)
    requires forall q :: 0 <= q < |s.processes| ==> NoLocks(s.processes[q])
    requires r.amount > 0.0 && (if r.Transfer? then r.from != r.to && r.key !in s.redis else ActiveAccount(s.db, r.source).Success?)
    requires Apply(s.db, Posted(|s.processes|, r)).Success?
    ensures Run(steps') == Some(s') && |s'.processes| == |s.processes| + 1 && (FaultFree(steps) ==> FaultFree(steps'))
    ensures s'.db == Apply(s.db, Posted(|s.processes|, r)).value
    ensures s'.log == s.log + [Posted(|s.processes|, r)]
    ensures s'.processes[..|s.processes|] == s.processes
    ensures s'.redis == if r.Transfer? then s.redis[r.key := Processing] else s.redis
    ensures NoLocks(s'.processes[|s.processes|])
  {
    var p := |s.processes|;
    steps', s' := Extend(steps, s, Arrive(r));
    steps', s' := Extend(steps', s', Advance(p));
    hide Run, Complete;
    var admitted := s';
    assert admitted.processes == s.processes + [NewProcess(r).(phase := Admitted)];
    assert Undisturbed(admitted, p);
    assert Reachable(admitted);
    AdmittedRequestIsSerial(admitted, p);
    steps' := CompleteIsARun(steps', admitted, p);
    s' := Complete(admitted, p);
    RunsKeepInv(steps');
    ProcessFacts(s', p);
    assert forall q :: 0 <= q < p ==> s'.processes[q] == s.processes[q];
  }

  lemma BeginTransfer(steps0: seq<Step>, s0: State, t: Request) returns (steps: seq<Step>, s: State)
    requires Run(steps0) == Some(s0) && t.Transfer? && t.from != t.to && t.amount > 0.0 && t.key !in s0.redis
    ensures Run(steps) == Some(s) && s.db == s0.db && s.log == s0.log && s.redis == s0.redis[t.key := Processing]
    ensures FaultFree(steps0) ==> FaultFree(steps)
    ensures s.processes == s0.processes + [NewProcess(t).(phase := AwaitFirst, view := s0.db, snapshot := |s0.log|)]
  {
    hide Run;
    var p := |s0.processes|;
    steps, s := Extend(steps0, s0, Arrive(t));
    assert s.processes[p] == NewProcess(t);
    steps, s := Extend(steps, s, Advance(p));
    assert s.processes[p] == NewProcess(t).(phase := Admitted);
    steps, s := Extend(steps, s, Advance(p));
  }
}
