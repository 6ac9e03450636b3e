/** Deadlock freedom, when it holds and when it does not, and the bound on the work of a run. */
module Progress {
  import opened Common
  import opened Uuids
  import opened Ledger
  import opened Serial
  import opened Protocol
  import opened ProtocolInvariant
  import opened Refinement
  import opened Runs

  predicate Unfinished(s: State, p: nat) {
    p < |s.processes| && !s.processes[p].phase.Finished?
  }

  /** What y must hold to keep x waiting at its next statement. */
  predicate HoldsUp(y: Process, x: Process) {
    match x.phase
    case AwaitFirst => First(x.request) in y.held || First(x.request) in y.shared
    case AwaitSecond => Second(x.request) in y.held || Second(x.request) in y.shared
    case RefetchSender => Source(x.request) in y.held || Source(x.request) in y.shared
    case RefetchReceiver => x.request.to in y.held || x.request.to in y.shared
    case InsertTransaction => y.row.Some? && y.row.value.key == x.request.key
    case ReferenceSource => Source(x.request) in y.held
    case _ => false
  }

  /** The next statement of p touches the row it may have to wait for: a lock on a row that the
      snapshot does not show, or an insert that violates a constraint, fails without waiting. */
  predicate Asks(s: State, p: nat)
    requires p < |s.processes|
  {
    var x := s.processes[p];
    && (x.phase.AwaitFirst? ==> First(x.request) in x.view.accounts)
    && (x.phase.AwaitSecond? ==> Second(x.request) in x.view.accounts)
    && (x.phase.InsertTransaction? ==> NewTransaction(s.db, p, x.request).Success?)
  }

  /** Process p waits for a lock or an uncommitted key of process q. */
  predicate WaitsFor(s: State, p: nat, q: nat) {
    && p < |s.processes| && q < |s.processes| && p != q
    && Asks(s, p) && HoldsUp(s.processes[q], s.processes[p])
  }

  predicate Distinct(path: seq<nat>) {
    forall i, j :: 0 <= i < j < |path| ==> path[i] != path[j]
  }

  /** Each process of the path waits for the next one. */
  ghost predicate WaitPath(s: State, path: seq<nat>) {
    && path != [] && (forall i :: 0 <= i < |path| ==> path[i] < |s.processes|)
    && forall i :: 0 < i < |path| ==> WaitsFor(s, path[i - 1], path[i])
  }

  /** A circular wait: what the database calls a deadlock, whatever the other processes do. */
  ghost predicate WaitCycle(s: State, c: seq<nat>) {
    WaitPath(s, c) && Distinct(c) && WaitsFor(s, c[|c| - 1], c[0])
  }

  /** The member of a circle that comes after member i. */
  function Next<T>(c: seq<T>, i: nat): T
    requires i < |c|
  {
    if i + 1 < |c| then c[i + 1] else c[0]
  }

  function Previous<T>(c: seq<T>, i: nat): T
    requires i < |c|
  {
    if i > 0 then c[i - 1] else c[|c| - 1]
  }

  /** Where lock ordering can be defeated. A funding locks its target and then needs a share lock on
      its source, in that order whatever the account numbers are: the other request locks that source
      first, or targets it in a funding, or uses the key of the funding. */
  predicate Clash(r: Request, f: Request) {
    && f.Funding?
    && (|| (r.Transfer? && First(r) == f.source)
        || (r.Funding? && r.to == f.source && r.source != r.to)
        || r.key == f.key)
  }

  ghost predicate SourcesApart(s: State) {
    forall p: nat, q: nat :: Unfinished(s, p) && Unfinished(s, q) && p != q ==>
      !Clash(s.processes[p].request, s.processes[q].request)
  }

  // ---------------------------------------------------------------- who waits for whom

  lemma ProcessFacts(s: State, p: nat)
    requires Inv(s) && p < |s.processes|
    ensures var x := s.processes[p];
            && OwnPhase(x.request, x.phase) && OutcomeFits(x.phase, x.outcome)
            && x.held == HeldAt(x.request, x.phase) && x.shared == SharedAt(x.request, x.phase)
            && x.row == RowAt(p, x.request, x.phase)
            && (InTransaction(x.phase) && x.request.Transfer? ==> x.request.from != x.request.to)
            && (AfterInsert(x.phase) ==> Source(x.request) != x.request.to)
  {
    assert ProcessInv(s.db, s.log, p, s.processes[p]);
  }

  /** Only the two ordered locks, the insert and the foreign-key lock of a funding can wait; the
      re-fetches ask for rows the process already holds. */
  lemma OnlyFourStatementsWait(s: State, p: nat)
    requires Inv(s) && p < |s.processes| && Blocked(s, p)
    ensures var phase := s.processes[p].phase;
            phase.AwaitFirst? || phase.AwaitSecond? || phase.InsertTransaction? || phase.ReferenceSource?
  {
    hide ProcessInv;
    ProcessFacts(s, p);
  }

  /** A blocked process waits for some other one, and only a blocked process waits. */
  lemma BlockedIsWaiting(s: State, p: nat)
    requires p < |s.processes|
    ensures Blocked(s, p) <==> exists q: nat :: WaitsFor(s, p, q)
  {
    if Blocked(s, p) {
      var q: nat :| q < |s.processes| && q != p && HoldsUp(s.processes[q], s.processes[p]);
      assert WaitsFor(s, p, q);
    }
    if q: nat :| WaitsFor(s, p, q) {
      assert HoldsUp(s.processes[q], s.processes[p]);
    }
  }

  /** Only an open transaction is waited for. */
  lemma WaitedForIsOpen(s: State, p: nat, q: nat)
    requires Inv(s) && WaitsFor(s, p, q)
    ensures Unfinished(s, q) && InTransaction(s.processes[q].phase) && !s.processes[q].phase.AwaitFirst?
  {
    hide ProcessInv;
    ProcessFacts(s, q);
  }

  lemma {:induction false} DistinctPathIsShort(path: seq<nat>, n: nat)
    requires Distinct(path) && forall i :: 0 <= i < |path| ==> path[i] < n
    ensures |path| <= n
  {
    if path != [] {
      assert path[0] < n;
      if k :| 0 <= k < |path| && path[k] == n - 1 {
        DistinctPathIsShort(path[..k] + path[k + 1..], n - 1);
      } else {
        DistinctPathIsShort(path, n - 1);
      }
    }
  }

  lemma ExtendPath(s: State, path: seq<nat>, q: nat)
    requires WaitPath(s, path) && Distinct(path) && WaitsFor(s, path[|path| - 1], q) && q !in path
    ensures WaitPath(s, path + [q]) && Distinct(path + [q]) && |path| < |s.processes|
  {
    WaitsForExisting(s, path[|path| - 1], q);
    hide WaitsFor;
    var longer := path + [q];
    forall i | 0 < i < |longer|
      ensures WaitsFor(s, longer[i - 1], longer[i])
    {
      assert i < |path| ==> longer[i - 1] == path[i - 1] && longer[i] == path[i];
    }
    DistinctPathIsShort(longer, |s.processes|);
  }

  lemma CloseCircle(s: State, path: seq<nat>, k: nat)
    requires WaitPath(s, path) && Distinct(path) && k < |path| && WaitsFor(s, path[|path| - 1], path[k])
    ensures WaitCycle(s, path[k..])
  {
    hide WaitsFor;
    var c := path[k..];
    forall i | 0 < i < |c|
      ensures WaitsFor(s, c[i - 1], c[i])
    {
      assert c[i - 1] == path[k + i - 1] && c[i] == path[k + i];
    }
  }

  /** Whatever the state: following waits from the end of a path reaches a process that can execute
      its next statement, unless some processes wait in a circle. */
  lemma {:induction false} WaitsEndOrCircle(s: State, path: seq<nat>) returns (longer: seq<nat>)
    requires WaitPath(s, path) && Distinct(path)
    ensures WaitPath(s, longer) && path <= longer
    ensures !Blocked(s, longer[|longer| - 1]) || exists c :: WaitCycle(s, c)
    decreases |s.processes| - |path|
  {
    longer := path;
    var last := path[|path| - 1];
    BlockedIsWaiting(s, last);
    hide WaitsFor, Blocked, WaitCycle, Distinct;
    if Blocked(s, last) {
      var q: nat :| WaitsFor(s, last, q);
      if k :| 0 <= k < |path| && path[k] == q {
        CloseCircle(s, path, k);
      } else {
        ExtendPath(s, path, q);
        longer := WaitsEndOrCircle(s, path + [q]);
        assert path <= path + [q];
      }
    }
  }

  lemma WaitsForExisting(s: State, p: nat, q: nat)
    requires WaitsFor(s, p, q)
    ensures p < |s.processes| && q < |s.processes| && p != q
  {
  }

  // ---------------------------------------------------------------- circular waits

  /** The phases of a process that waits and is waited for, and what its successor holds. */
  ghost predicate CircleStep(x: Process, y: Process) {
    match x.phase
    case AwaitSecond => x.request.Transfer? && Second(x.request) in y.held && First(x.request) < Second(x.request)
    case InsertTransaction => y.phase.ReferenceSource? && y.request.key == x.request.key
    case ReferenceSource => x.request.Funding? && x.request.source in y.held && x.request.source != x.request.to
    case _ => false
  }

  ghost predicate OwnLocks(x: Process) {
    && (x.phase.AwaitSecond? ==> x.request.Transfer? && x.held == {First(x.request)})
    && (x.phase.ReferenceSource? ==> x.request.Funding? && x.held == {x.request.to})
  }

  lemma CircleStepFacts(s: State, o: nat, p: nat, q: nat)
    requires Inv(s) && WaitsFor(s, o, p) && WaitsFor(s, p, q) && Blocked(s, q)
    ensures CircleStep(s.processes[p], s.processes[q])
  {
    hide ProcessInv;
    WaitedForIsOpen(s, o, p);
    WaitedForIsOpen(s, p, q);
    ProcessFacts(s, p);
    ProcessFacts(s, q);
    BlockedIsWaiting(s, p);
    OnlyFourStatementsWait(s, p);
    OnlyFourStatementsWait(s, q);
    if s.processes[p].phase.AwaitSecond? {
      LockOrderIsSymmetric(s.processes[p].request.from, s.processes[p].request.to);
    }
  }

  lemma InCircle(s: State, c: seq<nat>, i: nat)
    requires Inv(s) && WaitCycle(s, c) && i < |c|
    ensures c[i] < |s.processes| && Next(c, i) < |s.processes| && c[i] != Next(c, i)
    ensures Unfinished(s, c[i]) && OwnLocks(s.processes[c[i]])
    ensures CircleStep(s.processes[c[i]], s.processes[Next(c, i)])
  {
    var o, p, q := Previous(c, i), c[i], Next(c, i);
    assert WaitsFor(s, o, p) && WaitsFor(s, p, q);
    assert WaitsFor(s, q, if i + 1 < |c| then Next(c, i + 1) else Next(c, 0));
    hide WaitsFor, Blocked, Inv;
    WaitsForExisting(s, p, q);
    WaitedForIsOpen(s, o, p);
    BlockedIsWaiting(s, q);
    CircleStepFacts(s, o, p, q);
    ProcessFacts(s, p);
  }

  /** Along waits for second locks the account numbers grow. */
  lemma {:induction false} SecondLocksAscend(s: State, c: seq<nat>, i: nat)
    requires Inv(s) && WaitCycle(s, c) && i < |c|
    requires forall p <- c :: p < |s.processes| && !s.processes[p].phase.ReferenceSource?
    ensures First(s.processes[c[0]].request) <= First(s.processes[c[i]].request)
    ensures s.processes[c[i]].phase.AwaitSecond?
  {
    hide WaitCycle, Inv;
    InCircle(s, c, i);
    if i > 0 {
      SecondLocksAscend(s, c, i - 1);
      InCircle(s, c, i - 1);
    }
  }

  /** Every circular wait, in any reachable state and traffic, runs through a funding that waits for
      its source. */
  lemma CircleHasAFunding(s: State, c: seq<nat>) returns (i: nat)
    requires Inv(s) && WaitCycle(s, c)
    ensures i < |c| && c[i] < |s.processes| && s.processes[c[i]].phase.ReferenceSource?
  {
    if forall p <- c :: p < |s.processes| && !s.processes[p].phase.ReferenceSource? {
      SecondLocksAscend(s, c, |c| - 1);
      SecondLocksAscend(s, c, 0);
      InCircle(s, c, |c| - 1);
      assert false;
    }
    var p :| p in c && !(p < |s.processes| && !s.processes[p].phase.ReferenceSource?);
    i :| 0 <= i < |c| && c[i] == p;
  }

  lemma StepClashes(f: Process, y: Process, z: Process)
    requires CircleStep(f, y) && CircleStep(y, z) && f.phase.ReferenceSource? && OwnLocks(y) && OwnLocks(z)
    ensures if y.phase.InsertTransaction? then Clash(y.request, z.request) else Clash(y.request, f.request)
  {
  }

  /** ... and through a request that clashes with one of the fundings in the circle. */
  lemma CircleHasAClash(s: State, c: seq<nat>) returns (p: nat, q: nat)
    requires Reachable(s) && WaitCycle(s, c)
    ensures p in c && q in c && Unfinished(s, p) && Unfinished(s, q) && p != q
    ensures Clash(s.processes[p].request, s.processes[q].request)
  {
    ReachableStatesSatisfyInv(s);
    var i := CircleHasAFunding(s, c);
    p, q := ClashAt(s, c, i);
  }

  lemma ClashAt(s: State, c: seq<nat>, i: nat) returns (p: nat, q: nat)
    requires Inv(s) && WaitCycle(s, c) && i < |c| && c[i] < |s.processes| && s.processes[c[i]].phase.ReferenceSource?
    ensures p in c && q in c && Unfinished(s, p) && Unfinished(s, q) && p != q
    ensures Clash(s.processes[p].request, s.processes[q].request)
  {
    hide *;
    var j := if i + 1 < |c| then i + 1 else 0;
    var k := if j + 1 < |c| then j + 1 else 0;
    InCircle(s, c, i);
    InCircle(s, c, j);
    InCircle(s, c, k);
    NextAt(c, i);
    NextAt(c, j);
    StepClashes(s.processes[c[i]], s.processes[c[j]], s.processes[c[k]]);
    p := c[j];
    q := if s.processes[p].phase.InsertTransaction? then c[k] else c[i];
  }

  lemma NextAt<T>(c: seq<T>, i: nat)
    requires i < |c|
    ensures Next(c, i) == c[if i + 1 < |c| then i + 1 else 0]
  {
  }

  /** While sources are kept apart there is no circular wait among any requests. */
  lemma NoCircularWait(s: State, c: seq<nat>)
    requires Reachable(s) && SourcesApart(s)
    ensures !WaitCycle(s, c)
  {
    if WaitCycle(s, c) {
      var p, q := CircleHasAClash(s, c);
    }
  }

  /** Transfers among themselves never deadlock, whatever other traffic there is. */
  lemma TransfersNeverDeadlock(s: State, c: seq<nat>)
    requires Reachable(s)
    requires forall p <- c :: p < |s.processes| && s.processes[p].request.Transfer?
    ensures !WaitCycle(s, c)
  {
    if WaitCycle(s, c) {
      ReachableStatesSatisfyInv(s);
      var i := CircleHasAFunding(s, c);
      ProcessFacts(s, c[i]);
    }
  }

  /** While sources are kept apart, following the waits from any unfinished request leads to one that
      can execute its next statement. */
  lemma FindRunnable(s: State, p: nat) returns (path: seq<nat>)
    requires Reachable(s) && SourcesApart(s) && Unfinished(s, p)
    ensures WaitPath(s, path) && path[0] == p
    ensures Unfinished(s, path[|path| - 1]) && !Blocked(s, path[|path| - 1])
  {
    hide SourcesApart;
    path := WaitsEndOrCircle(s, [p]);
    if exists c :: WaitCycle(s, c) {
      var c :| WaitCycle(s, c);
      NoCircularWait(s, c);
      assert false;
    }
    ReachableStatesSatisfyInv(s);
    var n := |path| - 1;
    if n > 0 {
      WaitedForIsOpen(s, path[n - 1], path[n]);
    }
  }

  /** So some request can go on whenever one is unfinished. */
  lemma NoDeadlock(s: State, p: nat)
    requires Reachable(s) && SourcesApart(s) && Unfinished(s, p)
    ensures exists q: nat :: q < |s.processes| && Enabled(s, Advance(q))
  {
    var path := FindRunnable(s, p);
    assert Enabled(s, Advance(path[|path| - 1]));
  }

  // ---------------------------------------------------------------- bounded work

  /** How many statements a process may still execute. */
  function Remaining(phase: Phase): nat {
    match phase
    case Arrived => 14
    case Admitted => 13
    case AwaitFirst => 12
    case AwaitSecond => 11
    case RefetchSender => 10
    case RefetchReceiver => 9
    case SumBalance => 8
    case InsertTransaction => 7
    case ReferenceSource => 6
    case InsertDebit => 5
    case InsertCredit => 4
    case Promote => 3
    case Commit => 2
    case Settle => 1
    case Finished => 0
  }

  function TotalRemaining(processes: seq<Process>): nat {
    if processes == [] then 0
    else TotalRemaining(processes[..|processes| - 1]) + Remaining(processes[|processes| - 1].phase)
  }

  predicate ProcessStep(step: Step) {
    step.Advance? || step.Fail? || step.LoseAck? || step.LoseRedis? || step.Crash?
  }

  function Count(steps: seq<Step>, wanted: Step -> bool): nat {
    if steps == [] then 0
    else Count(steps[..|steps| - 1], wanted) + if wanted(steps[|steps| - 1]) then 1 else 0
  }

  lemma {:induction false} TotalRemainingPut(processes: seq<Process>, p: nat, x: Process)
    requires p < |processes|
    ensures TotalRemaining(processes[p := x])
            == TotalRemaining(processes) - Remaining(processes[p].phase) + Remaining(x.phase)
  {
    var n := |processes| - 1;
    if p < n {
      TotalRemainingPut(processes[..n], p, x);
      assert processes[p := x][..n] == processes[..n][p := x];
    } else {
      assert processes[p := x][..n] == processes[..n];
    }
  }

  lemma StatementProgresses(db: Database, p: nat, x: Process)
    requires InTransaction(x.phase) && !x.phase.Commit?
    ensures Remaining(Statement(db, p, x).phase) < Remaining(x.phase)
  {
  }

  lemma AdvanceProgresses(s: State, p: nat)
    requires p < |s.processes| && !s.processes[p].phase.Finished?
    ensures var s' := AdvanceProcess(s, p);
            exists x :: s'.processes == s.processes[p := x] && Remaining(x.phase) < Remaining(s.processes[p].phase)
  {
    var x := s.processes[p];
    if InTransaction(x.phase) && !x.phase.Commit? {
      StatementProgresses(s.db, p, x);
    }
    var s' := AdvanceProcess(s, p);
    assert s'.processes == s.processes[p := s'.processes[p]];
  }

  lemma ProcessStepsDecreaseRemaining(s: State, step: Step)
    requires Enabled(s, step) && ProcessStep(step)
    ensures TotalRemaining(Do(s, step).processes) < TotalRemaining(s.processes)
  {
    var p, s' := step.p, Do(s, step);
    if step.Advance? {
      AdvanceProgresses(s, p);
      var x :| s'.processes == s.processes[p := x] && Remaining(x.phase) < Remaining(s.processes[p].phase);
      TotalRemainingPut(s.processes, p, x);
    } else {
      assert s'.processes == s.processes[p := s'.processes[p]];
      assert Remaining(s'.processes[p].phase) < Remaining(s.processes[p].phase);
      TotalRemainingPut(s.processes, p, s'.processes[p]);
    }
  }

  lemma ArrivalAddsRemaining(s: State, r: Request)
    ensures TotalRemaining(Do(s, Arrive(r)).processes) == TotalRemaining(s.processes) + 14
  {
    var processes' := s.processes + [NewProcess(r)];
    assert processes'[..|processes'| - 1] == s.processes;
  }

  /** Finitely many requests are finished by finitely many statements, in any order and with any
      faults: at most fourteen for each request that arrived. */
  lemma {:induction false} WorkIsBounded(steps: seq<Step>)
    requires Run(steps).Some?
    ensures Count(steps, ProcessStep) + TotalRemaining(Run(steps).value.processes)
            <= 14 * Count(steps, (step: Step) => step.Arrive?)
  {
    if steps != [] {
      var init, step := steps[..|steps| - 1], steps[|steps| - 1];
      WorkIsBounded(init);
      var s := Run(init).value;
      if ProcessStep(step) {
        ProcessStepsDecreaseRemaining(s, step);
      } else if step.Arrive? {
        ArrivalAddsRemaining(s, step.request);
      }
    }
  }

  // ---------------------------------------------------------------- every request finishes

  predicate OnlyAdvances(steps: seq<Step>) {
    forall step <- steps :: step.Advance?
  }

  /** Advancing a request opens no other one, so sources that are apart stay apart. */
  lemma AdvanceKeepsSourcesApart(s: State, p: nat)
    requires Inv(s) && SourcesApart(s) && Enabled(s, Advance(p))
    ensures SourcesApart(Do(s, Advance(p))) && |Do(s, Advance(p)).processes| == |s.processes|
  {
    AdvanceIsLocal(s, p);
    hide Clash, AdvanceProcess, Inv;
    var s' := AdvanceProcess(s, p);
    assert forall q: nat :: Unfinished(s', q) ==>
      Unfinished(s, q) && s'.processes[q].request == s.processes[q].request;
  }

  lemma {:induction false} SchedulesAreBounded(steps: seq<Step>, s: State, more: seq<Step>)
    requires Run(steps) == Some(s) && SourcesApart(s) && OnlyAdvances(more) && Run(steps + more).Some?
    ensures var s' := Run(steps + more).value;
            && SourcesApart(s') && |s'.processes| == |s.processes|
            && |more| + TotalRemaining(s'.processes) <= TotalRemaining(s.processes)
  {
    if more == [] {
      assert steps + more == steps;
    } else {
      var init, step := more[..|more| - 1], more[|more| - 1];
      assert (steps + more)[..|steps + more| - 1] == steps + init;
      assert (steps + more)[|steps + more| - 1] == step && step in more;
      assert OnlyAdvances(init);
      SchedulesAreBounded(steps, s, init);
      RunsKeepInv(steps + init);
      var before := Run(steps + init).value;
      assert Enabled(before, step) && Run(steps + more).value == Do(before, step);
      hide SourcesApart, Inv, Run, Do, Enabled, TotalRemaining;
      AdvanceKeepsSourcesApart(before, step.p);
      ProcessStepsDecreaseRemaining(before, step);
    }
  }

  /** Any schedule of the open requests, however unfair: it takes no more statements than they have
      left, and as long as one of them is unfinished the schedule can go on. */
  lemma SchedulesGoOn(steps: seq<Step>, s: State, more: seq<Step>)
    requires Run(steps) == Some(s) && SourcesApart(s) && OnlyAdvances(more) && Run(steps + more).Some?
    ensures var s' := Run(steps + more).value;
            && SourcesApart(s') && |s'.processes| == |s.processes|
            && |more| + TotalRemaining(s'.processes) <= TotalRemaining(s.processes)
            && forall p :: Unfinished(s', p) ==> exists q: nat :: Enabled(s', Advance(q))
  {
    SchedulesAreBounded(steps, s, more);
    var s' := Run(steps + more).value;
    assert Reachable(s');
    hide Run, SourcesApart, Enabled, Reachable, TotalRemaining;
    forall p | Unfinished(s', p)
      ensures exists q: nat :: Enabled(s', Advance(q))
    {
      NoDeadlock(s', p);
    }
  }

  lemma OneStatementMore(steps: seq<Step>, s: State, p: nat) returns (q: nat)
    requires Run(steps) == Some(s) && SourcesApart(s) && Unfinished(s, p)
    ensures Enabled(s, Advance(q)) && SourcesApart(Do(s, Advance(q)))
    ensures |Do(s, Advance(q)).processes| == |s.processes|
    ensures TotalRemaining(Do(s, Advance(q)).processes) < TotalRemaining(s.processes)
  {
    assert Reachable(s);
    NoDeadlock(s, p);
    RunsKeepInv(steps);
    hide SourcesApart, Inv, Do;
    q :| q < |s.processes| && Enabled(s, Advance(q));
    AdvanceKeepsSourcesApart(s, q);
    ProcessStepsDecreaseRemaining(s, Advance(q));
  }

  /** While sources are kept apart the open requests, however many, can all be run to their ends. */
  lemma {:induction false} EveryRequestFinishes(steps: seq<Step>, s: State) returns (more: seq<Step>, s': State)
    requires Run(steps) == Some(s) && SourcesApart(s)
    ensures OnlyAdvances(more) && Run(steps + more) == Some(s') && |s'.processes| == |s.processes|
    ensures forall p :: !Unfinished(s', p)
    decreases TotalRemaining(s.processes)
  {
    hide Run, SourcesApart, TotalRemaining, Enabled, Do;
    more, s' := [], s;
    assert steps + [] == steps;
    if p :| Unfinished(s, p) {
      var q := OneStatementMore(steps, s, p);
      var longer, next := Extend(steps, s, Advance(q));
      more, s' := EveryRequestFinishes(longer, next);
      assert steps + ([Advance(q)] + more) == longer + more;
      more := [Advance(q)] + more;
    }
  }
}
