/** The Redis gate: who owns a key, which faults break that, and what the database still guarantees. */
module Idempotency {
  import opened Common
  import opened Uuids
  import opened Ledger
  import opened Serial
  import opened Protocol
  import opened ProtocolInvariant
  import opened Refinement
  import opened Progress
  import opened Runs

  /** A transfer that passed the gate and has not returned yet. */
  predicate InFlight(x: Process) {
    x.request.Transfer? && !x.phase.Arrived? && !x.phase.Finished?
  }

  ghost predicate KeyInFlight(s: State, key: Uuid) {
    exists p :: 0 <= p < |s.processes| && InFlight(s.processes[p]) && s.processes[p].request.key == key
  }

  /** A transfer with the key has committed. */
  ghost predicate KeyCompleted(s: State, key: Uuid) {
    exists i :: 0 <= i < |s.log| && s.log[i].Posted? && s.log[i].request.Transfer? && s.log[i].request.key == key
  }

  /** The transfer is past the gate and has not failed: its key must be remembered. */
  predicate OwnsKey(x: Process) {
    x.request.Transfer? && (InFlight(x) || x.outcome.Acknowledged?)
  }

  ghost predicate Owned(processes: seq<Process>, key: Uuid) {
    exists p :: 0 <= p < |processes| && OwnsKey(processes[p]) && processes[p].request.key == key
  }

  ghost predicate OwnersDiffer(processes: seq<Process>) {
    forall p, q :: 0 <= p < |processes| && 0 <= q < |processes| && p != q
                   && OwnsKey(processes[p]) && OwnsKey(processes[q]) ==>
      processes[p].request.key != processes[q].request.key
  }

  // ---------------------------------------------------------------- keys left behind

  /** The key a step leaves in Redis with nobody to delete it: the server dies while the transfer is
      past the gate, the deferred delete is not applied, or SET NX is applied but reported as an
      error. */
  function KeyLeft(s: State, step: Step): set<Uuid>
    requires Enabled(s, step)
  {
    match step
    case Crash(p) => if InFlight(s.processes[p]) then {s.processes[p].request.key} else {}
    case LoseRedis(p, applied) =>
      var x := s.processes[p];
      if x.phase.Settle? && !applied && !x.outcome.Acknowledged? then {x.request.key}
      else if !x.phase.Settle? && applied && x.request.key !in s.redis then {x.request.key}
      else {}
    case _ => {}
  }

  /** All keys left behind in a run. */
  function LeftKeys(steps: seq<Step>): set<Uuid>
    requires Run(steps).Some?
  {
    if steps == [] then {}
    else
      var init := steps[..|steps| - 1];
      LeftKeys(init) + KeyLeft(Run(init).value, steps[|steps| - 1])
  }

  lemma {:induction false} LeftKeysOnlyGrow(steps: seq<Step>, n: nat)
    requires Run(steps).Some? && n <= |steps|
    ensures Run(steps[..n]).Some? && LeftKeys(steps[..n]) <= LeftKeys(steps)
  {
    if n == |steps| {
      assert steps[..n] == steps;
    } else {
      var init := steps[..|steps| - 1];
      LeftKeysOnlyGrow(init, n);
      assert init[..n] == steps[..n];
    }
  }

  predicate StickyFault(step: Step) {
    step.Crash? || step.LoseRedis?
  }

  lemma {:induction false} OnlyStickyFaultsLeaveKeys(steps: seq<Step>)
    requires Run(steps).Some? && forall step <- steps :: !StickyFault(step)
    ensures LeftKeys(steps) == {}
  {
    if steps != [] {
      OnlyStickyFaultsLeaveKeys(steps[..|steps| - 1]);
      assert !StickyFault(steps[|steps| - 1]);
    }
  }

  // ---------------------------------------------------------------- what a step does to one key

  predicate Acknowledges(x: Process) {
    x.outcome.Acknowledged?
  }

  /** What a step of process p does to its flight, its outcome, its key and the log. */
  ghost predicate Effect(s: State, step: Step, p: nat, s': State) {
    && Enabled(s, step) && p < |s.processes| && p < |s'.processes|
    && var x, y, key := s.processes[p], s'.processes[p], s.processes[p].request.key;
       var left, before, after := key in KeyLeft(s, step), key in s.redis, key in s'.redis;
       && s'.processes == s.processes[p := y] && y.request == x.request
       && KeyLeft(s, step) <= {key}
       && (forall k :: k != key ==> (k in s'.redis <==> k in s.redis))
       && (s'.log == s.log
           || (s'.log == s.log + [Posted(p, x.request)] && after == before && InFlight(x) == InFlight(y)
               && (Acknowledges(y) || step.LoseAck?)))
       && (Acknowledges(y) && !Acknowledges(x) ==> s'.log == s.log + [Posted(p, x.request)])
       && (if InFlight(x) then
             if InFlight(y) then after == before && !left
             else if left then after == before && !Acknowledges(y)
             else Acknowledges(y) == Acknowledges(x) && (if Acknowledges(x) then before ==> after else !after)
           else if InFlight(y) then !before && after && !left && !Acknowledges(y)
           else (left ==> !before) && after == (before || left) && !OwnsKey(x) && !OwnsKey(y))
  }

  lemma StatementStaysInFlight(db: Database, p: nat, x: Process)
    requires InTransaction(x.phase) && !x.phase.Commit?
    ensures Statement(db, p, x).request == x.request
    ensures InFlight(Statement(db, p, x)) <==> x.request.Transfer?
    ensures Acknowledges(Statement(db, p, x)) ==> Acknowledges(x)
  {
  }

  lemma AdmitEffect(s: State, p: nat)
    requires Inv(s) && Enabled(s, Advance(p)) && s.processes[p].phase.Arrived?
    ensures Effect(s, Advance(p), p, Do(s, Advance(p)))
  {
    ProcessFacts(s, p);
    hide Inv;
  }

  lemma StatementEffect(s: State, p: nat)
    requires Inv(s) && Enabled(s, Advance(p))
    requires InTransaction(s.processes[p].phase) && !s.processes[p].phase.Commit?
    ensures Effect(s, Advance(p), p, Do(s, Advance(p)))
  {
    ProcessFacts(s, p);
    StatementStaysInFlight(s.db, p, s.processes[p]);
    hide Inv, Statement, Blocked;
  }

  lemma BeginEffect(s: State, p: nat)
    requires Inv(s) && Enabled(s, Advance(p)) && s.processes[p].phase.Admitted?
    ensures Effect(s, Advance(p), p, Do(s, Advance(p)))
  {
    ProcessFacts(s, p);
    hide Inv, Statement, Blocked;
  }

  lemma CommitEffect(s: State, p: nat)
    requires Inv(s) && Enabled(s, Advance(p)) && s.processes[p].phase.Commit?
    ensures Effect(s, Advance(p), p, Do(s, Advance(p)))
  {
    ProcessFacts(s, p);
    hide Inv, Statement, Blocked, CommitAllowed, Admit;
  }

  lemma SettleEffect(s: State, p: nat)
    requires Inv(s) && Enabled(s, Advance(p)) && s.processes[p].phase.Settle?
    ensures Effect(s, Advance(p), p, Do(s, Advance(p)))
  {
    ProcessFacts(s, p);
    hide Inv, Statement, Blocked;
  }

  lemma AdvanceEffect(s: State, p: nat)
    requires Inv(s) && Enabled(s, Advance(p))
    ensures Effect(s, Advance(p), p, Do(s, Advance(p)))
  {
    hide Effect, Inv, Do;
    var phase := s.processes[p].phase;
    if phase.Arrived? {
      AdmitEffect(s, p);
    } else if phase.Admitted? {
      BeginEffect(s, p);
    } else if phase.Commit? {
      CommitEffect(s, p);
    } else if phase.Settle? {
      SettleEffect(s, p);
    } else {
      StatementEffect(s, p);
    }
  }

  lemma FailureEffect(s: State, step: Step)
    requires Inv(s) && Enabled(s, step) && step.Fail?
    ensures Effect(s, step, step.p, Do(s, step))
  {
    ProcessFacts(s, step.p);
    hide Inv, AdvanceProcess, Blocked, CommitAllowed;
  }

  lemma LostAckEffect(s: State, step: Step)
    requires Inv(s) && Enabled(s, step) && step.LoseAck?
    ensures Effect(s, step, step.p, Do(s, step))
  {
    ProcessFacts(s, step.p);
    hide Inv, AdvanceProcess, Blocked, CommitAllowed;
  }

  lemma RedisErrorEffect(s: State, step: Step)
    requires Inv(s) && Enabled(s, step) && step.LoseRedis?
    ensures Effect(s, step, step.p, Do(s, step))
  {
    ProcessFacts(s, step.p);
    hide Inv, AdvanceProcess, Blocked, CommitAllowed;
  }

  lemma CrashEffect(s: State, step: Step)
    requires Inv(s) && Enabled(s, step) && step.Crash?
    ensures Effect(s, step, step.p, Do(s, step))
  {
    ProcessFacts(s, step.p);
    hide Inv, AdvanceProcess, Blocked, CommitAllowed;
  }

  lemma StepEffect(s: State, step: Step)
    requires Inv(s) && Enabled(s, step) && ProcessStep(step)
    ensures Effect(s, step, step.p, Do(s, step))
  {
    hide Effect, Inv, Do, Enabled;
    match step
    case Advance(p) => AdvanceEffect(s, p);
    case Fail(_) => FailureEffect(s, step);
    case LoseAck(_) => LostAckEffect(s, step);
    case LoseRedis(_, _) => RedisErrorEffect(s, step);
    case Crash(_) => CrashEffect(s, step);
  }

  // ---------------------------------------------------------------- runs without eviction

  /** Redis holds exactly the owned keys and those left behind, and each owned key has one owner. */
  ghost predicate KeysExact(s: State, left: set<Uuid>) {
    && (forall key :: key in s.redis <==> key in left || Owned(s.processes, key))
    && (forall key <- left :: !Owned(s.processes, key))
    && OwnersDiffer(s.processes)
  }

  lemma OwnedAfterPut(processes: seq<Process>, p: nat, x: Process, key: Uuid)
    requires p < |processes| && OwnersDiffer(processes) && x.request == processes[p].request
    ensures Owned(processes[p := x], key) <==>
            if key == x.request.key && OwnsKey(x) then true
            else if key == x.request.key && OwnsKey(processes[p]) then false
            else Owned(processes, key)
  {
    var processes' := processes[p := x];
    if Owned(processes, key) {
      var q :| 0 <= q < |processes| && OwnsKey(processes[q]) && processes[q].request.key == key;
      assert q != p ==> OwnsKey(processes'[q]);
    }
    if key == x.request.key && OwnsKey(x) {
      assert OwnsKey(processes'[p]);
    }
    if Owned(processes', key) {
      var q :| 0 <= q < |processes'| && OwnsKey(processes'[q]) && processes'[q].request.key == key;
      assert q != p ==> OwnsKey(processes[q]);
    }
  }

  lemma OwnersDifferAfterPut(processes: seq<Process>, p: nat, x: Process)
    requires p < |processes| && OwnersDiffer(processes) && x.request == processes[p].request
    requires OwnsKey(x) ==> OwnsKey(processes[p]) || !Owned(processes, x.request.key)
    ensures OwnersDiffer(processes[p := x])
  {
  }

  lemma OwnershipFollowsFlight(s: State, step: Step, p: nat, s': State)
    requires Effect(s, step, p, s')
    ensures var x, y, key := s.processes[p], s'.processes[p], s.processes[p].request.key;
            && (OwnsKey(y) ==> key !in KeyLeft(s, step) && (if OwnsKey(x) then key in s.redis ==> key in s'.redis
                                                            else key !in s.redis && key in s'.redis))
            && (!OwnsKey(y) && OwnsKey(x) ==>
                  if key in KeyLeft(s, step) then key in s.redis ==> key in s'.redis else key !in s'.redis)
            && (!OwnsKey(y) && !OwnsKey(x) ==>
                  && (key in s'.redis <==> key in s.redis || key in KeyLeft(s, step))
                  && (key in KeyLeft(s, step) ==> key !in s.redis))
  {
  }

  lemma ProcessStepKeepsKeys(s: State, step: Step, left: set<Uuid>)
    requires Inv(s) && KeysExact(s, left) && Enabled(s, step) && ProcessStep(step)
    ensures KeysExact(Do(s, step), left + KeyLeft(s, step))
  {
    var p, s' := step.p, Do(s, step);
    StepEffect(s, step);
    OwnershipFollowsFlight(s, step, p, s');
    hide Inv, Do, KeyLeft, Owned, OwnersDiffer, OwnsKey, InFlight, Enabled;
    var y := s'.processes[p];
    assert s'.processes == s.processes[p := y] && y.request == s.processes[p].request;
    assert KeyLeft(s, step) <= {y.request.key};
    assert forall k :: k != y.request.key ==> (k in s'.redis <==> k in s.redis);
    hide Effect;
    OwnedAfterPut(s.processes, p, s.processes[p], y.request.key);
    OwnersDifferAfterPut(s.processes, p, y);
    forall key
      ensures key in s'.redis <==> key in left + KeyLeft(s, step) || Owned(s'.processes, key)
      ensures key in left + KeyLeft(s, step) ==> !Owned(s'.processes, key)
    {
      OwnedAfterPut(s.processes, p, y, key);
    }
  }

  lemma ArrivalKeepsKeys(s: State, r: Request, left: set<Uuid>)
    requires KeysExact(s, left)
    ensures KeysExact(Do(s, Arrive(r)), left)
  {
    var s' := Do(s, Arrive(r));
    forall key
      ensures Owned(s'.processes, key) <==> Owned(s.processes, key)
    {
      if Owned(s.processes, key) {
        var q :| 0 <= q < |s.processes| && OwnsKey(s.processes[q]) && s.processes[q].request.key == key;
        assert s'.processes[q] == s.processes[q];
      }
    }
  }

  lemma {:induction false} KeysStayExact(steps: seq<Step>)
    requires Run(steps).Some? && forall step <- steps :: !step.Evict?
    ensures Inv(Run(steps).value) && KeysExact(Run(steps).value, LeftKeys(steps))
  {
    RunsKeepInv(steps);
    if steps != [] {
      var init, step := steps[..|steps| - 1], steps[|steps| - 1];
      KeysStayExact(init);
      var s := Run(init).value;
      hide Inv, KeysExact, Do, KeyLeft;
      if ProcessStep(step) {
        ProcessStepKeepsKeys(s, step, LeftKeys(init));
      } else {
        IdleStepKeepsKeys(s, step, LeftKeys(init));
      }
    }
  }

  lemma IdleStepKeepsKeys(s: State, step: Step, left: set<Uuid>)
    requires KeysExact(s, left) && Enabled(s, step) && (step.Arrive? || step.SetAccount?)
    ensures KeysExact(Do(s, step), left + KeyLeft(s, step))
  {
    assert left + {} == left;
    if step.Arrive? {
      ArrivalKeepsKeys(s, step.request, left);
    }
  }

  /** Every key in flight is in Redis and has one owner. */
  ghost predicate GateHolds(s: State) {
    && (forall p :: 0 <= p < |s.processes| && InFlight(s.processes[p]) ==> s.processes[p].request.key in s.redis)
    && (forall p, q :: 0 <= p < |s.processes| && 0 <= q < |s.processes| && p != q
                       && InFlight(s.processes[p]) && InFlight(s.processes[q]) ==>
          s.processes[p].request.key != s.processes[q].request.key)
  }

  /** Without eviction or expiry, whatever else fails: at most one request per key is past the gate
      and its key stays in Redis, so no deferred delete removes a key another request relies on. */
  lemma GateIsExclusive(steps: seq<Step>)
    requires Run(steps).Some? && forall step <- steps :: !step.Evict?
    ensures Inv(Run(steps).value) && GateHolds(Run(steps).value)
  {
    KeysStayExact(steps);
    var s := Run(steps).value;
    assert forall p :: 0 <= p < |s.processes| && InFlight(s.processes[p]) ==> Owned(s.processes, s.processes[p].request.key);
  }

  /** A key left behind stays in Redis until it is evicted, whatever happens: every later attempt
      with it is answered as a duplicate, although no request with the key is in flight. */
  lemma LeftKeyIsStuck(steps: seq<Step>, n: nat, key: Uuid)
    requires Run(steps).Some? && (forall step <- steps :: !step.Evict?) && n <= |steps|
    ensures Run(steps[..n]).Some?
    ensures key in LeftKeys(steps[..n]) ==> var s := Run(steps).value;
              && key in s.redis && !KeyInFlight(s, key)
              && forall p :: 0 <= p < |s.processes| && AtGate(s.processes[p]) && s.processes[p].request.key == key ==>
                   Do(s, Advance(p)).processes[p].outcome == Refused(DuplicateTransaction)
  {
    LeftKeysOnlyGrow(steps, n);
    KeysStayExact(steps);
    var s := Run(steps).value;
    if KeyInFlight(s, key) {
      assert Owned(s.processes, key);
    }
  }

  // ---------------------------------------------------------------- committed keys

  /** Redis remembers every committed key, and a request still in flight with it is the committed one. */
  ghost predicate CommitsRemembered(s: State) {
    forall key :: KeyCompleted(s, key) ==>
      && key in s.redis
      && forall p :: 0 <= p < |s.processes| && InFlight(s.processes[p]) && s.processes[p].request.key == key ==>
           Acknowledges(s.processes[p])
  }

  lemma CompletedAfterAppend(s: State, s': State, p: nat, r: Request, key: Uuid)
    requires s'.log == s.log + [Posted(p, r)]
    ensures KeyCompleted(s', key) <==> KeyCompleted(s, key) || (r.Transfer? && r.key == key)
  {
    if KeyCompleted(s, key) {
      var i :| 0 <= i < |s.log| && s.log[i].Posted? && s.log[i].request.Transfer? && s.log[i].request.key == key;
      assert s'.log[i] == s.log[i];
    }
    assert s'.log[|s.log|] == Posted(p, r);
  }

  lemma ProcessStepRemembers(s: State, step: Step)
    requires Inv(s) && GateHolds(s) && CommitsRemembered(s)
    requires Enabled(s, step) && ProcessStep(step) && !step.LoseAck?
    ensures CommitsRemembered(Do(s, step))
  {
    var p, s' := step.p, Do(s, step);
    StepEffect(s, step);
    CommittingIsInFlight(s, step);
    hide Inv, Do, KeyLeft, InFlight, Enabled;
    var x, y := s.processes[p], s'.processes[p];
    forall key | KeyCompleted(s', key)
      ensures key in s'.redis
      ensures forall q :: 0 <= q < |s'.processes| && InFlight(s'.processes[q]) && s'.processes[q].request.key == key ==>
                Acknowledges(s'.processes[q])
    {
      if s'.log != s.log {
        CompletedAfterAppend(s, s', p, x.request, key);
      }
    }
  }

  lemma CommittingIsInFlight(s: State, step: Step)
    requires Inv(s) && Enabled(s, step) && ProcessStep(step)
    ensures var x := s.processes[step.p]; Do(s, step).log != s.log && x.request.Transfer? ==> InFlight(x)
  {
    if step.Advance? {
      AdvanceIsLocal(s, step.p);
    }
  }

  /** No eviction and no commit whose acknowledgement is lost. Crashes, database failures and Redis
      errors may happen. */
  predicate Remembering(step: Step) {
    !step.Evict? && !step.LoseAck?
  }

  lemma {:induction false} CommitsStayRemembered(steps: seq<Step>)
    requires Run(steps).Some? && forall step <- steps :: Remembering(step)
    ensures CommitsRemembered(Run(steps).value)
  {
    if steps != [] {
      var init, step := steps[..|steps| - 1], steps[|steps| - 1];
      CommitsStayRemembered(init);
      GateIsExclusive(init);
      var s := Run(init).value;
      assert Remembering(step);
      if ProcessStep(step) {
        hide Inv, GateHolds, CommitsRemembered, Do;
        ProcessStepRemembers(s, step);
      } else {
        IdleStepRemembers(s, step);
      }
    }
  }

  lemma IdleStepRemembers(s: State, step: Step)
    requires CommitsRemembered(s) && Enabled(s, step) && (step.Arrive? || step.SetAccount?)
    ensures CommitsRemembered(Do(s, step))
  {
    var s' := Do(s, step);
    forall key | KeyCompleted(s', key)
      ensures KeyCompleted(s, key)
    {
      var i :| 0 <= i < |s'.log| && s'.log[i].Posted? && s'.log[i].request.Transfer? && s'.log[i].request.key == key;
      assert s.log[i] == s'.log[i];
    }
  }

  /** While nothing is evicted and no acknowledgement lost, a replay after success is always answered
      as a duplicate, whatever else fails. */
  lemma ReplayIsDuplicate(steps: seq<Step>, p: nat)
    requires Run(steps).Some? && forall step <- steps :: Remembering(step)
    requires var s := Run(steps).value;
             p < |s.processes| && AtGate(s.processes[p]) && KeyCompleted(s, s.processes[p].request.key)
    ensures Do(Run(steps).value, Advance(p)).processes[p].outcome == Refused(DuplicateTransaction)
  {
    CommitsStayRemembered(steps);
  }

  lemma OwnedIsExplained(s: State, key: Uuid)
    requires Inv(s) && OutcomesFitLog(s) && Owned(s.processes, key)
    ensures KeyInFlight(s, key) || KeyCompleted(s, key)
  {
    var p :| 0 <= p < |s.processes| && OwnsKey(s.processes[p]) && s.processes[p].request.key == key;
    if !InFlight(s.processes[p]) {
      assert Posted(p, s.processes[p].request) in s.log;
      var i :| 0 <= i < |s.log| && s.log[i] == Posted(p, s.processes[p].request);
      assert KeyCompleted(s, key);
    }
  }

  /** In such runs Redis holds exactly the keys in flight, the committed keys and those left behind. */
  lemma KeysAreExact(steps: seq<Step>, key: Uuid)
    requires Run(steps).Some? && forall step <- steps :: Remembering(step)
    ensures var s := Run(steps).value;
            key in s.redis <==> KeyInFlight(s, key) || KeyCompleted(s, key) || key in LeftKeys(steps)
  {
    var s := Run(steps).value;
    assert forall step <- steps :: !step.Evict? by { assert forall step <- steps :: Remembering(step); }
    KeysStayExact(steps);
    RunsKeepOutcomes(steps);
    CommitsStayRemembered(steps);
    if Owned(s.processes, key) {
      OwnedIsExplained(s, key);
    }
    if p :| 0 <= p < |s.processes| && InFlight(s.processes[p]) && s.processes[p].request.key == key {
      assert Owned(s.processes, key);
    }
  }

  /** The gate in such runs: a valid transfer is let through exactly when its key is neither in
      flight, nor committed, nor left behind; otherwise it is a duplicate. */
  lemma GateDecidesExactly(steps: seq<Step>, p: nat)
    requires Run(steps).Some? && forall step <- steps :: Remembering(step)
    requires p < |Run(steps).value.processes| && AtGate(Run(steps).value.processes[p])
    ensures var s := Run(steps).value;
            var key, y := s.processes[p].request.key, Do(s, Advance(p)).processes[p];
            if KeyInFlight(s, key) || KeyCompleted(s, key) || key in LeftKeys(steps)
            then y.phase.Finished? && y.outcome == Refused(DuplicateTransaction)
            else y.phase.Admitted?
  {
    KeysAreExact(steps, Run(steps).value.processes[p].request.key);
  }

  /** The deferred delete of a failed transfer, when it is applied, frees its key for a retry and
      touches no other's. */
  lemma FailedTransferReleasesKey(steps: seq<Step>, p: nat)
    requires Run(steps).Some? && forall step <- steps :: Remembering(step)
    requires var s := Run(steps).value;
             p < |s.processes| && s.processes[p].phase.Settle? && s.processes[p].outcome.Refused?
    ensures var s := Run(steps).value;
            var key, s' := s.processes[p].request.key, Do(s, Advance(p));
            && !KeyInFlight(s', key) && !KeyCompleted(s', key) && key !in s'.redis
            && forall k :: k != key ==> (k in s'.redis <==> k in s.redis)
  {
    var s, longer := Run(steps).value, steps + [Advance(p)];
    var key, s' := s.processes[p].request.key, Do(s, Advance(p));
    assert longer[..|steps|] == steps;
    assert Run(longer) == Some(s');
    assert forall step <- longer :: Remembering(step);
    KeysAreExact(longer, key);
  }

  /** No eviction, no crash, no Redis error, no lost acknowledgement. Database failures may happen. */
  predicate Quiet(step: Step) {
    Remembering(step) && !StickyFault(step)
  }

  ghost predicate QuietlyReachable(s: State) {
    exists steps :: Run(steps) == Some(s) && forall step <- steps :: Quiet(step)
  }

  /** In quiet runs the Redis keys are exactly the keys in flight and the keys of committed transfers. */
  lemma QuietKeysAreExact(s: State, key: Uuid)
    requires QuietlyReachable(s)
    ensures key in s.redis <==> KeyInFlight(s, key) || KeyCompleted(s, key)
  {
    var steps :| Run(steps) == Some(s) && forall step <- steps :: Quiet(step);
    assert forall step <- steps :: Remembering(step) && !StickyFault(step) by {
      assert forall step <- steps :: Quiet(step);
    }
    OnlyStickyFaultsLeaveKeys(steps);
    KeysAreExact(steps, key);
  }

  // ---------------------------------------------------------------- what is stored under a key

  function Mark(p: nat, x: Process): Marker {
    if x.phase.Finished? then Done(p) else Processing
  }

  /** Under the key of a transfer past the gate stands "processing", after its success its id. */
  ghost predicate Marked(s: State) {
    forall p :: 0 <= p < |s.processes| && OwnsKey(s.processes[p]) ==>
      var key := s.processes[p].request.key;
      key in s.redis && s.redis[key] == Mark(p, s.processes[p])
  }

  /** A step of p leaves the keys of others as they are and marks its own. */
  ghost predicate Marks(s: State, p: nat, s': State) {
    && p < |s.processes| && p < |s'.processes| && s'.processes == s.processes[p := s'.processes[p]]
    && s'.processes[p].request == s.processes[p].request
    && var key := s.processes[p].request.key;
       && (forall k <- s.redis :: k != key || !OwnsKey(s.processes[p]) ==> k in s'.redis && s'.redis[k] == s.redis[k])
       && (OwnsKey(s'.processes[p]) && key in s'.redis ==>
             s'.redis[key] == Mark(p, s'.processes[p])
             || (OwnsKey(s.processes[p]) && s'.redis == s.redis && Mark(p, s'.processes[p]) == Mark(p, s.processes[p])))
  }

  predicate Marking(step: Step) {
    !step.Evict? && (step.LoseRedis? ==> step.applied)
  }

  lemma StatementMarks(s: State, p: nat)
    requires Inv(s) && Enabled(s, Advance(p))
    requires InTransaction(s.processes[p].phase) && !s.processes[p].phase.Commit?
    ensures Marks(s, p, Do(s, Advance(p)))
  {
    ProcessFacts(s, p);
    StatementStaysInFlight(s.db, p, s.processes[p]);
    StatementSettles(s.db, p, s.processes[p]);
    hide Inv, Statement, Blocked;
  }

  lemma GateMarks(s: State, p: nat)
    requires Inv(s) && Enabled(s, Advance(p)) && (s.processes[p].phase.Arrived? || s.processes[p].phase.Admitted?)
    ensures Marks(s, p, Do(s, Advance(p)))
  {
    ProcessFacts(s, p);
    hide Inv, Statement, Blocked;
  }

  lemma EndMarks(s: State, p: nat)
    requires Inv(s) && Enabled(s, Advance(p)) && (s.processes[p].phase.Commit? || s.processes[p].phase.Settle?)
    ensures Marks(s, p, Do(s, Advance(p)))
  {
    ProcessFacts(s, p);
    hide Inv, Statement, Blocked, CommitAllowed, CommitTables, Admit;
  }

  lemma AdvanceMarks(s: State, p: nat)
    requires Inv(s) && Enabled(s, Advance(p))
    ensures Marks(s, p, Do(s, Advance(p)))
  {
    hide Marks, Inv, Do;
    var phase := s.processes[p].phase;
    if phase.Arrived? || phase.Admitted? {
      GateMarks(s, p);
    } else if phase.Commit? || phase.Settle? {
      EndMarks(s, p);
    } else {
      StatementMarks(s, p);
    }
  }

  lemma StatementSettles(db: Database, p: nat, x: Process)
    requires InTransaction(x.phase) && !x.phase.Commit?
    ensures x.request.Transfer? ==> !Statement(db, p, x).phase.Finished?
  {
  }

  lemma FaultMarks(s: State, step: Step)
    requires Inv(s) && Enabled(s, step) && Marking(step)
    requires step.Fail? || step.LoseAck? || step.LoseRedis? || step.Crash?
    ensures Marks(s, step.p, Do(s, step))
  {
    ProcessFacts(s, step.p);
    hide Inv, AdvanceProcess, Blocked, CommitAllowed;
  }

  lemma MarksKeepMarked(s: State, p: nat, s': State, left: set<Uuid>, left': set<Uuid>)
    requires Marked(s) && Marks(s, p, s') && KeysExact(s, left) && KeysExact(s', left')
    ensures Marked(s')
  {
    forall q | 0 <= q < |s'.processes| && OwnsKey(s'.processes[q])
      ensures var key := s'.processes[q].request.key; key in s'.redis && s'.redis[key] == Mark(q, s'.processes[q])
    {
      assert Owned(s'.processes, s'.processes[q].request.key);
      if q != p {
        assert s'.processes[q] == s.processes[q];
      }
    }
  }

  lemma StepKeepsMarked(s: State, step: Step, left: set<Uuid>)
    requires Inv(s) && Marked(s) && KeysExact(s, left) && Enabled(s, step) && Marking(step)
    requires KeysExact(Do(s, step), left + KeyLeft(s, step))
    ensures Marked(Do(s, step))
  {
    if ProcessStep(step) {
      if step.Advance? {
        AdvanceMarks(s, step.p);
      } else {
        FaultMarks(s, step);
      }
      hide Do, KeysExact, Marks, Marked, Enabled;
      MarksKeepMarked(s, step.p, Do(s, step), left, left + KeyLeft(s, step));
    } else {
      IdleStepKeepsMarked(s, step);
    }
  }

  lemma IdleStepKeepsMarked(s: State, step: Step)
    requires Marked(s) && Enabled(s, step) && (step.Arrive? || step.SetAccount?)
    ensures Marked(Do(s, step))
  {
  }

  /** While no key is evicted and no Redis write is lost, the key of every transfer in flight is marked
      as processing, and that of every acknowledged one that has returned holds its transaction id. */
  lemma {:induction false} KeysAreMarked(steps: seq<Step>)
    requires Run(steps).Some? && forall step <- steps :: Marking(step)
    ensures Marked(Run(steps).value)
  {
    if steps != [] {
      var init, step := steps[..|steps| - 1], steps[|steps| - 1];
      KeysAreMarked(init);
      assert forall step <- steps :: !step.Evict? by {
        assert forall step <- steps :: Marking(step);
      }
      KeysStayExact(init);
      KeysStayExact(steps);
      assert Marking(step);
      var s := Run(init).value;
      assert Run(steps).value == Do(s, step) && LeftKeys(steps) == LeftKeys(init) + KeyLeft(s, step);
      hide Inv, KeysExact, Marked, Do, KeyLeft, LeftKeys;
      StepKeepsMarked(s, step, LeftKeys(init));
    }
  }

  // ---------------------------------------------------------------- all runs

  /** Every key in Redis belongs to a request in flight or a committed one, or was left behind. */
  ghost predicate KeysExplained(s: State, left: set<Uuid>) {
    forall key <- s.redis :: KeyInFlight(s, key) || KeyCompleted(s, key) || key in left
  }

  lemma CompletedStays(s: State, s': State, key: Uuid)
    requires s.log <= s'.log && KeyCompleted(s, key)
    ensures KeyCompleted(s', key)
  {
    var i :| 0 <= i < |s.log| && s.log[i].Posted? && s.log[i].request.Transfer? && s.log[i].request.key == key;
    assert s'.log[i] == s.log[i];
  }

  lemma InFlightStays(s: State, s': State, p: nat, key: Uuid)
    requires KeyInFlight(s, key) && p < |s.processes| && p < |s'.processes|
    requires s'.processes == s.processes[p := s'.processes[p]] && s'.processes[p].request == s.processes[p].request
    requires key == s.processes[p].request.key && InFlight(s.processes[p]) ==> InFlight(s'.processes[p])
    ensures KeyInFlight(s', key)
  {
    var q :| 0 <= q < |s.processes| && InFlight(s.processes[q]) && s.processes[q].request.key == key;
    assert InFlight(s'.processes[q]);
  }

  lemma AcknowledgedIsCompleted(s: State, p: nat)
    requires OutcomesFitLog(s) && p < |s.processes| && s.processes[p].request.Transfer? && Acknowledges(s.processes[p])
    ensures KeyCompleted(s, s.processes[p].request.key)
  {
    assert Posted(p, s.processes[p].request) in s.log;
    var i :| 0 <= i < |s.log| && s.log[i] == Posted(p, s.processes[p].request);
  }

  lemma ProcessStepExplains(s: State, step: Step, left: set<Uuid>)
    requires Inv(s) && OutcomesFitLog(s) && KeysExplained(s, left) && Enabled(s, step) && ProcessStep(step)
    ensures KeysExplained(Do(s, step), left + KeyLeft(s, step))
  {
    var p, s' := step.p, Do(s, step);
    StepEffect(s, step);
    StepExtendsLog(s, step);
    var x, y := s.processes[p], s'.processes[p];
    if x.request.Transfer? && Acknowledges(x) {
      AcknowledgedIsCompleted(s, p);
    }
    assert InFlight(x) ==> x.request.Transfer?;
    hide Inv, Do, KeyLeft, Enabled, OutcomesFitLog, InFlight, OwnsKey;
    forall key | key in s'.redis
      ensures KeyInFlight(s', key) || KeyCompleted(s', key) || key in left + KeyLeft(s, step)
    {
      if key == x.request.key && InFlight(y) {
        assert s'.processes[p] == y;
      } else {
        if KeyCompleted(s, key) {
          CompletedStays(s, s', key);
        } else if KeyInFlight(s, key) && !(key == x.request.key && InFlight(x)) {
          InFlightStays(s, s', p, key);
        }
      }
    }
  }

  lemma {:induction false} EveryKeyIsExplained(steps: seq<Step>)
    requires Run(steps).Some?
    ensures KeysExplained(Run(steps).value, LeftKeys(steps))
  {
    if steps != [] {
      var init, step := steps[..|steps| - 1], steps[|steps| - 1];
      EveryKeyIsExplained(init);
      RunsKeepOutcomes(init);
      var s := Run(init).value;
      hide Inv, OutcomesFitLog, KeysExplained, Do, KeyLeft;
      if ProcessStep(step) {
        ProcessStepExplains(s, step, LeftKeys(init));
      } else {
        IdleStepExplains(s, step, LeftKeys(init));
      }
    }
  }

  lemma IdleStepExplains(s: State, step: Step, left: set<Uuid>)
    requires KeysExplained(s, left) && Enabled(s, step) && !ProcessStep(step)
    ensures KeysExplained(Do(s, step), left + KeyLeft(s, step))
  {
    var s' := Do(s, step);
    forall key | key in s'.redis
      ensures KeyInFlight(s', key) || KeyCompleted(s', key) || key in left
    {
      StepExtendsLog(s, step);
      if KeyCompleted(s, key) {
        CompletedStays(s, s', key);
      } else if p :| 0 <= p < |s.processes| && InFlight(s.processes[p]) && s.processes[p].request.key == key {
        assert s'.processes[p] == s.processes[p];
      }
    }
  }

  // ---------------------------------------------------------------- what faults break, and what they cannot

  /** Once a key is in the transactions table no open transaction holds a row with it, so every
      later attempt with the key is refused by the database even if Redis let it through. */
  lemma CommittedKeyIsFinal(s: State, p: nat)
    requires Reachable(s) && p < |s.processes| && HasKey(s.db.transactions, s.processes[p].request.key)
    requires InTransaction(s.processes[p].phase)
    ensures !AfterInsert(s.processes[p].phase)
    ensures s.processes[p].phase.InsertTransaction? ==>
              Statement(s.db, p, s.processes[p]).outcome.Refused? && !Blocked(s, p)
  {
    ReachableStatesSatisfyInv(s);
    assert ProcessInv(s.db, s.log, p, s.processes[p]);
  }

  lemma AdmitNext(t: Request, steps0: seq<Step>, s0: State) returns (steps: seq<Step>, s: State)
    requires t.Transfer? && t.from != t.to && t.amount > 0.0
    requires Run(steps0) == Some(s0) && t.key !in s0.redis
    ensures Run(steps) == Some(s)
    ensures s.processes == s0.processes + [NewProcess(t).(phase := Admitted)]
    ensures s.redis == s0.redis[t.key := Processing] && s.log == s0.log
    ensures steps == steps0 + [Arrive(t), Advance(|s0.processes|)]
  {
    hide Run;
    steps, s := Extend(steps0, s0, Arrive(t));
    assert s.processes[|s0.processes|] == NewProcess(t);
    steps, s := Extend(steps, s, Advance(|s0.processes|));
  }

  /** One dropped key is enough: for every valid transfer there is a run in which two attempts are
      in flight and the first one's deferred delete removes the key the second one holds. */
  lemma EvictionBreaksTheGate(t: Request)
    requires t.Transfer? && t.from != t.to && t.amount > 0.0
    ensures exists s :: Reachable(s) && |s.processes| == 2
                        && s.processes[0].request == t && s.processes[1].request == t
                        && s.processes[0].phase.Finished? && InFlight(s.processes[1]) && t.key !in s.redis
  {
    Start();
    hide Run;
    var steps, s := AdmitNext(t, [], INITIAL);
    steps, s := Extend(steps, s, Evict(t.key));
    steps, s := AdmitNext(t, steps, s);
    steps, s := Extend(steps, s, Fail(0));
    steps, s := Extend(steps, s, Advance(0));
    assert Reachable(s);
  }
}
