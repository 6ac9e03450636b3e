/** Exactly which faults let a replay of a committed transfer through the Redis gate, and which leave
    a key in Redis that belongs to no request. */
module Replays {
  import opened Common
  import opened Uuids
  import opened Ledger
  import opened Serial
  import opened SerialProperties
  import opened Protocol
  import opened ProtocolInvariant
  import opened Runs
  import opened Idempotency
  import opened Alone
  import opened StaleSnapshot
  import Money

  // ---------------------------------------------------------------- replays

  /** Every fault may happen; evictions and lost acknowledgements only if they are tolerated. */
  predicate Tolerated(step: Step, evictions: bool, lostAcks: bool) {
    (step.Evict? ==> evictions) && (step.LoseAck? ==> lostAcks)
  }

  /** The request has committed, and another attempt with it is about to be let through the gate. */
  ghost predicate PassesAgain(s: State, p: nat, t: Request) {
    && p < |s.processes| && s.processes[p].request == t && AtGate(s.processes[p])
    && (exists q :: Posted(q, t) in s.log)
    && Do(s, Advance(p)).processes[p].phase.Admitted?
  }

  ghost predicate ReplayPasses(t: Request, evictions: bool, lostAcks: bool) {
    exists steps, p :: Run(steps).Some? && (forall step <- steps :: Tolerated(step, evictions, lostAcks))
                       && PassesAgain(Run(steps).value, p, t)
  }

  predicate CanCommit(t: Request) {
    t.Transfer? && t.from != t.to && Money.StoreAmount(t.amount).Success?
  }

  /** An operation of a legal history passed its own checks. */
  lemma LoggedCanCommit(log: seq<Operation>, i: nat)
    requires Legal(log) && i < |log| && log[i].Posted? && log[i].request.Transfer?
    ensures CanCommit(log[i].request)
  {
    LegalPrefix(log, i + 1);
    ReplayStep(log[..i + 1]);
  }

  /** Enough money for the transfer: twice what it stores, rounded down as that may be. */
  lemma TwoFundingsSuffice(t: Request, units: int)
    requires CanCommit(t) && units == Money.RoundToUnits(t.amount)
    ensures t.amount > 0.0 && 0 < units < Money.UNIT_LIMIT && t.amount <= Money.ToDecimal(units + units)
  {
    Money.StorableExactly(t.amount);
  }

  function FreshKey(used: Uuid, n: nat): Uuid
    requires n < 2
  {
    if used == n then 2 else n
  }

  predicate Numbered(transactions: seq<Transaction>, t: Request) {
    && |transactions| <= 2
    && forall k :: 0 <= k < |transactions| ==> transactions[k].id == k && transactions[k].key == FreshKey(t.key, k)
  }

  /** The sender has received some fundings and nothing else has happened. */
  ghost predicate Prepared(s: State, t: Request, balance: int) {
    && t.Transfer? && s.redis == map[] && Balance(s.db.ledger, t.from) == balance
    && (forall q :: 0 <= q < |s.processes| ==> NoLocks(s.processes[q]))
    && ActiveAccount(s.db, t.from).Success? && ActiveAccount(s.db, t.to).Success?
    && |s.processes| == |s.db.transactions| <= 2 && Numbered(s.db.transactions, t)
  }

  function Mint(s: State, t: Request, units: int): Request
    requires t.Transfer? && |s.processes| < 2
  {
    Funding(t.to, t.from, Money.ToDecimal(units), FreshKey(t.key, |s.processes|))
  }

  lemma FundOnce(steps0: seq<Step>, s0: State, t: Request, balance: int, units: int) returns (steps: seq<Step>, s: State)
    requires CanCommit(t) && 0 < units < Money.UNIT_LIMIT
    requires Run(steps0) == Some(s0) && FaultFree(steps0) && Prepared(s0, t, balance) && |s0.processes| < 2
    ensures Run(steps) == Some(s) && FaultFree(steps) && |s.processes| == |s0.processes| + 1
    ensures Prepared(s, t, balance + units)
  {
    MintIsServed(s0, t, balance, units);
    var f, n := Mint(s0, t, units), |s0.processes|;
    MintEffect(s0.db, n, f, units);
    assert balance == Balance(s0.db.ledger, f.to);
    hide Run, Apply, Prepared, FaultFree, CanCommit, Balance, FreshKey, Money.ToDecimal;
    steps, s := ServeAlone(steps0, s0, f);
    var row :| s.db.transactions == s0.db.transactions + [row] && row.id == n && row.key == f.key;
    PreparedAfter(s0, s, t, balance, balance + units, row);
  }

  lemma MintIsServed(s: State, t: Request, balance: int, units: int)
    requires CanCommit(t) && 0 < units < Money.UNIT_LIMIT && Prepared(s, t, balance) && |s.processes| < 2
    ensures var f, n := Mint(s, t, units), |s.processes|;
            && f.amount > 0.0 && ActiveAccount(s.db, f.source).Success? && Apply(s.db, Posted(n, f)).Success?
            && forall q :: 0 <= q < n ==> NoLocks(s.processes[q])
  {
    Money.RoundingFixesStoredAmounts(units);
  }

  lemma MintEffect(db: Database, n: nat, f: Request, units: int)
    requires f.Funding? && f.amount == Money.ToDecimal(units) && Apply(db, Posted(n, f)).Success?
    ensures var db' := Apply(db, Posted(n, f)).value;
            && db'.accounts == db.accounts && Balance(db'.ledger, f.to) == Balance(db.ledger, f.to) + units
            && exists row :: db'.transactions == db.transactions + [row] && row.id == n && row.key == f.key
  {
    var op := Posted(n, f);
    Money.RoundingFixesStoredAmounts(units);
    ApplyEffect(db, op);
    PostingBalance(op, f.to);
    BalanceOfConcat(db.ledger, Posting(op), f.to);
    assert Record(op) == [Record(op)[0]];
  }

  lemma NumberedRows(before: seq<Transaction>, row: Transaction, t: Request)
    requires |before| < 2 && row.id == |before| && row.key == FreshKey(t.key, |before|) && Numbered(before, t)
    ensures Numbered(before + [row], t)
  {
  }

  lemma PreparedAfter(s0: State, s: State, t: Request, balance: int, after: int, row: Transaction)
    requires Prepared(s0, t, balance) && |s0.processes| < 2 && s.redis == s0.redis
    requires s.db.accounts == s0.db.accounts && Balance(s.db.ledger, t.from) == after
    requires s.db.transactions == s0.db.transactions + [row]
    requires row.id == |s0.processes| && row.key == FreshKey(t.key, row.id)
    requires |s.processes| == |s0.processes| + 1 && s.processes[..|s0.processes|] == s0.processes
    requires NoLocks(s.processes[|s0.processes|])
    ensures Prepared(s, t, after)
  {
    hide Balance, NoLocks, Numbered, FreshKey;
    var n := |s0.processes|;
    NumberedRows(s0.db.transactions, row, t);
    forall q | 0 <= q < |s.processes|
      ensures NoLocks(s.processes[q])
    {
      assert q < n ==> s.processes[q] == s.processes[..n][q];
    }
  }

  /** The sender has enough money and nobody else is active. */
  ghost predicate Solvent(s: State, t: Request) {
    && |s.processes| == 2 && NoLocks(s.processes[0]) && NoLocks(s.processes[1]) && s.redis == map[]
    && Apply(s.db, Posted(2, t)).Success?
  }

  lemma BecomeSolvent(t: Request) returns (steps: seq<Step>, s: State)
    requires CanCommit(t)
    ensures Run(steps) == Some(s) && FaultFree(steps) && Solvent(s, t)
  {
    var units := Money.RoundToUnits(t.amount);
    TwoFundingsSuffice(t, units);
    steps, s := OpenBothAccounts(t.from, t.to);
    assert Prepared(s, t, 0);
    hide Run, Balance, Apply;
    steps, s := FundOnce(steps, s, t, 0, units);
    steps, s := FundOnce(steps, s, t, units, units);
    TransferSucceeds(s, t, units);
  }

  lemma TransferSucceeds(s: State, t: Request, units: int)
    requires CanCommit(t) && t.amount > 0.0 && t.amount <= Money.ToDecimal(units + units)
    requires Prepared(s, t, units + units) && |s.processes| == 2
    ensures Solvent(s, t)
  {
    assert !HasTransaction(s.db.transactions, 2) && !HasKey(s.db.transactions, t.key);
  }

  /** The transfer is about to commit, and nothing stands in its way. */
  lemma ReachCommit(t: Request) returns (steps: seq<Step>, s: State)
    requires CanCommit(t)
    ensures Run(steps) == Some(s) && FaultFree(steps) && |s.processes| == 3
    ensures s.processes[2].phase.Commit? && s.processes[2].request == t && CommitAllowed(s, 2)
  {
    steps, s := BecomeSolvent(t);
    TwoFundingsSuffice(t, Money.RoundToUnits(t.amount));
    hide Run;
    var before := s;
    steps, s := BeginTransfer(steps, s, t);
    StartPasses(before, s, t);
    RunsKeepInv(steps);
    hide Inv, SnapshotPasses, Undisturbed;
    steps, s := SnapshotDecides(steps, s, 2);
  }

  lemma StartPasses(before: State, s: State, t: Request)
    requires CanCommit(t) && t.amount > 0.0 && Solvent(before, t)
    requires s.db == before.db && s.log == before.log
    requires s.processes == before.processes + [NewProcess(t).(phase := AwaitFirst, view := s.db, snapshot := |s.log|)]
    ensures Undisturbed(s, 2) && SnapshotPasses(s, 2)
  {
  }

  /** A fault of one of the two kinds, and the key of a committed transfer is gone. */
  lemma CommitAndForget(t: Request, loseAck: bool) returns (steps: seq<Step>, s: State)
    requires CanCommit(t)
    ensures Run(steps) == Some(s) && |s.processes| == 3 && Posted(2, t) in s.log && t.key !in s.redis
    ensures s.processes[2].request == t && s.processes[2].phase.Finished?
    ensures s.processes[2].outcome == if loseAck then Refused(CommitUnknown) else Acknowledged
    ensures forall step <- steps :: Tolerated(step, !loseAck, loseAck)
  {
    steps, s := ReachCommit(t);
    hide Run, CommitAllowed;
    var step := if loseAck then LoseAck(2) else Advance(2);
    CommitStep(s, t, step);
    hide Do, Enabled;
    steps, s := Extend(steps, s, step);
    SettleStep(s);
    steps, s := Extend(steps, s, Advance(2));
    if !loseAck {
      EvictStep(s, t.key);
      steps, s := Extend(steps, s, Evict(t.key));
    }
  }

  lemma CommitStep(s: State, t: Request, step: Step)
    requires |s.processes| == 3 && s.processes[2].phase.Commit? && s.processes[2].request == t && t.Transfer?
    requires CommitAllowed(s, 2) && (step == Advance(2) || step == LoseAck(2))
    ensures Enabled(s, step)
    ensures var s' := Do(s, step);
            && |s'.processes| == 3 && s'.processes[2].request == t && s'.processes[2].phase.Settle?
            && s'.processes[2].outcome == (if step.LoseAck? then Refused(CommitUnknown) else Acknowledged)
            && Posted(2, t) in s'.log
  {
    hide CommitAllowed, CommitTables, Statement, Admit;
    assert (s.log + [Posted(2, t)])[|s.log|] == Posted(2, t);
  }

  lemma SettleStep(s: State)
    requires |s.processes| == 3 && s.processes[2].phase.Settle?
    ensures Enabled(s, Advance(2))
    ensures var s', x := Do(s, Advance(2)), s.processes[2];
            && |s'.processes| == 3 && s'.processes[2] == x.(phase := Finished) && s'.log == s.log
            && s'.redis == SettledKeys(s.redis, 2, x)
  {
  }

  lemma EvictStep(s: State, key: Uuid)
    ensures Enabled(s, Evict(key)) && Do(s, Evict(key)) == s.(redis := s.redis - {key})
  {
  }

  lemma PassAgain(t: Request, loseAck: bool)
    requires CanCommit(t)
    ensures ReplayPasses(t, !loseAck, loseAck)
  {
    var steps, s := CommitAndForget(t, loseAck);
    TwoFundingsSuffice(t, Money.RoundToUnits(t.amount));
    hide Run;
    steps, s := Extend(steps, s, Arrive(t));
    assert s.processes[3] == NewProcess(t);
    assert PassesAgain(s, 3, t);
  }

  /** A transfer that has committed can pass the gate again if and only if keys may be evicted or
      acknowledgements of commits may be lost; each of these faults alone is enough, and no crash,
      database failure or Redis error ever is. */
  lemma ReplayPassesExactly(t: Request, evictions: bool, lostAcks: bool)
    ensures ReplayPasses(t, evictions, lostAcks) <==> CanCommit(t) && (evictions || lostAcks)
  {
    if ReplayPasses(t, evictions, lostAcks) {
      var steps, p :| Run(steps).Some? && (forall step <- steps :: Tolerated(step, evictions, lostAcks))
                      && PassesAgain(Run(steps).value, p, t);
      ReplayNeedsAFault(steps, p, t, evictions, lostAcks);
    }
    if CanCommit(t) && (evictions || lostAcks) {
      PassAgain(t, !evictions);
      MoreFaults(t, !evictions, evictions, lostAcks);
    }
  }

  lemma MoreFaults(t: Request, loseAck: bool, evictions: bool, lostAcks: bool)
    requires ReplayPasses(t, !loseAck, loseAck) && (if loseAck then lostAcks else evictions)
    ensures ReplayPasses(t, evictions, lostAcks)
  {
    var steps, p :| Run(steps).Some? && (forall step <- steps :: Tolerated(step, !loseAck, loseAck))
                    && PassesAgain(Run(steps).value, p, t);
    assert forall step <- steps :: Tolerated(step, evictions, lostAcks);
  }

  lemma ReplayNeedsAFault(steps: seq<Step>, p: nat, t: Request, evictions: bool, lostAcks: bool)
    requires Run(steps).Some? && (forall step <- steps :: Tolerated(step, evictions, lostAcks))
    requires PassesAgain(Run(steps).value, p, t)
    ensures CanCommit(t) && (evictions || lostAcks)
  {
    var s := Run(steps).value;
    RunsKeepInv(steps);
    var q :| Posted(q, t) in s.log;
    var i :| 0 <= i < |s.log| && s.log[i] == Posted(q, t);
    LoggedCanCommit(s.log, i);
    assert KeyCompleted(s, t.key);
    if !evictions && !lostAcks {
      assert forall step <- steps :: Remembering(step) by {
        assert forall step <- steps :: Tolerated(step, false, false);
      }
      ReplayIsDuplicate(steps, p);
    }
  }

  // ---------------------------------------------------------------- stuck keys

  /** Retries with the key are duplicates although no request with it is in flight or has committed. */
  ghost predicate Stuck(s: State, key: Uuid) {
    key in s.redis && !KeyInFlight(s, key) && !KeyCompleted(s, key)
  }

  /** Every fault may happen; crashes and Redis errors, unapplied or applied, only if tolerated. */
  predicate Permitted(step: Step, crashes: bool, unapplied: bool, applied: bool) {
    (step.Crash? ==> crashes) && (step.LoseRedis? ==> if step.applied then applied else unapplied)
  }

  ghost predicate CanStick(key: Uuid, crashes: bool, unapplied: bool, applied: bool) {
    exists steps :: Run(steps).Some? && (forall step <- steps :: Permitted(step, crashes, unapplied, applied))
                    && Stuck(Run(steps).value, key)
  }

  lemma StuckAlone(s: State, key: Uuid)
    requires |s.processes| == 1 && s.processes[0].phase.Finished? && s.log == [] && key in s.redis
    ensures Stuck(s, key)
  {
  }

  lemma CrashSticks(key: Uuid)
    ensures CanStick(key, true, false, false)
  {
    var t := Transfer(1, 2, 1.0, key);
    Start();
    hide Run, Stuck;
    var steps, s := AdmitNext(t, [], INITIAL);
    assert s.processes[0].phase.Admitted?;
    steps, s := Extend(steps, s, Crash(0));
    StuckAlone(s, key);
  }

  lemma FailedDeleteSticks(key: Uuid)
    ensures CanStick(key, false, true, false)
  {
    var t := Transfer(1, 2, 1.0, key);
    Start();
    hide Run, Stuck;
    var steps, s := AdmitNext(t, [], INITIAL);
    assert s.processes[0].phase.Admitted?;
    steps, s := Extend(steps, s, Fail(0));
    assert s.processes[0].phase.Settle?;
    steps, s := Extend(steps, s, LoseRedis(0, false));
    StuckAlone(s, key);
  }

  lemma LostReplySticks(key: Uuid)
    ensures CanStick(key, false, false, true)
  {
    var t := Transfer(1, 2, 1.0, key);
    Start();
    hide Run, Stuck;
    var steps, s := Extend([], INITIAL, Arrive(t));
    assert s.processes == [NewProcess(t)];
    steps, s := Extend(steps, s, LoseRedis(0, true));
    StuckAlone(s, key);
  }

  lemma MoreSticks(key: Uuid, c: bool, u: bool, a: bool, crashes: bool, unapplied: bool, applied: bool)
    requires CanStick(key, c, u, a) && (c ==> crashes) && (u ==> unapplied) && (a ==> applied)
    ensures CanStick(key, crashes, unapplied, applied)
  {
    var steps :| Run(steps).Some? && (forall step <- steps :: Permitted(step, c, u, a)) && Stuck(Run(steps).value, key);
    assert forall step <- steps :: Permitted(step, crashes, unapplied, applied);
  }

  /** A key can be stuck if and only if servers may crash, or the deferred delete may fail, or an
      applied SET NX may be reported as an error; each alone is enough. Database failures, lost
      acknowledgements and evictions never leave a key behind. */
  lemma KeySticksExactly(key: Uuid, crashes: bool, unapplied: bool, applied: bool)
    ensures CanStick(key, crashes, unapplied, applied) <==> crashes || unapplied || applied
  {
    if CanStick(key, crashes, unapplied, applied) && !crashes && !unapplied && !applied {
      var steps :| Run(steps).Some? && (forall step <- steps :: Permitted(step, crashes, unapplied, applied))
                   && Stuck(Run(steps).value, key);
      assert forall step <- steps :: !StickyFault(step) by {
        assert forall step <- steps :: Permitted(step, false, false, false);
      }
      OnlyStickyFaultsLeaveKeys(steps);
      EveryKeyIsExplained(steps);
    }
    hide CanStick;
    if crashes {
      CrashSticks(key);
      MoreSticks(key, true, false, false, crashes, unapplied, applied);
    } else if unapplied {
      FailedDeleteSticks(key);
      MoreSticks(key, false, true, false, crashes, unapplied, applied);
    } else if applied {
      LostReplySticks(key);
      MoreSticks(key, false, false, true, crashes, unapplied, applied);
    }
  }
}
