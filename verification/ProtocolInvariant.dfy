/** What every step keeps, and why every commit is one operation of a legal history. */
module ProtocolInvariant {
  import opened Common
  import opened Uuids
  import opened Ledger
  import opened Serial
  import opened SerialProperties
  import opened Protocol
  import Money

  // ---------------------------------------------------------------- private state by phase

  function LockSet(r: Request): set<Uuid> {
    if r.Transfer? then {r.from, r.to} else {r.to}
  }

  function HeldAt(r: Request, phase: Phase): set<Uuid> {
    match phase
    case Arrived | Admitted | AwaitFirst | Settle | Finished => {}
    case AwaitSecond => {First(r)}
    case _ => LockSet(r)
  }

  function SharedAt(r: Request, phase: Phase): set<Uuid> {
    if r.Funding? && (phase.InsertCredit? || phase.Promote? || phase.Commit?) then {r.source} else {}
  }

  function RowAt(p: nat, r: Request, phase: Phase): Option<Transaction> {
    var row := Record(Posted(p, r))[0];
    match phase
    case ReferenceSource | InsertDebit | InsertCredit | Promote => Some(row.(status := Pending))
    case Commit => Some(row)
    case _ => None
  }

  function EntriesAt(p: nat, r: Request, phase: Phase): seq<Entry> {
    match phase
    case InsertCredit => if r.Transfer? then Posting(Posted(p, r))[..1] else []
    case Promote | Commit => Posting(Posted(p, r))
    case _ => []
  }

  /** Phases of the other program are never entered. */
  predicate OwnPhase(r: Request, phase: Phase) {
    match phase
    case AwaitSecond | RefetchSender | RefetchReceiver | SumBalance | InsertDebit | Settle => r.Transfer?
    case ReferenceSource => r.Funding?
    case _ => true
  }

  predicate AfterStatusCheck(r: Request, phase: Phase) {
    match phase
    case SumBalance | InsertTransaction | ReferenceSource | InsertDebit | InsertCredit | Promote | Commit => true
    case _ => false
  }

  predicate AfterInsert(phase: Phase) {
    phase.ReferenceSource? || phase.InsertDebit? || phase.InsertCredit? || phase.Promote? || phase.Commit?
  }

  predicate OutcomeFits(phase: Phase, outcome: Outcome) {
    match phase
    case Settle => outcome.Acknowledged? || outcome.Refused?
    case Finished => !outcome.Undecided?
    case _ => outcome.Undecided?
  }

  predicate SameRow(db: Database, view: Database, account: Uuid) {
    account in view.accounts && account in db.accounts && db.accounts[account] == view.accounts[account]
  }

  function StatusOf(view: Database, account: Uuid): AccountStatus {
    if account in view.accounts then view.accounts[account].status else Closed
  }

  /** The checks a process has passed so far, on its own snapshot and locked rows. */
  ghost predicate ChecksPassed(db: Database, p: nat, x: Process) {
    var r := x.request;
    && (x.phase.RefetchReceiver? ==> x.senderStatus == StatusOf(x.view, Source(r)))
    && (AfterStatusCheck(r, x.phase) ==> forall a <- LockSet(r) :: StatusOf(x.view, a).Active?)
    && (AfterStatusCheck(r, x.phase) && r.Transfer? && !x.phase.SumBalance? ==>
          r.amount <= Money.ToDecimal(Balance(x.view.ledger, r.from)))
    && (AfterInsert(x.phase) ==> NewTransaction(db, p, r).Success?)
  }

  ghost predicate ProcessInv(db: Database, log: seq<Operation>, p: nat, x: Process) {
    var r := x.request;
    && OwnPhase(r, x.phase)
    && OutcomeFits(x.phase, x.outcome)
    && x.held == HeldAt(r, x.phase) && x.shared == SharedAt(r, x.phase)
    && x.row == RowAt(p, r, x.phase) && x.entries == EntriesAt(p, r, x.phase)
    && (Open(x.phase) ==> r.amount > 0.0 && (r.Transfer? ==> r.from != r.to))
    && (InTransaction(x.phase) ==>
          && x.snapshot <= |log| && Replay(log[..x.snapshot]) == Success(x.view)
          && (forall a <- x.held :: SameRow(db, x.view, a))
          && ChecksPassed(db, p, x))
  }

  /** Every committed operation belongs to a process that is past its commit. */
  ghost predicate LogInv(log: seq<Operation>, processes: seq<Process>) {
    forall i :: 0 <= i < |log| && log[i].Posted? ==>
      && log[i].id < |processes|
      && processes[log[i].id].request == log[i].request
      && (processes[log[i].id].phase.Settle? || processes[log[i].id].phase.Finished?)
  }

  /** A row locked FOR UPDATE is locked by one process only. */
  ghost predicate LocksExclude(processes: seq<Process>) {
    forall p, q, a :: 0 <= p < |processes| && 0 <= q < |processes| && p != q && a in processes[p].held ==>
      a !in processes[q].held && a !in processes[q].shared
  }

  /** No two open transactions have inserted the same idempotency key. */
  ghost predicate KeysExclude(processes: seq<Process>) {
    forall p, q :: 0 <= p < |processes| && 0 <= q < |processes| && p != q
                   && processes[p].row.Some? && processes[q].row.Some? ==>
      processes[p].row.value.key != processes[q].row.value.key
  }

  /** The account existed and was active after the first n operations. */
  predicate ActiveAt(log: seq<Operation>, n: nat, account: Uuid)
    requires n <= |log|
  {
    Legal(log[..n]) && ActiveAccount(Replay(log[..n]).value, account).Success?
  }

  ghost predicate WasActive(log: seq<Operation>, account: Uuid) {
    exists n :: 0 <= n <= |log| && ActiveAt(log, n, account)
  }

  /** Past the request checks and still able to commit. */
  predicate Open(phase: Phase) {
    phase.Admitted? || InTransaction(phase)
  }

  /** The source of an open funding was active at some point of the history before its snapshot. */
  ghost predicate SourceChecked(log: seq<Operation>, x: Process) {
    x.request.Funding? ==>
      && (x.phase.Admitted? ==> WasActive(log, x.request.source))
      && (InTransaction(x.phase) ==> x.snapshot <= |log| && WasActive(log[..x.snapshot], x.request.source))
  }

  /** ... and so was the source of every committed one before its commit. */
  ghost predicate SourcesChecked(log: seq<Operation>, processes: seq<Process>) {
    && (forall p :: 0 <= p < |processes| ==> SourceChecked(log, processes[p]))
    && (forall i :: 0 <= i < |log| && log[i].Posted? && log[i].request.Funding? ==>
          WasActive(log[..i], log[i].request.source))
  }

  ghost predicate Inv(s: State) {
    && Replay(s.log) == Success(s.db)
    && (forall p :: 0 <= p < |s.processes| ==> ProcessInv(s.db, s.log, p, s.processes[p]))
    && LogInv(s.log, s.processes)
    && SourcesChecked(s.log, s.processes)
    && LocksExclude(s.processes)
    && KeysExclude(s.processes)
  }

  // ---------------------------------------------------------------- one process moves

  /** A process whose transaction is over satisfies its invariant in any database. */
  lemma StoppedProcess(db: Database, log: seq<Operation>, p: nat, x: Process, outcome: Outcome)
    requires !outcome.Undecided?
    ensures ProcessInv(db, log, p, Stop(x, outcome))
    ensures x.request.Transfer? && !outcome.Crashed? ==> ProcessInv(db, log, p, Stop(x, outcome).(phase := Settle))
  {
  }

  lemma SettledProcess(db: Database, log: seq<Operation>, p: nat, x: Process)
    requires ProcessInv(db, log, p, x) && x.phase.Settle?
    ensures ProcessInv(db, log, p, x.(phase := Finished))
  {
  }

  lemma AdmittedProcess(db: Database, log: seq<Operation>, p: nat, x: Process)
    requires ProcessInv(db, log, p, x) && x.phase.Arrived?
    requires x.request.amount > 0.0 && (x.request.Transfer? ==> x.request.from != x.request.to)
    ensures ProcessInv(db, log, p, x.(phase := Admitted))
  {
  }

  lemma SnapshotProcess(db: Database, log: seq<Operation>, p: nat, x: Process)
    requires ProcessInv(db, log, p, x) && x.phase.Admitted? && Replay(log) == Success(db)
    ensures ProcessInv(db, log, p, x.(phase := AwaitFirst, view := db, snapshot := |log|))
  {
    assert log[..|log|] == log;
  }

  lemma IdleProcess(db: Database, log: seq<Operation>, p: nat, x: Process)
    requires ProcessInv(db, log, p, x) && !InTransaction(x.phase)
    ensures x.held == {} && x.shared == {} && x.row.None?
  {
  }

  /** The locking statements keep the process invariant. */
  lemma AwaitStatement(db: Database, log: seq<Operation>, p: nat, x: Process)
    requires ProcessInv(db, log, p, x) && (x.phase.AwaitFirst? || x.phase.AwaitSecond?)
    ensures ProcessInv(db, log, p, Statement(db, p, x))
  {
    var r := x.request;
    if r.Transfer? {
      LockOrderIsSymmetric(r.from, r.to);
    }
    if x.phase.AwaitSecond? {
      assert {First(r)} + {Second(r)} == LockSet(r);
    } else {
      assert {} + {First(r)} == {First(r)};
    }
  }

  lemma RefetchStatement(db: Database, log: seq<Operation>, p: nat, x: Process)
    requires ProcessInv(db, log, p, x) && (x.phase.RefetchSender? || x.phase.RefetchReceiver?)
    ensures ProcessInv(db, log, p, Statement(db, p, x))
  {
    var r := x.request;
    assert LockSet(r) + {r.from} == LockSet(r) && LockSet(r) + {r.to} == LockSet(r);
  }

  lemma SumStatement(db: Database, log: seq<Operation>, p: nat, x: Process)
    requires ProcessInv(db, log, p, x) && x.phase.SumBalance?
    ensures ProcessInv(db, log, p, Statement(db, p, x))
  {
  }

  lemma InsertStatement(db: Database, log: seq<Operation>, p: nat, x: Process)
    requires ProcessInv(db, log, p, x) && x.phase.InsertTransaction?
    ensures ProcessInv(db, log, p, Statement(db, p, x))
  {
  }

  lemma ReferenceStatement(db: Database, log: seq<Operation>, p: nat, x: Process)
    requires ProcessInv(db, log, p, x) && x.phase.ReferenceSource?
    ensures ProcessInv(db, log, p, Statement(db, p, x))
  {
  }

  lemma DebitStatement(db: Database, log: seq<Operation>, p: nat, x: Process)
    requires ProcessInv(db, log, p, x) && x.phase.InsertDebit?
    ensures ProcessInv(db, log, p, Statement(db, p, x))
  {
  }

  lemma CreditStatement(db: Database, log: seq<Operation>, p: nat, x: Process)
    requires ProcessInv(db, log, p, x) && x.phase.InsertCredit?
    ensures ProcessInv(db, log, p, Statement(db, p, x))
  {
  }

  lemma PromoteStatement(db: Database, log: seq<Operation>, p: nat, x: Process)
    requires ProcessInv(db, log, p, x) && x.phase.Promote?
    ensures ProcessInv(db, log, p, Statement(db, p, x))
  {
  }

  lemma StatementKeepsProcess(db: Database, log: seq<Operation>, p: nat, x: Process)
    requires ProcessInv(db, log, p, x) && InTransaction(x.phase) && !x.phase.Commit?
    ensures ProcessInv(db, log, p, Statement(db, p, x))
  {
    match x.phase
    case AwaitFirst | AwaitSecond => AwaitStatement(db, log, p, x);
    case RefetchSender | RefetchReceiver => RefetchStatement(db, log, p, x);
    case SumBalance => SumStatement(db, log, p, x);
    case InsertTransaction => InsertStatement(db, log, p, x);
    case ReferenceSource => ReferenceStatement(db, log, p, x);
    case InsertDebit => DebitStatement(db, log, p, x);
    case InsertCredit => CreditStatement(db, log, p, x);
    case Promote => PromoteStatement(db, log, p, x);
  }

  /** New locks and keys of p do not collide with those of the others. */
  ghost predicate Compatible(s: State, p: nat, x: Process) {
    && (forall q, a :: 0 <= q < |s.processes| && q != p && a in x.held ==>
          a !in s.processes[q].held && a !in s.processes[q].shared)
    && (forall q, a :: 0 <= q < |s.processes| && q != p && a in x.shared ==> a !in s.processes[q].held)
    && (forall q :: 0 <= q < |s.processes| && q != p && s.processes[q].row.Some? && x.row.Some? ==>
          s.processes[q].row.value.key != x.row.value.key)
  }

  lemma IdleIsCompatible(s: State, p: nat, x: Process)
    requires x.held == {} && x.shared == {} && x.row.None?
    ensures Compatible(s, p, x)
  {
  }

  lemma PutKeepsInv(s: State, p: nat, x: Process, redis: map<Uuid, Marker>)
    requires Inv(s) && p < |s.processes|
    requires ProcessInv(s.db, s.log, p, x) && Compatible(s, p, x)
    requires x.request == s.processes[p].request
    requires x.phase.Settle? || x.phase.Finished? || !(s.processes[p].phase.Settle? || s.processes[p].phase.Finished?)
    requires SourceChecked(s.log, x)
    ensures Inv(Put(s, p, x).(redis := redis))
  {
    hide ProcessInv, SourceChecked, WasActive;
  }

  /** What was active once stays so in the past of a longer history. */
  lemma WasActiveGrows(log: seq<Operation>, n: nat, account: Uuid)
    requires n <= |log| && WasActive(log[..n], account)
    ensures WasActive(log, account)
  {
    var k :| 0 <= k <= n && ActiveAt(log[..n], k, account);
    assert log[..n][..k] == log[..k];
    assert ActiveAt(log, k, account);
  }

  lemma CheckedStaysChecked(log: seq<Operation>, op: Operation, x: Process)
    requires SourceChecked(log, x)
    ensures SourceChecked(log + [op], x)
  {
    assert (log + [op])[..|log|] == log;
    if x.request.Funding? && x.phase.Admitted? {
      WasActiveGrows(log + [op], |log|, x.request.source);
    } else if InTransaction(x.phase) && x.snapshot <= |log| {
      assert (log + [op])[..x.snapshot] == log[..x.snapshot];
    }
  }

  /** One more operation; if it is a funding, its source has been checked. */
  lemma AppendKeepsSources(log: seq<Operation>, op: Operation, before: seq<Process>, after: seq<Process>)
    requires SourcesChecked(log, before) && |after| == |before|
    requires forall p :: 0 <= p < |after| && Open(after[p].phase) ==> after[p] == before[p]
    requires op.Posted? && op.request.Funding? ==> WasActive(log, op.request.source)
    ensures SourcesChecked(log + [op], after)
  {
    hide WasActive;
    var log' := log + [op];
    forall p | 0 <= p < |after|
      ensures SourceChecked(log', after[p])
    {
      CheckedStaysChecked(log, op, before[p]);
    }
    forall i | 0 <= i < |log'| && log'[i].Posted? && log'[i].request.Funding?
      ensures WasActive(log'[..i], log'[i].request.source)
    {
      assert log'[..i] == if i < |log| then log[..i] else log;
    }
  }

  /** The row the next statement locks FOR UPDATE, if any. */
  function Wanted(x: Process): set<Uuid> {
    match x.phase
    case AwaitFirst => {First(x.request)}
    case AwaitSecond => {Second(x.request)}
    case RefetchSender => {Source(x.request)}
    case RefetchReceiver => {x.request.to}
    case _ => {}
  }

  /** A statement acquires nothing but the row it names, and inserts at most its own key. */
  lemma StatementAcquires(db: Database, p: nat, x: Process)
    requires InTransaction(x.phase) && !x.phase.Commit?
    ensures var y := Statement(db, p, x);
            && y.held <= x.held + Wanted(x)
            && (y.held <= x.held || Wanted(x) <= x.view.accounts.Keys)
            && y.shared <= x.shared + (if x.phase.ReferenceSource? then {Source(x.request)} else {})
            && (y.row.Some? ==>
                  || (x.row.Some? && y.row.value.key == x.row.value.key)
                  || (x.phase.InsertTransaction? && NewTransaction(db, p, x.request).Success?
                      && y.row.value.key == x.request.key))
  {
  }

  lemma StatementIsCompatible(s: State, p: nat)
    requires Inv(s) && p < |s.processes|
    requires InTransaction(s.processes[p].phase) && !s.processes[p].phase.Commit? && !Blocked(s, p)
    ensures Compatible(s, p, Statement(s.db, p, s.processes[p]))
  {
    hide ProcessInv, Statement;
    StatementAcquires(s.db, p, s.processes[p]);
  }

  // ---------------------------------------------------------------- commit

  /** The heart of the protocol: a commit that is not refused is the sequential operation on the
      tables as they are now, although its balance was summed on an older snapshot. */
  lemma CommitIsSerial(s: State, p: nat)
    requires Inv(s) && p < |s.processes| && s.processes[p].phase.Commit? && CommitAllowed(s, p)
    ensures Apply(s.db, Posted(p, s.processes[p].request)) == Success(CommitTables(s.db, s.processes[p]))
  {
    var x := s.processes[p];
    var r := x.request;
    assert ProcessInv(s.db, s.log, p, x);
    if r.Transfer? {
      forall i | x.snapshot <= i < |s.log|
        ensures !(s.log[i].Posted? && s.log[i].request.Transfer? && s.log[i].request.from == r.from)
      {
        var u, t := s.log[i], Posted(p, r);
        if u.Posted? && u.request.Transfer? && u.request.from == r.from {
          assert r.from in Wrote(u) * Summed(t) && r.from in Summed(u) * Wrote(t);
          assert Conflict(u, t);
        }
      }
      BalanceGrowsWithoutDebits(s.log, x.snapshot, r.from);
      assert r.from in x.held && r.to in x.held;
    } else {
      assert r.to in x.held;
    }
  }

  /** The invariants of the others survive a commit of p. */
  lemma CommitKeepsOthers(s: State, p: nat, q: nat)
    requires Inv(s) && p < |s.processes| && q < |s.processes| && p != q && s.processes[p].phase.Commit?
    ensures ProcessInv(CommitTables(s.db, s.processes[p]), s.log + [Posted(p, s.processes[p].request)], q, s.processes[q])
  {
    var x, y := s.processes[p], s.processes[q];
    assert ProcessInv(s.db, s.log, p, x) && ProcessInv(s.db, s.log, q, y);
    var log' := s.log + [Posted(p, x.request)];
    if InTransaction(y.phase) {
      assert log'[..y.snapshot] == s.log[..y.snapshot];
      if AfterInsert(y.phase) {
        var db' := CommitTables(s.db, x);
        assert db'.transactions == s.db.transactions + [x.row.value];
        assert !HasTransaction(db'.transactions, q) && !HasKey(db'.transactions, y.request.key);
      }
    }
  }

  lemma CommittingSourceWasActive(s: State, p: nat)
    requires Inv(s) && p < |s.processes| && s.processes[p].phase.Commit? && s.processes[p].request.Funding?
    ensures WasActive(s.log, s.processes[p].request.source)
  {
    hide ProcessInv, WasActive;
    assert SourceChecked(s.log, s.processes[p]);
    WasActiveGrows(s.log, s.processes[p].snapshot, s.processes[p].request.source);
  }

  /** A commit releases what its process held and adds one operation of a process that is then past it. */
  lemma CommitKeepsExclusion(s: State, p: nat, outcome: Outcome)
    requires Inv(s) && p < |s.processes| && s.processes[p].phase.Commit?
    requires outcome.Acknowledged? || outcome.Refused?
    ensures var s' := CommitAs(s, p, outcome);
            LogInv(s'.log, s'.processes) && LocksExclude(s'.processes) && KeysExclude(s'.processes)
  {
    hide ProcessInv, SourcesChecked, Replay, CommitTables;
  }

  lemma CommitKeepsSources(s: State, p: nat, outcome: Outcome)
    requires Inv(s) && p < |s.processes| && s.processes[p].phase.Commit?
    requires outcome.Acknowledged? || outcome.Refused?
    ensures SourcesChecked(CommitAs(s, p, outcome).log, CommitAs(s, p, outcome).processes)
  {
    if s.processes[p].request.Funding? {
      CommittingSourceWasActive(s, p);
    }
    hide ProcessInv, WasActive, LogInv, LocksExclude, KeysExclude, Replay, CommitTables, SourcesChecked;
    AppendKeepsSources(s.log, Posted(p, s.processes[p].request), s.processes, CommitAs(s, p, outcome).processes);
  }

  lemma CommitKeepsInv(s: State, p: nat, outcome: Outcome)
    requires Inv(s) && p < |s.processes| && s.processes[p].phase.Commit? && CommitAllowed(s, p)
    requires outcome.Acknowledged? || outcome.Refused?
    ensures Inv(CommitAs(s, p, outcome))
  {
    var s' := CommitAs(s, p, outcome);
    CommitKeepsExclusion(s, p, outcome);
    CommitKeepsSources(s, p, outcome);
    CommitIsSerial(s, p);
    ReplayAppend(s.log, Posted(p, s.processes[p].request));
    hide ProcessInv, SourcesChecked, LogInv, LocksExclude, KeysExclude, CommitTables, CommitAllowed;
    StoppedProcess(s'.db, s'.log, p, s.processes[p], outcome);
    forall q | 0 <= q < |s'.processes|
      ensures ProcessInv(s'.db, s'.log, q, s'.processes[q])
    {
      if q != p {
        CommitKeepsOthers(s, p, q);
      }
    }
  }

  // ---------------------------------------------------------------- the other steps

  lemma SetAccountKeepsInv(s: State, account: Uuid, status: AccountStatus)
    requires Inv(s) && Enabled(s, SetAccount(account, status))
    ensures Inv(Do(s, SetAccount(account, status)))
  {
    hide ProcessInv, SourcesChecked, WasActive;
    var s' := Do(s, SetAccount(account, status));
    AppendKeepsSources(s.log, AccountSet(account, status), s.processes, s'.processes);
    ReplayAppend(s.log, AccountSet(account, status));
    forall q | 0 <= q < |s'.processes|
      ensures ProcessInv(s'.db, s'.log, q, s'.processes[q])
    {
      SetAccountKeepsProcess(s.db, s.log, q, s.processes[q], account, status);
    }
  }

  lemma SetAccountKeepsProcess(db: Database, log: seq<Operation>, q: nat, y: Process, account: Uuid, status: AccountStatus)
    requires ProcessInv(db, log, q, y) && account !in y.held
    ensures ProcessInv(ApplyAccount(db, account, status), log + [AccountSet(account, status)], q, y)
  {
    if InTransaction(y.phase) {
      assert (log + [AccountSet(account, status)])[..y.snapshot] == log[..y.snapshot];
    }
  }

  lemma StatementKeepsInv(s: State, p: nat)
    requires Inv(s) && Enabled(s, Advance(p))
    requires InTransaction(s.processes[p].phase) && !s.processes[p].phase.Commit?
    ensures Inv(Put(s, p, Statement(s.db, p, s.processes[p])))
  {
    hide ProcessInv;
    var x := s.processes[p];
    StatementKeepsProcess(s.db, s.log, p, x);
    StatementIsCompatible(s, p);
    StatementKeepsRequest(s.db, p, x);
    assert SourceChecked(s.log, x);
    PutKeepsInv(s, p, Statement(s.db, p, x), s.redis);
  }

  lemma StatementKeepsRequest(db: Database, p: nat, x: Process)
    requires InTransaction(x.phase) && !x.phase.Commit?
    ensures Statement(db, p, x).request == x.request && Statement(db, p, x).snapshot == x.snapshot
  {
  }

  lemma AdmitKeepsInv(s: State, p: nat)
    requires Inv(s) && Enabled(s, Advance(p)) && s.processes[p].phase.Arrived?
    ensures Inv(Admit(s, p))
  {
    hide ProcessInv;
    var x, s' := s.processes[p], Admit(s, p);
    if s'.processes[p].phase.Admitted? {
      AdmittedProcess(s.db, s.log, p, x);
      assert s.log[..|s.log|] == s.log;
      assert x.request.Funding? ==> ActiveAt(s.log, |s.log|, x.request.source);
    } else {
      StoppedProcess(s.db, s.log, p, x, s'.processes[p].outcome);
    }
    IdleProcess(s.db, s.log, p, s'.processes[p]);
    IdleIsCompatible(s, p, s'.processes[p]);
    PutKeepsInv(s, p, s'.processes[p], s'.redis);
  }

  lemma BeginKeepsInv(s: State, p: nat)
    requires Inv(s) && Enabled(s, Advance(p)) && s.processes[p].phase.Admitted?
    ensures Inv(AdvanceProcess(s, p))
  {
    hide ProcessInv;
    var s' := AdvanceProcess(s, p);
    SnapshotProcess(s.db, s.log, p, s.processes[p]);
    IdleProcess(s.db, s.log, p, s.processes[p]);
    IdleIsCompatible(s, p, s'.processes[p]);
    assert SourceChecked(s.log, s.processes[p]) && s.log[..|s.log|] == s.log;
    PutKeepsInv(s, p, s'.processes[p], s'.redis);
  }

  lemma SettleKeepsInv(s: State, p: nat, redis: map<Uuid, Marker>)
    requires Inv(s) && p < |s.processes| && s.processes[p].phase.Settle?
    ensures Inv(Put(s, p, s.processes[p].(phase := Finished)).(redis := redis))
  {
    hide ProcessInv;
    var x := s.processes[p];
    SettledProcess(s.db, s.log, p, x);
    IdleProcess(s.db, s.log, p, x);
    IdleIsCompatible(s, p, x.(phase := Finished));
    PutKeepsInv(s, p, x.(phase := Finished), redis);
  }

  /** Rolling back, at any point before the end. */
  lemma StopKeepsInv(s: State, p: nat, outcome: Outcome, settle: bool, redis: map<Uuid, Marker>)
    requires Inv(s) && p < |s.processes| && !outcome.Undecided?
    requires settle ==> s.processes[p].request.Transfer? && !outcome.Crashed?
    requires settle || !s.processes[p].phase.Finished?
    ensures Inv(Put(s, p, Stop(s.processes[p], outcome).(phase := if settle then Settle else Finished)).(redis := redis))
  {
    hide ProcessInv;
    var x := s.processes[p];
    var y := Stop(x, outcome).(phase := if settle then Settle else Finished);
    StoppedProcess(s.db, s.log, p, x, outcome);
    assert !settle ==> y == Stop(x, outcome);
    IdleIsCompatible(s, p, y);
    PutKeepsInv(s, p, y, redis);
  }

  lemma AbortKeepsInv(s: State, p: nat, error: Error)
    requires Inv(s) && p < |s.processes| && !s.processes[p].phase.Finished?
    ensures Inv(Put(s, p, Abort(s.processes[p], error)))
  {
    StopKeepsInv(s, p, Refused(error), s.processes[p].request.Transfer?, s.redis);
  }

  lemma AdvanceKeepsInv(s: State, p: nat)
    requires Inv(s) && Enabled(s, Advance(p))
    ensures Inv(Do(s, Advance(p)))
  {
    hide ProcessInv;
    var phase := s.processes[p].phase;
    if phase.Arrived? {
      AdmitKeepsInv(s, p);
    } else if phase.Admitted? {
      BeginKeepsInv(s, p);
    } else if phase.Settle? {
      SettleKeepsInv(s, p, SettledKeys(s.redis, p, s.processes[p]));
    } else if phase.Commit? {
      if CommitAllowed(s, p) {
        CommitKeepsInv(s, p, Acknowledged);
      } else {
        AbortKeepsInv(s, p, SerializationFailure);
      }
    } else {
      StatementKeepsInv(s, p);
    }
  }

  lemma LostRedisKeepsInv(s: State, p: nat, applied: bool)
    requires Inv(s) && Enabled(s, LoseRedis(p, applied))
    ensures Inv(Do(s, LoseRedis(p, applied)))
  {
    hide ProcessInv;
    var s' := Do(s, LoseRedis(p, applied));
    if s.processes[p].phase.Settle? {
      SettleKeepsInv(s, p, s'.redis);
    } else {
      StopKeepsInv(s, p, Refused(RedisUnavailable), false, s'.redis);
    }
  }

  lemma ArriveKeepsInv(s: State, r: Request)
    requires Inv(s)
    ensures Inv(s.(processes := s.processes + [NewProcess(r)]))
  {
    hide ProcessInv;
    NewProcessInv(s.db, s.log, |s.processes|, r);
  }

  lemma NewProcessInv(db: Database, log: seq<Operation>, p: nat, r: Request)
    ensures ProcessInv(db, log, p, NewProcess(r))
  {
  }

  lemma StepKeepsInv(s: State, step: Step)
    requires Inv(s) && Enabled(s, step)
    ensures Inv(Do(s, step))
  {
    hide ProcessInv;
    match step
    case Arrive(r) => ArriveKeepsInv(s, r);
    case Advance(p) => AdvanceKeepsInv(s, p);
    case Fail(p) => AbortKeepsInv(s, p, DatabaseUnavailable);
    case LoseAck(p) => CommitKeepsInv(s, p, Refused(CommitUnknown));
    case LoseRedis(p, applied) => LostRedisKeepsInv(s, p, applied);
    case Crash(p) => StopKeepsInv(s, p, Crashed, false, s.redis);
    case Evict(_) =>
    case SetAccount(account, status) => SetAccountKeepsInv(s, account, status);
  }

  lemma {:induction false} RunsKeepInv(steps: seq<Step>)
    requires Run(steps).Some?
    ensures Inv(Run(steps).value)
  {
    if steps != [] {
      RunsKeepInv(steps[..|steps| - 1]);
      StepKeepsInv(Run(steps[..|steps| - 1]).value, steps[|steps| - 1]);
    }
  }

  /** Every reachable state satisfies the invariant. */
  lemma ReachableStatesSatisfyInv(s: State)
    requires Reachable(s)
    ensures Inv(s)
  {
    var steps :| Run(steps) == Some(s);
    RunsKeepInv(steps);
  }
}
