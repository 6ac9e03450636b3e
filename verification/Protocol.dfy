/** The concurrent protocol: any number of transfers and fundings in flight, each a process that
    advances one statement at a time over shared tables, row locks and the Redis key map.
    Only the committed tables, Redis and the row locks are shared; rows written by an open
    database transaction stay in the process until it commits. */
module Protocol {
  import opened Common
  import opened Uuids
  import opened Ledger
  import opened Serial
  import Money

  /** Where a request is in TransferFunds or FundAccount: the statement it is about to execute. */
  datatype Phase =
    | Arrived           // request checks, then the Redis gate or the source lookup
    | Admitted          // begin; the first statement takes the snapshot
    | AwaitFirst        // first SELECT ... FOR UPDATE
    | AwaitSecond       // second SELECT ... FOR UPDATE
    | RefetchSender
    | RefetchReceiver   // and both status checks
    | SumBalance        // balance query and comparison
    | InsertTransaction
    | ReferenceSource   // foreign-key share lock of a funding on its source row
    | InsertDebit
    | InsertCredit
    | Promote
    | Commit
    | Settle            // write or delete the idempotency key
    | Finished

  datatype Outcome = Undecided | Acknowledged | Refused(error: Error) | Crashed

  /** One request being handled. Its index in the state stands for its fresh transaction id. */
  datatype Process = Process(
    request: Request,
    phase: Phase,
    view: Database,            // snapshot of the committed tables
    snapshot: nat,             // how many operations had committed at that moment
    held: set<Uuid>,           // rows locked FOR UPDATE
    shared: set<Uuid>,         // rows locked FOR KEY SHARE by a foreign key
    senderStatus: AccountStatus,
    row: Option<Transaction>,  // own uncommitted rows
    entries: seq<Entry>,
    outcome: Outcome)

  datatype Marker = Processing | Done(transaction: nat)

  /** `log` records the committed operations in commit order. */
  datatype State = State(
    db: Database,
    redis: map<Uuid, Marker>,
    processes: seq<Process>,
    log: seq<Operation>)

  datatype Step =
    | Arrive(request: Request)
    | Advance(p: nat)                  // the next statement completes
    | Fail(p: nat)                     // a database call fails; an open transaction is rolled back
    | LoseAck(p: nat)                  // the commit happens but is reported as an error
    | LoseRedis(p: nat, applied: bool) // a Redis call is reported as an error
    | Crash(p: nat)                    // the server dies; its database transaction is rolled back
    | Evict(key: Uuid)                 // Redis drops a key: expiry or memory pressure
    | SetAccount(account: Uuid, status: AccountStatus)

  // ---------------------------------------------------------------- the program of one process

  function First(r: Request): Uuid {
    if r.Transfer? then LockOrder(r.from, r.to).0 else r.to
  }

  function Second(r: Request): Uuid {
    if r.Transfer? then LockOrder(r.from, r.to).1 else r.to
  }

  predicate InTransaction(phase: Phase) {
    !phase.Arrived? && !phase.Admitted? && !phase.Settle? && !phase.Finished?
  }

  function NewProcess(r: Request): Process {
    Process(r, Arrived, SEEDED, 0, {}, {}, Active, None, [], Undecided)
  }

  function Stop(x: Process, outcome: Outcome): Process {
    x.(phase := Finished, held := {}, shared := {}, row := None, entries := [], outcome := outcome)
  }

  /** Rollback; a transfer then still has its idempotency key to release. */
  function Abort(x: Process, error: Error): Process {
    Stop(x, Refused(error)).(phase := if x.request.Transfer? then Settle else Finished)
  }

  /** SELECT ... FOR UPDATE once the row is free: the row must be visible in the snapshot and not
      have changed since. */
  function FetchForUpdate(db: Database, view: Database, account: Uuid): Result<Account, Error> {
    if account !in view.accounts then Failure(AccountNotFound)
    else if account !in db.accounts || db.accounts[account] != view.accounts[account] then Failure(SerializationFailure)
    else Success(db.accounts[account])
  }

  /** One statement of the open transaction of process p, other than the commit. */
  function Statement(db: Database, p: nat, x: Process): Process
    requires InTransaction(x.phase) && !x.phase.Commit?
  {
    var r := x.request;
    match x.phase
    case AwaitFirst =>
      (match FetchForUpdate(db, x.view, First(r))
       case Failure(e) => Abort(x, e)
       case Success(account) =>
         if r.Transfer? then x.(phase := AwaitSecond, held := x.held + {First(r)})
         else if !account.status.Active? then Abort(x, AccountNotActive)
         else x.(phase := InsertTransaction, held := x.held + {First(r)}))
    case AwaitSecond =>
      (match FetchForUpdate(db, x.view, Second(r))
       case Failure(e) => Abort(x, e)
       case Success(_) => x.(phase := RefetchSender, held := x.held + {Second(r)}))
    case RefetchSender =>
      (match FetchForUpdate(db, x.view, Source(r))
       case Failure(e) => Abort(x, e)
       case Success(account) =>
         x.(phase := RefetchReceiver, held := x.held + {Source(r)}, senderStatus := account.status))
    case RefetchReceiver =>
      (match FetchForUpdate(db, x.view, r.to)
       case Failure(e) => Abort(x, e)
       case Success(account) =>
         if !x.senderStatus.Active? || !account.status.Active? then Abort(x, AccountNotActive)
         else x.(phase := SumBalance, held := x.held + {r.to}))
    case SumBalance =>
      if Money.ToDecimal(Balance(x.view.ledger, Source(r))) < r.amount then Abort(x, InsufficientFunds)
      else x.(phase := InsertTransaction)
    case InsertTransaction =>
      (match NewTransaction(db, p, r)
       case Failure(e) => Abort(x, e)
       case Success(row) =>
         x.(phase := if r.Transfer? then InsertDebit else ReferenceSource, row := Some(row)))
    case ReferenceSource =>
      x.(phase := InsertCredit, shared := x.shared + {Source(r)})
    case InsertDebit =>
      (match NewEntry(Source(r), p, r.amount, Debit)
       case Failure(e) => Abort(x, e)
       case Success(debit) => x.(phase := InsertCredit, entries := x.entries + [debit]))
    case InsertCredit =>
      (match NewEntry(r.to, p, r.amount, Credit)
       case Failure(e) => Abort(x, e)
       case Success(credit) => x.(phase := Promote, entries := x.entries + [credit]))
    case Promote =>
      if x.row.None? then Abort(x, TransactionMissing)
      else x.(phase := Commit, row := Some(x.row.value.(status := Completed)))
  }

  // ---------------------------------------------------------------- waiting and refused commits

  /** Some other process holds a lock on the row that excludes FOR UPDATE. */
  predicate RowBusy(s: State, p: nat, account: Uuid) {
    exists q :: 0 <= q < |s.processes| && q != p
                && (account in s.processes[q].held || account in s.processes[q].shared)
  }

  /** Some other process holds the row FOR UPDATE, which excludes a foreign-key share lock. */
  predicate RowLocked(s: State, p: nat, account: Uuid) {
    exists q :: 0 <= q < |s.processes| && q != p && account in s.processes[q].held
  }

  /** Some other open transaction has inserted a row with the key; the insert waits for its end. */
  predicate KeyBusy(s: State, p: nat, key: Uuid) {
    exists q :: 0 <= q < |s.processes| && q != p
                && s.processes[q].row.Some? && s.processes[q].row.value.key == key
  }

  predicate Blocked(s: State, p: nat)
    requires p < |s.processes|
  {
    var x := s.processes[p];
    match x.phase
    case AwaitFirst => First(x.request) in x.view.accounts && RowBusy(s, p, First(x.request))
    case AwaitSecond => Second(x.request) in x.view.accounts && RowBusy(s, p, Second(x.request))
    case RefetchSender => RowBusy(s, p, Source(x.request))
    case RefetchReceiver => RowBusy(s, p, x.request.to)
    case InsertTransaction => NewTransaction(s.db, p, x.request).Success? && KeyBusy(s, p, x.request.key)
    case ReferenceSource => RowLocked(s, p, Source(x.request))
    case _ => false
  }

  /** Accounts whose ledger rows a committed operation summed. */
  function Summed(op: Operation): set<Uuid> {
    if op.Posted? && op.request.Transfer? then {op.request.from} else {}
  }

  /** Accounts for which a committed operation wrote ledger rows. */
  function Wrote(op: Operation): set<Uuid> {
    if !op.Posted? then {}
    else if op.request.Transfer? then {op.request.from, op.request.to}
    else {op.request.to}
  }

  /** The two operations each missed rows the other wrote: neither order explains both. */
  predicate Conflict(u: Operation, t: Operation) {
    Wrote(u) * Summed(t) != {} && Summed(u) * Wrote(t) != {}
  }

  /** Serializable isolation refuses at least the commits with such a conflict. */
  predicate CommitAllowed(s: State, p: nat)
    requires p < |s.processes|
  {
    forall i :: s.processes[p].snapshot <= i < |s.log| ==> !Conflict(s.log[i], Posted(p, s.processes[p].request))
  }

  // ---------------------------------------------------------------- steps

  function Put(s: State, p: nat, x: Process): State
    requires p < |s.processes|
  {
    s.(processes := s.processes[p := x])
  }

  /** Request checks and, for a transfer, SET NX; for a funding, the lookup of the source account. */
  function Admit(s: State, p: nat): State
    requires p < |s.processes|
  {
    var x := s.processes[p];
    var r := x.request;
    if r.Transfer? && r.from == r.to then Put(s, p, Stop(x, Refused(SameAccount)))
    else if r.amount <= 0.0 then Put(s, p, Stop(x, Refused(InvalidAmount)))
    else if r.Transfer? then
      if r.key in s.redis then Put(s, p, Stop(x, Refused(DuplicateTransaction)))
      else Put(s, p, x.(phase := Admitted)).(redis := s.redis[r.key := Processing])
    else if ActiveAccount(s.db, r.source).Failure? then Put(s, p, Stop(x, Refused(AccountNotFound)))
    else Put(s, p, x.(phase := Admitted))
  }

  function CommitTables(db: Database, x: Process): Database {
    db.(transactions := db.transactions + (if x.row.Some? then [x.row.value] else []),
        ledger := db.ledger + x.entries)
  }

  function CommitAs(s: State, p: nat, outcome: Outcome): State
    requires p < |s.processes|
  {
    var x := s.processes[p];
    Put(s, p, Stop(x, outcome).(phase := if x.request.Transfer? then Settle else Finished)).(
      db := CommitTables(s.db, x),
      log := s.log + [Posted(p, x.request)])
  }

  /** The key stays after success and is deleted after failure, whoever wrote it last. */
  function SettledKeys(redis: map<Uuid, Marker>, p: nat, x: Process): map<Uuid, Marker> {
    if x.outcome.Acknowledged? then redis[x.request.key := Done(p)] else redis - {x.request.key}
  }

  function AdvanceProcess(s: State, p: nat): State
    requires p < |s.processes|
  {
    var x := s.processes[p];
    match x.phase
    case Arrived => Admit(s, p)
    case Admitted => Put(s, p, x.(phase := AwaitFirst, view := s.db, snapshot := |s.log|))
    case Commit =>
      if CommitAllowed(s, p) then CommitAs(s, p, Acknowledged)
      else Put(s, p, Abort(x, SerializationFailure))
    case Settle => Put(s, p, x.(phase := Finished)).(redis := SettledKeys(s.redis, p, x))
    case Finished => s
    case _ => Put(s, p, Statement(s.db, p, x))
  }

  /** A transfer that passed the request checks and is about to execute SET NX. */
  predicate AtGate(x: Process) {
    x.phase.Arrived? && x.request.Transfer? && x.request.from != x.request.to && x.request.amount > 0.0
  }

  /** The process is about to call the database. */
  predicate MayFail(x: Process) {
    x.phase.Admitted? || InTransaction(x.phase) || (x.phase.Arrived? && x.request.Funding? && x.request.amount > 0.0)
  }

  predicate Enabled(s: State, step: Step) {
    match step
    case Arrive(_) => true
    case Advance(p) => p < |s.processes| && !s.processes[p].phase.Finished? && !Blocked(s, p)
    case Fail(p) => p < |s.processes| && MayFail(s.processes[p])
    case LoseAck(p) => p < |s.processes| && s.processes[p].phase.Commit? && CommitAllowed(s, p)
    case LoseRedis(p, _) => p < |s.processes| && (s.processes[p].phase.Settle? || AtGate(s.processes[p]))
    case Crash(p) => p < |s.processes| && !s.processes[p].phase.Finished?
    case Evict(_) => true
    case SetAccount(account, _) => !RowLocked(s, |s.processes|, account)
  }

  function Do(s: State, step: Step): State
    requires Enabled(s, step)
  {
    match step
    case Arrive(r) => s.(processes := s.processes + [NewProcess(r)])
    case Advance(p) => AdvanceProcess(s, p)
    case Fail(p) => Put(s, p, Abort(s.processes[p], DatabaseUnavailable))
    case LoseAck(p) => CommitAs(s, p, Refused(CommitUnknown))
    case LoseRedis(p, applied) =>
      var x := s.processes[p];
      if x.phase.Settle? then
        Put(s, p, x.(phase := Finished)).(redis := if applied then SettledKeys(s.redis, p, x) else s.redis)
      else
        Put(s, p, Stop(x, Refused(RedisUnavailable))).(
          redis := if applied && x.request.key !in s.redis then s.redis[x.request.key := Processing] else s.redis)
    case Crash(p) => Put(s, p, Stop(s.processes[p], Crashed))
    case Evict(key) => s.(redis := s.redis - {key})
    case SetAccount(account, status) =>
      s.(db := ApplyAccount(s.db, account, status), log := s.log + [AccountSet(account, status)])
  }

  const INITIAL := State(SEEDED, map[], [], [])

  /** The state after a sequence of steps, if each was enabled when it was taken. */
  function Run(steps: seq<Step>): Option<State> {
    if steps == [] then Some(INITIAL)
    else
      match Run(steps[..|steps| - 1])
      case None => None
      case Some(s) => if Enabled(s, steps[|steps| - 1]) then Some(Do(s, steps[|steps| - 1])) else None
  }

  ghost predicate Reachable(s: State) {
    exists steps :: Run(steps) == Some(s)
  }
}
