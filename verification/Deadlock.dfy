/** Exactly which traffic can deadlock: a funding locks its target and then its source, a transfer its
    two accounts in UUID order; some requests can wait in a circle if and only if these pairs, taken
    as arrows between accounts, contain one. */
module Deadlock {
  import opened Common
  import opened Uuids
  import opened Ledger
  import opened Serial
  import opened Protocol
  import opened ProtocolInvariant
  import opened Progress
  import opened Runs
  import opened Idempotency
  import Money

  // ---------------------------------------------------------------- the arrows

  /** The account a request waits for while it holds its first one. */
  function Wants(r: Request): Uuid {
    if r.Transfer? then Second(r) else r.source
  }

  /** The checks before the second lock let the request through. */
  predicate GetsThere(r: Request) {
    if r.Transfer? then r.from != r.to && r.amount > 0.0
    else r.source != r.to && Money.StoreAmount(r.amount).Success?
  }

  /** The key of a funding is generated for it, so no other request has it. */
  predicate FundingKeysAreFresh(rs: seq<Request>) {
    forall i, j :: 0 <= i < |rs| && 0 <= j < |rs| && i != j && rs[j].Funding? ==> rs[i].key != rs[j].key
  }

  ghost predicate LockCycle(rs: seq<Request>) {
    && rs != [] && FundingKeysAreFresh(rs)
    && (forall i :: 0 <= i < |rs| ==> GetsThere(rs[i]))
    && (forall i :: 0 <= i < |rs| ==> Wants(rs[i]) == First(Next(rs, i)))
    && (forall i, j :: 0 <= i < j < |rs| ==> First(rs[i]) != First(rs[j]))
  }

  function Requests(s: State): seq<Request> {
    seq(|s.processes|, i requires 0 <= i < |s.processes| => s.processes[i].request)
  }

  predicate KeysDiffer(rs: seq<Request>) {
    forall i, j :: 0 <= i < j < |rs| ==> rs[i].key != rs[j].key
  }

  datatype Faults = AnyFault | NoEviction | NoFault

  predicate Within(steps: seq<Step>, faults: Faults) {
    match faults
    case AnyFault => true
    case NoEviction => forall step <- steps :: !step.Evict?
    case NoFault => FaultFree(steps)
  }

  /** Some interleaving of requests of these kinds, any number of each, reaches a circular wait with
      no other faults than these. */
  ghost predicate CanDeadlock(kinds: iset<Request>, faults: Faults) {
    exists steps, c :: Run(steps).Some? && Within(steps, faults)
                       && Traffic(Run(steps).value, kinds) && WaitCycle(Run(steps).value, c)
  }

  /** A circle of arrows of these kinds; two transfers in it share a key only if keys are evicted. */
  ghost predicate HasLockCycle(kinds: iset<Request>, faults: Faults) {
    exists rs :: LockCycle(rs) && (faults.AnyFault? || KeysDiffer(rs)) && forall r <- rs :: r in kinds
  }

  ghost predicate Traffic(s: State, kinds: iset<Request>) {
    FundingKeysAreFresh(Requests(s)) && forall r <- Requests(s) :: r in kinds
  }

  // ---------------------------------------------------------------- from a circular wait to the arrows

  /** Member i of the circle holds its first account and waits for the one the next member holds. */
  ghost predicate Linked(s: State, c: seq<nat>, i: nat) {
    && i < |c| && c[i] < |s.processes| && Next(c, i) < |s.processes|
    && var r := s.processes[c[i]].request;
       s.processes[c[i]].held == {First(r)} && GetsThere(r) && Wants(r) == First(s.processes[Next(c, i)].request)
  }

  /** With fresh keys nobody in the circle waits for a key. */
  lemma CircleWaitsForRows(s: State, c: seq<nat>, i: nat)
    requires Inv(s) && FundingKeysAreFresh(Requests(s)) && WaitCycle(s, c) && i < |c|
    ensures c[i] < |s.processes| && Next(c, i) < |s.processes|
    ensures var x := s.processes[c[i]];
            x.held == {First(x.request)} && GetsThere(x.request) && Wants(x.request) in s.processes[Next(c, i)].held
  {
    InCircle(s, c, i);
    assert ProcessInv(s.db, s.log, c[i], s.processes[c[i]]);
    hide WaitCycle, Inv;
    var x, y := s.processes[c[i]], s.processes[Next(c, i)];
    assert Requests(s)[c[i]] == x.request && Requests(s)[Next(c, i)] == y.request;
    ProcessFacts(s, c[i]);
    ProcessFacts(s, Next(c, i));
  }

  lemma CircleIsLinked(s: State, c: seq<nat>, i: nat)
    requires Inv(s) && FundingKeysAreFresh(Requests(s)) && WaitCycle(s, c) && i < |c|
    ensures Linked(s, c, i)
  {
    hide Inv, WaitCycle, Requests, FundingKeysAreFresh, GetsThere, Wants, First;
    CircleWaitsForRows(s, c, i);
    NextAt(c, i);
    CircleWaitsForRows(s, c, if i + 1 < |c| then i + 1 else 0);
  }

  ghost predicate ValidPath(s: State, c: seq<nat>) {
    forall i :: 0 <= i < |c| ==> c[i] < |s.processes|
  }

  function RequestsOf(s: State, c: seq<nat>): seq<Request>
    requires ValidPath(s, c)
  {
    seq(|c|, i requires 0 <= i < |c| => s.processes[c[i]].request)
  }

  lemma CircleKeysAreFresh(s: State, c: seq<nat>)
    requires ValidPath(s, c) && Distinct(c) && FundingKeysAreFresh(Requests(s))
    ensures FundingKeysAreFresh(RequestsOf(s, c)) && forall r <- RequestsOf(s, c) :: r in Requests(s)
  {
    var rs := RequestsOf(s, c);
    forall i | 0 <= i < |rs|
      ensures rs[i] == Requests(s)[c[i]]
    {
    }
    forall i, j | 0 <= i < |rs| && 0 <= j < |rs| && i != j && rs[j].Funding?
      ensures rs[i].key != rs[j].key
    {
      assert c[i] != c[j];
      assert Requests(s)[c[i]].key != Requests(s)[c[j]].key;
    }
  }

  lemma CircleHoldsDiffer(s: State, c: seq<nat>, i: nat, j: nat)
    requires LocksExclude(s.processes) && ValidPath(s, c) && Distinct(c) && i < j < |c|
    requires Linked(s, c, i) && Linked(s, c, j)
    ensures First(RequestsOf(s, c)[i]) != First(RequestsOf(s, c)[j])
  {
    assert First(RequestsOf(s, c)[i]) in s.processes[c[i]].held;
    assert c[i] != c[j];
  }

  lemma LinkedIsALockCycle(s: State, c: seq<nat>)
    requires ValidPath(s, c) && Distinct(c) && c != [] && LocksExclude(s.processes) && FundingKeysAreFresh(Requests(s))
    requires forall i :: 0 <= i < |c| ==> Linked(s, c, i)
    ensures LockCycle(RequestsOf(s, c))
  {
    hide LocksExclude, GetsThere, Wants, First, Distinct, Requests;
    var rs := RequestsOf(s, c);
    CircleKeysAreFresh(s, c);
    hide FundingKeysAreFresh;
    forall i, j | 0 <= i < j < |rs|
      ensures First(rs[i]) != First(rs[j])
    {
      assert Linked(s, c, i) && Linked(s, c, j);
      CircleHoldsDiffer(s, c, i, j);
    }
    forall i | 0 <= i < |rs|
      ensures Wants(rs[i]) == First(Next(rs, i)) && GetsThere(rs[i])
    {
      assert Linked(s, c, i);
      NextAt(rs, i);
      NextAt(c, i);
    }
  }

  lemma CircleIsALockCycle(s: State, c: seq<nat>) returns (rs: seq<Request>)
    requires Inv(s) && FundingKeysAreFresh(Requests(s)) && WaitCycle(s, c)
    ensures ValidPath(s, c) && rs == RequestsOf(s, c)
    ensures LockCycle(rs) && forall r <- rs :: r in Requests(s)
  {
    assert ValidPath(s, c) && Distinct(c) && LocksExclude(s.processes);
    hide *;
    forall i | 0 <= i < |c|
      ensures Linked(s, c, i)
    {
      CircleIsLinked(s, c, i);
    }
    rs := RequestsOf(s, c);
    CircleKeysAreFresh(s, c);
    assert c != [] by { CircleIsNotEmpty(s, c); }
    LinkedIsALockCycle(s, c);
  }

  lemma CircleIsNotEmpty(s: State, c: seq<nat>)
    requires WaitCycle(s, c)
    ensures c != []
  {
  }

  // ---------------------------------------------------------------- from the arrows to a run

  /** The first n requests hold their first account and ask for their second one. */
  ghost predicate Seated(s: State, rs: seq<Request>, n: nat) {
    && n <= |rs| && |s.processes| == n && KeysAreFree(s, rs, n) && s.db.transactions == []
    && (forall i :: 0 <= i < |rs| ==> ActiveAccount(s.db, First(rs[i])).Success?)
    && (forall i :: 0 <= i < n ==> IsSeated(s, s.processes[i], rs[i]))
  }

  /** The gate will let the others through. */
  predicate KeysAreFree(s: State, rs: seq<Request>, n: nat) {
    forall i :: n <= i < |rs| && rs[i].Transfer? ==> rs[i].key !in s.redis
  }

  predicate IsSeated(s: State, x: Process, r: Request) {
    && x.request == r && x.view == s.db && x.held == {First(r)} && x.shared == {}
    && if r.Transfer? then x.phase.AwaitSecond? && x.row.None?
       else x.phase.ReferenceSource? && x.row.Some? && x.row.value.key == r.key
  }

  lemma {:induction false} OpenAccounts(rs: seq<Request>, n: nat) returns (steps: seq<Step>, s: State)
    requires n <= |rs|
    ensures Run(steps) == Some(s) && s.processes == [] && s.redis == map[] && s.db.transactions == [] && FaultFree(steps)
    ensures forall i :: 0 <= i < n ==> ActiveAccount(s.db, First(rs[i])).Success?
  {
    Start();
    hide Run, First;
    steps, s := [], INITIAL;
    if n > 0 {
      steps, s := OpenAccounts(rs, n - 1);
      steps, s := Extend(steps, s, SetAccount(First(rs[n - 1]), Active));
    }
  }

  /** A new request is admitted, takes its snapshot and is about to lock its first account; its key is
      evicted behind it if others may need it. */
  lemma Enter(rs: seq<Request>, n: nat, evict: bool, steps0: seq<Step>, s0: State) returns (steps: seq<Step>, s: State)
    requires Run(steps0) == Some(s0) && LockCycle(rs) && n < |rs| && Seated(s0, rs, n) && (evict || KeysDiffer(rs))
    ensures Run(steps) == Some(s) && s.db == s0.db && KeysAreFree(s, rs, n + 1) && |s.processes| == n + 1
    ensures s.processes[..n] == s0.processes && (!evict && FaultFree(steps0) ==> FaultFree(steps))
    ensures s.processes[n] == NewProcess(rs[n]).(phase := AwaitFirst, view := s.db, snapshot := |s.log|)
  {
    var r := rs[n];
    assert Wants(r) == First(Next(rs, n)) && GetsThere(r);
    assert r.Funding? ==> ActiveAccount(s0.db, r.source).Success? && r.amount > 0.0;
    assert |s0.processes| == n && (r.Transfer? ==> r.key !in s0.redis) && KeysAreFree(s0, rs, n);
    hide Run, Seated, LockCycle;
    steps, s := Extend(steps0, s0, Arrive(r));
    steps, s := Extend(steps, s, Advance(n));
    assert s.processes[n] == NewProcess(r).(phase := Admitted);
    if evict {
      steps, s := Extend(steps, s, Evict(r.key));
    }
    steps, s := Extend(steps, s, Advance(n));
  }

  /** Nobody seated holds the first account of the next request, or its key. */
  lemma SeatIsFree(rs: seq<Request>, n: nat, s: State)
    requires LockCycle(rs) && n < |rs| && |s.processes| == n + 1
    requires forall i :: 0 <= i < n ==> IsSeated(s, s.processes[i], rs[i])
    ensures !RowBusy(s, n, First(rs[n])) && (rs[n].Funding? ==> !KeyBusy(s, n, rs[n].key))
  {
  }

  lemma FirstLock(db: Database, p: nat, x: Process, r: Request)
    requires x.request == r && x.phase.AwaitFirst? && x.view == db && x.held == {} && x.shared == {} && x.row.None?
    requires ActiveAccount(db, First(r)).Success?
    ensures Statement(db, p, x)
            == x.(phase := if r.Transfer? then AwaitSecond else InsertTransaction, held := {First(r)})
  {
    assert {} + {First(r)} == {First(r)};
  }

  lemma FundingInserts(db: Database, p: nat, x: Process, r: Request)
    requires x.request == r && x.phase.InsertTransaction? && r.Funding? && GetsThere(r) && db.transactions == []
    requires ActiveAccount(db, r.source).Success? && ActiveAccount(db, r.to).Success?
    ensures var y := Statement(db, p, x);
            y.row.Some? && y.row.value.key == r.key && y == x.(phase := ReferenceSource, row := y.row)
  {
  }

  /** It locks that account; a transfer is then seated. */
  lemma LockSeat(rs: seq<Request>, n: nat, evict: bool, steps0: seq<Step>, s0: State) returns (steps: seq<Step>, s: State)
    requires Run(steps0) == Some(s0) && LockCycle(rs) && n < |rs| && Seated(s0, rs, n) && (evict || KeysDiffer(rs))
    ensures Run(steps) == Some(s) && s.db == s0.db && KeysAreFree(s, rs, n + 1) && |s.processes| == n + 1
    ensures s.processes[..n] == s0.processes && (!evict && FaultFree(steps0) ==> FaultFree(steps))
    ensures var r, x := rs[n], s.processes[n];
            && x.request == r && x.view == s.db && x.held == {First(r)} && x.shared == {} && x.row.None?
            && x.phase == if r.Transfer? then AwaitSecond else InsertTransaction
  {
    var r := rs[n];
    assert ActiveAccount(s0.db, First(r)).Success?;
    steps, s := Enter(rs, n, evict, steps0, s0);
    assert forall i :: 0 <= i < n ==> IsSeated(s, s.processes[..n][i], rs[i]);
    SeatIsFree(rs, n, s);
    FirstLock(s.db, n, s.processes[n], r);
    hide Run, LockCycle, Seated, RowBusy, KeyBusy, Statement, ActiveAccount, IsSeated;
    steps, s := Extend(steps, s, Advance(n));
  }

  lemma SeatTaken(rs: seq<Request>, n: nat, s0: State, s: State)
    requires s.db == s0.db && KeysAreFree(s, rs, n + 1) && |s.processes| == n + 1 && s.processes[..n] == s0.processes
    requires n < |rs| && Seated(s0, rs, n) && IsSeated(s, s.processes[n], rs[n])
    ensures Seated(s, rs, n + 1)
  {
    assert forall i :: 0 <= i < n ==> s.processes[i] == s.processes[..n][i];
  }

  lemma TakeSeat(rs: seq<Request>, n: nat, evict: bool, steps0: seq<Step>, s0: State) returns (steps: seq<Step>, s: State)
    requires Run(steps0) == Some(s0) && LockCycle(rs) && n < |rs| && Seated(s0, rs, n) && (evict || KeysDiffer(rs))
    ensures Run(steps) == Some(s) && Seated(s, rs, n + 1) && (!evict && FaultFree(steps0) ==> FaultFree(steps))
  {
    var r := rs[n];
    assert Wants(r) == First(Next(rs, n)) && GetsThere(r);
    assert ActiveAccount(s0.db, Wants(r)).Success? && ActiveAccount(s0.db, First(r)).Success?;
    steps, s := LockSeat(rs, n, evict, steps0, s0);
    if r.Funding? {
      assert forall i :: 0 <= i < n ==> IsSeated(s, s.processes[..n][i], rs[i]);
      SeatIsFree(rs, n, s);
      FundingInserts(s.db, n, s.processes[n], r);
      hide Run, LockCycle, GetsThere, RowBusy, KeyBusy, Statement, ActiveAccount, NewTransaction, Seated;
      steps, s := Extend(steps, s, Advance(n));
    }
    hide Run, LockCycle, Seated;
    SeatTaken(rs, n, s0, s);
  }

  lemma {:induction false} TakeSeats(rs: seq<Request>, n: nat, evict: bool) returns (steps: seq<Step>, s: State)
    requires LockCycle(rs) && n <= |rs| && (evict || KeysDiffer(rs))
    ensures Run(steps) == Some(s) && Seated(s, rs, n) && (!evict ==> FaultFree(steps))
  {
    if n == 0 {
      steps, s := OpenAccounts(rs, |rs|);
    } else {
      steps, s := TakeSeats(rs, n - 1, evict);
      steps, s := TakeSeat(rs, n - 1, evict, steps, s);
    }
  }

  lemma Arrow(rs: seq<Request>, i: nat)
    requires LockCycle(rs) && i < |rs|
    ensures var j := if i + 1 < |rs| then i + 1 else 0;
            Wants(rs[i]) == First(rs[j]) && GetsThere(rs[i]) && GetsThere(rs[j]) && (i < j ==> First(rs[i]) != First(rs[j]))
  {
    NextAt(rs, i);
  }

  lemma SeatedNext(rs: seq<Request>, s: State, i: nat)
    requires LockCycle(rs) && Seated(s, rs, |rs|) && i < |rs|
    ensures WaitsFor(s, i, if i + 1 < |rs| then i + 1 else 0)
  {
    var next := if i + 1 < |rs| then i + 1 else 0;
    Arrow(rs, i);
    assert IsSeated(s, s.processes[i], rs[i]) && IsSeated(s, s.processes[next], rs[next]);
    assert ActiveAccount(s.db, Wants(rs[i])).Success?;
    hide WaitsFor, LockCycle, GetsThere, ActiveAccount;
    SeatedWaits(s, i, next);
  }

  /** Once all are seated they wait for each other. */
  lemma SeatedWait(rs: seq<Request>, s: State) returns (c: seq<nat>)
    requires LockCycle(rs) && Seated(s, rs, |rs|)
    ensures WaitCycle(s, c)
  {
    assert rs != [] && |s.processes| == |rs|;
    hide WaitsFor, LockCycle, Seated, IsSeated;
    c := seq(|rs|, i requires 0 <= i < |rs| => i);
    forall i | 0 < i < |c|
      ensures WaitsFor(s, c[i - 1], c[i])
    {
      SeatedNext(rs, s, i - 1);
    }
    SeatedNext(rs, s, |rs| - 1);
  }

  lemma SeatedWaits(s: State, p: nat, q: nat)
    requires p < |s.processes| && q < |s.processes|
    requires var x, y := s.processes[p], s.processes[q];
             && IsSeated(s, x, x.request) && IsSeated(s, y, y.request)
             && GetsThere(x.request) && Wants(x.request) == First(y.request)
             && ActiveAccount(s.db, Wants(x.request)).Success?
    ensures WaitsFor(s, p, q)
  {
    if s.processes[p].request.Transfer? {
      LockOrderIsSymmetric(s.processes[p].request.from, s.processes[p].request.to);
    }
  }

  // ---------------------------------------------------------------- the exact conditions

  /** Without eviction the gate keeps apart the transfers that wait for each other. */
  lemma CircleKeysDiffer(steps: seq<Step>, c: seq<nat>)
    requires Run(steps).Some? && forall step <- steps :: !step.Evict?
    requires FundingKeysAreFresh(Requests(Run(steps).value)) && WaitCycle(Run(steps).value, c)
    ensures ValidPath(Run(steps).value, c) && KeysDiffer(RequestsOf(Run(steps).value, c))
  {
    var s := Run(steps).value;
    GateIsExclusive(steps);
    forall i | 0 <= i < |c|
      ensures s.processes[c[i]].request.Transfer? ==> InFlight(s.processes[c[i]])
    {
      InCircle(s, c, i);
    }
    var rs := RequestsOf(s, c);
    hide WaitsFor, Inv;
    forall i, j | 0 <= i < j < |rs|
      ensures rs[i].key != rs[j].key
    {
      assert c[i] != c[j];
      assert Requests(s)[c[i]] == rs[i] && Requests(s)[c[j]] == rs[j];
    }
  }

  lemma DeadlockNeedsACircle(kinds: iset<Request>, faults: Faults)
    requires CanDeadlock(kinds, faults)
    ensures HasLockCycle(kinds, faults)
  {
    var steps, c :| Run(steps).Some? && Within(steps, faults)
                    && Traffic(Run(steps).value, kinds) && WaitCycle(Run(steps).value, c);
    var s := Run(steps).value;
    RunsKeepInv(steps);
    if !faults.AnyFault? {
      CircleKeysDiffer(steps, c);
    }
    hide Inv, Run, KeysDiffer;
    var rs := CircleIsALockCycle(s, c);
  }

  lemma CircleDeadlocks(kinds: iset<Request>, faults: Faults)
    requires HasLockCycle(kinds, faults)
    ensures CanDeadlock(kinds, faults)
  {
    var rs :| LockCycle(rs) && (faults.AnyFault? || KeysDiffer(rs)) && forall r <- rs :: r in kinds;
    var steps, s := TakeSeats(rs, |rs|, faults.AnyFault?);
    var c := SeatedWait(rs, s);
    SeatedTraffic(rs, s, kinds);
    hide Run, Traffic, WaitCycle;
    assert Within(steps, faults);
  }

  /** Requests of some kinds can deadlock if and only if the kinds contain a circle of arrows: without
      any fault if no two transfers of the circle share a key, and with evictions also if they do. No
      other fault adds a deadlock. */
  lemma DeadlockExactly(kinds: iset<Request>, faults: Faults)
    ensures CanDeadlock(kinds, faults) <==> HasLockCycle(kinds, faults)
  {
    hide *;
    if CanDeadlock(kinds, faults) {
      DeadlockNeedsACircle(kinds, faults);
    }
    if HasLockCycle(kinds, faults) {
      CircleDeadlocks(kinds, faults);
    }
  }

  lemma SeatedTraffic(rs: seq<Request>, s: State, kinds: iset<Request>)
    requires LockCycle(rs) && Seated(s, rs, |rs|) && forall r <- rs :: r in kinds
    ensures Traffic(s, kinds)
  {
    assert forall i :: 0 <= i < |rs| ==> IsSeated(s, s.processes[i], rs[i]);
    assert Requests(s) == rs;
  }

  lemma FundingAgainstTransfer(t: Request) returns (f: Request)
    requires t.Transfer? && t.from != t.to && t.amount > 0.0
    ensures f.Funding? && f.source == First(t) && LockCycle([t, f]) && KeysDiffer([t, f])
  {
    LockOrderIsSymmetric(t.from, t.to);
    f := Funding(First(t), Second(t), 1.0, if t.key == 0 then 1 else 0);
    assert Money.StoreAmount(1.0) == Success(10000);
  }

  ghost predicate TransferOrFundingFrom(t: Request, source: Uuid, r: Request) {
    r == t || (r.Funding? && r.source == source)
  }

  lemma SourceIsLockedFirst(t: Request, source: Uuid, rs: seq<Request>)
    requires t.Transfer? && LockCycle(rs) && forall r <- rs :: TransferOrFundingFrom(t, source, r)
    ensures source == First(t)
  {
    assert rs != [];
    LockOrderIsSymmetric(t.from, t.to);
    hide LockCycle;
    var i := if rs[0].Funding? || |rs| == 1 then 0 else 1;
    var j := if i + 1 < |rs| then i + 1 else 0;
    Arrow(rs, 0);
    Arrow(rs, i);
    assert rs[0] in rs && rs[i] in rs && rs[j] in rs;
  }

  /** Copies of one transfer and any fundings from one source deadlock if and only if that source is
      the account the transfer locks first, with or without faults. The seeded system account has the smallest number in use,
      so every transfer that touches it is of this kind. */
  lemma TransferDeadlocksExactly(t: Request, source: Uuid, faults: Faults)
    requires t.Transfer? && t.from != t.to && t.amount > 0.0
    ensures CanDeadlock((iset r | TransferOrFundingFrom(t, source, r)), faults) <==> source == First(t)
  {
    var kinds := iset r | TransferOrFundingFrom(t, source, r);
    DeadlockExactly(kinds, faults);
    hide LockCycle, CanDeadlock, KeysDiffer;
    if source == First(t) {
      var f := FundingAgainstTransfer(t);
      assert forall r <- [t, f] :: r in kinds;
    } else if rs :| LockCycle(rs) && (faults.AnyFault? || KeysDiffer(rs)) && forall r <- rs :: r in kinds {
      SourceIsLockedFirst(t, source, rs);
    }
  }
}
