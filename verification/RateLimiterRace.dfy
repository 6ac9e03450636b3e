/** Concurrent checks of one key on Redis's own clock: trimming and counting is one step, adding,
    refreshing the expiry and undoing are further ones, and the whole key disappears at its deadline.
    The limit then holds up to the number of checks in flight, and that bound is reached. */
module RateLimiterRace {
  import opened Common
  import opened RateLimiter

  /** A check between its counting step and its end. */
  datatype Stage = Decided(accept: bool) | Added(accept: bool) | RejectedAdded

  datatype Race = Race(
    entries: set<int>,          // the sorted set
    expiresAt: Option<int>,     // deadline of the whole key
    clock: int,                 // time of the last command
    flight: map<int, Stage>,    // checks in flight, by timestamp
    accepted: set<int>,         // every request let through
    abandoned: set<int>,        // rejected requests whose entry could not be removed
    last: int)                  // timestamp of the last counting step

  /** Each command carries the time at which it reaches Redis. */
  datatype Step =
    | Count(now: int, at: int)   // trim, count and decide
    | Add(t: int, at: int)       // the request's own entry
    | Refresh(t: int, at: int)   // the expiry; an accepted check then ends
    | Undo(t: int, at: int)      // a rejected check removes its entry and ends
    | Abandon(t: int, at: int)   // a rejected check whose removal failed ends

  datatype Limits = Limits(maxRequests: nat, window: int, inFlight: nat)

  /** Counted, but the pipeline has not got to the expiry yet. */
  predicate Unrefreshed(s: Race, t: int) {
    t in s.flight && !s.flight[t].RejectedAdded?
  }

  /** The commands of a pipeline reach Redis within the slack of its timestamp. */
  predicate InTime(l: Limits, s: Race, at: int) {
    s.clock <= at && forall t <- s.flight :: Unrefreshed(s, t) ==> at <= t + Slack(l.window)
  }

  predicate Enabled(l: Limits, s: Race, step: Step) {
    && InTime(l, s, step.at)
    && match step
       case Count(now, at) => s.last < now <= at <= now + Slack(l.window) && |s.flight| < l.inFlight
       case Add(t, _) => t in s.flight && s.flight[t].Decided?
       case Refresh(t, _) => t in s.flight && s.flight[t].Added?
       case Undo(t, _) => t in s.flight && s.flight[t].RejectedAdded?
       case Abandon(t, _) => t in s.flight && s.flight[t].RejectedAdded?
  }

  /** Time passes; at its deadline the key is gone. */
  function Tick(s: Race, at: int): Race {
    if s.expiresAt.Some? && at >= s.expiresAt.value then s.(entries := {}, expiresAt := None, clock := at)
    else s.(clock := at)
  }

  /** A sorted set without members is no key, so it has no deadline. */
  function WithEntries(s: Race, entries: set<int>): Race {
    s.(entries := entries, expiresAt := if entries == {} then None else s.expiresAt)
  }

  /** The effect of the command itself, on a key that has not expired. */
  function Effect(l: Limits, s: Race, step: Step): Race
    requires match step case Add(t, _) => t in s.flight && s.flight[t].Decided?
                        case Refresh(t, _) => t in s.flight && s.flight[t].Added?
                        case _ => true
  {
    match step
    case Count(now, _) =>
      var trimmed := After(s.entries, now - l.window);
      var accept := |trimmed| < l.maxRequests;
      WithEntries(s, trimmed).(
        flight := s.flight[now := Decided(accept)],
        accepted := if accept then s.accepted + {now} else s.accepted,
        last := now)
    case Add(t, _) => s.(entries := s.entries + {t}, flight := s.flight[t := Added(s.flight[t].accept)])
    case Refresh(t, at) =>
      s.(expiresAt := if s.entries == {} then None else Some(at + Lifetime(l.window)),
         flight := if s.flight[t].accept then s.flight - {t} else s.flight[t := RejectedAdded])
    case Undo(t, _) => WithEntries(s, s.entries - {t}).(flight := s.flight - {t})
    case Abandon(t, _) => s.(flight := s.flight - {t}, abandoned := s.abandoned + {t})
  }

  function Do(l: Limits, s: Race, step: Step): Race
    requires Enabled(l, s, step)
  {
    Effect(l, Tick(s, step.at), step)
  }

  const START := Race({}, None, 0, map[], {}, {}, 0)

  function Run(l: Limits, steps: seq<Step>): Option<Race> {
    if steps == [] then Some(START)
    else
      match Run(l, steps[..|steps| - 1])
      case None => None
      case Some(s) => if Enabled(l, s, steps[|steps| - 1]) then Some(Do(l, s, steps[|steps| - 1])) else None
  }

  // ---------------------------------------------------------------- what every step keeps

  ghost predicate InOrder(l: Limits, s: Race) {
    && s.last <= s.clock && |s.flight| <= l.inFlight
    && (forall t <- s.accepted :: t <= s.last) && (forall t <- s.entries :: t <= s.last)
    && (forall t <- s.flight :: t <= s.last && (t in s.accepted <==> !s.flight[t].RejectedAdded? && s.flight[t].accept))
    && (forall t <- s.abandoned :: t <= s.last && t !in s.flight && t !in s.accepted)
    && (s.expiresAt.Some? ==> s.clock < s.expiresAt.value <= s.clock + Lifetime(l.window))
  }

  /** The requests whose entry is in the set as far as later checks can tell: the accepted ones, those
      in flight that have been added, and the rejected ones whose entry could not be removed. */
  function Counted(s: Race): set<int> {
    (set t | t in s.accepted && t !in s.flight) + (set t | t in s.flight && !s.flight[t].Decided?) + s.abandoned
  }

  /** The set holds nothing else, and everything of it that a later check may have to count. */
  ghost predicate Accounted(l: Limits, s: Race) {
    && (forall t <- s.entries :: t in Counted(s))
    && (forall t <- Counted(s) :: t > s.last - l.window && t > s.clock - Lifetime(l.window) ==> t in s.entries)
  }

  /** The deadline lies a lifetime beyond every entry whose pipeline is complete ... */
  ghost predicate EntriesOutlived(l: Limits, s: Race) {
    forall t <- s.entries :: !Unrefreshed(s, t) ==>
      s.expiresAt.Some? && t + Lifetime(l.window) <= s.expiresAt.value
  }

  /** ... and while pipelines are incomplete one of them is due to refresh it in time. */
  ghost predicate RefreshIsDue(l: Limits, s: Race) {
    s.expiresAt.Some? && (exists t :: Unrefreshed(s, t)) ==>
      exists t :: Unrefreshed(s, t) && t < s.expiresAt.value - Slack(l.window)
  }

  ghost predicate Inv(l: Limits, s: Race) {
    && InOrder(l, s) && Accounted(l, s) && EntriesOutlived(l, s) && RefreshIsDue(l, s)
    && Bounded(s.accepted, l.window, l.maxRequests + l.inFlight - 1)
  }

  /** At the deadline no pipeline is incomplete, so expiry removes only what no check needs any more. */
  lemma TickKeepsInv(l: Limits, s: Race, at: int)
    requires Inv(l, s) && InTime(l, s, at)
    ensures Inv(l, Tick(s, at)) && InTime(l, Tick(s, at), at)
  {
    if s.expiresAt.Some? && at >= s.expiresAt.value {
      assert forall t <- s.flight :: !Unrefreshed(s, t);
    } else {
      assert forall t :: Unrefreshed(Tick(s, at), t) <==> Unrefreshed(s, t);
    }
  }

  /** What a check counts is exactly what lies in its window. */
  lemma CountsExactly(l: Limits, s: Race, now: int, at: int)
    requires Inv(l, s) && s.clock == at && s.last < now && at <= now + Slack(l.window)
    ensures After(s.entries, now - l.window) == InWindow(Counted(s), l.window, now)
  {
  }

  lemma CountedWindow(l: Limits, s: Race, now: int, at: int)
    requires Inv(l, s) && s.clock == at && s.last < now && at <= now + Slack(l.window)
    ensures |InWindow(s.accepted, l.window, now)| <= |After(s.entries, now - l.window)| + |s.flight|
  {
    CountsExactly(l, s, now, at);
    var trimmed := After(s.entries, now - l.window);
    SubsetSize(InWindow(s.accepted, l.window, now), trimmed + s.flight.Keys);
    assert |trimmed + s.flight.Keys| <= |trimmed| + |s.flight.Keys|;
  }

  /** A check that finds the set not empty either finds an incomplete pipeline or comes before the
      deadline by more than the slack. */
  lemma CountKeepsDeadline(l: Limits, s: Race, now: int, at: int)
    requires InOrder(l, s) && EntriesOutlived(l, s) && RefreshIsDue(l, s) && s.last < now && l.window > 0
    ensures var s' := Effect(l, s, Count(now, at)); EntriesOutlived(l, s') && RefreshIsDue(l, s')
  {
    var s' := Effect(l, s, Count(now, at));
    assert forall t :: t != now ==> (Unrefreshed(s', t) <==> Unrefreshed(s, t));
    if s'.expiresAt.Some? {
      if t :| Unrefreshed(s, t) {
        var u :| Unrefreshed(s, u) && u < s.expiresAt.value - Slack(l.window);
        assert Unrefreshed(s', u);
      } else {
        var u :| u in s'.entries;
        assert Unrefreshed(s', now) && now < s'.expiresAt.value - Slack(l.window);
      }
    }
  }

  lemma FlightGrows(flight: map<int, Stage>, t: int, stage: Stage)
    requires t !in flight
    ensures |flight[t := stage]| == |flight| + 1
  {
    assert flight[t := stage].Keys == flight.Keys + {t};
  }

  lemma FlightShrinks(flight: map<int, Stage>, t: int)
    ensures |flight - {t}| <= |flight|
  {
    SubsetSize(flight.Keys - {t}, flight.Keys);
    assert (flight - {t}).Keys == flight.Keys - {t};
  }

  lemma CountKeepsOrder(l: Limits, s: Race, now: int, at: int)
    requires InOrder(l, s) && s.clock == at && s.last < now <= at && |s.flight| < l.inFlight
    ensures InOrder(l, Effect(l, s, Count(now, at)))
  {
    FlightGrows(s.flight, now, Decided(|After(s.entries, now - l.window)| < l.maxRequests));
  }

  lemma CountKeepsAccount(l: Limits, s: Race, now: int, at: int)
    requires InOrder(l, s) && Accounted(l, s) && s.clock == at && s.last < now
    ensures Accounted(l, Effect(l, s, Count(now, at)))
  {
    hide Lifetime;
  }

  lemma CountAccepts(l: Limits, s: Race, now: int, at: int)
    ensures Effect(l, s, Count(now, at)).accepted
            == if |After(s.entries, now - l.window)| < l.maxRequests then s.accepted + {now} else s.accepted
  {
  }

  lemma CountKeepsBound(l: Limits, s: Race, now: int, at: int)
    requires Inv(l, s) && s.clock == at && s.last < now <= at <= now + Slack(l.window) && |s.flight| < l.inFlight
    ensures Bounded(Effect(l, s, Count(now, at)).accepted, l.window, l.maxRequests + l.inFlight - 1)
  {
    CountedWindow(l, s, now, at);
    CountAccepts(l, s, now, at);
    assert forall t <- s.accepted :: t < now;
    hide *;
    if |After(s.entries, now - l.window)| < l.maxRequests {
      AcceptKeepsBound(s.accepted, l.window, now, l.maxRequests + l.inFlight - 1);
    }
  }

  lemma CountKeepsInv(l: Limits, s: Race, now: int, at: int)
    requires Inv(l, s) && s.clock == at && s.last < now <= at <= now + Slack(l.window)
    requires |s.flight| < l.inFlight && l.window > 0
    ensures Inv(l, Effect(l, s, Count(now, at)))
  {
    hide Bounded, EntriesOutlived, RefreshIsDue, InOrder, Accounted, Effect, Slack;
    CountKeepsOrder(l, s, now, at);
    CountKeepsAccount(l, s, now, at);
    CountKeepsDeadline(l, s, now, at);
    CountKeepsBound(l, s, now, at);
  }

  lemma AddKeepsInv(l: Limits, s: Race, t: int, at: int)
    requires Inv(l, s) && t in s.flight && s.flight[t].Decided?
    ensures Inv(l, Effect(l, s, Add(t, at)))
  {
    hide Bounded;
    var s' := Effect(l, s, Add(t, at));
    assert s'.flight.Keys == s.flight.Keys && |s'.flight| == |s.flight|;
    assert forall u :: Unrefreshed(s', u) <==> Unrefreshed(s, u);
  }

  lemma RefreshKeepsInv(l: Limits, s: Race, t: int, at: int)
    requires Inv(l, s) && s.clock == at && t in s.flight && s.flight[t].Added? && l.window > 0
    ensures Inv(l, Effect(l, s, Refresh(t, at)))
  {
    hide Bounded;
    var s' := Effect(l, s, Refresh(t, at));
    FlightShrinks(s.flight, t);
    assert s.flight[t := RejectedAdded].Keys == s.flight.Keys;
    assert forall u :: Unrefreshed(s', u) ==> u <= at < at + l.window == at + Lifetime(l.window) - Slack(l.window);
  }

  lemma EndKeepsInv(l: Limits, s: Race, step: Step)
    requires Inv(l, s) && (step.Undo? || step.Abandon?) && step.t in s.flight && s.flight[step.t].RejectedAdded?
    ensures Inv(l, Effect(l, s, step))
  {
    hide Bounded;
    var s' := Effect(l, s, step);
    FlightShrinks(s.flight, step.t);
    assert forall u :: Unrefreshed(s', u) <==> Unrefreshed(s, u);
  }

  lemma StepKeepsInv(l: Limits, s: Race, step: Step)
    requires Inv(l, s) && Enabled(l, s, step) && l.window > 0
    ensures Inv(l, Do(l, s, step))
  {
    TickKeepsInv(l, s, step.at);
    hide Inv, Effect;
    var s := Tick(s, step.at);
    match step
    case Count(now, at) => CountKeepsInv(l, s, now, at);
    case Add(t, at) => AddKeepsInv(l, s, t, at);
    case Refresh(t, at) => RefreshKeepsInv(l, s, t, at);
    case Undo(_, _) | Abandon(_, _) => EndKeepsInv(l, s, step);
  }

  lemma {:induction false} RunsKeepInv(l: Limits, steps: seq<Step>)
    requires l.inFlight > 0 && l.window > 0 && Run(l, steps).Some?
    ensures Inv(l, Run(l, steps).value)
  {
    if steps == [] {
      assert forall end :: InWindow({}, l.window, end) == {};
    } else {
      RunsKeepInv(l, steps[..|steps| - 1]);
      StepKeepsInv(l, Run(l, steps[..|steps| - 1]).value, steps[|steps| - 1]);
    }
  }

  /** With at most k checks in flight, each reaching Redis within the slack, no window lets through
      more than MaxRequests + k - 1 requests; with one check at a time that is MaxRequests. Whole-key
      expiry never weakens this, although it may be due between the commands of a check. */
  lemma RaceBound(l: Limits, steps: seq<Step>)
    requires l.inFlight > 0 && Run(l, steps).Some?
    ensures Bounded(Run(l, steps).value.accepted, l.window, l.maxRequests + l.inFlight - 1)
  {
    if l.window > 0 {
      RunsKeepInv(l, steps);
    } else {
      assert forall end :: InWindow(Run(l, steps).value.accepted, l.window, end) == {};
    }
  }

  /** Which checks are let through, in every run: those that find fewer than MaxRequests in their
      window, counting accepted requests, checks in flight that have been added, and rejected requests
      whose removal failed, and nothing else. */
  lemma DecidesExactly(l: Limits, steps: seq<Step>, now: int, at: int)
    requires l.inFlight > 0 && l.window > 0 && Run(l, steps).Some?
    requires Enabled(l, Run(l, steps).value, Count(now, at))
    ensures var s := Run(l, steps).value;
            now in Do(l, s, Count(now, at)).accepted <==> |InWindow(Counted(s), l.window, now)| < l.maxRequests
  {
    RunsKeepInv(l, steps);
    var s := Run(l, steps).value;
    TickKeepsInv(l, s, at);
    CountsExactly(l, Tick(s, at), now, at);
    CountAccepts(l, Tick(s, at), now, at);
    assert Counted(Tick(s, at)) == Counted(s);
    assert now !in s.accepted;
  }

  lemma {:induction false} NothingAbandoned(l: Limits, steps: seq<Step>)
    requires Run(l, steps).Some? && forall step <- steps :: !step.Abandon?
    ensures Run(l, steps).value.abandoned == {}
  {
    if steps != [] {
      NothingAbandoned(l, steps[..|steps| - 1]);
      assert steps[|steps| - 1] in steps;
    }
  }

  /** So while every rejected check removes its entry, a check is rejected only if the accepted requests
      of its window and the other checks in flight together reach MaxRequests; and with no other check
      in flight it is let through exactly when the accepted ones alone do not. */
  lemma RejectionsAreJustified(l: Limits, steps: seq<Step>, now: int, at: int)
    requires l.inFlight > 0 && l.window > 0 && Run(l, steps).Some? && forall step <- steps :: !step.Abandon?
    requires Enabled(l, Run(l, steps).value, Count(now, at))
    ensures var s := Run(l, steps).value;
            var accepts, used := now in Do(l, s, Count(now, at)).accepted, |InWindow(s.accepted, l.window, now)|;
            && (!accepts ==> used + |s.flight| >= l.maxRequests)
            && (s.flight == map[] ==> (accepts <==> used < l.maxRequests))
  {
    var s := Run(l, steps).value;
    DecidesExactly(l, steps, now, at);
    NothingAbandoned(l, steps);
    var counted, accepted := InWindow(Counted(s), l.window, now), InWindow(s.accepted, l.window, now);
    SubsetSize(counted, accepted + s.flight.Keys);
    assert |accepted + s.flight.Keys| <= |accepted| + |s.flight.Keys|;
    assert s.flight == map[] ==> counted == accepted;
  }

  // ---------------------------------------------------------------- the bound is reached

  /** The timestamps 1, 2, ..., n. */
  function UpTo(n: nat): set<int> {
    if n == 0 then {} else UpTo(n - 1) + {n}
  }

  lemma {:induction false} UpToMembers(n: nat)
    ensures |UpTo(n)| == n
    ensures forall t :: t in UpTo(n) <==> 1 <= t <= n
  {
    if n > 0 {
      UpToMembers(n - 1);
    }
  }

  lemma UpToIsCounted(n: nat, start: int)
    requires start < 1
    ensures After(UpTo(n), start) == UpTo(n) && |UpTo(n)| == n && (UpTo(n) == {} <==> n == 0)
  {
    UpToMembers(n);
  }

  lemma Extend(l: Limits, steps: seq<Step>, s: Race, step: Step) returns (steps': seq<Step>, s': Race)
    requires Run(l, steps) == Some(s) && Enabled(l, s, step)
    ensures Run(l, steps') == Some(s') && s' == Do(l, s, step)
  {
    steps', s' := steps + [step], Do(l, s, step);
    assert steps'[..|steps|] == steps;
  }

  function Deadline(l: Limits, n: nat): Option<int> {
    if n == 0 then None else Some(n + Lifetime(l.window))
  }

  /** n checks, one after the other, all accepted. */
  function Filled(l: Limits, n: nat): Race {
    Race(UpTo(n), Deadline(l, n), n, map[], UpTo(n), {}, n)
  }

  lemma SlackIsPositive(window: int)
    requires window > 0
    ensures 0 < Slack(window) <= SECOND && Lifetime(window) > window
  {
  }

  /** What the commands of a check do when the key has not expired and nothing is trimmed. */
  lemma CountEffect(l: Limits, s: Race, now: int)
    requires Enabled(l, s, Count(now, now)) && (s.expiresAt.Some? ==> now < s.expiresAt.value)
    requires After(s.entries, now - l.window) == s.entries && |s.entries| < l.maxRequests
    requires s.entries == {} ==> s.expiresAt.None?
    ensures Do(l, s, Count(now, now))
            == s.(clock := now, flight := s.flight[now := Decided(true)], accepted := s.accepted + {now}, last := now)
  {
    hide After, Slack;
  }

  /** One check in flight, between its commands. */
  function Busy(l: Limits, n: nat, entries: set<int>, stage: Stage): Race {
    Race(entries, Deadline(l, n), n + 1, map[n + 1 := stage], UpTo(n + 1), {}, n + 1)
  }

  lemma FirstCommand(l: Limits, n: nat)
    requires 0 < l.inFlight && n < l.maxRequests && n < l.window
    ensures Enabled(l, Filled(l, n), Count(n + 1, n + 1))
    ensures Do(l, Filled(l, n), Count(n + 1, n + 1)) == Busy(l, n, UpTo(n), Decided(true))
  {
    SlackIsPositive(l.window);
    UpToIsCounted(n, n + 1 - l.window);
    UpToNext(n);
    hide After, UpTo, Slack, Lifetime, Do;
    CountEffect(l, Filled(l, n), n + 1);
  }

  lemma SecondCommand(l: Limits, n: nat)
    requires 0 < l.window
    ensures var s := Busy(l, n, UpTo(n), Decided(true));
            Enabled(l, s, Add(n + 1, n + 1)) && Do(l, s, Add(n + 1, n + 1)) == Busy(l, n, UpTo(n + 1), Added(true))
  {
    SlackIsPositive(l.window);
    UpToNext(n);
    hide UpTo, Slack, Lifetime;
  }

  lemma ThirdCommand(l: Limits, n: nat)
    requires 0 < l.window
    ensures var s := Busy(l, n, UpTo(n + 1), Added(true));
            Enabled(l, s, Refresh(n + 1, n + 1)) && Do(l, s, Refresh(n + 1, n + 1)) == Filled(l, n + 1)
  {
    SlackIsPositive(l.window);
    UpToMembers(n + 1);
    hide UpTo, Slack, Lifetime;
    assert map[n + 1 := Added(true)] - {n + 1} == map[];
  }

  lemma CheckAlone(l: Limits, steps0: seq<Step>, n: nat) returns (steps: seq<Step>)
    requires Run(l, steps0) == Some(Filled(l, n)) && l.inFlight > 0 && n < l.maxRequests && n < l.window
    ensures Run(l, steps) == Some(Filled(l, n + 1))
  {
    hide *;
    var now := n + 1;
    FirstCommand(l, n);
    SecondCommand(l, n);
    ThirdCommand(l, n);
    var s := Filled(l, n);
    steps, s := Extend(l, steps0, s, Count(now, now));
    steps, s := Extend(l, steps, s, Add(now, now));
    steps, s := Extend(l, steps, s, Refresh(now, now));
  }

  lemma UpToNext(n: nat)
    ensures UpTo(n + 1) == UpTo(n) + {n + 1}
  {
  }

  lemma {:induction false} Sequential(l: Limits, n: nat) returns (steps: seq<Step>)
    requires l.inFlight > 0 && n <= l.maxRequests && n <= l.window
    ensures Run(l, steps) == Some(Filled(l, n))
  {
    steps := [];
    if n > 0 {
      steps := Sequential(l, n - 1);
      hide Run;
      steps := CheckAlone(l, steps, n - 1);
    }
  }

  /** The first n checks are in the set, and m more are in flight, let through. */
  ghost predicate PiledUp(l: Limits, s: Race, n: nat, m: nat) {
    && s.entries == UpTo(n) && s.expiresAt == Deadline(l, n) && s.accepted == UpTo(n + m) && s.abandoned == {}
    && s.clock == s.last == n + m && |s.flight| == m && forall t <- s.flight :: n < t <= s.last
  }

  lemma MayPileUp(l: Limits, s: Race, n: nat, m: nat)
    requires PiledUp(l, s, n, m) && m < l.inFlight <= Slack(l.window) && 0 < l.window
    ensures Enabled(l, s, Count(n + m + 1, n + m + 1))
    ensures s.expiresAt.Some? ==> n + m + 1 < s.expiresAt.value
  {
    hide UpTo, Slack;
    SlackAddsUp(l.window);
    hide Lifetime;
  }

  lemma SlackAddsUp(window: int)
    ensures Lifetime(window) == window + Slack(window)
  {
  }

  /** One more check has counted while the others are between their counting and adding steps. */
  lemma PiledUpNext(l: Limits, s: Race, n: nat, m: nat, s': Race)
    requires PiledUp(l, s, n, m)
    requires var now := n + m + 1;
             s' == s.(clock := now, flight := s.flight[now := Decided(true)], accepted := s.accepted + {now}, last := now)
    ensures PiledUp(l, s', n, m + 1)
  {
    var now := n + m + 1;
    UpToNext(n + m);
    hide UpTo, Deadline;
    FlightGrows(s.flight, now, Decided(true));
    assert n + (m + 1) == now;
  }

  lemma NothingTrimmed(l: Limits, s: Race, n: nat, m: nat)
    requires PiledUp(l, s, n, m) && n < l.maxRequests && n + m < l.window
    ensures After(s.entries, n + m + 1 - l.window) == s.entries && |s.entries| < l.maxRequests
    ensures s.entries == {} ==> s.expiresAt.None?
  {
    UpToIsCounted(n, n + m + 1 - l.window);
  }

  lemma PileUp(l: Limits, s: Race, n: nat, m: nat)
    requires PiledUp(l, s, n, m) && n < l.maxRequests && m < l.inFlight <= Slack(l.window) && n + m < l.window
    ensures Enabled(l, s, Count(n + m + 1, n + m + 1)) && PiledUp(l, Do(l, s, Count(n + m + 1, n + m + 1)), n, m + 1)
  {
    hide *;
    MayPileUp(l, s, n, m);
    NothingTrimmed(l, s, n, m);
    CountEffect(l, s, n + m + 1);
    PiledUpNext(l, s, n, m, Do(l, s, Count(n + m + 1, n + m + 1)));
  }

  lemma NonePiledUp(l: Limits, n: nat)
    ensures PiledUp(l, Filled(l, n), n, 0)
  {
    hide UpTo, Lifetime;
  }

  /** m more checks count before any of them adds: all are let through. */
  lemma {:induction false} Simultaneous(l: Limits, n: nat, m: nat) returns (steps: seq<Step>, s: Race)
    requires n < l.maxRequests && 0 < l.inFlight <= Slack(l.window) && m <= l.inFlight && n + m <= l.window
    ensures Run(l, steps) == Some(s) && PiledUp(l, s, n, m)
    decreases m
  {
    hide *;
    if m == 0 {
      steps := Sequential(l, n);
      s := Filled(l, n);
      NonePiledUp(l, n);
    } else {
      steps, s := Simultaneous(l, n, m - 1);
      PileUp(l, s, n, m - 1);
      steps, s := Extend(l, steps, s, Count(n + m, n + m));
    }
  }

  lemma PiledUpWindow(l: Limits, s: Race, n: nat, m: nat)
    requires PiledUp(l, s, n, m) && n + m <= l.window
    ensures |InWindow(s.accepted, l.window, s.last)| == n + m
  {
    UpToMembers(n + m);
    hide UpTo;
    assert InWindow(s.accepted, l.window, s.last) == s.accepted;
  }

  /** The bound is tight: some run lets through exactly MaxRequests + k - 1 requests in one window, if
      the window has room for as many timestamps and the slack for those of k checks. */
  lemma RaceBoundIsReached(l: Limits)
    requires l.maxRequests > 0 && 0 < l.inFlight <= Slack(l.window) && l.window >= l.maxRequests + l.inFlight - 1
    ensures exists steps :: Run(l, steps).Some?
              && |InWindow(Run(l, steps).value.accepted, l.window, Run(l, steps).value.last)|
                 == l.maxRequests + l.inFlight - 1
  {
    var n := l.maxRequests - 1;
    hide *;
    var steps, s := Simultaneous(l, n, l.inFlight);
    PiledUpWindow(l, s, n, l.inFlight);
  }
}
