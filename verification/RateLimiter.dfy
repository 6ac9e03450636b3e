/** The per-client sliding-window limiter: one Redis sorted set, trimmed and expired as it is used,
    stands in for the whole history of accepted requests. Times are nanoseconds. */
module RateLimiter {
  import opened Common

  const SECOND := 1_000_000_000

  /** What EXPIRE is given: the window plus one second, cut to whole seconds. */
  function Lifetime(window: int): int {
    (window + SECOND) / SECOND * SECOND
  }

  /** How much longer than the window a key lives. */
  function Slack(window: int): int {
    Lifetime(window) - window
  }

  /** The timestamps of a set that lie in the half-open window (end - window, end]. */
  function InWindow(times: set<int>, window: int, end: int): set<int> {
    set t | t in times && end - window < t <= end
  }

  function Budget(maxRequests: int): nat {
    if maxRequests > 0 then maxRequests else 0
  }

  /** No window of the given length holds more accepted requests than the bound. */
  ghost predicate Bounded(accepted: set<int>, window: int, bound: int) {
    forall end :: |InWindow(accepted, window, end)| <= bound
  }

  lemma SubsetSize<T>(a: set<T>, b: set<T>)
    requires a <= b
    ensures |a| <= |b|
  {
    assert a + (b - a) == b;
  }

  /** Accepting one more, latest, request: only the windows that contain it grow, and all they hold
      besides it lies in the window that ends with it. */
  lemma AcceptKeepsBound(accepted: set<int>, window: int, now: int, bound: int)
    requires Bounded(accepted, window, bound) && (forall t <- accepted :: t < now)
    requires |InWindow(accepted, window, now)| < bound
    ensures Bounded(accepted + {now}, window, bound)
  {
    forall end
      ensures |InWindow(accepted + {now}, window, end)| <= bound
    {
      if end < now {
        assert InWindow(accepted + {now}, window, end) == InWindow(accepted, window, end);
      } else {
        var all := InWindow(accepted, window, now) + {now};
        assert InWindow(accepted + {now}, window, end) <= all;
        SubsetSize(InWindow(accepted + {now}, window, end), all);
      }
    }
  }

  /** What a command sees of a key at the server's clock `at`: an expired key is gone. */
  function Live(entries: set<int>, expiresAt: Option<int>, at: int): set<int> {
    if expiresAt.Some? && at >= expiresAt.value then {} else entries
  }

  function After(entries: set<int>, start: int): set<int> {
    set t | t in entries && t > start
  }

  /** The trimmed, expiring set holds exactly the accepted requests of the last window, its expiry
      lies beyond that window by the slack, and no window ever held more than the budget. */
  ghost predicate Tracks(entries: set<int>, expiresAt: Option<int>, accepted: set<int>, last: int, window: int, maxRequests: int) {
    && (forall t <- accepted :: t <= last)
    && entries == InWindow(accepted, window, last)
    && (if entries == {} then expiresAt.None? else expiresAt.Some? && expiresAt.value >= last + Lifetime(window))
    && Bounded(accepted, window, Budget(maxRequests))
  }

  /** Trimming and whole-key expiry remove nothing that the next window still needs. */
  lemma LiveEntriesSuffice(entries: set<int>, expiresAt: Option<int>, accepted: set<int>, last: int, window: int, maxRequests: int, now: int, at: int)
    requires Tracks(entries, expiresAt, accepted, last, window, maxRequests)
    requires last < now <= at <= now + Slack(window)
    ensures After(Live(entries, expiresAt, at), now - window) == InWindow(accepted, window, now)
  {
  }

  lemma RejectionTracks(accepted: set<int>, last: int, window: int, maxRequests: int, now: int, at: int)
    requires (forall t <- accepted :: t <= last) && last < now <= at && Bounded(accepted, window, Budget(maxRequests))
    ensures var entries := InWindow(accepted, window, now) + {now} - {now};
            Tracks(entries, if entries == {} then None else Some(at + Lifetime(window)), accepted, now, window, maxRequests)
  {
    assert InWindow(accepted, window, now) + {now} - {now} == InWindow(accepted, window, now);
  }

  lemma AcceptanceTracks(accepted: set<int>, last: int, window: int, maxRequests: int, now: int, at: int)
    requires (forall t <- accepted :: t <= last) && last < now <= at && Bounded(accepted, window, Budget(maxRequests))
    requires window > 0 && |InWindow(accepted, window, now)| < maxRequests
    ensures Tracks(InWindow(accepted, window, now) + {now}, Some(at + Lifetime(window)), accepted + {now}, now, window, maxRequests)
  {
    AcceptKeepsBound(accepted, window, now, Budget(maxRequests));
    assert InWindow(accepted, window, now) + {now} == InWindow(accepted + {now}, window, now);
  }

  lemma CheckTracks(entries: set<int>, expiresAt: Option<int>, accepted: set<int>, last: int, window: int, maxRequests: int, now: int, at: int)
    requires Tracks(entries, expiresAt, accepted, last, window, maxRequests)
    requires last < now <= at <= now + Slack(window) && window > 0
    ensures var counted := After(Live(entries, expiresAt, at), now - window);
            && counted == InWindow(accepted, window, now)
            && (var undone := counted + {now} - {now};
                Tracks(undone, if undone == {} then None else Some(at + Lifetime(window)), accepted, now, window, maxRequests))
            && (|counted| < maxRequests ==>
                  Tracks(counted + {now}, Some(at + Lifetime(window)), accepted + {now}, now, window, maxRequests))
  {
    LiveEntriesSuffice(entries, expiresAt, accepted, last, window, maxRequests, now, at);
    RejectionTracks(accepted, last, window, maxRequests, now, at);
    if |InWindow(accepted, window, now)| < maxRequests {
      AcceptanceTracks(accepted, last, window, maxRequests, now, at);
    }
  }

  /** The slack is exactly the delay between the timestamp of a check and its commands that whole-key
      expiry tolerates without changing a decision. It is one second if the window is a whole number
      of seconds, and less otherwise. */
  lemma ExpirySlackIsExact(window: int, maxRequests: int, delay: nat)
    requires window > 1 && maxRequests > 0
    ensures 0 < Slack(window) <= SECOND && (Slack(window) == SECOND <==> window % SECOND == 0)
    ensures delay <= Slack(window) <==>
            forall entries, expiresAt, accepted, last, now ::
              Tracks(entries, expiresAt, accepted, last, window, maxRequests) && last < now ==>
                After(Live(entries, expiresAt, now + delay), now - window) == InWindow(accepted, window, now)
  {
    if delay > Slack(window) {
      var now := window - 1;
      assert Bounded({0}, window, Budget(maxRequests)) by {
        forall end
          ensures |InWindow({0}, window, end)| <= Budget(maxRequests)
        {
          SubsetSize(InWindow({0}, window, end), {0});
        }
      }
      assert InWindow({0}, window, 0) == {0} && 0 in InWindow({0}, window, now);
      assert Tracks({0}, Some(Lifetime(window)), {0}, 0, window, maxRequests);
      assert After(Live({0}, Some(Lifetime(window)), now + delay), now - window) == {};
    }
  }

  /** In numbers, for the configured window of one minute: the delay that is tolerated is exactly one
      second, and a key that is not used any more is gone after sixty-one. */
  lemma OneMinuteWindow(maxRequests: int, delay: nat)
    requires maxRequests > 0
    ensures Lifetime(60_000_000_000) == 61_000_000_000
    ensures delay <= 1_000_000_000 <==>
            forall entries, expiresAt, accepted, last, now ::
              Tracks(entries, expiresAt, accepted, last, 60_000_000_000, maxRequests) && last < now ==>
                After(Live(entries, expiresAt, now + delay), now - 60_000_000_000) == InWindow(accepted, 60_000_000_000, now)
  {
    ExpirySlackIsExact(60_000_000_000, maxRequests, delay);
  }

  /** One sorted-set key; member and score are the same timestamp. `at` is the server's clock. */
  class SortedSet {
    var entries: set<int>
    var expiresAt: Option<int>

    constructor ()
      ensures entries == {} && expiresAt.None?
    {
      entries, expiresAt := {}, None;
    }

    method ZRemRangeByScore(max: int, at: int)
      modifies this
      ensures entries == After(old(Live(entries, expiresAt, at)), max)
      ensures entries != {} ==> expiresAt == old(expiresAt) && (expiresAt.Some? ==> at < expiresAt.value)
      ensures entries == {} ==> expiresAt.None?
    {
      entries := After(Live(entries, expiresAt, at), max);
      if entries == {} {
        expiresAt := None;
      }
    }

    method ZCard(at: int) returns (count: nat)
      ensures count == |Live(entries, expiresAt, at)|
    {
      count := |Live(entries, expiresAt, at)|;
    }

    method ZAdd(t: int, at: int)
      modifies this
      ensures entries == old(Live(entries, expiresAt, at)) + {t}
      ensures expiresAt == if old(expiresAt.Some? && at >= expiresAt.value) then None else old(expiresAt)
    {
      if expiresAt.Some? && at >= expiresAt.value {
        entries, expiresAt := {}, None;
      }
      entries := entries + {t};
    }

    method Expire(deadline: int)
      modifies this`expiresAt
      ensures expiresAt == if entries == {} then old(expiresAt) else Some(deadline)
    {
      if entries != {} {
        expiresAt := Some(deadline);
      }
    }

    method ZRem(t: int)
      modifies this
      ensures entries == old(entries) - {t}
      ensures expiresAt == if entries == {} then None else old(expiresAt)
    {
      entries := entries - {t};
      if entries == {} {
        expiresAt := None;
      }
    }
  }

  /** How the pipeline ends: every command replied, or an error after some of the four were applied. */
  datatype PipelineReply = Works | Fails(applied: nat)

  datatype Decision = Decision(allowed: bool, remaining: int)

  class RateLimiter {
    const maxRequests: int
    const window: int
    const key: SortedSet

    /** The untrimmed specification: every request accepted so far, and the time of the last check. */
    ghost var accepted: set<int>
    ghost var last: int
    /** Checks came with strictly increasing timestamps and each reached Redis within the slack. */
    ghost var regular: bool

    constructor (maxRequests: int, window: int, start: int)
      requires window > 0
      ensures Valid() && regular && accepted == {} && last == start && fresh(key)
      ensures this.maxRequests == maxRequests && this.window == window
    {
      this.maxRequests, this.window := maxRequests, window;
      key := new SortedSet();
      accepted, last, regular := {}, start, true;
      new;
      assert forall end :: InWindow({}, window, end) == {};
    }

    ghost predicate Valid()
      reads this, key
    {
      && window > 0
      && (regular ==> Tracks(key.entries, key.expiresAt, accepted, last, window, maxRequests))
    }

    /** The pipelined commands: trim, count, add, refresh the expiry. After an error the first
        `applied` of them have taken effect. */
    method Pipeline(now: int, at: int, reply: PipelineReply) returns (count: Result<nat, Error>)
      modifies key
      ensures reply.Works? ==>
                var counted := After(old(Live(key.entries, key.expiresAt, at)), now - window);
                && count == Success(|counted|) && key.entries == counted + {now}
                && key.expiresAt == Some(at + Lifetime(window))
      ensures reply.Fails? ==> count == Failure(RedisUnavailable)
      ensures reply.Fails? && reply.applied == 0 ==> key.entries == old(key.entries) && key.expiresAt == old(key.expiresAt)
    {
      var applied := if reply.Works? then 4 else reply.applied;
      if applied >= 1 {
        key.ZRemRangeByScore(now - window, at);
      }
      var card := 0;
      if applied >= 2 {
        card := key.ZCard(at);
      }
      if applied >= 3 {
        key.ZAdd(now, at);
      }
      if applied >= 4 {
        key.Expire(at + Lifetime(window));
      }
      return if reply.Works? then Success(card) else Failure(RedisUnavailable);
    }

    /** The commands and the decision of one check, on the sorted set alone. */
    method Decide(now: int, at: int, reply: PipelineReply) returns (r: Result<Decision, Error>)
      modifies key
      ensures reply.Works? ==>
                var counted := After(old(Live(key.entries, key.expiresAt, at)), now - window);
                && r.Success? && (r.value.allowed <==> |counted| < maxRequests)
                && r.value.remaining == (if r.value.allowed then maxRequests - |counted| - 1 else 0)
                && key.entries == (if r.value.allowed then counted + {now} else counted + {now} - {now})
                && key.expiresAt == if key.entries == {} then None else Some(at + Lifetime(window))
      ensures reply.Fails? ==> r == Failure(RedisUnavailable)
      ensures reply.Fails? && reply.applied == 0 ==> key.entries == old(key.entries) && key.expiresAt == old(key.expiresAt)
    {
      var count := Pipeline(now, at, reply);
      if count.Failure? {
        return Failure(count.error);
      }
      if count.value >= maxRequests {
        key.ZRem(now);
        return Success(Decision(false, 0));
      }
      var remaining := maxRequests - count.value - 1;
      if remaining < 0 {
        remaining := 0;
      }
      return Success(Decision(true, remaining));
    }

    /** One check. While the history is regular its decision, and the remaining budget it reports,
        are those of the specification that counts all accepted requests in (now - window, now];
        a rejected attempt changes nothing the specification sees. An error of Redis is passed on;
        if no command was applied the next checks decide as if this one had not been made. */
    method Check(now: int, at: int, reply: PipelineReply) returns (r: Result<Decision, Error>)
      requires Valid()
      modifies this, key
      ensures Valid()
      ensures reply.Works? ==>
                && r.Success? && r.value.remaining >= 0 && last == now
                && regular == (old(regular) && old(last) < now <= at <= now + Slack(window))
                && accepted == if r.value.allowed then old(accepted) + {now} else old(accepted)
      ensures reply.Works? && regular ==>
                var used := |InWindow(old(accepted), window, now)|;
                && (r.value.allowed <==> used < maxRequests)
                && r.value.remaining == if r.value.allowed then maxRequests - used - 1 else 0
      ensures reply.Fails? ==>
                && r == Failure(RedisUnavailable) && accepted == old(accepted) && last == old(last)
                && regular == (old(regular) && reply.applied == 0)
    {
      hide InWindow, Tracks, After, Live;
      ghost var inOrder := last < now <= at <= now + Slack(window);
      if regular && reply.Works? && inOrder {
        CheckTracks(key.entries, key.expiresAt, accepted, last, window, maxRequests, now, at);
      }
      r := Decide(now, at, reply);
      if r.Failure? {
        regular := regular && reply.applied == 0;
        return;
      }
      regular := regular && inOrder;
      last := now;
      accepted := if r.value.allowed then accepted + {now} else accepted;
    }

    /** The middleware: a request is served unless the check rejects it; it fails open. */
    method Limit(now: int, at: int, reply: PipelineReply) returns (served: bool)
      requires Valid()
      modifies this, key
      ensures Valid()
      ensures reply.Fails? ==> served
      ensures reply.Works? ==> last == now && regular == (old(regular) && old(last) < now <= at <= now + Slack(window))
      ensures reply.Works? && regular ==> (served <==> |InWindow(old(accepted), window, now)| < maxRequests)
      ensures accepted == if served && reply.Works? then old(accepted) + {now} else old(accepted)
    {
      var r := Check(now, at, reply);
      return r.Failure? || r.value.allowed;
    }
  }
}
