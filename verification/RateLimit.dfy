/** The in-memory token bucket that slows login attempts (backend/genwatch/services/ratelimit.py). */
module RateLimit {
  import opened Prelude

  /** One call of check(key): when, and what it answered. */
  datatype Call = Call(at: real, allowed: bool)

  datatype Bucket = Bucket(tokens: real, last: real)

  /** The two constructor arguments of the limiter. */
  datatype Policy = Policy(capacity: real, refill: real) {
    /** Fill a level for dt seconds, clamped at the capacity. */
    function Fill(level: real, dt: real): real {
      MinReal(capacity, level + dt * refill)
    }

    // ---- the lazily refilled bucket, as a function of the calls made ---------------

    /** Tokens available to a call at time now. */
    function Before(calls: seq<Call>, now: real): real
      decreases |calls|, 1
    {
      if calls == [] then capacity else Fill(After(calls), now - Latest(calls).at)
    }

    /** Tokens left once the last call was answered. */
    function After(calls: seq<Call>): real
      requires calls != []
      decreases |calls|, 0
    {
      Before(Front(calls), Latest(calls).at) - (if Latest(calls).allowed then 1.0 else 0.0)
    }

    /** The answer the code gives after these calls; a key without a bucket is always let in. */
    predicate Grants(calls: seq<Call>, now: real) {
      calls == [] || Before(calls, now) >= 1.0
    }

    /** Every answer in the history is the code's own. */
    predicate Conforms(calls: seq<Call>) {
      calls == [] || (Conforms(Front(calls)) && Latest(calls).allowed == Grants(Front(calls), Latest(calls).at))
    }

    // ---- the declarative reading: every window within its allowance ------------------

    /** Room left, at time now, in the window that opened with call i (i == |calls| opens it now). */
    function Room(calls: seq<Call>, i: nat, now: real): real
      requires i <= |calls|
    {
      capacity + (now - Start(calls, i, now)) * refill - Allowed(calls[i..]) as real
    }

    /** One more call fits every window that ends now. */
    predicate FitsEveryWindow(calls: seq<Call>, now: real) {
      forall i :: 0 <= i <= |calls| ==> Room(calls, i, now) >= 1.0
    }

    lemma RoomStep(calls: seq<Call>, i: nat, now: real)
      requires calls != [] && i < |calls|
      ensures Room(calls, i, now) == Room(Front(calls), i, Latest(calls).at)
                + (now - Latest(calls).at) * refill - (if Latest(calls).allowed then 1.0 else 0.0)
    {
      AllowedFront(calls[i..]);
      assert Front(calls[i..]) == Front(calls)[i..];
      var d1, d2 := Latest(calls).at - Start(Front(calls), i, Latest(calls).at), now - Latest(calls).at;
      assert now - Start(calls, i, now) == d1 + d2;
      assert (d1 + d2) * refill == d1 * refill + d2 * refill;
    }

    /** The bucket level is the least room over all windows: the closed form of the clamped fill. */
    lemma {:induction false} LevelIsLeastRoom(calls: seq<Call>, now: real)
      ensures forall i :: 0 <= i <= |calls| ==> Before(calls, now) <= Room(calls, i, now)
      ensures exists i :: 0 <= i <= |calls| && Before(calls, now) == Room(calls, i, now)
      decreases |calls|
    {
      assert Room(calls, |calls|, now) == capacity;
      if calls != [] {
        var front, last := Front(calls), Latest(calls);
        LevelIsLeastRoom(front, last.at);
        forall i | 0 <= i < |calls| ensures Before(calls, now) <= Room(calls, i, now) {
          RoomStep(calls, i, now);
          assert Before(front, last.at) <= Room(front, i, last.at);
        }
        var k :| 0 <= k <= |front| && Before(front, last.at) == Room(front, k, last.at);
        RoomStep(calls, k, now);
        assert Before(calls, now) == Room(calls, |calls|, now) || Before(calls, now) == Room(calls, k, now);
      }
    }

    /**
     * A call on a known key is let in exactly when it fits every window that ends now:
     * the limiter never exceeds the allowance, and never refuses what the allowance permits.
     */
    lemma GrantsIffFits(calls: seq<Call>, now: real)
      requires calls != []
      ensures Grants(calls, now) <==> FitsEveryWindow(calls, now)
    {
      LevelIsLeastRoom(calls, now);
      if FitsEveryWindow(calls, now) {
        var i :| 0 <= i <= |calls| && Before(calls, now) == Room(calls, i, now);
        assert Room(calls, i, now) >= 1.0;
      }
    }

    /** Calls let in between call i and the latest call stay within capacity + refill * elapsed. */
    predicate WindowOk(calls: seq<Call>, i: nat)
      requires i < |calls|
    {
      Allowed(calls[i..]) as real <= capacity + (Latest(calls).at - calls[i].at) * refill
    }

    predicate WithinAllowance(calls: seq<Call>) {
      forall i :: 0 <= i < |calls| ==> WindowOk(calls, i)
    }

    lemma ProductNonNegative(x: real, y: real)
      requires x >= 0.0 && y >= 0.0
      ensures x * y >= 0.0
    {
    }

    /** One window of AllowanceHolds, one call later. */
    lemma AllowanceStep(calls: seq<Call>, i: nat)
      requires capacity >= 1.0 && refill >= 0.0 && calls != [] && i < |Front(calls)|
      requires Latest(Front(calls)).at <= Latest(calls).at
      requires WindowOk(Front(calls), i)
      requires Latest(calls).allowed ==> FitsEveryWindow(Front(calls), Latest(calls).at)
      ensures WindowOk(calls, i)
    {
      var front, last := Front(calls), Latest(calls);
      AllowedFront(calls[i..]);
      assert Front(calls[i..]) == front[i..] && front[i] == calls[i];
      if last.allowed {
        assert Room(front, i, last.at) >= 1.0;
      } else {
        var d1, d2 := Latest(front).at - calls[i].at, last.at - Latest(front).at;
        ProductNonNegative(d2, refill);
        assert (d1 + d2) * refill == d1 * refill + d2 * refill;
      }
    }

    /** Every interval of every history respects the allowance, once the capacity admits one call. */
    lemma {:induction false} AllowanceHolds(calls: seq<Call>)
      requires capacity >= 1.0 && refill >= 0.0 && Timed(calls) && Conforms(calls)
      ensures WithinAllowance(calls)
      decreases |calls|
    {
      if calls != [] {
        var front, last := Front(calls), Latest(calls);
        AllowanceHolds(front);
        if front != [] && last.allowed { GrantsIffFits(front, last.at); }
        forall i | 0 <= i < |calls| ensures WindowOk(calls, i) {
          if i < |front| {
            AllowanceStep(calls, i);
          } else {
            assert calls[i..] == [last] && [last][1..] == [];
          }
        }
      }
    }

    /** The allowance holds for every history if and only if the capacity is at least one. */
    lemma AllowanceIffCapacity()
      requires refill >= 0.0
      ensures (forall calls :: Timed(calls) && Conforms(calls) ==> WithinAllowance(calls)) <==> capacity >= 1.0
    {
      if capacity >= 1.0 {
        forall calls | Timed(calls) && Conforms(calls) ensures WithinAllowance(calls) {
          AllowanceHolds(calls);
        }
      } else {
        var calls := [Call(0.0, true)];
        assert Front(calls) == [];
        assert Conforms([]) && Grants([], 0.0);
        assert Timed(calls) && Conforms(calls);
        assert calls[0..] == calls && Allowed(calls) == 1;
        assert (Latest(calls).at - calls[0].at) * refill == 0.0;
        assert !WindowOk(calls, 0) && !WithinAllowance(calls);
      }
    }

    // ---- the ideal bucket, filled continuously ---------------------------------------

    /** Level of a bucket whose level is recomputed at every event, ticks included. */
    function Ideal(events: seq<Event>, now: real): real
      decreases |events|
    {
      if events == [] then capacity
      else
        var e := events[|events| - 1];
        var here := Ideal(events[..|events| - 1], e.at);
        Fill(if e.Checked? && e.allowed then here - 1.0 else here, now - e.at)
    }

    lemma FillTwice(level: real, d1: real, d2: real)
      requires refill >= 0.0 && d1 >= 0.0 && d2 >= 0.0
      ensures Fill(Fill(level, d1), d2) == Fill(level, d1 + d2)
    {
      ProductNonNegative(d2, refill);
      assert (d1 + d2) * refill == d1 * refill + d2 * refill;
    }

    /** However finely the fill is observed, the lazy bucket holds the same level. */
    lemma {:induction false} LazyEqualsIdeal(events: seq<Event>, now: real)
      requires refill >= 0.0 && EventsTimed(events, now)
      ensures Ideal(events, now) == Before(CallsOf(events), now)
      decreases |events|
    {
      if events != [] {
        var front, e := events[..|events| - 1], events[|events| - 1];
        LazyEqualsIdeal(front, e.at);
        var calls := CallsOf(front);
        if e.Checked? {
          assert Front(CallsOf(events)) == calls && Latest(CallsOf(events)) == Call(e.at, e.allowed);
        } else {
          assert CallsOf(events) == calls;
          ProductNonNegative(now - e.at, refill);
          if calls != [] {
            LastCallBefore(front, e.at);
            FillTwice(After(calls), e.at - Latest(calls).at, now - e.at);
          }
        }
      }
    }

    // ---- waiting ------------------------------------------------------------------------

    /** What retry_after_s reports for a bucket holding this many tokens. */
    function RetryAfter(tokens: real): int {
      if tokens >= 1.0 then 0 else MaxInt(1, Truncate((1.0 - tokens) / MaxReal(refill, 0.000000001)))
    }

    lemma QuotientTimes(x: real, y: real)
      requires y > 0.0
      ensures x / y * y == x
    {
    }

    lemma TimesMonotone(x: real, y: real, r: real)
      requires x <= y && r >= 0.0
      ensures x * r <= y * r
    {
    }

    /** The seconds truly needed, and how the report truncates them. */
    lemma WaitNeeded(tokens: real) returns (q: real)
      requires refill >= 0.000000001 && tokens < 1.0
      ensures q == (1.0 - tokens) / refill && q >= 0.0 && q * refill == 1.0 - tokens
      ensures RetryAfter(tokens) == MaxInt(1, q.Floor)
    {
      q := (1.0 - tokens) / refill;
      QuotientTimes(1.0 - tokens, refill);
      if q < 0.0 { TimesMonotone(0.0, 0.0 - q, refill); }
    }

    /** Filling for dt reaches one token exactly when dt is at least the seconds needed. */
    lemma FillReachesOne(tokens: real, q: real, dt: real)
      requires capacity >= 1.0 && refill > 0.0 && q * refill == 1.0 - tokens
      ensures Fill(tokens, dt) >= 1.0 <==> dt >= q
    {
      if dt >= q { TimesMonotone(q, dt, refill); } else { StrictTimes(dt, q, refill); }
    }

    lemma GrantsIsFill(calls: seq<Call>, now: real)
      requires calls != []
      ensures Grants(calls, now) <==> Fill(After(calls), now - Latest(calls).at) >= 1.0
    {
    }

    /** Waiting dt with this many tokens left. */
    lemma Waiting(tokens: real, dt: real)
      requires capacity >= 1.0 && refill >= 0.000000001
      ensures dt >= RetryAfter(tokens) as real + 1.0 ==> Fill(tokens, dt) >= 1.0
      ensures tokens < 1.0 ==>
                (Fill(tokens, RetryAfter(tokens) as real) >= 1.0
                 <==> (1.0 - tokens) / refill <= 1.0 || IsWhole((1.0 - tokens) / refill))
    {
      if tokens >= 1.0 {
        if dt >= 0.0 { ProductNonNegative(dt, refill); }
      } else {
        var q := WaitNeeded(tokens);
        FillReachesOne(tokens, q, dt);
        FillReachesOne(tokens, q, RetryAfter(tokens) as real);
      }
    }

    /** One second more than the reported wait is always enough. */
    lemma WaitingSuffices(calls: seq<Call>, now: real)
      requires calls != [] && capacity >= 1.0 && refill >= 0.000000001
      requires now >= Latest(calls).at + RetryAfter(After(calls)) as real + 1.0
      ensures Grants(calls, now)
    {
      GrantsIsFill(calls, now);
      Waiting(After(calls), now - Latest(calls).at);
    }

    /** The reported wait alone is enough exactly when it was not truncated downward. */
    lemma ReportedWaitExact(calls: seq<Call>, now: real)
      requires calls != [] && capacity >= 1.0 && refill >= 0.000000001 && After(calls) < 1.0
      requires now == Latest(calls).at + RetryAfter(After(calls)) as real
      ensures Grants(calls, now) <==>
              (1.0 - After(calls)) / refill <= 1.0 || IsWhole((1.0 - After(calls)) / refill)
    {
      GrantsIsFill(calls, now);
      Waiting(After(calls), now - Latest(calls).at);
    }

    /** The last check left less than one token, and the time gone by since has made it one. */
    predicate RefilledSince(calls: seq<Call>, now: real)
      requires calls != []
    {
      After(calls) < 1.0 <= Fill(After(calls), now - Latest(calls).at)
    }

    /** A positive wait is reported although a check would be let in exactly for such a bucket. */
    lemma NeedlessWaitIff(calls: seq<Call>, now: real)
      requires calls != []
      ensures RetryAfter(After(calls)) > 0 && Grants(calls, now) <==> RefilledSince(calls, now)
    {
      GrantsIsFill(calls, now);
    }

    lemma StrictTimes(x: real, y: real, r: real)
      requires x < y && r > 0.0
      ensures x * r < y * r
    {
    }
  }

  predicate IsWhole(x: real) {
    x == x.Floor as real
  }

  datatype Event = Checked(at: real, allowed: bool) | Tick(at: real)

  function Front<T>(s: seq<T>): seq<T>
    requires s != []
  {
    s[..|s| - 1]
  }

  function Latest<T>(s: seq<T>): T
    requires s != []
  {
    s[|s| - 1]
  }

  function Allowed(calls: seq<Call>): nat {
    if calls == [] then 0 else (if calls[0].allowed then 1 else 0) + Allowed(calls[1..])
  }

  lemma {:induction false} AllowedFront(calls: seq<Call>)
    requires calls != []
    ensures Allowed(calls) == Allowed(Front(calls)) + if Latest(calls).allowed then 1 else 0
  {
    if |calls| > 1 {
      AllowedFront(calls[1..]);
      assert Front(calls)[1..] == Front(calls[1..]);
    }
  }

  function Start(calls: seq<Call>, i: nat, now: real): real
    requires i <= |calls|
  {
    if i < |calls| then calls[i].at else now
  }

  predicate Timed(calls: seq<Call>) {
    calls == [] || (Timed(Front(calls)) && (Front(calls) == [] || Latest(Front(calls)).at <= Latest(calls).at))
  }

  predicate EventsTimed(events: seq<Event>, now: real)
    decreases |events|
  {
    events == [] || (Latest(events).at <= now && EventsTimed(Front(events), Latest(events).at))
  }

  function CallsOf(events: seq<Event>): seq<Call> {
    if events == [] then []
    else
      var e := Latest(events);
      CallsOf(Front(events)) + (if e.Checked? then [Call(e.at, e.allowed)] else [])
  }

  lemma {:induction false} LastCallBefore(events: seq<Event>, now: real)
    requires EventsTimed(events, now)
    ensures CallsOf(events) != [] ==> Latest(CallsOf(events)).at <= now
    decreases |events|
  {
    if events != [] { LastCallBefore(Front(events), Latest(events).at); }
  }

  /** The reported wait can fall short: two and a half seconds are reported as two. */
  lemma ReportedWaitCanFail()
    ensures exists p: Policy, calls :: p.capacity >= 1.0 && p.refill >= 0.000000001 && Timed(calls) && p.Conforms(calls)
              && calls != [] && !p.Grants(calls, Latest(calls).at + p.RetryAfter(p.After(calls)) as real)
  {
    var p := Policy(1.0, 0.4);
    var calls := [Call(0.0, true)];
    assert Front(calls) == [];
    assert p.After(calls) == 0.0;
    assert p.Conforms(calls) && Timed(calls);
    p.ReportedWaitExact(calls, 2.0);
  }

  /** Ten seconds after the last check the report is still two seconds. */
  lemma NeedlessWaitReported()
    ensures exists p: Policy, calls, now :: p.capacity >= 1.0 && Timed(calls) && p.Conforms(calls) && calls != []
              && now > Latest(calls).at && p.Grants(calls, now) && p.RetryAfter(p.After(calls)) == 2
  {
    var p := Policy(1.0, 0.4);
    var calls := [Call(0.0, true)];
    assert Front(calls) == [];
    assert p.After(calls) == 0.0;
    assert p.Conforms(calls) && Timed(calls);
    p.NeedlessWaitIff(calls, 10.0);
  }

  /** A stored bucket is the lazy summary of the calls made on its key. */
  predicate Summarises(p: Policy, calls: seq<Call>, b: Bucket) {
    calls != [] && p.Conforms(calls) && Timed(calls) && b == Bucket(p.After(calls), Latest(calls).at)
  }

  lemma Recorded(p: Policy, calls: seq<Call>, now: real)
    requires p.Conforms(calls) && Timed(calls) && (calls != [] ==> Latest(calls).at <= now)
    ensures var allowed := p.Grants(calls, now);
            var left := p.Before(calls, now) - (if allowed then 1.0 else 0.0);
            Summarises(p, calls + [Call(now, allowed)], Bucket(left, now))
  {
    var longer := calls + [Call(now, p.Grants(calls, now))];
    assert Front(longer) == calls;
  }

  lemma StoredIsBefore(p: Policy, calls: seq<Call>, b: Bucket, now: real)
    requires Summarises(p, calls, b)
    ensures p.Before(calls, now) == p.Fill(b.tokens, now - b.last)
    ensures p.Grants(calls, now) <==> p.Before(calls, now) >= 1.0
  {
  }

  /** Refill for the time gone by, then take a token if there is one. */
  method Spend(p: Policy, b: Bucket, now: real, ghost calls: seq<Call>) returns (after: Bucket, allowed: bool)
    requires Summarises(p, calls, b) && b.last <= now
    ensures allowed <==> p.Grants(calls, now)
    ensures Summarises(p, calls + [Call(now, allowed)], after)
  {
    Recorded(p, calls, now);
    StoredIsBefore(p, calls, b, now);
    var elapsed := now - b.last;
    var tokens := p.Fill(b.tokens, elapsed);
    allowed := tokens >= 1.0;
    after := Bucket(if allowed then tokens - 1.0 else tokens, now);
  }

  class RateLimiter<Key(==)> {
    const policy: Policy
    var buckets: map<Key, Bucket>
    ghost var log: map<Key, seq<Call>>

    /** The stored bucket of each key is the lazy summary of all its calls since its reset. */
    ghost predicate Valid()
      reads this
    {
      && buckets.Keys == log.Keys
      && forall k :: k in log ==> Summarises(policy, log[k], buckets[k])
    }

    ghost function CallsFor(key: Key): seq<Call>
      reads this
    {
      if key in log then log[key] else []
    }

    constructor (capacity: real, refillPerS: real)
      ensures Valid() && log == map[] && policy == Policy(capacity, refillPerS)
    {
      policy := Policy(capacity, refillPerS);
      buckets, log := map[], map[];
    }

    /** Answers from the calls made so far and records this one; other keys are untouched. */
    method Check(key: Key, now: real) returns (allowed: bool)
      requires Valid() && (key in log ==> Latest(log[key]).at <= now)
      modifies this
      ensures Valid()
      ensures allowed <==> policy.Grants(old(CallsFor(key)), now)
      ensures log == old(log)[key := old(CallsFor(key)) + [Call(now, allowed)]]
    {
      ghost var calls := CallsFor(key);
      var after: Bucket;
      if key !in buckets {
        Recorded(policy, [], now);
        assert [] + [Call(now, true)] == [Call(now, true)];
        after, allowed := Bucket(policy.capacity - 1.0, now), true;
      } else {
        after, allowed := Spend(policy, buckets[key], now, calls);
      }
      Store(key, after, calls + [Call(now, allowed)]);
    }

    method Store(key: Key, after: Bucket, ghost calls: seq<Call>)
      requires Valid() && Summarises(policy, calls, after)
      modifies this
      ensures Valid() && log == old(log)[key := calls]
    {
      buckets := buckets[key := after];
      log := log[key := calls];
    }

    method Reset(key: Key)
      requires Valid()
      modifies this
      ensures Valid() && log == old(log) - {key}
    {
      buckets := buckets - {key};
      log := log - {key};
    }

    /**
     * The reported wait: one second later a check is certain to be let in.  It is positive although a check
     * would succeed exactly when the stored bucket was short and has refilled since.
     */
    method RetryAfterS(key: Key) returns (wait: int)
      requires Valid()
      ensures key !in log ==> wait == 0
      ensures forall now {:trigger policy.Grants(CallsFor(key), now)} ::
                wait > 0 && policy.Grants(CallsFor(key), now) <==>
                key in log && policy.RefilledSince(log[key], now)
      ensures policy.capacity >= 1.0 && policy.refill >= 0.000000001 ==>
                forall now {:trigger policy.Grants(CallsFor(key), now)} ::
                  (key in log ==> now >= Latest(log[key]).at + wait as real + 1.0) ==> policy.Grants(CallsFor(key), now)
    {
      if key !in buckets { return 0; }
      var b := buckets[key];
      if b.tokens >= 1.0 {
        wait := 0;
      } else {
        var needed := 1.0 - b.tokens;
        wait := MaxInt(1, Truncate(needed / MaxReal(policy.refill, 0.000000001)));
      }
      assert wait == policy.RetryAfter(policy.After(log[key]));
      forall now
        ensures wait > 0 && policy.Grants(CallsFor(key), now) <==> key in log && policy.RefilledSince(log[key], now)
      {
        policy.NeedlessWaitIff(log[key], now);
      }
      if policy.capacity >= 1.0 && policy.refill >= 0.000000001 {
        forall now | now >= Latest(log[key]).at + wait as real + 1.0 ensures policy.Grants(CallsFor(key), now) {
          policy.WaitingSuffices(log[key], now);
        }
      }
    }
  }
}
