/**
 * Comms health: rolling window, streak counters and flap history
 * (Poller._record, _classify and _watchdog in backend/genwatch/modbus/poller.py).
 */
module Comms {
  import opened Prelude

  const WINDOW: nat := 60
  const EPISODES_KEPT: nat := 32
  const RECOVERY_STREAK: nat := 5
  const FLAP_WINDOW_S := 120.0
  const FLAP_MAX_EPISODES: nat := 2
  const LOST_AFTER: nat := 3

  datatype CommsState = Healthy | Degraded | Lost

  /** One batch outcome, or one firing of the silence watchdog; at is the monotonic clock. */
  datatype CommsEvent = Sample(ok: bool, at: real) | Trip(at: real)

  type History = seq<CommsEvent>

  // ---- the specification: functions of the whole, unbounded history ----------------

  function Front(h: History): History
    requires h != []
  {
    h[..|h| - 1]
  }

  function Latest(h: History): CommsEvent
    requires h != []
  {
    h[|h| - 1]
  }

  /** Failures since the last success; a watchdog trip raises the count to at least three. */
  function Failures(h: History): nat {
    if h == [] then 0
    else match Latest(h)
      case Sample(true, _) => 0
      case Sample(false, _) => Failures(Front(h)) + 1
      case Trip(_) => MaxInt(Failures(Front(h)), LOST_AFTER)
  }

  /** Length of the unbroken run of successes that ends the history. */
  function Successes(h: History): nat {
    if h == [] then 0
    else match Latest(h)
      case Sample(true, _) => Successes(Front(h)) + 1
      case _ => 0
  }

  function Outcomes(h: History): seq<bool> {
    if h == [] then []
    else Outcomes(Front(h)) + (if Latest(h).Sample? then [Latest(h).ok] else [])
  }

  function CountTrue(s: seq<bool>): nat {
    if s == [] then 0 else CountTrue(s[..|s| - 1]) + if s[|s| - 1] then 1 else 0
  }

  /** Fewer than 95% of the recent samples succeeded, in exact arithmetic. */
  predicate Below95(window: seq<bool>) {
    100 * CountTrue(window) < 95 * |window|
  }

  predicate IsLost(h: History) {
    Failures(h) >= LOST_AFTER
  }

  /** Every instant at which the link went from not lost to lost. */
  function Episodes(h: History): seq<real> {
    if h == [] then []
    else Episodes(Front(h)) + (if IsLost(h) && !IsLost(Front(h)) then [Latest(h).at] else [])
  }

  function CountRecent(times: seq<real>, now: real): nat {
    if times == [] then 0
    else CountRecent(times[..|times| - 1], now) + if now - times[|times| - 1] <= FLAP_WINDOW_S then 1 else 0
  }

  predicate Flapping(h: History, now: real) {
    CountRecent(Episodes(h), now) >= FLAP_MAX_EPISODES
  }

  /** The classification the operator is promised, read off the full history. */
  function Classified(h: History): CommsState {
    if h == [] then Healthy
    else if IsLost(h) then Lost
    else if Successes(h) >= RECOVERY_STREAK && !Flapping(h, Latest(h).at) then Healthy
    else if Below95(Tail(Outcomes(h), WINDOW)) || Failures(h) >= 1 then Degraded
    else Healthy
  }

  predicate NotBefore(h: History, now: real) {
    h == [] || Latest(h).at <= now
  }

  /** The clock never runs backwards. */
  predicate Timed(h: History) {
    h == [] || (Timed(Front(h)) && NotBefore(Front(h), Latest(h).at))
  }

  /** One more event, spelled out. */
  lemma Extend(h: History, e: CommsEvent)
    ensures Failures(h + [e]) ==
            if e.Trip? then MaxInt(Failures(h), LOST_AFTER) else if e.ok then 0 else Failures(h) + 1
    ensures Successes(h + [e]) == if e.Sample? && e.ok then Successes(h) + 1 else 0
    ensures Outcomes(h + [e]) == Outcomes(h) + (if e.Sample? then [e.ok] else [])
    ensures Episodes(h + [e]) == Episodes(h) + (if IsLost(h + [e]) && !IsLost(h) then [e.at] else [])
  {
    assert Front(h + [e]) == h;
  }

  // ---- bounded state decides like the unbounded history ------------------------------

  predicate Ascending(times: seq<real>) {
    forall i, j :: 0 <= i < j < |times| ==> times[i] <= times[j]
  }

  lemma {:induction false} EpisodesAscend(h: History)
    requires Timed(h)
    ensures Ascending(Episodes(h))
    ensures h != [] ==> forall i :: 0 <= i < |Episodes(h)| ==> Episodes(h)[i] <= Latest(h).at
    ensures h == [] ==> Episodes(h) == []
  {
    if h != [] {
      EpisodesAscend(h[..|h| - 1]);
    }
  }

  /** Two recent episodes exist exactly when the last two are recent. */
  lemma {:induction false} TwoRecent(times: seq<real>, now: real)
    requires Ascending(times)
    ensures CountRecent(times, now) >= 2 <==> |times| >= 2 && now - times[|times| - 2] <= FLAP_WINDOW_S
    ensures CountRecent(times, now) >= 1 <==> |times| >= 1 && now - times[|times| - 1] <= FLAP_WINDOW_S
  {
    if times != [] {
      var front := times[..|times| - 1];
      TwoRecent(front, now);
      if |times| >= 2 { assert front[|front| - 1] <= times[|times| - 1]; }
    }
  }

  /** The 32-entry deque decides the flap test exactly as the full list of episodes. */
  lemma DequeDecidesFlapping(times: seq<real>, now: real)
    requires Ascending(times)
    ensures (CountRecent(Tail(times, EPISODES_KEPT), now) < FLAP_MAX_EPISODES)
        <==> (CountRecent(times, now) < FLAP_MAX_EPISODES)
  {
    TwoRecent(times, now);
    TwoRecent(Tail(times, EPISODES_KEPT), now);
  }

  lemma TailAppend<T>(s: seq<T>, x: T, n: nat)
    requires n > 0
    ensures Tail(Tail(s, n) + [x], n) == Tail(s + [x], n)
  {
  }

  /** How the two deques and both streaks follow the history by one event. */
  lemma BoundedStep(h: History, e: CommsEvent)
    ensures Failures(h + [e]) ==
            if e.Trip? then MaxInt(Failures(h), LOST_AFTER) else if e.ok then 0 else Failures(h) + 1
    ensures Successes(h + [e]) == if e.Sample? && e.ok then Successes(h) + 1 else 0
    ensures Tail(Outcomes(h + [e]), WINDOW) ==
            if e.Sample? then Tail(Tail(Outcomes(h), WINDOW) + [e.ok], WINDOW) else Tail(Outcomes(h), WINDOW)
    ensures Tail(Episodes(h + [e]), EPISODES_KEPT) ==
            if IsLost(h + [e]) && !IsLost(h) then Tail(Tail(Episodes(h), EPISODES_KEPT) + [e.at], EPISODES_KEPT)
            else Tail(Episodes(h), EPISODES_KEPT)
    ensures (Classified(h) == Lost) == IsLost(h)
    ensures (Classified(h + [e]) == Lost) == IsLost(h + [e])
    ensures Timed(h + [e]) == (Timed(h) && NotBefore(h, e.at))
  {
    Extend(h, e);
    assert Front(h + [e]) == h && Latest(h + [e]) == e;
    if e.Sample? { TailAppend(Outcomes(h), e.ok, WINDOW); }
    TailAppend(Episodes(h), e.at, EPISODES_KEPT);
    assert Outcomes(h) + [] == Outcomes(h) && Episodes(h) + [] == Episodes(h);
  }

  /** x rounded to one decimal place. */
  function RoundTenth(x: real): real {
    (10.0 * x + 0.5).Floor as real / 10.0
  }

  function Percent(window: seq<bool>): real
    requires window != []
  {
    100.0 * CountTrue(window) as real / |window| as real
  }

  lemma SignOfFactor(x: real, l: real, product: real)
    requires l > 0.0 && product == x * l
    ensures x >= 0.0 <==> product >= 0.0
  {
  }

  /** Any rounding to the nearest tenth leaves the 95% test unchanged for windows up to 60. */
  lemma RoundingHarmless(n: nat, len: nat, tenths: int)
    requires n <= len && 1 <= len <= WINDOW
    requires -0.05 <= tenths as real / 10.0 - 100.0 * n as real / len as real <= 0.05
    ensures tenths as real / 10.0 < 95.0 <==> 100 * n < 95 * len
  {
    var l := len as real;
    var x := 100.0 * n as real / l;
    assert x * l == 100.0 * n as real;
    if 100 * n < 95 * len {
      assert 100 * n <= 95 * len - 5;
      assert (95.0 - x) * l == 95.0 * l - 100.0 * n as real >= 5.0;
      SignOfFactor(95.0 - x - 0.08, l, 95.0 * l - 100.0 * n as real - 0.08 * l);
    } else {
      assert (x - 95.0) * l == 100.0 * n as real - 95.0 * l >= 0.0;
      SignOfFactor(x - 95.0, l, 100.0 * n as real - 95.0 * l);
      assert tenths as real >= 949.5 && tenths >= 950;
    }
  }

  /** Without the bound on the window it would not be harmless: 1938 of 2041 is just below 95%. */
  lemma RoundingNeedsShortWindow()
    ensures 100 * 1938 < 95 * 2041 && RoundTenth(100.0 * 1938.0 / 2041.0) == 95.0
  {
  }

  lemma {:induction false} CountTrueBound(s: seq<bool>)
    ensures CountTrue(s) <= |s|
  {
    if s != [] { CountTrueBound(s[..|s| - 1]); }
  }

  // ---- the tracker --------------------------------------------------------------------

  class CommsTracker {
    var state: CommsState
    var successPct: real
    var consecutiveFailures: nat
    var consecutiveSuccesses: nat
    var lastPrimeGood: Option<real>
    var results: seq<bool>
    var lostEpisodes: seq<real>
    ghost var history: History

    /** Every bounded field is what the full history says it should be. */
    ghost predicate Valid()
      reads this
    {
      && Timed(history)
      && state == Classified(history)
      && consecutiveFailures == Failures(history)
      && consecutiveSuccesses == Successes(history)
      && results == Tail(Outcomes(history), WINDOW)
      && lostEpisodes == Tail(Episodes(history), EPISODES_KEPT)
    }

    constructor ()
      ensures Valid() && history == [] && lastPrimeGood == None
    {
      state, successPct := Healthy, 100.0;
      consecutiveFailures, consecutiveSuccesses := 0, 0;
      lastPrimeGood, results, lostEpisodes, history := None, [], [], [];
    }

    /** Records one sample; the state afterwards is the classification of the longer history. */
    method Record(ok: bool, now: real)
      requires Valid() && NotBefore(history, now)
      modifies this
      ensures Valid() && history == old(history) + [Sample(ok, now)]
      ensures lastPrimeGood == old(lastPrimeGood)
    {
      ghost var h := history + [Sample(ok, now)];
      BoundedStep(history, Sample(ok, now));
      CountSample(ok);
      var newState := Classify(now, h);
      Enter(newState, now);
      history := h;
    }

    /** The window, both streaks and the success rate. */
    method CountSample(ok: bool)
      modifies this`results, this`consecutiveFailures, this`consecutiveSuccesses, this`successPct
      ensures results == Tail(old(results) + [ok], WINDOW) && results != []
      ensures consecutiveFailures == if ok then 0 else old(consecutiveFailures) + 1
      ensures consecutiveSuccesses == if ok then old(consecutiveSuccesses) + 1 else 0
      ensures successPct == RoundTenth(Percent(results))
    {
      results := Tail(results + [ok], WINDOW);
      if ok {
        consecutiveFailures, consecutiveSuccesses := 0, consecutiveSuccesses + 1;
      } else {
        consecutiveFailures, consecutiveSuccesses := consecutiveFailures + 1, 0;
      }
      successPct := RoundTenth(Percent(results));
    }

    /** Takes on a state; a step into 'lost' opens an episode. */
    method Enter(newState: CommsState, now: real)
      modifies this`state, this`lostEpisodes
      ensures state == newState
      ensures lostEpisodes == if newState == Lost && old(state) != Lost
                              then Tail(old(lostEpisodes) + [now], EPISODES_KEPT) else old(lostEpisodes)
    {
      if newState != state {
        if newState == Lost {
          lostEpisodes := Tail(lostEpisodes + [now], EPISODES_KEPT);
        }
        state := newState;
      }
    }

    method Classify(now: real, ghost h: History) returns (s: CommsState)
      requires Timed(h) && h != [] && Latest(h).Sample? && Latest(h).at == now
      requires consecutiveFailures == Failures(h) && consecutiveSuccesses == Successes(h)
      requires results == Tail(Outcomes(h), WINDOW) && results != []
      requires successPct == RoundTenth(Percent(results))
      requires !IsLost(h) ==> lostEpisodes == Tail(Episodes(h), EPISODES_KEPT)
      ensures s == Classified(h)
    {
      CountTrueBound(results);
      RoundingHarmless(CountTrue(results), |results|, (10.0 * Percent(results) + 0.5).Floor);
      if consecutiveFailures >= LOST_AFTER { return Lost; }
      if consecutiveSuccesses >= RECOVERY_STREAK {
        EpisodesAscend(h);
        DequeDecidesFlapping(Episodes(h), now);
        var recentFlaps := CountRecent(lostEpisodes, now);
        if recentFlaps < FLAP_MAX_EPISODES { return Healthy; }
      }
      if successPct < 95.0 || consecutiveFailures >= 1 { return Degraded; }
      return Healthy;
    }

    /** Prime heartbeat: engine-state detection is alive. */
    method StampPrime(now: real)
      requires Valid()
      modifies this`lastPrimeGood
      ensures Valid() && lastPrimeGood == Some(now)
    {
      lastPrimeGood := Some(now);
    }

    /** One watchdog wake-up: trips when no prime heartbeat came for three prime periods. */
    method Watchdog(primePollMs: int, now: real, later: real) returns (tripped: bool)
      requires Valid() && NotBefore(history, now) && now <= later
      modifies this
      ensures Valid() && lastPrimeGood == old(lastPrimeGood)
      ensures tripped <==> old(lastPrimeGood).Some? && old(state) != Lost
                           && now - old(lastPrimeGood).value > 3.0 * primePollMs as real / 1000.0
      ensures history == if tripped then old(history) + [Trip(later)] else old(history)
    {
      var threshold := (primePollMs * 3) as real / 1000.0;
      match lastPrimeGood
      case None => return false;
      case Some(last) =>
        var silence := now - last;
        if silence > threshold && state != Lost {
          ghost var before := history;
          consecutiveSuccesses := 0;
          consecutiveFailures := MaxInt(consecutiveFailures, LOST_AFTER);
          state := Lost;
          lostEpisodes := Tail(lostEpisodes + [later], EPISODES_KEPT);
          history := history + [Trip(later)];
          BoundedStep(before, Trip(later));
          return true;
        }
        return false;
    }
  }

  // ---- consequences over every history ---------------------------------------------

  /** 'lost' is exactly three failures in a row (a trip counting as three), at every point of every run. */
  lemma LostIffThreeFailures(h: History)
    ensures Classified(h) == Lost <==> Failures(h) >= 3
  {
  }

  /** 'healthy' never coexists with a failed last sample or a trip. */
  lemma HealthyMeansLastSampleGood(h: History)
    requires h != [] && Classified(h) == Healthy
    ensures Latest(h).Sample? && Latest(h).ok
  {
  }

  predicate AllGood(run: History) {
    forall i :: 0 <= i < |run| ==> run[i].Sample? && run[i].ok
  }

  /** A run of successes clears the failures, lengthens the streak and opens no episode. */
  lemma {:induction false} AfterSuccesses(h: History, run: History)
    requires AllGood(run) && run != []
    ensures Failures(h + run) == 0 && Successes(h + run) == Successes(h) + |run|
    ensures Episodes(h + run) == Episodes(h)
  {
    var g, e := run[..|run| - 1], run[|run| - 1];
    assert h + run == (h + g) + [e];
    Extend(h + g, e);
    if g != [] { AfterSuccesses(h, g); } else { assert h + g == h; }
  }

  lemma {:induction false} OutcomesAfterSuccesses(h: History, run: History)
    requires AllGood(run)
    ensures Outcomes(h + run) == Outcomes(h) + seq(|run|, i => true)
  {
    if run == [] {
      assert h + run == h;
    } else {
      var g, e := run[..|run| - 1], run[|run| - 1];
      assert h + run == (h + g) + [e];
      Extend(h + g, e);
      OutcomesAfterSuccesses(h, g);
    }
  }

  lemma {:induction false} CountTrailingTrue(s: seq<bool>, n: nat)
    requires n <= |s| && forall i :: |s| - n <= i < |s| ==> s[i]
    ensures CountTrue(s) >= n
    ensures n < |s| && !s[|s| - n - 1] ==> CountTrue(s) <= |s| - 1
  {
    if n > 0 {
      CountTrailingTrue(s[..|s| - 1], n - 1);
    } else if s != [] {
      CountTrueBound(s[..|s| - 1]);
    }
  }

  /** Five straight successes restore 'healthy' unless the link flapped twice in the last 120 s. */
  lemma FiveSuccessesRecover(h: History, run: History)
    requires AllGood(run) && |run| >= 5
    requires CountRecent(Episodes(h), Latest(run).at) < 2
    ensures Classified(h + run) == Healthy
  {
    var g := h + run;
    AfterSuccesses(h, run);
    LatestOfRun(h, run);
    HealthyAfterStreak(g);
  }

  lemma LatestOfRun(h: History, run: History)
    requires run != []
    ensures Latest(h + run) == Latest(run)
  {
  }

  lemma HealthyAfterStreak(h: History)
    requires h != [] && Failures(h) == 0 && Successes(h) >= RECOVERY_STREAK
    requires CountRecent(Episodes(h), Latest(h).at) < FLAP_MAX_EPISODES
    ensures Classified(h) == Healthy
  {
  }

  lemma ClassifiedAfterStreak(h: History)
    requires h != [] && Failures(h) == 0 && Successes(h) >= RECOVERY_STREAK
    ensures Classified(h) ==
            if Flapping(h, Latest(h).at) && Below95(Tail(Outcomes(h), WINDOW)) then Degraded else Healthy
  {
  }

  /** Fifty-seven straight successes restore it however often the link flapped. */
  lemma FiftySevenSuccessesRecover(h: History, run: History)
    requires AllGood(run) && |run| >= 57
    ensures Classified(h + run) == Healthy
  {
    var g := h + run;
    AfterSuccesses(h, run);
    OutcomesAfterSuccesses(h, run);
    var window := Tail(Outcomes(g), WINDOW);
    CountTrailingTrue(window, MinInt(57, |window|));
    ClassifiedAfterStreak(g);
  }

  function Repeat(e: CommsEvent, n: nat): History {
    seq(n, i => e)
  }

  /** Three failures in a row are one outage, whatever came before the link was up. */
  lemma Outage(h: History, t: real) returns (g: History)
    requires Failures(h) == 0
    ensures g == h + [Sample(false, t), Sample(false, t), Sample(false, t)]
    ensures Failures(g) == 3 && Successes(g) == 0
    ensures Outcomes(g) == Outcomes(h) + [false, false, false]
    ensures Episodes(g) == Episodes(h) + [t]
  {
    var bad := Sample(false, t);
    Extend(h, bad);
    Extend(h + [bad], bad);
    Extend(h + [bad] + [bad], bad);
    g := h + [bad] + [bad] + [bad];
  }

  /** Two outages at one instant, and one failure more. */
  lemma FlappingStart() returns (h: History)
    ensures forall i :: 0 <= i < |h| ==> h[i].at == 0.0
    ensures CountRecent(Episodes(h), 0.0) >= 2
    ensures Outcomes(h) == [false, false, false, true, false, false, false, false]
  {
    var bad, good := Sample(false, 0.0), Sample(true, 0.0);
    var first := Outage([], 0.0);
    var pause := first + [good];
    Extend(first, good);
    var second := Outage(pause, 0.0);
    h := second + [bad];
    Extend(second, bad);
    assert Episodes(h) == [0.0, 0.0];
    TwoRecent(Episodes(h), 0.0);
  }

  /** Fifty-six may not: two outages, then four failures still inside the window. */
  lemma FiftySixSuccessesMayNotRecover()
    ensures exists h, run :: Timed(h + run) && AllGood(run) && |run| == 56 && Classified(h + run) == Degraded
  {
    var h := FlappingStart();
    var run := Repeat(Sample(true, 0.0), 56);
    var g := h + run;
    AfterSuccesses(h, run);
    OutcomesAfterSuccesses(h, run);
    var window := Tail(Outcomes(g), WINDOW);
    assert |window| == 60 && forall i :: 0 <= i < 4 ==> window[i] == Outcomes(h)[i + 4];
    FourFalse(window);
    ClassifiedAfterStreak(g);
    assert Latest(g).at == 0.0;
    SameInstantTimed(g, 0.0);
  }

  lemma {:induction false} SameInstantTimed(h: History, t: real)
    requires forall i :: 0 <= i < |h| ==> h[i].at == t
    ensures Timed(h)
  {
    if h != [] { SameInstantTimed(h[..|h| - 1], t); }
  }

  lemma {:induction false} FourFalse(s: seq<bool>)
    requires |s| >= 4 && forall i :: 0 <= i < 4 ==> !s[i]
    ensures CountTrue(s) <= |s| - 4
  {
    if |s| > 4 {
      FourFalse(s[..|s| - 1]);
    } else {
      NoneTrue(s);
    }
  }

  lemma {:induction false} NoneTrue(s: seq<bool>)
    requires forall i :: 0 <= i < |s| ==> !s[i]
    ensures CountTrue(s) == 0
  {
    if s != [] { NoneTrue(s[..|s| - 1]); }
  }

  /**
   * A trip does not hold the link down: the very next success always leaves 'lost', and it
   * reaches 'healthy' exactly when 95% of the recent samples succeeded.
   */
  lemma OneSuccessAfterTrip(h: History, tripped: History, g: History, t: real, now: real)
    requires tripped == h + [Trip(t)] && g == tripped + [Sample(true, now)]
    ensures Classified(tripped) == Lost
    ensures Classified(g) == if Below95(Tail(Outcomes(h) + [true], WINDOW)) then Degraded else Healthy
  {
    Extend(h, Trip(t));
    Extend(tripped, Sample(true, now));
    assert Outcomes(g) == Outcomes(h) + [true];
    ClassifiedShort(g);
    LostIffThreeFailures(tripped);
  }

  /** With no failure pending and no recovery streak yet, only the window decides. */
  lemma ClassifiedShort(h: History)
    requires h != [] && Failures(h) == 0 && Successes(h) < RECOVERY_STREAK
    ensures Classified(h) == if Below95(Tail(Outcomes(h), WINDOW)) then Degraded else Healthy
  {
  }
}
