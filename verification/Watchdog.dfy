/**
 * The systemd watchdog decision, composed with the poller's heartbeat (should_ping_watchdog in
 * backend/genwatch/services/notify.py, the ticking loop in backend/genwatch/main.py).
 */
module Watchdog {
  import opened Prelude
  import opened Registers
  import opened Polling
  import opened PollRuns

  const COLD_START_GRACE_S := 300.0

  predicate ShouldPing(last: Option<real>, start: real, now: real, staleAfter: real) {
    match last
    case None => now - start <= COLD_START_GRACE_S
    case Some(at) => now - at <= staleAfter
  }

  /** Seconds between checks, for a watchdog interval in seconds. */
  function TickOf(interval: real): real {
    MaxReal(1.0, interval / 2.0)
  }

  function StaleAfter(interval: real, primePollMs: int): real {
    MaxReal(TickOf(interval) * 2.0, primePollMs as real / 1000.0 * 6.0)
  }

  /** One wake-up of the loop, with what it reads. */
  datatype Wake = Wake(running: bool, last: Option<real>, now: real)

  datatype Note = Withholding | Resumed

  /** The loop's regime after some wake-ups: whether the last one that counted withheld its ping. */
  function Regime(wakes: seq<Wake>, start: real, staleAfter: real): bool {
    if wakes == [] then false
    else
      var w := wakes[|wakes| - 1];
      if w.running then !ShouldPing(w.last, start, w.now, staleAfter)
      else Regime(wakes[..|wakes| - 1], start, staleAfter)
  }

  /** Log lines: one per change of regime. */
  function Notes(wakes: seq<Wake>, start: real, staleAfter: real): seq<Note> {
    if wakes == [] then []
    else
      var front := wakes[..|wakes| - 1];
      var before, after := Regime(front, start, staleAfter), Regime(wakes, start, staleAfter);
      Notes(front, start, staleAfter) + (if before == after then [] else if after then [Withholding] else [Resumed])
  }

  /** The loop over its wake-ups: pings exactly when it should, and logs only when the regime changes. */
  method WatchdogLoop(wakes: seq<Wake>, start: real, staleAfter: real) returns (pings: seq<bool>, notes: seq<Note>)
    ensures |pings| == |wakes|
    ensures forall i :: 0 <= i < |wakes| ==>
              (pings[i] <==> wakes[i].running && ShouldPing(wakes[i].last, start, wakes[i].now, staleAfter))
    ensures notes == Notes(wakes, start, staleAfter)
  {
    pings, notes := [], [];
    var withholding := false;
    for i := 0 to |wakes|
      invariant |pings| == i
      invariant forall k :: 0 <= k < i ==>
                  (pings[k] <==> wakes[k].running && ShouldPing(wakes[k].last, start, wakes[k].now, staleAfter))
      invariant withholding == Regime(wakes[..i], start, staleAfter)
      invariant notes == Notes(wakes[..i], start, staleAfter)
    {
      var w := wakes[i];
      assert wakes[..i + 1][..i] == wakes[..i];
      if !w.running {
        pings := pings + [false];
        continue;
      }
      if ShouldPing(w.last, start, w.now, staleAfter) {
        pings := pings + [true];
        if withholding { notes, withholding := notes + [Resumed], false; }
      } else {
        pings := pings + [false];
        if !withholding { notes, withholding := notes + [Withholding], true; }
      }
    }
    assert wakes[..|wakes|] == wakes;
  }

  // ---- polls and ticks interleaved -----------------------------------------------------------------

  /** The end of a poll of either tier, which stamps the heartbeat at later or not at all, or a tick of the watchdog. */
  datatype Event = PollEnd(commit: Commit, later: real) | Tick(at: real) {
    function Time(): real {
      if PollEnd? then later else at
    }
  }

  function Front(es: seq<Event>): seq<Event>
    requires es != []
  {
    es[..|es| - 1]
  }

  function Last(es: seq<Event>): Event
    requires es != []
  {
    es[|es| - 1]
  }

  /** One answer per batch, as any poll has. */
  predicate Answered(c: Commit) {
    |c.poll.batches| == |c.answers|
  }

  /** The poller's reading after a run: each poll merges its decodes into what the polls before it left. */
  function ReadingAfter(es: seq<Event>): (r: Reading)
    ensures KeysMatch(r)
  {
    if es == [] then Reading(map[], map[])
    else if Last(es).PollEnd? && Answered(Last(es).commit) then Committed(ReadingAfter(Front(es)), Last(es).commit)
    else ReadingAfter(Front(es))
  }

  predicate AnyOk(c: Commit) {
    Answered(c) && AnyBatchOk(c.poll.batches, c.answers)
  }

  /** The run ends with a poll that stamps the heartbeat. */
  predicate Stamps(es: seq<Event>) {
    && es != [] && Last(es).PollEnd?
    && var c := Last(es).commit;
       c.poll.tier == Prime && StateFresh(ReadingAfter(es), c.poll.regmap.engineStateBits, AnyOk(c), c.now)
  }

  /** The clock never runs backwards, and the run begins at start. */
  predicate Ordered(es: seq<Event>, start: real) {
    es == [] || (&& Ordered(Front(es), start)
                 && (if Front(es) == [] then start else Last(Front(es)).Time()) <= Last(es).Time()
                 && (Last(es).PollEnd? ==> Last(es).commit.now <= Last(es).later))
  }

  /** The poller's last_prime_good_monotonic after a run. */
  function LastGood(es: seq<Event>): Option<real> {
    if es == [] then None
    else match Last(es)
      case Tick(_) => LastGood(Front(es))
      case PollEnd(c, later) => Heartbeat(LastGood(Front(es)), c.poll, ReadingAfter(es), AnyOk(c), c.now, later)
  }

  predicate Stamped(es: seq<Event>, i: int) {
    0 <= i < |es| && Stamps(es[..i + 1])
  }

  lemma StampedFront(es: seq<Event>, i: int)
    requires es != []
    ensures i < |es| - 1 ==> (Stamped(es, i) <==> Stamped(Front(es), i))
    ensures Stamped(es, |es| - 1) <==> Stamps(es)
    ensures Stamped(es, i) ==> 0 <= i < |es| && es[i].PollEnd?
  {
    assert es[..|es|] == es;
    if 0 <= i < |es| - 1 { assert Front(es)[..i + 1] == es[..i + 1]; }
    if 0 <= i < |es| { assert Last(es[..i + 1]) == es[i]; }
  }

  lemma {:induction false} LastGoodIsLatestStamp(es: seq<Event>, start: real) returns (i: int)
    requires Ordered(es, start)
    ensures LastGood(es).Some? ==> Stamped(es, i) && es[i].PollEnd? && es[i].later == LastGood(es).value
    ensures forall k :: Stamped(es, k) ==> es[k].PollEnd? && LastGood(es).Some? && es[k].later <= LastGood(es).value
    ensures es != [] ==> start <= Last(es).Time()
    ensures es != [] && LastGood(es).Some? ==> LastGood(es).value <= Last(es).Time()
  {
    if es == [] {
      i := -1;
    } else {
      var f := Front(es);
      i := LastGoodIsLatestStamp(f, start);
      forall k | Stamped(es, k) ensures k == |f| || Stamped(f, k) {
        StampedFront(es, k);
      }
      StampedFront(es, |f|);
      if Stamps(es) {
        i := |f|;
      } else if LastGood(f).Some? {
        StampedFront(es, i);
      }
    }
  }

  /**
   * A tick pings exactly when some poll stamped the heartbeat within the last staleAfter seconds, or
   * none ever did and the service is at most 300 s old.
   */
  lemma PingIff(es: seq<Event>, start: real, now: real, staleAfter: real)
    requires Ordered(es + [Tick(now)], start)
    ensures ShouldPing(LastGood(es), start, now, staleAfter) <==>
              || (exists i :: Stamped(es, i) && now - staleAfter <= es[i].Time() <= now)
              || ((forall i :: !Stamped(es, i)) && now - start <= 300.0)
  {
    assert Front(es + [Tick(now)]) == es;
    var i := LastGoodIsLatestStamp(es, start);
    if LastGood(es).Some? {
      assert Stamped(es, i);
      forall k | Stamped(es, k) && now - staleAfter <= es[k].Time() ensures now - staleAfter <= LastGood(es).value {}
    }
  }

  /** At this instant no poll decoded the register: some word of it went unread, or the tier does not have it. */
  predicate UndecodedAt(es: seq<Event>, name: string, at: real) {
    forall j :: 0 <= j < |es| && es[j].PollEnd? && es[j].commit.now == at && Answered(es[j].commit) ==>
      MarkOf(es[j].commit, name).decoded.None?
  }

  /** After t every prime poll misses some register of the engine-state rules, whatever else it reads. */
  predicate StateSilentAfter(es: seq<Event>, t: real) {
    forall i :: 0 <= i < |es| && es[i].PollEnd? && es[i].commit.poll.tier == Prime && es[i].commit.now > t ==>
      && es[i].commit.poll.regmap.engineStateBits != []
      && exists k :: 0 <= k < |es[i].commit.poll.regmap.engineStateBits|
                  && UndecodedAt(es, es[i].commit.poll.regmap.engineStateBits[k].register, es[i].commit.now)
  }

  /** Every entry of the reading was decoded by some poll, at the time its age says. */
  lemma {:induction false} AgeIsDecode(es: seq<Event>, name: string) returns (j: int)
    requires name in ReadingAfter(es).ages
    ensures 0 <= j < |es| && es[j].PollEnd? && Answered(es[j].commit)
    ensures es[j].commit.now == ReadingAfter(es).ages[name] && MarkOf(es[j].commit, name).decoded.Some?
  {
    var f := Front(es);
    if Last(es).PollEnd? && Answered(Last(es).commit) {
      var c := Last(es).commit;
      assert EntryOf(ReadingAfter(es), name) == EntryAfter(ReadingAfter(f), c.poll, c.answers, c.now, name);
      if MarkOf(c, name).decoded.Some? {
        j := |f|;
      } else {
        j := AgeIsDecode(f, name);
      }
    } else {
      j := AgeIsDecode(f, name);
    }
  }

  /** A poll that misses a register of the state rules does not stamp, however many other reads succeed. */
  lemma StampNeedsState(es: seq<Event>, t: real, i: int)
    requires Stamped(es, i) && StateSilentAfter(es, t)
    ensures es[i].PollEnd? && es[i].commit.now <= t
  {
    var upTo := es[..i + 1];
    assert Last(upTo) == es[i];
    var c := es[i].commit;
    if c.now > t {
      var rules := c.poll.regmap.engineStateBits;
      var k :| 0 <= k < |rules| && UndecodedAt(es, rules[k].register, c.now);
      assert IsFresh(ReadingAfter(upTo), rules[k].register, c.now);
      var j := AgeIsDecode(upTo, rules[k].register);
    }
  }

  /**
   * Once every prime poll misses some engine-state register, pings stop within staleAfter of the last poll
   * that still had them all, however many other reads succeed; lag bounds decode to stamp within one poll.
   */
  lemma SilentStateStopsPings(es: seq<Event>, start: real, t: real, lag: real, now: real, staleAfter: real)
    requires Ordered(es + [Tick(now)], start) && StateSilentAfter(es, t)
    requires forall i :: 0 <= i < |es| && es[i].PollEnd? ==> es[i].later - es[i].commit.now <= lag
    requires exists i :: Stamped(es, i)
    requires ShouldPing(LastGood(es), start, now, staleAfter)
    ensures now <= t + lag + staleAfter
  {
    PingIff(es, start, now, staleAfter);
    var i :| Stamped(es, i) && now - staleAfter <= es[i].Time() <= now;
    StampNeedsState(es, t, i);
  }

  /** With no heartbeat ever, no ping follows the first 300 s. */
  lemma NeverAliveStopsPings(es: seq<Event>, start: real, now: real, staleAfter: real)
    requires Ordered(es + [Tick(now)], start) && forall i :: !Stamped(es, i)
    ensures ShouldPing(LastGood(es), start, now, staleAfter) <==> now - start <= 300.0
  {
    PingIff(es, start, now, staleAfter);
  }

  /** Each heartbeat comes at most staleAfter after the one before; the first within the grace period. */
  predicate Steady(es: seq<Event>, start: real, staleAfter: real) {
    es == [] || (&& Steady(Front(es), start, staleAfter)
                 && (Stamps(es) ==> match LastGood(Front(es))
                                    case None => Last(es).Time() - start <= COLD_START_GRACE_S
                                    case Some(at) => Last(es).Time() - at <= staleAfter))
  }

  /** As long as heartbeats keep coming at most staleAfter apart, every tick pings. */
  lemma {:induction false} SteadyHeartbeatsPing(es: seq<Event>, start: real, staleAfter: real, i: nat)
    requires Ordered(es, start) && Steady(es, start, staleAfter)
    requires i < |es| && es[i].Tick? && exists j :: i < j && Stamped(es, j)
    ensures ShouldPing(LastGood(es[..i]), start, es[i].at, staleAfter)
    decreases |es|
  {
    var f := Front(es);
    if j :| i < j && Stamped(f, j) {
      assert f[i] == es[i] && f[..i] == es[..i];
      SteadyHeartbeatsPing(f, start, staleAfter, i);
    } else {
      var j :| i < j && Stamped(es, j);
      StampedFront(es, j);
      assert f[i] == es[i] && f[..i] == es[..i];
      NothingStampedSince(f, i);
      TimesAscend(es, start, i);
    }
  }

  lemma {:induction false} NothingStampedSince(es: seq<Event>, i: nat)
    requires i < |es| && es[i].Tick? && forall j :: i < j ==> !Stamped(es, j)
    ensures LastGood(es) == LastGood(es[..i])
  {
    var f := Front(es);
    StampedFront(es, |f|);
    StampedFront(es, i);
    if i < |f| {
      forall j | i < j ensures !Stamped(f, j) {
        assert !Stamped(es, j);
        StampedFront(es, j);
      }
      NothingStampedSince(f, i);
      assert f[..i] == es[..i];
    } else {
      assert f == es[..i];
    }
  }

  lemma {:induction false} TimesAscend(es: seq<Event>, start: real, i: nat)
    requires Ordered(es, start) && i < |es|
    ensures es[i].Time() <= Last(es).Time()
  {
    if i < |es| - 1 {
      TimesAscend(Front(es), start, i);
    }
  }

  /**
   * On any map, prime heartbeats at most six poll periods apart are steady enough, and the window
   * always spans two ticks, so a heartbeat right after one tick still counts at the next.
   */
  lemma WindowIsWide(interval: real, primePollMs: int, gap: real)
    ensures gap <= primePollMs as real / 1000.0 * 6.0 ==> gap <= StaleAfter(interval, primePollMs)
    ensures TickOf(interval) < 2.0 * TickOf(interval) <= StaleAfter(interval, primePollMs)
  {
  }
}
