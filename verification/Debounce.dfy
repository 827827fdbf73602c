/**
 * What the tracker's debounce counters count over whole runs, and how that compares with the consecutive
 * prime polls that the documentation speaks of (backend/genwatch/services/state.py and
 * backend/genwatch/modbus/registers.py).
 */
module Debounce {
  import opened Prelude
  import opened Registers
  import opened LoadSource
  import opened Alarms
  import opened StateTracker
  import opened AlarmRuns
  import opened Marks

  // ---- what the counters count -----------------------------------------------------------------

  /** How many rules of the code an event found set; a reload starts the count anew. */
  function BitMark(w: World, e: Event, c: Code): seq<Mark> {
    match e
    case Poll(tier, values, _) => [Mark(tier == Prime, Some(Occurrences(SetAlarms(w.rm.alarmBits, values), c)))]
    case Reload(_) => [Mark(true, Some(0))]
    case Ack(_) => []
  }

  /** A hit or a miss of a range check on a poll, None with range checks off.  Polls of either tier are asked for. */
  function RangeMark(w: World, e: Event, c: Code): seq<Mark> {
    match e
    case Poll(_, values, _) =>
      var hits := RangeHits(w.rm, values, EngineAfter(w.t.engine, w.rm, values));
      [Mark(true, if !w.rm.numericAlarms then None else Some(if c in hits then 1 else 0))]
    case _ => []
  }

  /** Whether switch and generator disagreed: None on a poll that could not read what it had to compare. */
  function DisagreeMark(w: World, e: Event): seq<Mark> {
    match e
    case Poll(tier, values, ats) =>
      [Mark(tier == Prime, Compared(ats, SampleOf(values, EngineAfter(w.t.engine, w.rm, values))))]
    case _ => []
  }

  function Compared(ats: Ats, s: Sample): Option<nat> {
    if !ats.authoritative || !CanCompare(s.engine) then Some(0)
    else match Compare(ats, s)
      case Held => None
      case Agrees => Some(0)
      case Disagrees => Some(1)
  }

  function BitMarks(rm: RegisterMap, rows: set<Code>, es: seq<Event>, c: Code): seq<Mark> {
    if es == [] then []
    else BitMarks(rm, rows, AlarmRuns.Front(es), c) + BitMark(Run(rm, rows, AlarmRuns.Front(es)), Latest(es), c)
  }

  function RangeMarks(rm: RegisterMap, rows: set<Code>, es: seq<Event>, c: Code): seq<Mark> {
    if es == [] then []
    else RangeMarks(rm, rows, AlarmRuns.Front(es), c) + RangeMark(Run(rm, rows, AlarmRuns.Front(es)), Latest(es), c)
  }

  function DisagreeMarks(rm: RegisterMap, rows: set<Code>, es: seq<Event>): seq<Mark> {
    if es == [] then []
    else DisagreeMarks(rm, rows, AlarmRuns.Front(es)) + DisagreeMark(Run(rm, rows, AlarmRuns.Front(es)), Latest(es))
  }

  lemma UpdateCounters(t: Tracker, rm: RegisterMap, values: Values, ats: Ats, c: Code)
    ensures var u := Update(t, rm, values, ats);
            var engine := EngineAfter(t.engine, rm, values);
            && u.counts == CountsAfter(t.counts, SetAlarms(rm.alarmBits, values))
            && Count(u.rangeCounts, c) ==
               (if !rm.numericAlarms then Count(t.rangeCounts, c)
                else if c in RangeHits(rm, values, engine) then Count(t.rangeCounts, c) + 1 else 0)
            && u.disagreeCount == DisagreeCountAfter(t.disagreeCount, ats, SampleOf(values, engine))
  {
  }

  lemma {:induction false} OccurringIsCoded(active: seq<AlarmBit>, c: Code)
    ensures Occurrences(active, c) > 0 ==> c in CodesOf(active)
  {
    if active != [] {
      OccurringIsCoded(active[1..], c);
      assert active == [active[0]] + active[1..];
      if Bit(active[0].code) == c { assert active[0] in active; }
    }
  }

  lemma {:induction false} CodedIsOccurring(active: seq<AlarmBit>, c: Code)
    ensures c in CodesOf(active) ==> Occurrences(active, c) > 0
  {
    if active != [] {
      CodedIsOccurring(active[1..], c);
      if c in CodesOf(active) {
        var ab :| ab in active && Bit(ab.code) == c;
        assert active == [active[0]] + active[1..];
        assert ab == active[0] || c in CodesOf(active[1..]);
      }
    }
  }

  lemma BitStreakStep(counts: map<Code, nat>, active: seq<AlarmBit>, c: Code, prime: bool, marks: seq<Mark>)
    requires Count(counts, c) == Streak(marks)
    ensures Count(CountsAfter(counts, active), c) == Streak(marks + [Mark(prime, Some(Occurrences(active, c)))])
  {
    StreakAppend(marks, Mark(prime, Some(Occurrences(active, c))));
    OccurringIsCoded(active, c);
    CodedIsOccurring(active, c);
  }

  lemma RangeStreakStep(before: nat, numeric: bool, hit: bool, marks: seq<Mark>)
    requires before == Streak(marks)
    ensures (if !numeric then before else if hit then before + 1 else 0)
         == Streak(marks + [Mark(true, if !numeric then None else Some(if hit then 1 else 0))])
  {
    StreakAppend(marks, Mark(true, if !numeric then None else Some(if hit then 1 else 0)));
  }

  lemma DisagreeStreakStep(before: nat, ats: Ats, s: Sample, prime: bool, marks: seq<Mark>)
    requires before == Streak(marks)
    ensures DisagreeCountAfter(before, ats, s) == Streak(marks + [Mark(prime, Compared(ats, s))])
  {
    StreakAppend(marks, Mark(prime, Compared(ats, s)));
  }

  /** The three counters of a tracker, for one code, are the streaks of three lists of marks. */
  predicate Counted(t: Tracker, c: Code, bits: seq<Mark>, range: seq<Mark>, disagree: seq<Mark>) {
    && Count(t.counts, c) == Streak(bits)
    && Count(t.rangeCounts, c) == Streak(range)
    && t.disagreeCount == Streak(disagree)
  }

  lemma PollSteps(w: World, tier: Tier, values: Values, ats: Ats, c: Code,
                  bits: seq<Mark>, range: seq<Mark>, disagree: seq<Mark>)
    requires Counted(w.t, c, bits, range, disagree)
    ensures var e := Poll(tier, values, ats);
            Counted(Update(w.t, w.rm, values, ats), c, bits + BitMark(w, e, c), range + RangeMark(w, e, c),
                    disagree + DisagreeMark(w, e))
  {
    var engine := EngineAfter(w.t.engine, w.rm, values);
    UpdateCounters(w.t, w.rm, values, ats, c);
    BitStreakStep(w.t.counts, SetAlarms(w.rm.alarmBits, values), c, tier == Prime, bits);
    RangeStreakStep(Count(w.t.rangeCounts, c), w.rm.numericAlarms, c in RangeHits(w.rm, values, engine), range);
    DisagreeStreakStep(w.t.disagreeCount, ats, SampleOf(values, engine), tier == Prime, disagree);
  }

  lemma CountersStep(w: World, e: Event, c: Code, bits: seq<Mark>, range: seq<Mark>, disagree: seq<Mark>)
    requires Counted(w.t, c, bits, range, disagree)
    ensures Counted(Next(w, e).t, c, bits + BitMark(w, e, c), range + RangeMark(w, e, c), disagree + DisagreeMark(w, e))
  {
    match e
    case Poll(tier, values, ats) => PollSteps(w, tier, values, ats, c, bits, range, disagree);
    case Reload(_) =>
      StreakAppend(bits, Mark(true, Some(0)));
      assert range + [] == range && disagree + [] == disagree;
    case Ack(_) => assert bits + [] == bits && range + [] == range && disagree + [] == disagree;
  }

  /** In every run each counter is the streak of its hits, over the polls of both tiers that judged it. */
  lemma {:induction false} CountersAreStreaks(rm: RegisterMap, rows: set<Code>, es: seq<Event>, c: Code)
    ensures Counted(Run(rm, rows, es).t, c, BitMarks(rm, rows, es, c), RangeMarks(rm, rows, es, c),
                    DisagreeMarks(rm, rows, es))
  {
    if es != [] {
      var f := AlarmRuns.Front(es);
      CountersAreStreaks(rm, rows, f, c);
      CountersStep(Run(rm, rows, f), Latest(es), c,
                   BitMarks(rm, rows, f, c), RangeMarks(rm, rows, f, c), DisagreeMarks(rm, rows, f));
    }
  }

  // ---- range and disagreement alarms ---------------------------------------------------------------

  /** Range and disagreement alarms are raised exactly with a streak of three, at every point of every run. */
  lemma CrossChecksDebounced(rm: RegisterMap, rows: set<Code>, es: seq<Event>, c: Code)
    ensures var t := Run(rm, rows, es).t;
            && (c in t.rangeRaised <==> Streak(RangeMarks(rm, rows, es, c)) >= 3)
            && (t.disagreeRaised <==> Streak(DisagreeMarks(rm, rows, es)) >= 3)
  {
    RunKeeps(rm, rows, es);
    CountersAreStreaks(rm, rows, es, c);
  }

  /**
   * The poll that raises a range alarm is the third in a row that hit exactly when no poll since the count
   * left zero had range checks off.
   */
  lemma RangeRaisedAtThirdIff(rm: RegisterMap, rows: set<Code>, es: seq<Event>, c: Code)
    requires es != [] && c !in Run(rm, rows, AlarmRuns.Front(es)).t.rangeRaised && c in Run(rm, rows, es).t.rangeRaised
    ensures var before := RangeMarks(rm, rows, AlarmRuns.Front(es), c);
            PrimeRun(RangeMarks(rm, rows, es, c)) == 3 <==> !Torn(before)
  {
    var f := AlarmRuns.Front(es);
    CrossChecksDebounced(rm, rows, f, c);
    CrossChecksDebounced(rm, rows, es, c);
    ReachedAtNthIff(RangeMarks(rm, rows, f, c), RangeMark(Run(rm, rows, f), Latest(es), c), 3);
  }

  /**
   * The poll that raises the disagreement alarm is the third prime poll in a row that disagreed exactly when
   * it is a prime poll, no base poll disagreed and no prime poll was unreadable since the count left zero.
   */
  lemma DisagreementRaisedAtThirdIff(rm: RegisterMap, rows: set<Code>, es: seq<Event>)
    requires es != [] && !Run(rm, rows, AlarmRuns.Front(es)).t.disagreeRaised && Run(rm, rows, es).t.disagreeRaised
    ensures Latest(es).Poll?
    ensures var before := DisagreeMarks(rm, rows, AlarmRuns.Front(es));
            PrimeRun(DisagreeMarks(rm, rows, es)) == 3 <==> Latest(es).tier == Prime && !Torn(before)
  {
    var f := AlarmRuns.Front(es);
    CrossChecksDebounced(rm, rows, f, Disagree);
    CrossChecksDebounced(rm, rows, es, Disagree);
    ReachedAtNthIff(DisagreeMarks(rm, rows, f), DisagreeMark(Run(rm, rows, f), Latest(es)), 3);
  }

  /** The readings are out of range for the code, whatever the engine did before. */
  ghost predicate Hot(rm: RegisterMap, values: Values, c: Code) {
    rm.numericAlarms && forall engine :: c in RangeHits(rm, values, EngineAfter(engine, rm, values))
  }

  lemma HotStep(w: World, tier: Tier, values: Values, ats: Ats, c: Code)
    requires Inv(w) && Hot(w.rm, values, c)
    ensures var v := Next(w, Poll(tier, values, ats));
            && Inv(v) && v.rm == w.rm && Count(v.t.rangeCounts, c) == Count(w.t.rangeCounts, c) + 1
            && (c in v.t.rangeRaised <==> Count(v.t.rangeCounts, c) >= NUMERIC_POLLS)
  {
    NextKeeps(w, Poll(tier, values, ats));
    UpdateCounters(w.t, w.rm, values, ats, c);
  }

  /** Checks off, one poll, checks on again: the count is still there. */
  function Paused(w: World, tier: Tier, values: Values, ats: Ats): World {
    Next(Next(Next(w, Reload(w.rm.(numericAlarms := false))), Poll(tier, values, ats)), Reload(w.rm))
  }

  lemma PauseKeeps(w: World, tier: Tier, values: Values, ats: Ats, c: Code)
    requires Inv(w)
    ensures var v := Paused(w, tier, values, ats);
            && Inv(v) && v.rm == w.rm && Count(v.t.rangeCounts, c) == Count(w.t.rangeCounts, c)
            && (c in v.t.rangeRaised <==> Count(v.t.rangeCounts, c) >= NUMERIC_POLLS)
  {
    var off := Next(w, Reload(w.rm.(numericAlarms := false)));
    NextKeeps(w, Reload(w.rm.(numericAlarms := false)));
    NextKeeps(off, Poll(tier, values, ats));
    NextKeeps(Next(off, Poll(tier, values, ats)), Reload(w.rm));
    UpdateCounters(off.t, off.rm, values, ats, c);
  }

  /**
   * Two hits, a poll with range checks off, however calm, and one more hit: the alarm is raised, although
   * its three hits are not in a row.
   */
  lemma RangeRaisedAfterPause(w: World, tier: Tier, hot: Values, calm: Values, ats: Ats, c: Code)
    requires Inv(w) && Hot(w.rm, hot, c) && Count(w.t.rangeCounts, c) == 0
    ensures var v := Paused(Next(Next(w, Poll(tier, hot, ats)), Poll(tier, hot, ats)), tier, calm, ats);
            c !in v.t.rangeRaised && c in Next(v, Poll(tier, hot, ats)).t.rangeRaised
  {
    var one := Next(w, Poll(tier, hot, ats));
    var two := Next(one, Poll(tier, hot, ats));
    HotStep(w, tier, hot, ats, c);
    HotStep(one, tier, hot, ats, c);
    PauseKeeps(two, tier, calm, ats, c);
    HotStep(Paused(two, tier, calm, ats), tier, hot, ats, c);
  }

  /** Such a map exists: one register that both shows the engine running and is out of its range. */
  lemma HotMapExists()
    ensures exists rm, values, c :: Accepted(rm) && Hot(rm, values, c)
  {
    var r := RegisterDef("kw", 7, 3, U16, Prime, 1.0, None, Some((0.0, 1.0)));
    var rm := RegisterMap(1, 3, 1500, 15000, [BitRule("running", "kw", 1)], [], [], [r], [], true);
    var values := map["kw" := IntVal(3)];
    ThreeRuns("kw", values);
    assert r in rm.registers && OutOfRange(r, values);
    assert Hot(rm, values, RangeCode(r));
    assert Accepted(rm);
  }

  /** Switch and generator disagree by these readings, whatever the engine did before. */
  ghost predicate Disputed(rm: RegisterMap, values: Values, ats: Ats) {
    forall engine :: Compared(ats, SampleOf(values, EngineAfter(engine, rm, values))) == Some(1)
  }

  lemma DisputedStep(w: World, tier: Tier, values: Values, ats: Ats)
    requires Inv(w) && Disputed(w.rm, values, ats)
    ensures var v := Next(w, Poll(tier, values, ats));
            && Inv(v) && v.rm == w.rm && v.t.disagreeCount == w.t.disagreeCount + 1
            && (v.t.disagreeRaised <==> v.t.disagreeCount >= DISAGREE_POLLS)
  {
    NextKeeps(w, Poll(tier, values, ats));
    UpdateCounters(w.t, w.rm, values, ats, Disagree);
    assert Compared(ats, SampleOf(values, EngineAfter(w.t.engine, w.rm, values))) == Some(1);
  }

  /** Prime, base, prime: a base poll in between brings the disagreement alarm after two prime polls. */
  lemma BasePollRaisesDisagreement(w: World, values: Values, ats: Ats)
    requires Inv(w) && Disputed(w.rm, values, ats) && w.t.disagreeCount == 0
    ensures var two := Next(Next(w, Poll(Prime, values, ats)), Poll(Base, values, ats));
            !two.t.disagreeRaised && Next(two, Poll(Prime, values, ats)).t.disagreeRaised
  {
    var one := Next(w, Poll(Prime, values, ats));
    DisputedStep(w, Prime, values, ats);
    DisputedStep(one, Base, values, ats);
    DisputedStep(Next(one, Poll(Base, values, ats)), Prime, values, ats);
  }

  lemma DisputedMapExists()
    ensures exists rm, values, ats :: Accepted(rm) && Disputed(rm, values, ats)
  {
    var r := RegisterDef("total_kw", 7, 3, U16, Prime, 1.0, None, None);
    var rm := RegisterMap(1, 3, 1500, 15000, [BitRule("running", "total_kw", 1)], [], [], [r], [], true);
    var values, ats := map["total_kw" := IntVal(3), "avg_current" := IntVal(9)], Ats(true, Utility, false);
    ThreeRuns("total_kw", values);
    LoadedOnUtility(rm, values, ats);
    assert r in rm.registers;
    assert Accepted(rm);
  }

  lemma ThreeRuns(name: string, values: Values)
    requires name in values && values[name] == IntVal(3)
    ensures FirstMatch([BitRule("running", name, 1)], values) == "running"
  {
    assert And(1, 0) == 0;
    assert And(3, 1) == 1;
  }

  /** The engine runs and carries load while the switch says utility. */
  lemma LoadedOnUtility(rm: RegisterMap, values: Values, ats: Ats)
    requires FirstMatch(rm.engineStateBits, values) == "running"
    requires ats.authoritative && ats.position == Utility && !ats.normalGone
    requires "total_kw" in values && values["total_kw"] == IntVal(3)
    requires "avg_current" in values && values["avg_current"] == IntVal(9)
    ensures Disputed(rm, values, ats)
  {
    assert forall engine :: EngineAfter(engine, rm, values) == "running";
    assert Compared(ats, SampleOf(values, "running")) == Some(1);
  }

  // ---- bit alarms ------------------------------------------------

  predicate UniqueCodes(rm: RegisterMap) {
    forall i, j :: 0 <= i < j < |rm.alarmBits| ==> rm.alarmBits[i].code != rm.alarmBits[j].code
  }

  /** Polls of either tier in a row, since the last reload, that saw a bit of the code set. */
  function TrailingRun(rm: RegisterMap, rows: set<Code>, es: seq<Event>, c: Code): nat {
    if es == [] then 0
    else match Latest(es)
      case Reload(_) => 0
      case Ack(_) => TrailingRun(rm, rows, AlarmRuns.Front(es), c)
      case Poll(_, values, _) =>
        if c in CodesOf(SetAlarms(Run(rm, rows, AlarmRuns.Front(es)).rm.alarmBits, values))
        then TrailingRun(rm, rows, AlarmRuns.Front(es), c) + 1 else 0
  }

  predicate AllUnique(rm: RegisterMap, es: seq<Event>) {
    UniqueCodes(rm) && forall i :: 0 <= i < |es| && es[i].Reload? ==> UniqueCodes(es[i].rm)
  }

  lemma {:induction false} UniqueOccurrence(bits: seq<AlarmBit>, values: Values, c: Code)
    requires forall i, j :: 0 <= i < j < |bits| ==> bits[i].code != bits[j].code
    ensures Occurrences(SetAlarms(bits, values), c) == if c in CodesOf(SetAlarms(bits, values)) then 1 else 0
  {
    if bits != [] {
      var rest := bits[1..];
      UniqueOccurrence(rest, values, c);
      var tail := SetAlarms(rest, values);
      if BitIsSet(bits[0], values) {
        assert SetAlarms(bits, values) == [bits[0]] + tail && ([bits[0]] + tail)[1..] == tail;
        forall ab | ab in tail ensures ab.code != bits[0].code {
          var k :| 0 <= k < |rest| && rest[k] == ab;
          assert bits[k + 1] == ab;
        }
        assert bits[0] in SetAlarms(bits, values);
        assert c in CodesOf(SetAlarms(bits, values)) <==> c in CodesOf(tail) || Bit(bits[0].code) == c;
      }
    }
  }

  lemma {:induction false} CurrentUnique(rm: RegisterMap, rows: set<Code>, es: seq<Event>)
    requires AllUnique(rm, es)
    ensures UniqueCodes(Run(rm, rows, es).rm)
  {
    if es != [] {
      assert AllUnique(rm, AlarmRuns.Front(es));
      CurrentUnique(rm, rows, AlarmRuns.Front(es));
    }
  }

  /** With one rule per code, each counter is the length of the trailing run of its bit. */
  lemma {:induction false} CounterIsRun(rm: RegisterMap, rows: set<Code>, es: seq<Event>, c: Code)
    requires AllUnique(rm, es)
    ensures Count(Run(rm, rows, es).t.counts, c) == TrailingRun(rm, rows, es, c)
  {
    if es != [] {
      assert AllUnique(rm, AlarmRuns.Front(es));
      CounterIsRun(rm, rows, AlarmRuns.Front(es), c);
      if Latest(es).Poll? {
        CurrentUnique(rm, rows, AlarmRuns.Front(es));
        UniqueOccurrence(Run(rm, rows, AlarmRuns.Front(es)).rm.alarmBits, Latest(es).values, c);
      }
    }
  }

  /**
   * After a poll a bit alarm is displayed exactly when its bit has been set for at least
   * min_poll_count polls in a row since the last reload and the engine state does not hide it.
   */
  lemma DisplayedIffDebounced(rm: RegisterMap, rows: set<Code>, es: seq<Event>, ab: AlarmBit)
    requires AllUnique(rm, es) && es != [] && Latest(es).Poll?
    requires ab in Run(rm, rows, es).rm.alarmBits
    ensures var w := Run(rm, rows, es);
            Bit(ab.code) in w.t.shown <==>
              && TrailingRun(rm, rows, es, Bit(ab.code)) >= MaxInt(1, ab.minPolls)
              && w.t.engine !in ab.suppressIn
  {
    var w := Run(rm, rows, es);
    var c := Bit(ab.code);
    BitShownIffEffective(rm, rows, es, c);
    CounterIsRun(rm, rows, es, c);
    CurrentUnique(rm, rows, es);
    EffectiveIff(w.rm, Latest(es).values, ab, w.t.counts, w.t.engine);
  }

  lemma BitShownIffEffective(rm: RegisterMap, rows: set<Code>, es: seq<Event>, c: Code)
    requires es != [] && Latest(es).Poll? && c.Bit?
    ensures var w := Run(rm, rows, es);
            var active := SetAlarms(w.rm.alarmBits, Latest(es).values);
            c in w.t.shown <==> c in EffectiveCodes(active, w.t.counts, w.t.engine)
  {
    DisplayIsUnion(rm, rows, es);
    RunKeeps(rm, rows, es);
  }

  /** With unique codes, a code is effective through its own rule only. */
  lemma EffectiveIff(rm: RegisterMap, values: Values, ab: AlarmBit, counts: map<Code, nat>, engine: string)
    requires UniqueCodes(rm) && ab in rm.alarmBits
    ensures var active := SetAlarms(rm.alarmBits, values);
            && (Bit(ab.code) in EffectiveCodes(active, counts, engine) <==>
                ab in active && Effective(ab, counts, engine))
            && (Bit(ab.code) in CodesOf(active) <==> ab in active)
  {
    forall x | x in rm.alarmBits && x.code == ab.code ensures x == ab {
      var i :| 0 <= i < |rm.alarmBits| && rm.alarmBits[i] == x;
      var j :| 0 <= j < |rm.alarmBits| && rm.alarmBits[j] == ab;
    }
  }

  predicate MasksOk(rm: RegisterMap) {
    forall i :: 0 <= i < |rm.alarmBits| ==> 0 < rm.alarmBits[i].mask <= 0xFFFF
  }

  lemma {:induction false} TwoRulesCountTwice(bits: seq<AlarmBit>, values: Values, i: nat, j: nat)
    requires i < j < |bits| && bits[i].code == bits[j].code
    requires BitIsSet(bits[i], values) && BitIsSet(bits[j], values)
    ensures Occurrences(SetAlarms(bits, values), Bit(bits[i].code)) >= 2
  {
    var rest := bits[1..];
    var tail := SetAlarms(rest, values);
    if BitIsSet(bits[0], values) { assert ([bits[0]] + tail)[1..] == tail; }
    if i == 0 {
      assert rest[j - 1] == bits[j];
      OccursOnce(rest, values, j - 1);
    } else {
      assert rest[i - 1] == bits[i] && rest[j - 1] == bits[j];
      TwoRulesCountTwice(rest, values, i - 1, j - 1);
    }
  }

  // ---- bit alarms against consecutive prime polls ------------------------------------------------

  /**
   * At every point of every run a bit's counter is the number of consecutive prime polls that saw it exactly
   * when nothing tore the count since the bit was last clear; and it is throughout the run exactly when no
   * base poll ever found the bit set and no prime poll found it set by two rules.
   */
  lemma PrimeDebounceIff(rm: RegisterMap, rows: set<Code>, es: seq<Event>, c: Code)
    ensures var marks, count := BitMarks(rm, rows, es, c), Count(Run(rm, rows, es).t.counts, c);
            && PrimeRun(marks) <= count
            && (count == PrimeRun(marks) <==> !Torn(marks))
            && (AlwaysPrimeRun(marks) <==> NeverTears(marks))
            && (NeverTears(marks) <==> OncePerPrimePoll(rm, rows, es, c))
  {
    CountersAreStreaks(rm, rows, es, c);
    StreakIsPrimeRunIff(BitMarks(rm, rows, es, c));
    AlwaysPrimeRunIff(BitMarks(rm, rows, es, c));
    NeverTearsIff(rm, rows, es, c);
  }

  /**
   * With unique codes: the poll that brings a bit's count to what its alarm asks for is that prime poll in a row
   * exactly when it is a prime poll and no base poll found the bit set since it was last clear.
   */
  lemma BitReachedAtNthIff(rm: RegisterMap, rows: set<Code>, es: seq<Event>, c: Code, n: nat)
    requires AllUnique(rm, es) && es != []
    requires Count(Run(rm, rows, AlarmRuns.Front(es)).t.counts, c) < n <= Count(Run(rm, rows, es).t.counts, c)
    ensures Latest(es).Poll?
    ensures var before := BitMarks(rm, rows, AlarmRuns.Front(es), c);
            PrimeRun(BitMarks(rm, rows, es, c)) == n <==> Latest(es).tier == Prime && !Torn(before)
  {
    var f := AlarmRuns.Front(es);
    assert AllUnique(rm, f);
    CountersAreStreaks(rm, rows, f, c);
    CountersAreStreaks(rm, rows, es, c);
    CurrentUnique(rm, rows, f);
    MarksOnce(Run(rm, rows, f), Latest(es), c);
    ReachedAtNthIff(BitMarks(rm, rows, f, c), BitMark(Run(rm, rows, f), Latest(es), c), n);
  }

  lemma MarksOnce(w: World, e: Event, c: Code)
    requires UniqueCodes(w.rm)
    ensures BitMark(w, e, c) != [] ==> BitMark(w, e, c)[0].hits.Some? && BitMark(w, e, c)[0].hits.value <= 1
  {
    if e.Poll? { UniqueOccurrence(w.rm.alarmBits, e.values, c); }
  }

  /** No base poll found the bit set, and no prime poll found it set by more than one rule of its code. */
  predicate OncePerPrimePoll(rm: RegisterMap, rows: set<Code>, es: seq<Event>, c: Code) {
    es == []
    || (&& OncePerPrimePoll(rm, rows, AlarmRuns.Front(es), c)
        && CountsOnce(Run(rm, rows, AlarmRuns.Front(es)).rm, Latest(es), c))
  }

  /** A prime poll finds at most one rule of the code set, a base poll none. */
  predicate CountsOnce(rm: RegisterMap, e: Event, c: Code) {
    e.Poll? ==> Occurrences(SetAlarms(rm.alarmBits, e.values), c) <= if e.tier == Prime then 1 else 0
  }

  lemma {:induction false} NeverTearsIff(rm: RegisterMap, rows: set<Code>, es: seq<Event>, c: Code)
    ensures NeverTears(BitMarks(rm, rows, es, c)) <==> OncePerPrimePoll(rm, rows, es, c)
  {
    if es != [] {
      var f := AlarmRuns.Front(es);
      NeverTearsIff(rm, rows, f, c);
      MarkTearsIff(BitMarks(rm, rows, f, c), Run(rm, rows, f), Latest(es), c);
    }
  }

  lemma MarkTearsIff(before: seq<Mark>, w: World, e: Event, c: Code)
    ensures NeverTears(before + BitMark(w, e, c)) <==> NeverTears(before) && CountsOnce(w.rm, e, c)
  {
    if BitMark(w, e, c) == [] {
      assert before + [] == before;
    } else {
      StreakAppend(before, BitMark(w, e, c)[0]);
      assert Last(before + BitMark(w, e, c)) == BitMark(w, e, c)[0];
    }
  }

  predicate NoReload(es: seq<Event>) {
    forall i :: 0 <= i < |es| ==> !es[i].Reload?
  }

  /** No base poll finds any alarm bit set. */
  predicate NoBaseHit(rm: RegisterMap, es: seq<Event>) {
    forall i :: 0 <= i < |es| && es[i].Poll? && es[i].tier != Prime ==> SetAlarms(rm.alarmBits, es[i].values) == []
  }

  /**
   * For a map: in every run whose base polls find no bit set, every counter is the number of consecutive
   * prime polls, exactly when its alarm codes are unique.  The validator does not check that.
   */
  lemma DebounceIffUniqueCodes(rm: RegisterMap)
    requires MasksOk(rm)
    ensures (forall es: seq<Event>, c: Code :: NoReload(es) && NoBaseHit(rm, es) ==>
               Count(Run(rm, {}, es).t.counts, c) == PrimeRun(BitMarks(rm, {}, es, c)))
            <==> UniqueCodes(rm)
  {
    if UniqueCodes(rm) {
      forall es: seq<Event>, c: Code | NoReload(es) && NoBaseHit(rm, es)
        ensures Count(Run(rm, {}, es).t.counts, c) == PrimeRun(BitMarks(rm, {}, es, c))
      {
        UniqueMeansOnce(rm, es, c);
        PrimeDebounceIff(rm, {}, es, c);
        AlwaysPrimeRunIff(BitMarks(rm, {}, es, c));
      }
    } else {
      var es, c := SharedCodeMiscounts(rm);
    }
  }

  lemma {:induction false} UniqueMeansOnce(rm: RegisterMap, es: seq<Event>, c: Code)
    requires UniqueCodes(rm) && NoReload(es) && NoBaseHit(rm, es)
    ensures OncePerPrimePoll(rm, {}, es, c) && Run(rm, {}, es).rm == rm
  {
    if es != [] {
      UniqueMeansOnce(rm, AlarmRuns.Front(es), c);
      if Latest(es).Poll? {
        UniqueOccurrence(rm.alarmBits, Latest(es).values, c);
        if Latest(es).tier != Prime { assert SetAlarms(rm.alarmBits, Latest(es).values) == []; }
      }
    }
  }

  lemma SharedCodeMiscounts(rm: RegisterMap) returns (es: seq<Event>, c: Code)
    requires MasksOk(rm) && !UniqueCodes(rm)
    ensures NoReload(es) && NoBaseHit(rm, es)
    ensures Count(Run(rm, {}, es).t.counts, c) != PrimeRun(BitMarks(rm, {}, es, c))
  {
    var i, j :| 0 <= i < j < |rm.alarmBits| && rm.alarmBits[i].code == rm.alarmBits[j].code;
    var a, b := rm.alarmBits[i], rm.alarmBits[j];
    var values := map[a.register := IntVal(0xFFFF), b.register := IntVal(0xFFFF)];
    AllOnesSet(a, values);
    AllOnesSet(b, values);
    TwoRulesCountTwice(rm.alarmBits, values, i, j);
    c := Bit(a.code);
    es := OneMark(rm, values, c);
  }

  lemma OneMark(rm: RegisterMap, values: Values, c: Code) returns (es: seq<Event>)
    requires Occurrences(SetAlarms(rm.alarmBits, values), c) >= 2
    ensures NoReload(es) && NoBaseHit(rm, es)
    ensures Count(Run(rm, {}, es).t.counts, c) != PrimeRun(BitMarks(rm, {}, es, c))
  {
    es := [Poll(Prime, values, Ats(false, Unknown, false))];
    CountersAreStreaks(rm, {}, es, c);
    SingleMark(rm, es[0], c);
    TwoIsTorn(BitMarks(rm, {}, es, c)[0]);
    StreakIsPrimeRunIff(BitMarks(rm, {}, es, c));
  }

  lemma SingleMark(rm: RegisterMap, e: Event, c: Code)
    ensures BitMarks(rm, {}, [e], c) == BitMark(Begin(rm, {}), e, c)
  {
    assert AlarmRuns.Front([e]) == [];
  }

  lemma TwoIsTorn(m: Mark)
    requires m.hits.Some? && m.hits.value >= 2
    ensures Torn([m])
  {
    assert Last([m]) == m;
  }

  /**
   * Unique codes are not enough: an alarm that asks for two prime polls is on display after one prime poll
   * that sees its bit and any base poll that still finds it set.
   */
  lemma BasePollRaisesAlarm(w: World, values: Values, later: Values, ats: Ats, i: nat)
    requires Inv(w) && UniqueCodes(w.rm) && i < |w.rm.alarmBits|
    requires w.rm.alarmBits[i].minPolls == 2 && w.rm.alarmBits[i].suppressIn == {}
    requires BitIsSet(w.rm.alarmBits[i], values) && BitIsSet(w.rm.alarmBits[i], later)
    requires Count(w.t.counts, Bit(w.rm.alarmBits[i].code)) == 0
    ensures var c, one := Bit(w.rm.alarmBits[i].code), Next(w, Poll(Prime, values, ats));
            c !in one.t.shown && c in Next(one, Poll(Base, later, ats)).t.shown
  {
    var one := Next(w, Poll(Prime, values, ats));
    NextKeeps(w, Poll(Prime, values, ats));
    ShownIffCounted(w.t, w.rm, values, ats, i);
    ShownIffCounted(one.t, one.rm, later, ats, i);
  }

  /** A set bit is shown by an update exactly when its new count reaches what its rule asks for. */
  lemma ShownIffCounted(t: Tracker, rm: RegisterMap, values: Values, ats: Ats, i: nat)
    requires Typed(t) && UniqueCodes(rm) && i < |rm.alarmBits| && BitIsSet(rm.alarmBits[i], values)
    requires rm.alarmBits[i].suppressIn == {}
    ensures var ab, u := rm.alarmBits[i], Update(t, rm, values, ats);
            && Count(u.counts, Bit(ab.code)) == Count(t.counts, Bit(ab.code)) + 1
            && (Bit(ab.code) in u.shown <==> Count(u.counts, Bit(ab.code)) >= ab.minPolls)
  {
    var ab, u := rm.alarmBits[i], Update(t, rm, values, ats);
    var active := SetAlarms(rm.alarmBits, values);
    UpdateCounters(t, rm, values, ats, Bit(ab.code));
    BitShown(t, rm, values, ats, Bit(ab.code));
    UniqueOccurrence(rm.alarmBits, values, Bit(ab.code));
    EffectiveIff(rm, values, ab, u.counts, u.engine);
    assert ab in active;
  }

  lemma BitShown(t: Tracker, rm: RegisterMap, values: Values, ats: Ats, c: Code)
    requires Typed(t) && c.Bit?
    ensures var u := Update(t, rm, values, ats);
            c in u.shown <==> c in EffectiveCodes(SetAlarms(rm.alarmBits, values), u.counts, u.engine)
  {
    UpdateShown(t, rm, values, ats);
    DeltasApart(t, rm, values, ats);
  }
}
