/**
 * Whole runs of the state machine: polls, map reloads and operator acknowledgements in any order
 * (StateMachine.update and apply_regmap in backend/genwatch/services/state.py, ack_alarm in
 * backend/genwatch/api/events.py).
 */
module AlarmRuns {
  import opened Prelude
  import opened Registers
  import opened LoadSource
  import opened Alarms
  import opened StateTracker

  datatype Event =
    | Poll(tier: Tier, values: Values, ats: Ats) // the update after a poll of either tier
    | Reload(rm: RegisterMap)
    | Ack(code: Code) // the local deletion at the end of an acknowledgement

  /** The tracker, with what a reader of the whole run also knows. */
  datatype World = World(
    t: Tracker,
    rm: RegisterMap,
    lastSet: set<Code>,  // alarm bits set in the last poll
    mine: set<Code>,     // bit-alarm rows this session inserted and nobody deleted
    polled: bool)

  function Begin(rm: RegisterMap, rows: set<Code>): World {
    World(Start(rows), rm, {}, {}, false)
  }

  function Bits(s: set<Code>): set<Code> {
    set c | c in s && c.Bit?
  }

  function Next(w: World, e: Event): World {
    match e
    case Poll(_, values, ats) =>
      var d := UpdateDelta(w.t, w.rm, values, ats);
      World(Update(w.t, w.rm, values, ats), w.rm, CodesOf(SetAlarms(w.rm.alarmBits, values)),
            (w.mine + Bits(d.inserted)) - d.deleted, true)
    case Reload(rm) => w.(t := w.t.(counts := map[]), rm := rm)
    case Ack(code) => w.(t := w.t.(rows := w.t.rows - {code}), mine := w.mine - {code})
  }

  function Front(es: seq<Event>): seq<Event>
    requires es != []
  {
    es[..|es| - 1]
  }

  function Latest(es: seq<Event>): Event
    requires es != []
  {
    es[|es| - 1]
  }

  function Run(rm: RegisterMap, rows: set<Code>, es: seq<Event>): World {
    if es == [] then Begin(rm, rows) else Next(Run(rm, rows, Front(es)), Latest(es))
  }

  // ---- displayed, raised and set bits; rows ---------------------------------------------

  ghost predicate Inv(w: World) {
    && Typed(w.t)
    && Bits(w.t.shown) <= w.t.raised <= w.lastSet
    && w.mine <= w.t.raised && w.mine <= w.t.rows
    && (forall c :: c in w.t.rangeRaised <==> Count(w.t.rangeCounts, c) >= NUMERIC_POLLS)
    && (w.t.disagreeRaised <==> w.t.disagreeCount >= DISAGREE_POLLS)
    && Layered(w.t)
  }

  /** The display is the bit alarms shown, the range codes raised and the disagreement flag. */
  predicate Layered(t: Tracker) {
    t.shown == Bits(t.shown) + t.rangeRaised + Flag(t.disagreeRaised)
  }

  lemma RangeLeavesBits(t: Tracker, rm: RegisterMap, values: Values)
    requires Typed(t)
    ensures var u, d := RangeStage(t, rm, values), RangeDelta(t, rm, values);
            && Typed(u) && u.raised == t.raised && Bits(u.shown) == Bits(t.shown)
            && Bits(d.inserted) == {} && Bits(d.deleted) == {}
  {
    RangeStageTyped(t, rm, values);
  }

  lemma CrossLeavesBits(t: Tracker, rm: RegisterMap, values: Values, ats: Ats)
    ensures var u, d := CrossStage(t, rm, values, ats), CrossDelta(t, rm, values, ats);
            && u.raised == t.raised && Bits(u.shown) == Bits(t.shown)
            && Bits(d.inserted) == {} && Bits(d.deleted) == {}
  {
  }

  lemma BitsUnion(a: set<Code>, b: set<Code>)
    ensures Bits(a + b) == Bits(a) + Bits(b)
  {
  }

  /** Later stages leave the bit part alone. */
  lemma BitPartSettled(t: Tracker, rm: RegisterMap, values: Values, ats: Ats)
    requires Typed(t)
    ensures var u, d := Update(t, rm, values, ats), UpdateDelta(t, rm, values, ats);
            var t1, d1 := BitStage(t, rm, values), BitDelta(t, rm, values);
            && u.raised == t1.raised && Bits(u.shown) == Bits(t1.shown)
            && Bits(d.inserted) == Bits(d1.inserted) && Bits(d.deleted) == Bits(d1.deleted)
  {
    var t1 := BitStage(t, rm, values);
    var t2 := RangeStage(t1, rm, values);
    BitStageTyped(t, rm, values);
    RangeLeavesBits(t1, rm, values);
    CrossLeavesBits(t2, rm, values, ats);
    var d0, d1, d2 := BitDelta(t, rm, values), RangeDelta(t1, rm, values), CrossDelta(t2, rm, values, ats);
    BitsUnion(d0.inserted, d1.inserted);
    BitsUnion(d0.deleted, d1.deleted);
    BitsUnion(d0.inserted + d1.inserted, d2.inserted);
    BitsUnion(d0.deleted + d1.deleted, d2.deleted);
  }

  /** What one update does to the bit part. */
  lemma BitPart(t: Tracker, rm: RegisterMap, values: Values, ats: Ats)
    requires Typed(t) && Bits(t.shown) <= t.raised
    ensures var u, d := Update(t, rm, values, ats), UpdateDelta(t, rm, values, ats);
            && Bits(u.shown) <= u.raised <= CodesOf(SetAlarms(rm.alarmBits, values))
            && Bits(d.inserted) <= u.raised
            && forall c :: c in t.raised && c in t.rows && c !in d.deleted ==> c in u.raised
  {
    BitPartSettled(t, rm, values, ats);
    BitStageTyped(t, rm, values);
    var d := UpdateDelta(t, rm, values, ats);
    forall c | c in t.raised && c in t.rows && c !in d.deleted ensures c in BitStage(t, rm, values).raised {
      assert c !in Bits(d.deleted);
    }
  }

  /** Rows after one update are the rows before, plus the inserted, minus the deleted. */
  lemma RowsBalance(t: Tracker, rm: RegisterMap, values: Values, ats: Ats, c: Code)
    requires Typed(t)
    ensures var u, d := Update(t, rm, values, ats), UpdateDelta(t, rm, values, ats);
            OneIf(c in u.rows) == OneIf(c in t.rows) + OneIf(c in d.inserted) - OneIf(c in d.deleted)
  {
    var t1 := BitStage(t, rm, values);
    var t2 := RangeStage(t1, rm, values);
    DeltasApart(t, rm, values, ats);
    var d0, d1 := BitDelta(t, rm, values), RangeDelta(t1, rm, values);
    assert OneIf(c in t1.rows) == OneIf(c in t.rows) + OneIf(c in d0.inserted) - OneIf(c in d0.deleted);
    assert OneIf(c in t2.rows) == OneIf(c in t1.rows) + OneIf(c in d1.inserted) - OneIf(c in d1.deleted);
  }

  function OneIf(b: bool): int {
    if b then 1 else 0
  }

  lemma CountersAgree(t: Tracker, rm: RegisterMap, values: Values, ats: Ats)
    requires forall c :: c in t.rangeRaised <==> Count(t.rangeCounts, c) >= NUMERIC_POLLS
    requires t.disagreeRaised <==> t.disagreeCount >= DISAGREE_POLLS
    ensures var u := Update(t, rm, values, ats);
            && (forall c :: c in u.rangeRaised <==> Count(u.rangeCounts, c) >= NUMERIC_POLLS)
            && (u.disagreeRaised <==> u.disagreeCount >= DISAGREE_POLLS)
  {
  }

  lemma EffectiveAreBits(active: seq<AlarmBit>, counts: map<Code, nat>, engine: string)
    ensures Bits(EffectiveCodes(active, counts, engine)) == EffectiveCodes(active, counts, engine)
  {
  }

  lemma UpdateLayered(t: Tracker, rm: RegisterMap, values: Values, ats: Ats)
    requires Typed(t)
    ensures Layered(Update(t, rm, values, ats))
  {
    var u := Update(t, rm, values, ats);
    UpdateShown(t, rm, values, ats);
    var bits := EffectiveCodes(SetAlarms(rm.alarmBits, values), u.counts, u.engine);
    EffectiveAreBits(SetAlarms(rm.alarmBits, values), u.counts, u.engine);
    BitsUnion(bits + u.rangeRaised, Flag(u.disagreeRaised));
    BitsUnion(bits, u.rangeRaised);
    DeltasApart(t, rm, values, ats);
    assert Bits(u.rangeRaised) == {} && Bits(Flag(u.disagreeRaised)) == {};
  }

  lemma NextKeeps(w: World, e: Event)
    requires Inv(w)
    ensures Inv(Next(w, e))
  {
    if e.Poll? {
      BitPart(w.t, w.rm, e.values, e.ats);
      CountersAgree(w.t, w.rm, e.values, e.ats);
      UpdateLayered(w.t, w.rm, e.values, e.ats);
      BitStageTyped(w.t, w.rm, e.values);
      RangeStageTyped(BitStage(w.t, w.rm, e.values), w.rm, e.values);
      var w' := Next(w, e);
      forall c | c in w'.mine ensures c in w'.t.raised && c in w'.t.rows {
        RowsBalance(w.t, w.rm, e.values, e.ats, c);
      }
    }
  }

  lemma {:induction false} RunKeeps(rm: RegisterMap, rows: set<Code>, es: seq<Event>)
    ensures Inv(Run(rm, rows, es))
  {
    if es != [] {
      RunKeeps(rm, rows, Front(es));
      NextKeeps(Run(rm, rows, Front(es)), Latest(es));
    }
  }

  /**
   * At every point of every run: what is displayed was raised this session, what was raised has
   * its bit set in the last poll, and no bit row this session inserted outlives its bit, whatever
   * suppression, reloads and acknowledgements came between.
   */
  lemma RowsFollowBits(rm: RegisterMap, rows: set<Code>, es: seq<Event>)
    ensures var w := Run(rm, rows, es);
            && Bits(w.t.shown) <= w.t.raised <= w.lastSet
            && w.mine <= w.t.raised && w.mine <= w.t.rows
  {
    RunKeeps(rm, rows, es);
  }

  /** After a poll the display is exactly the effective bits, the raised ranges and the disagreement flag. */
  lemma DisplayIsUnion(rm: RegisterMap, rows: set<Code>, es: seq<Event>)
    requires es != [] && Latest(es).Poll?
    ensures var before, w := Run(rm, rows, Front(es)), Run(rm, rows, es);
            var active := SetAlarms(w.rm.alarmBits, Latest(es).values);
            && w.t.shown == EffectiveCodes(active, w.t.counts, w.t.engine) + w.t.rangeRaised + Flag(w.t.disagreeRaised)
            && (w.t.disagreeRaised ==> Latest(es).ats.authoritative && w.t.engine in {"running", "alarm"})
  {
    RunKeeps(rm, rows, Front(es));
    var w, e := Run(rm, rows, Front(es)), Latest(es);
    UpdateShown(w.t, w.rm, e.values, e.ats);
  }

  lemma UpdateShown(t: Tracker, rm: RegisterMap, values: Values, ats: Ats)
    requires Typed(t)
    ensures var u := Update(t, rm, values, ats);
            && u.shown == EffectiveCodes(SetAlarms(rm.alarmBits, values), u.counts, u.engine)
                          + u.rangeRaised + Flag(u.disagreeRaised)
            && (u.disagreeRaised ==> ats.authoritative && u.engine in {"running", "alarm"})
  {
    var t1 := BitStage(t, rm, values);
    BitStageTyped(t, rm, values);
    RangeStageTyped(t1, rm, values);
    assert Disagree !in t1.shown;
    var t2 := RangeStage(t1, rm, values);
    assert t2.shown == t1.shown + t2.rangeRaised;
  }

  // ---- load source over a run ---------------------------------------------------------------

  /** What each poll of the run showed, with the engine state that same poll derived. */
  function SamplesOf(rm: RegisterMap, rows: set<Code>, es: seq<Event>): seq<Sample> {
    if es == [] then []
    else
      SamplesOf(rm, rows, Front(es))
      + (if Latest(es).Poll? then [SampleOf(Latest(es).values, Run(rm, rows, es).t.engine)] else [])
  }

  predicate SwitchSilent(es: seq<Event>) {
    forall i :: 0 <= i < |es| && es[i].Poll? ==> !es[i].ats.authoritative || es[i].ats.position == Unknown
  }

  lemma UpdateSource(t: Tracker, rm: RegisterMap, values: Values, ats: Ats)
    ensures var u := Update(t, rm, values, ats);
            u.source == Derive(ats.authoritative, ats.position, SampleOf(values, u.engine), t.source)
  {
  }

  /** Without an authoritative transfer switch the run's load source is the latch over its samples. */
  lemma {:induction false} SourceFollowsLatch(rm: RegisterMap, rows: set<Code>, es: seq<Event>)
    requires SwitchSilent(es)
    ensures Run(rm, rows, es).t.source == After(SamplesOf(rm, rows, es), Unknown)
    ensures Run(rm, rows, es).t.source == Generator <==> Latched(SamplesOf(rm, rows, es), Unknown)
  {
    SourceIsLatch(SamplesOf(rm, rows, es), Unknown);
    if es != [] {
      SourceFollowsLatch(rm, rows, Front(es));
      var w := Run(rm, rows, Front(es));
      var before := SamplesOf(rm, rows, Front(es));
      if Latest(es).Poll? {
        UpdateSource(w.t, w.rm, Latest(es).values, Latest(es).ats);
        var all := SamplesOf(rm, rows, es);
        assert all[..|all| - 1] == before;
      } else {
        assert SamplesOf(rm, rows, es) == before;
      }
    }
  }

  // ---- conservation of rows ---------------------------------------------------------------

  function RaiseEvents(rm: RegisterMap, rows: set<Code>, es: seq<Event>, c: Code): int {
    if es == [] then 0
    else
      var w := Run(rm, rows, Front(es));
      RaiseEvents(rm, rows, Front(es), c)
      + (if Latest(es).Poll? then OneIf(c in UpdateDelta(w.t, w.rm, Latest(es).values, Latest(es).ats).inserted) else 0)
  }

  function ClearEvents(rm: RegisterMap, rows: set<Code>, es: seq<Event>, c: Code): int {
    if es == [] then 0
    else
      var w := Run(rm, rows, Front(es));
      ClearEvents(rm, rows, Front(es), c)
      + (if Latest(es).Poll? then OneIf(c in UpdateDelta(w.t, w.rm, Latest(es).values, Latest(es).ats).deleted) else 0)
  }

  /** Acknowledgements of c that found its row. */
  function AckDeletions(rm: RegisterMap, rows: set<Code>, es: seq<Event>, c: Code): int {
    if es == [] then 0
    else AckDeletions(rm, rows, Front(es), c)
         + OneIf(Latest(es) == Ack(c) && c in Run(rm, rows, Front(es)).t.rows)
  }

  /** Per code: raise events - clear events - ack deletions = row now - row at the start. */
  lemma {:induction false} RowLedgerBalances(rm: RegisterMap, rows: set<Code>, es: seq<Event>, c: Code)
    ensures RaiseEvents(rm, rows, es, c) - ClearEvents(rm, rows, es, c) - AckDeletions(rm, rows, es, c)
         == OneIf(c in Run(rm, rows, es).t.rows) - OneIf(c in rows)
  {
    if es != [] {
      RowLedgerBalances(rm, rows, Front(es), c);
      RunKeeps(rm, rows, Front(es));
      var w := Run(rm, rows, Front(es));
      if Latest(es).Poll? { RowsBalance(w.t, w.rm, Latest(es).values, Latest(es).ats, c); }
    }
  }

  // ---- when a deleted row comes back ---------------------------------------------------------

  function Continue(w: World, es: seq<Event>): World {
    if es == [] then w else Next(Continue(w, Front(es)), Latest(es))
  }

  lemma {:induction false} ContinueKeeps(w: World, es: seq<Event>)
    requires Inv(w)
    ensures Inv(Continue(w, es))
  {
    if es != [] {
      ContinueKeeps(w, Front(es));
      NextKeeps(Continue(w, Front(es)), Latest(es));
    }
  }

  /** The alarm enters the display with this event. */
  predicate Appears(w: World, e: Event, c: Code) {
    c !in w.t.shown && c in Next(w, e).t.shown
  }

  lemma BitRowBack(t: Tracker, rm: RegisterMap, values: Values, ats: Ats, c: Code)
    requires Typed(t) && Layered(t) && c.Bit? && c !in t.rows
    ensures var u := Update(t, rm, values, ats);
            c in u.rows <==> c !in t.shown && c in u.shown
  {
    BitPartSettled(t, rm, values, ats);
    BitStageTyped(t, rm, values);
    RangeStageTyped(BitStage(t, rm, values), rm, values);
    var u := Update(t, rm, values, ats);
    assert c in u.rows <==> c in BitStage(t, rm, values).rows;
    assert c in Bits(u.shown) <==> c in Bits(BitStage(t, rm, values).shown);
  }

  lemma RangeRowBack(t: Tracker, rm: RegisterMap, values: Values, ats: Ats, c: Code)
    requires Typed(t) && c.Range? && c !in t.rows
    ensures var u := Update(t, rm, values, ats);
            c in u.rows <==> c !in t.rangeRaised && c in u.rangeRaised
  {
    BitStageTyped(t, rm, values);
  }

  lemma CrossRowBack(t: Tracker, rm: RegisterMap, values: Values, ats: Ats)
    requires Typed(t) && Disagree !in t.rows
    ensures var u := Update(t, rm, values, ats);
            Disagree in u.rows <==> !t.disagreeRaised && u.disagreeRaised
  {
    BitStageTyped(t, rm, values);
    RangeStageTyped(BitStage(t, rm, values), rm, values);
  }

  lemma FaultRowBack(t: Tracker, rm: RegisterMap, values: Values, ats: Ats, c: Code)
    requires Typed(t) && c.Fault? && c !in t.rows
    ensures c !in Update(t, rm, values, ats).rows
  {
    BitStageTyped(t, rm, values);
    RangeStageTyped(BitStage(t, rm, values), rm, values);
  }

  lemma LayeredKinds(t: Tracker, c: Code)
    requires Typed(t) && Layered(t)
    ensures c.Range? ==> (c in t.shown <==> c in t.rangeRaised)
    ensures c.Disagree? ==> (c in t.shown <==> t.disagreeRaised)
    ensures c.Fault? ==> c !in t.shown
  {
  }

  /**
   * One event brings a missing row back exactly when the alarm enters the display with it: for a bit the
   * guard is the displayed set, for a range check and the disagreement check it is what they have raised.
   */
  lemma RowBackIff(w: World, e: Event, c: Code)
    requires Inv(w) && c !in w.t.rows
    ensures c in Next(w, e).t.rows <==> Appears(w, e, c)
    ensures c.Range? ==> (Appears(w, e, c) <==> c !in w.t.rangeRaised && c in Next(w, e).t.rangeRaised)
    ensures c.Disagree? ==> (Appears(w, e, c) <==> !w.t.disagreeRaised && Next(w, e).t.disagreeRaised)
  {
    NextKeeps(w, e);
    LayeredKinds(w.t, c);
    LayeredKinds(Next(w, e).t, c);
    if e.Poll? {
      match c
      case Bit(_) => BitRowBack(w.t, w.rm, e.values, e.ats, c);
      case Range(_) => RangeRowBack(w.t, w.rm, e.values, e.ats, c);
      case Disagree => CrossRowBack(w.t, w.rm, e.values, e.ats);
      case Fault(_) => FaultRowBack(w.t, w.rm, e.values, e.ats, c);
    }
  }

  /**
   * After an acknowledgement, if the next poll shows the alarm, its row comes back exactly when the alarm
   * was not on display when it was acknowledged.
   */
  lemma AckReraisedIff(rm: RegisterMap, rows: set<Code>, es: seq<Event>, c: Code,
                       tier: Tier, values: Values, ats: Ats)
    ensures var w := Run(rm, rows, es);
            var acked := Next(w, Ack(c));
            var polled := Next(acked, Poll(tier, values, ats));
            c in polled.t.shown ==> (c in polled.t.rows <==> c !in w.t.shown)
  {
    RunKeeps(rm, rows, es);
    var w := Run(rm, rows, es);
    NextKeeps(w, Ack(c));
    RowBackIff(Next(w, Ack(c)), Poll(tier, values, ats), c);
  }

  /** At no point of the run, its ends included, is the row there. */
  predicate NeverThere(w: World, es: seq<Event>, c: Code) {
    c !in Continue(w, es).t.rows && (es == [] || NeverThere(w, Front(es), c))
  }

  /** No event of the run brings the alarm into the display. */
  predicate NeverAppears(w: World, es: seq<Event>, c: Code) {
    es == [] || (NeverAppears(w, Front(es), c) && !Appears(Continue(w, Front(es)), Latest(es), c))
  }

  /** A missing row stays away for a whole run exactly when no event of it brings the alarm into the display. */
  lemma {:induction false} RowStaysAwayIff(w: World, es: seq<Event>, c: Code)
    requires Inv(w) && c !in w.t.rows
    ensures NeverThere(w, es, c) <==> NeverAppears(w, es, c)
  {
    if es != [] {
      RowStaysAwayIff(w, Front(es), c);
      ContinueKeeps(w, Front(es));
      if NeverThere(w, Front(es), c) { RowBackIff(Continue(w, Front(es)), Latest(es), c); }
    }
  }

  predicate AlwaysShown(w: World, es: seq<Event>, c: Code) {
    c in Continue(w, es).t.shown && (es == [] || AlwaysShown(w, Front(es), c))
  }

  lemma {:induction false} ShownNeverAppears(w: World, es: seq<Event>, c: Code)
    requires AlwaysShown(w, es, c)
    ensures NeverAppears(w, es, c)
  {
    if es != [] {
      ShownNeverAppears(w, Front(es), c);
      assert AlwaysShown(w, Front(es), c);
    }
  }

  /** So an acknowledged alarm that stays displayed is not raised again until it has left the display. */
  lemma AckedRowStaysAway(w: World, es: seq<Event>, c: Code)
    requires Inv(w) && c !in w.t.rows && AlwaysShown(w, es, c)
    ensures NeverThere(w, es, c)
  {
    ShownNeverAppears(w, es, c);
    RowStaysAwayIff(w, es, c);
  }

  lemma ShownAfterPoll(t: Tracker, rm: RegisterMap, values: Values, ats: Ats, i: nat)
    requires Typed(t) && i < |rm.alarmBits| && rm.alarmBits[i].minPolls <= 1 && rm.alarmBits[i].suppressIn == {}
    requires BitIsSet(rm.alarmBits[i], values)
    ensures Bit(rm.alarmBits[i].code) in Update(t, rm, values, ats).shown
  {
    var ab, u := rm.alarmBits[i], Update(t, rm, values, ats);
    UpdateShown(t, rm, values, ats);
    OccursOnce(rm.alarmBits, values, i);
    assert ab in SetAlarms(rm.alarmBits, values);
    assert Bit(ab.code) in CodesOf(SetAlarms(rm.alarmBits, values));
    assert u.counts == CountsAfter(t.counts, SetAlarms(rm.alarmBits, values));
    assert Effective(ab, u.counts, u.engine);
  }

  /**
   * From any state of any run, with an alarm bit shown at once: raised, acknowledged, and still set on the
   * next poll, the alarm is on display and its row is not there.
   */
  lemma AckedAlarmLosesRow(w: World, i: nat) returns (values: Values, ats: Ats)
    requires Inv(w) && i < |w.rm.alarmBits|
    requires w.rm.alarmBits[i].minPolls <= 1 && w.rm.alarmBits[i].suppressIn == {}
    requires 0 < w.rm.alarmBits[i].mask <= 0xFFFF
    ensures BitIsSet(w.rm.alarmBits[i], values)
    ensures var c := Bit(w.rm.alarmBits[i].code);
            var v := Next(Next(Next(w, Poll(Prime, values, ats)), Ack(c)), Poll(Prime, values, ats));
            c in v.lastSet && c in v.t.shown && c !in v.t.rows
  {
    var ab := w.rm.alarmBits[i];
    var c := Bit(ab.code);
    values, ats := map[ab.register := IntVal(0xFFFF)], Ats(false, Unknown, false);
    AllOnesSet(ab, values);
    var raised := Next(w, Poll(Prime, values, ats));
    var acked := Next(raised, Ack(c));
    NextKeeps(w, Poll(Prime, values, ats));
    NextKeeps(raised, Ack(c));
    StillShown(w, raised, acked, values, ats, i);
    RowBackIff(acked, Poll(Prime, values, ats), c);
  }

  lemma StillShown(w: World, raised: World, acked: World, values: Values, ats: Ats, i: nat)
    requires Inv(w) && i < |w.rm.alarmBits| && w.rm.alarmBits[i].minPolls <= 1 && w.rm.alarmBits[i].suppressIn == {}
    requires BitIsSet(w.rm.alarmBits[i], values)
    requires raised == Next(w, Poll(Prime, values, ats)) && acked == Next(raised, Ack(Bit(w.rm.alarmBits[i].code)))
    requires Inv(acked)
    ensures var c, v := Bit(w.rm.alarmBits[i].code), Next(acked, Poll(Prime, values, ats));
            c in acked.t.shown && c !in acked.t.rows && c in v.t.shown && c in v.lastSet
  {
    ShownAfterPoll(w.t, w.rm, values, ats, i);
    ShownAfterPoll(acked.t, acked.rm, values, ats, i);
    SetIsCoded(w.rm, values, i);
  }

  lemma SetIsCoded(rm: RegisterMap, values: Values, i: nat)
    requires i < |rm.alarmBits| && BitIsSet(rm.alarmBits[i], values)
    ensures Bit(rm.alarmBits[i].code) in CodesOf(SetAlarms(rm.alarmBits, values))
  {
    assert rm.alarmBits[i] in SetAlarms(rm.alarmBits, values);
  }

  lemma {:induction false} OccursOnce(bits: seq<AlarmBit>, values: Values, j: nat)
    requires j < |bits| && BitIsSet(bits[j], values)
    ensures Occurrences(SetAlarms(bits, values), Bit(bits[j].code)) >= 1
  {
    var rest := bits[1..];
    var tail := SetAlarms(rest, values);
    if BitIsSet(bits[0], values) { assert ([bits[0]] + tail)[1..] == tail; }
    if j > 0 {
      assert rest[j - 1] == bits[j];
      OccursOnce(rest, values, j - 1);
    }
  }

  lemma AllOnesSet(ab: AlarmBit, values: Values)
    requires ab.register in values && values[ab.register] == IntVal(0xFFFF) && 0 < ab.mask <= 0xFFFF
    ensures BitIsSet(ab, values)
  {
    AllOnesMeet(ab.mask);
  }

  lemma AllOnesMeet(mask: int)
    requires 0 < mask <= 0xFFFF
    ensures AnyBitSet(0xFFFF, mask)
  {
    assert Pow2(4) == 16;
    assert Pow2(8) == 256;
    assert Pow2(12) == 4096;
    assert Pow2(16) == 0x1_0000;
    AndLowOnes(mask, 16);
  }
}
