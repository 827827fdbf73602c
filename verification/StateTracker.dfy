/** Engine state, alarm tracking and cross-checks (StateMachine in backend/genwatch/services/state.py). */
module StateTracker {
  import opened Prelude
  import opened Registers
  import opened LoadSource
  import opened Alarms

  const DISAGREE_POLLS: nat := 3
  const NUMERIC_POLLS: nat := 3

  /** What the tracker asks of the transfer-switch service; no service means not authoritative. */
  datatype Ats = Ats(authoritative: bool, position: Source, normalGone: bool)

  // ---- pieces of one update ------------------------------------------------------------

  function EngineAfter(engine: string, rm: RegisterMap, values: Values): string {
    var derived := FirstMatch(rm.engineStateBits, values);
    if derived == "unknown" then engine else derived
  }

  function CodesOf(active: seq<AlarmBit>): set<Code> {
    set ab | ab in active :: Bit(ab.code)
  }

  function Occurrences(active: seq<AlarmBit>, c: Code): nat {
    if active == [] then 0 else (if Bit(active[0].code) == c then 1 else 0) + Occurrences(active[1..], c)
  }

  function Count(counts: map<Code, nat>, c: Code): nat {
    if c in counts then counts[c] else 0
  }

  /** Debounce counters: bumped once per set rule, forgotten when no rule of the code is set. */
  function CountsAfter(counts: map<Code, nat>, active: seq<AlarmBit>): map<Code, nat> {
    map c | c in CodesOf(active) :: Count(counts, c) + Occurrences(active, c)
  }

  predicate Effective(ab: AlarmBit, counts: map<Code, nat>, engine: string) {
    Count(counts, Bit(ab.code)) >= ab.minPolls && engine !in ab.suppressIn
  }

  function EffectiveCodes(active: seq<AlarmBit>, counts: map<Code, nat>, engine: string): set<Code> {
    set ab | ab in active && Effective(ab, counts, engine) :: Bit(ab.code)
  }

  predicate Outside(x: real, range: Option<(real, real)>) {
    range.Some? && (x < range.value.0 || x > range.value.1)
  }

  predicate OutOfRange(r: RegisterDef, values: Values) {
    && r.name in values
    && (Outside(values[r.name].AsReal(), r.alarmRange) || Outside(values[r.name].AsReal(), r.warnRange))
  }

  function Upper(s: string): string {
    seq(|s|, i requires 0 <= i < |s| => if 'a' <= s[i] <= 'z' then (s[i] - 'a') + 'A' else s[i])
  }

  function RangeCode(r: RegisterDef): Code {
    Range(Upper(r.name))
  }

  predicate Producing(engine: string) {
    engine in {"running", "exercising"}
  }

  /** Range alarms whose condition holds on this poll. */
  function RangeHits(rm: RegisterMap, values: Values, engine: string): set<Code> {
    if Producing(engine) then set r | r in rm.registers && OutOfRange(r, values) :: RangeCode(r) else {}
  }

  function RangeCountsAfter(counts: map<Code, nat>, hits: set<Code>): map<Code, nat> {
    map c | c in hits :: Count(counts, c) + 1
  }

  function RangeRaisedAfter(raised: set<Code>, counts: map<Code, nat>, hits: set<Code>): set<Code> {
    set c | c in hits && (c in raised || Count(counts, c) >= NUMERIC_POLLS)
  }

  predicate CanCompare(engine: string) {
    engine in {"running", "alarm"}
  }

  datatype Verdict = Held | Agrees | Disagrees

  /** One comparison of the transfer switch's position with the generator's output. */
  function Compare(ats: Ats, s: Sample): Verdict {
    if ats.position != Utility && ats.position != Generator then Held
    else if s.current.None? || s.kw.None? then Held
    else if ats.position == Utility && s.current.value >= ON_CURRENT && s.kw.value >= ON_KW then Disagrees
    else if ats.position == Generator && s.current.value < OFF_CURRENT && s.kw.value < OFF_KW && ats.normalGone
    then Disagrees
    else Agrees
  }

  function DisagreeCountAfter(count: nat, ats: Ats, s: Sample): nat {
    if !ats.authoritative || !CanCompare(s.engine) then 0
    else match Compare(ats, s)
      case Held => count
      case Agrees => 0
      case Disagrees => count + 1
  }

  function DisagreeRaisedAfter(raised: bool, count: nat, ats: Ats, s: Sample): bool {
    if !ats.authoritative || !CanCompare(s.engine) then false
    else match Compare(ats, s)
      case Held => raised
      case Agrees => false
      case Disagrees => raised || count + 1 >= DISAGREE_POLLS
  }

  function Electrical(values: Values, name: string): Option<real> {
    if name in values then Some(values[name].AsReal()) else None
  }

  function SampleOf(values: Values, engine: string): Sample {
    Sample(engine, Electrical(values, "avg_current"), Electrical(values, "total_kw"))
  }

  // ---- the tracker as a value --------------------------------------------------------------

  datatype Tracker = Tracker(
    engine: string,
    panel: string,
    source: Source,
    counts: map<Code, nat>,
    raised: set<Code>,
    shown: set<Code>,
    rangeCounts: map<Code, nat>,
    rangeRaised: set<Code>,
    disagreeCount: nat,
    disagreeRaised: bool,
    rows: set<Code>) // the alarm table

  /** The rows one stage inserts and deletes; each comes with an event. */
  datatype Delta = Delta(inserted: set<Code>, deleted: set<Code>) {
    function Then(next: Delta): Delta {
      Delta(inserted + next.inserted, deleted + next.deleted)
    }
  }

  function Start(rows: set<Code>): Tracker {
    Tracker("unknown", "unknown", Unknown, map[], {}, {}, map[], {}, 0, false, rows)
  }

  /** Engine state and bit alarms: debounce, display filter, row raises and clears. */
  function BitStage(t: Tracker, rm: RegisterMap, values: Values): Tracker {
    var engine := EngineAfter(t.engine, rm, values);
    var active := SetAlarms(rm.alarmBits, values);
    var counts := CountsAfter(t.counts, active);
    var effective := EffectiveCodes(active, counts, engine);
    var toRaise := effective - t.shown;
    var stale := (t.raised + toRaise) - CodesOf(active);
    t.(engine := engine, counts := counts, raised := (t.raised + toRaise) - stale, shown := effective,
       rows := t.rows + toRaise - stale)
  }

  function BitDelta(t: Tracker, rm: RegisterMap, values: Values): Delta {
    var active := SetAlarms(rm.alarmBits, values);
    var toRaise := BitStage(t, rm, values).shown - t.shown;
    var stale := (t.raised + toRaise) - CodesOf(active);
    Delta(toRaise - t.rows, stale * (t.rows + toRaise))
  }

  /** Range alarms, when the map enables them, and their place in the display set. */
  function RangeStage(t: Tracker, rm: RegisterMap, values: Values): Tracker {
    if !rm.numericAlarms then t.(shown := t.shown + t.rangeRaised)
    else
      var hits := RangeHits(rm, values, t.engine);
      var counts := RangeCountsAfter(t.rangeCounts, hits);
      var raised := RangeRaisedAfter(t.rangeRaised, counts, hits);
      t.(rangeCounts := counts, rangeRaised := raised, shown := t.shown + raised,
         rows := t.rows + (raised - t.rangeRaised) - (t.rangeRaised - raised))
  }

  function RangeDelta(t: Tracker, rm: RegisterMap, values: Values): Delta {
    var raised := RangeStage(t, rm, values).rangeRaised;
    Delta((raised - t.rangeRaised) - t.rows, (t.rangeRaised - raised) * t.rows)
  }

  /** Panel mode, load source and the cross-check alarm. */
  function CrossStage(t: Tracker, rm: RegisterMap, values: Values, ats: Ats): Tracker {
    var s := SampleOf(values, t.engine);
    var raised := DisagreeRaisedAfter(t.disagreeRaised, t.disagreeCount, ats, s);
    t.(panel := FirstMatch(rm.panelModeBits, values),
       source := Derive(ats.authoritative, ats.position, s, t.source),
       disagreeCount := DisagreeCountAfter(t.disagreeCount, ats, s),
       disagreeRaised := raised,
       shown := if raised then t.shown + {Disagree} else t.shown - {Disagree},
       rows := if raised && !t.disagreeRaised then t.rows + {Disagree}
               else if t.disagreeRaised && !raised then t.rows - {Disagree} else t.rows)
  }

  function CrossDelta(t: Tracker, rm: RegisterMap, values: Values, ats: Ats): Delta {
    var raised := CrossStage(t, rm, values, ats).disagreeRaised;
    Delta(if raised && !t.disagreeRaised then {Disagree} - t.rows else {},
          if t.disagreeRaised && !raised then {Disagree} * t.rows else {})
  }

  /** One poll, stage by stage as the code runs them. */
  function Update(t: Tracker, rm: RegisterMap, values: Values, ats: Ats): Tracker {
    CrossStage(RangeStage(BitStage(t, rm, values), rm, values), rm, values, ats)
  }

  function UpdateDelta(t: Tracker, rm: RegisterMap, values: Values, ats: Ats): Delta {
    var t1 := BitStage(t, rm, values);
    var t2 := RangeStage(t1, rm, values);
    BitDelta(t, rm, values).Then(RangeDelta(t1, rm, values)).Then(CrossDelta(t2, rm, values, ats))
  }

  function Flag(raised: bool): set<Code> {
    if raised then {Disagree} else {}
  }

  /** Each kind of code stays in its own set. */
  ghost predicate Typed(t: Tracker) {
    && (forall c :: c in t.raised ==> c.Bit?)
    && (forall c :: c in t.rangeRaised ==> c.Range?)
  }

  // ---- the state machine object -----------------------------------------------------------

  /** The counters once the bits of a prefix have been counted. */
  ghost predicate Bumped(before: map<Code, nat>, counts: map<Code, nat>, prefix: seq<AlarmBit>) {
    && (forall c :: Count(counts, c) == Count(before, c) + Occurrences(prefix, c))
    && (forall c :: c in CodesOf(prefix) ==> c in counts)
  }

  lemma BumpedStep(before: map<Code, nat>, counts: map<Code, nat>, active: seq<AlarmBit>, i: nat)
    requires i < |active| && Bumped(before, counts, active[..i])
    ensures var c := Bit(active[i].code);
            Bumped(before, counts[c := Count(counts, c) + 1], active[..i + 1])
  {
    PrefixStep(active, i);
  }

  function OnlySet(counts: map<Code, nat>, active: seq<AlarmBit>): map<Code, nat> {
    map c | c in counts && c in CodesOf(active) :: counts[c]
  }

  lemma ForgetUnset(before: map<Code, nat>, counts: map<Code, nat>, active: seq<AlarmBit>)
    requires Bumped(before, counts, active)
    ensures CountsAfter(before, active) == OnlySet(counts, active)
  {
    assert forall c :: c in CodesOf(active) ==> counts[c] == Count(counts, c);
  }

  datatype Emission = Raised(code: Code) | Cleared(code: Code)

  class StateMachine {
    var regmap: RegisterMap
    var engineState: string
    var panelMode: string
    var loadSource: Source
    var alarmPollCounts: map<Code, nat>
    var raisedThisSession: set<Code>
    var activeAlarms: set<Code>
    var numericPollCounts: map<Code, nat>
    var numericRaised: set<Code>
    var disagreeCount: nat
    var disagreeRaised: bool
    const table: AlarmTable
    var emitted: seq<Emission>

    ghost function State(): Tracker
      reads this, table
    {
      Tracker(engineState, panelMode, loadSource, alarmPollCounts, raisedThisSession, activeAlarms,
              numericPollCounts, numericRaised, disagreeCount, disagreeRaised, table.codes)
    }

    constructor (rm: RegisterMap, table: AlarmTable)
      ensures State() == Start(table.codes) && regmap == rm && this.table == table
    {
      regmap, this.table := rm, table;
      engineState, panelMode, loadSource := "unknown", "unknown", Unknown;
      alarmPollCounts, raisedThisSession, activeAlarms := map[], {}, {};
      numericPollCounts, numericRaised := map[], {};
      disagreeCount, disagreeRaised := 0, false;
      emitted := [];
    }

    /** A reload restarts the debounce and keeps everything else. */
    method ApplyRegmap(rm: RegisterMap)
      modifies this
      ensures regmap == rm && State() == old(State()).(counts := map[])
    {
      regmap := rm;
      alarmPollCounts := map[];
    }

    method RaiseRow(code: Code)
      modifies table, this`emitted
      ensures table.codes == old(table.codes) + {code}
      ensures emitted == old(emitted) + (if code in old(table.codes) then [] else [Raised(code)])
    {
      var inserted := table.Raise(code);
      if inserted { emitted := emitted + [Raised(code)]; }
    }

    method ClearRow(code: Code)
      modifies table, this`emitted
      ensures table.codes == old(table.codes) - {code}
      ensures emitted == old(emitted) + (if code in old(table.codes) then [Cleared(code)] else [])
    {
      var removed := table.Clear(code);
      if removed { emitted := emitted + [Cleared(code)]; }
    }

    /** Debounce counters off the raw bits. */
    method BumpCounters(active: seq<AlarmBit>)
      modifies this`alarmPollCounts
      ensures alarmPollCounts == CountsAfter(old(alarmPollCounts), active)
    {
      var counts: map<Code, nat> := alarmPollCounts;
      for i := 0 to |active|
        invariant Bumped(old(alarmPollCounts), counts, active[..i])
      {
        var c := Bit(active[i].code);
        BumpedStep(old(alarmPollCounts), counts, active, i);
        counts := counts[c := Count(counts, c) + 1];
      }
      assert active[..|active|] == active;
      ForgetUnset(old(alarmPollCounts), counts, active);
      alarmPollCounts := OnlySet(counts, active);
    }

    /** Raises each code of the set. */
    method RaiseAll(codes: set<Code>)
      modifies table, this`emitted
      ensures table.codes == old(table.codes) + codes
      ensures Reports(old(emitted), emitted, codes - old(table.codes), {})
    {
      var todo := codes;
      while todo != {}
        invariant todo <= codes
        invariant table.codes == old(table.codes) + (codes - todo)
        invariant Reports(old(emitted), emitted, (codes - todo) - old(table.codes), {})
      {
        var c :| c in todo;
        ghost var added := (codes - todo) - old(table.codes);
        ReportsRaise(old(emitted), emitted, added, {}, c);
        RaiseRow(c);
        todo := todo - {c};
        assert (codes - todo) - old(table.codes) == if c in old(table.codes) then added else added + {c};
      }
      assert codes - {} == codes;
    }

    /** Clears each code of the set. */
    method ClearAll(codes: set<Code>)
      modifies table, this`emitted
      ensures table.codes == old(table.codes) - codes
      ensures Reports(old(emitted), emitted, {}, codes * old(table.codes))
    {
      var todo := codes;
      while todo != {}
        invariant todo <= codes
        invariant table.codes == old(table.codes) - (codes - todo)
        invariant Reports(old(emitted), emitted, {}, (codes - todo) * old(table.codes))
      {
        var c :| c in todo;
        ghost var gone := (codes - todo) * old(table.codes);
        ReportsClear(old(emitted), emitted, {}, gone, c);
        ClearRow(c);
        todo := todo - {c};
        assert (codes - todo) * old(table.codes) == if c in old(table.codes) then gone + {c} else gone;
      }
      assert codes - {} == codes;
    }

    /** Raises what is newly visible, then clears what lost its bit: hidden alarms are neither. */
    method SyncBitRows(codes: set<Code>, effective: set<Code>)
      modifies table, this`emitted, this`raisedThisSession
      ensures var toRaise := effective - activeAlarms;
              var stale := (old(raisedThisSession) + toRaise) - codes;
              && raisedThisSession == (old(raisedThisSession) + toRaise) - stale
              && table.codes == old(table.codes) + toRaise - stale
              && Reports(old(emitted), emitted, toRaise - old(table.codes), stale * (old(table.codes) + toRaise))
    {
      var toRaise := effective - activeAlarms;
      RaiseAll(toRaise);
      raisedThisSession := raisedThisSession + toRaise;
      ghost var midway := emitted;
      var stale := raisedThisSession - codes;
      ClearAll(stale);
      raisedThisSession := raisedThisSession - stale;
      ReportsCompose(old(emitted), midway, emitted, toRaise - old(table.codes), {},
                     {}, stale * (old(table.codes) + toRaise));
    }

    /** Range alarms: counters, raises and clears for the codes out of range on this poll. */
    method CheckNumericRanges(hits: set<Code>)
      modifies table, this`emitted, this`numericPollCounts, this`numericRaised
      ensures numericPollCounts == RangeCountsAfter(old(numericPollCounts), hits)
      ensures numericRaised == RangeRaisedAfter(old(numericRaised), numericPollCounts, hits)
      ensures table.codes ==
              old(table.codes) + (numericRaised - old(numericRaised)) - (old(numericRaised) - numericRaised)
      ensures Reports(old(emitted), emitted, (numericRaised - old(numericRaised)) - old(table.codes),
                      (old(numericRaised) - numericRaised) * old(table.codes))
    {
      numericPollCounts := map c | c in hits :: Count(numericPollCounts, c) + 1;
      var toRaise := set c | c in hits && Count(numericPollCounts, c) >= NUMERIC_POLLS && c !in numericRaised;
      RaiseAll(toRaise);
      numericRaised := numericRaised + toRaise;
      ghost var midway := emitted;
      var stale := numericRaised - hits;
      ClearAll(stale);
      numericRaised := numericRaised - stale;
      assert toRaise == numericRaised - old(numericRaised);
      assert stale == old(numericRaised) - numericRaised;
      assert stale * (old(table.codes) + toRaise) == stale * old(table.codes);
      ReportsCompose(old(emitted), midway, emitted, toRaise - old(table.codes), {}, {}, stale * old(table.codes));
    }

    /** The transfer switch against the generator's output, debounced. */
    method CheckDisagreement(s: Sample, ats: Ats)
      modifies table, this`emitted, this`disagreeCount, this`disagreeRaised
      ensures disagreeCount == DisagreeCountAfter(old(disagreeCount), ats, s)
      ensures disagreeRaised == DisagreeRaisedAfter(old(disagreeRaised), old(disagreeCount), ats, s)
      ensures table.codes == if disagreeRaised && !old(disagreeRaised) then old(table.codes) + {Disagree}
                             else if old(disagreeRaised) && !disagreeRaised then old(table.codes) - {Disagree}
                             else old(table.codes)
      ensures Reports(old(emitted), emitted,
                      if disagreeRaised && !old(disagreeRaised) then {Disagree} - old(table.codes) else {},
                      if old(disagreeRaised) && !disagreeRaised then {Disagree} * old(table.codes) else {})
    {
      ReportsNothing(emitted);
      ReportsRaise(emitted, emitted, {}, {}, Disagree);
      ReportsClear(emitted, emitted, {}, {}, Disagree);
      assert {} + {Disagree} == {Disagree};
      if !ats.authoritative || !CanCompare(s.engine) {
        if disagreeRaised { ClearRow(Disagree); }
        disagreeCount, disagreeRaised := 0, false;
        return;
      }
      if ats.position != Utility && ats.position != Generator { return; }
      if s.current.None? || s.kw.None? { return; }
      var mismatch :=
        (ats.position == Utility && s.current.value >= ON_CURRENT && s.kw.value >= ON_KW)
        || (ats.position == Generator && s.current.value < OFF_CURRENT && s.kw.value < OFF_KW && ats.normalGone);
      if mismatch {
        disagreeCount := disagreeCount + 1;
        if disagreeCount >= DISAGREE_POLLS && !disagreeRaised {
          RaiseRow(Disagree);
          disagreeRaised := true;
        }
      } else {
        if disagreeRaised { ClearRow(Disagree); }
        disagreeCount, disagreeRaised := 0, false;
      }
    }

    method UpdateBits(values: Values)
      modifies this, table
      ensures regmap == old(regmap)
      ensures State() == BitStage(old(State()), regmap, values)
      ensures var d := BitDelta(old(State()), regmap, values);
              Reports(old(emitted), emitted, d.inserted, d.deleted)
    {
      var derived := FirstMatch(regmap.engineStateBits, values);
      if derived == "unknown" && engineState != "unknown" { derived := engineState; }
      engineState := derived;
      var active := DeriveActiveAlarms(regmap, values);
      BumpCounters(active);
      var effective := EffectiveCodes(active, alarmPollCounts, engineState);
      SyncBitRows(CodesOf(active), effective);
      activeAlarms := effective;
    }

    method UpdateRanges(values: Values)
      modifies this, table
      ensures regmap == old(regmap)
      ensures State() == RangeStage(old(State()), regmap, values)
      ensures var d := RangeDelta(old(State()), regmap, values);
              Reports(old(emitted), emitted, d.inserted, d.deleted)
    {
      if regmap.numericAlarms {
        CheckNumericRanges(RangeHits(regmap, values, engineState));
      } else {
        ReportsNothing(emitted);
      }
      if numericRaised != {} {
        activeAlarms := activeAlarms + numericRaised;
      }
    }

    method UpdateCross(values: Values, ats: Ats)
      modifies this, table
      ensures regmap == old(regmap)
      ensures State() == CrossStage(old(State()), regmap, values, ats)
      ensures var d := CrossDelta(old(State()), regmap, values, ats);
              Reports(old(emitted), emitted, d.inserted, d.deleted)
    {
      panelMode := FirstMatch(regmap.panelModeBits, values);
      var sample := SampleOf(values, engineState);
      loadSource := Derive(ats.authoritative, ats.position, sample, loadSource);
      CheckDisagreement(sample, ats);
      if disagreeRaised {
        activeAlarms := activeAlarms + {Disagree};
      } else {
        activeAlarms := activeAlarms - {Disagree};
      }
    }

    /** One poll: the new state is Update of the old one, and the events are exactly its row changes. */
    method UpdateState(values: Values, ats: Ats)
      requires Typed(State())
      modifies this, table
      ensures regmap == old(regmap)
      ensures State() == Update(old(State()), regmap, values, ats) && Typed(State())
      ensures var d := UpdateDelta(old(State()), regmap, values, ats);
              Reports(old(emitted), emitted, d.inserted, d.deleted)
    {
      ghost var t0, e0 := State(), emitted;
      UpdateBits(values);
      ghost var t1, e1 := State(), emitted;
      UpdateRanges(values);
      ghost var t2, e2 := State(), emitted;
      UpdateCross(values, ats);
      DeltasApart(t0, regmap, values, ats);
      var d0, d1 := BitDelta(t0, regmap, values), RangeDelta(t1, regmap, values);
      var d2 := CrossDelta(t2, regmap, values, ats);
      ReportsCompose(e0, e1, e2, d0.inserted, d0.deleted, d1.inserted, d1.deleted);
      ReportsCompose(e0, e2, emitted, d0.Then(d1).inserted, d0.Then(d1).deleted, d2.inserted, d2.deleted);
    }
  }

  lemma BitStageTyped(t: Tracker, rm: RegisterMap, values: Values)
    requires Typed(t)
    ensures Typed(BitStage(t, rm, values))
    ensures forall c :: c in BitDelta(t, rm, values).inserted + BitDelta(t, rm, values).deleted ==> c.Bit?
  {
  }

  lemma RangeStageTyped(t: Tracker, rm: RegisterMap, values: Values)
    requires Typed(t)
    ensures Typed(RangeStage(t, rm, values))
    ensures forall c :: c in RangeDelta(t, rm, values).inserted + RangeDelta(t, rm, values).deleted ==> c.Range?
  {
  }

  lemma DeltasApart(t: Tracker, rm: RegisterMap, values: Values, ats: Ats)
    requires Typed(t)
    ensures var t1 := BitStage(t, rm, values);
            var t2 := RangeStage(t1, rm, values);
            var d0, d1, d2 := BitDelta(t, rm, values), RangeDelta(t1, rm, values), CrossDelta(t2, rm, values, ats);
            && d0.inserted !! d1.inserted && d0.deleted !! d1.deleted
            && d0.Then(d1).inserted !! d2.inserted && d0.Then(d1).deleted !! d2.deleted
            && Typed(CrossStage(t2, rm, values, ats))
  {
    BitStageTyped(t, rm, values);
    RangeStageTyped(BitStage(t, rm, values), rm, values);
  }

  /** The emissions added are exactly one per inserted row and one per deleted row. */
  ghost predicate Reports(before: seq<Emission>, after: seq<Emission>, inserted: set<Code>, deleted: set<Code>) {
    && |before| <= |after| && before == after[..|before|]
    && forall c :: Tally(after[|before|..], Raised(c)) == (if c in inserted then 1 else 0)
                && Tally(after[|before|..], Cleared(c)) == (if c in deleted then 1 else 0)
  }

  function Tally(s: seq<Emission>, e: Emission): nat {
    if s == [] then 0 else (if s[0] == e then 1 else 0) + Tally(s[1..], e)
  }

  lemma {:induction false} TallyAppend(a: seq<Emission>, b: seq<Emission>, e: Emission)
    ensures Tally(a + b, e) == Tally(a, e) + Tally(b, e)
  {
    if a == [] {
      assert a + b == b;
    } else {
      assert (a + b)[1..] == a[1..] + b;
      TallyAppend(a[1..], b, e);
    }
  }

  lemma TallyOne(e: Emission, f: Emission)
    ensures Tally([e], f) == if e == f then 1 else 0
  {
    assert [e][1..] == [];
  }

  lemma ReportsNothing(s: seq<Emission>)
    ensures Reports(s, s, {}, {})
  {
  }

  lemma ReportsCompose(a: seq<Emission>, b: seq<Emission>, c: seq<Emission>,
                       i1: set<Code>, d1: set<Code>, i2: set<Code>, d2: set<Code>)
    requires Reports(a, b, i1, d1) && Reports(b, c, i2, d2) && i1 !! i2 && d1 !! d2
    ensures Reports(a, c, i1 + i2, d1 + d2)
  {
    assert c[|a|..] == b[|a|..] + c[|b|..];
    forall k
      ensures Tally(c[|a|..], Raised(k)) == (if k in i1 + i2 then 1 else 0)
      ensures Tally(c[|a|..], Cleared(k)) == (if k in d1 + d2 then 1 else 0)
    {
      TallyAppend(b[|a|..], c[|b|..], Raised(k));
      TallyAppend(b[|a|..], c[|b|..], Cleared(k));
    }
  }

  lemma ReportsRaise(a: seq<Emission>, b: seq<Emission>, i: set<Code>, d: set<Code>, c: Code)
    requires Reports(a, b, i, d) && c !in i
    ensures Reports(a, b + [Raised(c)], i + {c}, d)
    ensures b + [] == b
  {
    assert (b + [Raised(c)])[|b|..] == [Raised(c)];
    forall k ensures Tally([Raised(c)], Raised(k)) == (if k == c then 1 else 0) && Tally([Raised(c)], Cleared(k)) == 0 {
      TallyOne(Raised(c), Raised(k));
      TallyOne(Raised(c), Cleared(k));
    }
    ReportsCompose(a, b, b + [Raised(c)], i, d, {c}, {});
    assert d + {} == d;
  }

  lemma ReportsClear(a: seq<Emission>, b: seq<Emission>, i: set<Code>, d: set<Code>, c: Code)
    requires Reports(a, b, i, d) && c !in d
    ensures Reports(a, b + [Cleared(c)], i, d + {c})
    ensures b + [] == b
  {
    assert (b + [Cleared(c)])[|b|..] == [Cleared(c)];
    forall k
      ensures Tally([Cleared(c)], Cleared(k)) == (if k == c then 1 else 0) && Tally([Cleared(c)], Raised(k)) == 0
    {
      TallyOne(Cleared(c), Raised(k));
      TallyOne(Cleared(c), Cleared(k));
    }
    ReportsCompose(a, b, b + [Cleared(c)], i, d, {}, {c});
    assert i + {} == i;
  }

  lemma CodesAppend(a: seq<AlarmBit>, ab: AlarmBit)
    ensures CodesOf(a + [ab]) == CodesOf(a) + {Bit(ab.code)}
  {
    forall c | c in CodesOf(a) + {Bit(ab.code)} ensures c in CodesOf(a + [ab]) {
      if c == Bit(ab.code) {
        assert ab in a + [ab];
      } else {
        var x :| x in a && Bit(x.code) == c;
        assert x in a + [ab];
      }
    }
  }

  lemma PrefixStep(active: seq<AlarmBit>, i: nat)
    requires i < |active|
    ensures forall d ::
              Occurrences(active[..i + 1], d) == Occurrences(active[..i], d) + if d == Bit(active[i].code) then 1 else 0
    ensures forall c :: c in CodesOf(active[..i + 1]) <==> c in CodesOf(active[..i]) || c == Bit(active[i].code)
  {
    assert active[..i + 1] == active[..i] + [active[i]];
    CodesAppend(active[..i], active[i]);
    forall d
      ensures Occurrences(active[..i + 1], d) == Occurrences(active[..i], d) + if d == Bit(active[i].code) then 1 else 0
    {
      OccurrencesAppend(active[..i], active[i], d);
    }
  }

  lemma {:induction false} OccurrencesAppend(a: seq<AlarmBit>, ab: AlarmBit, c: Code)
    ensures Occurrences(a + [ab], c) == Occurrences(a, c) + if Bit(ab.code) == c then 1 else 0
  {
    if a == [] {
      assert a + [ab] == [ab];
    } else {
      assert (a + [ab])[1..] == a[1..] + [ab];
      OccurrencesAppend(a[1..], ab, c);
    }
  }
}
