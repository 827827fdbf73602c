/**
 * Polling and alarm tracking together for one register map: how many decodes an alarm rests on, and what
 * the polls of the other tier add to its count (modbus/poller.py, services/state.py and main.py under
 * backend/genwatch).
 */
module Sampling {
  import opened Prelude
  import opened Registers
  import opened Batching
  import opened Polling
  import opened Alarms
  import opened StateTracker
  import LoadSource
  import PollRuns
  import AlarmRuns
  import Debounce

  datatype World = World(poll: PollRuns.State, alarms: AlarmRuns.World)

  /** Every finished poll, of either tier, updates the tracker with the reading it has just published. */
  function Step(w: World, e: PollRuns.Event, ats: Ats): World
    requires PollRuns.Enabled(w.poll, e) && KeysMatch(w.poll.reading)
  {
    var poll := PollRuns.Step(w.poll, e);
    World(poll, if !e.Finish? then w.alarms
                else AlarmRuns.Next(w.alarms, AlarmRuns.Poll(e.tier, poll.reading.values, ats)))
  }

  predicate Enabled(w: World, e: PollRuns.Event) {
    !e.Reload? && PollRuns.Enabled(w.poll, e)
  }

  /** u comes after w by this segment. */
  ghost predicate Follows(w: World, e: PollRuns.Event, ats: Ats, u: World) {
    KeysMatch(w.poll.reading) && Enabled(w, e) && u == Step(w, e, ats)
  }

  function Begin(rm: RegisterMap, rows: set<Code>): World {
    World(PollRuns.Start(rm), AlarmRuns.Begin(rm, rows))
  }

  /** A segment of a poll, with what the transfer-switch service would answer to an update at its end. */
  datatype Segment = Segment(e: PollRuns.Event, ats: Ats)

  /** States some interleaving of polls reaches. */
  ghost predicate Reached(rm: RegisterMap, rows: set<Code>, events: seq<Segment>, w: World)
    requires PollRuns.Usable(rm)
    decreases |events|
  {
    if events == [] then w == Begin(rm, rows)
    else exists before: World ::
        Reached(rm, rows, Front(events), before) && Follows(before, Last(events).e, Last(events).ats, w)
  }

  function Front(events: seq<Segment>): seq<Segment>
    requires events != []
  {
    events[..|events| - 1]
  }

  function Last(events: seq<Segment>): Segment
    requires events != []
  {
    events[|events| - 1]
  }

  // What each commit means for one name is a PollRuns.Mark; a prefix of the marks is a prefix of the commits.

  /** What the reading held for the name after the first n commits. */
  function EntryAt(marks: seq<PollRuns.Mark>, n: nat): Entry
    requires n <= |marks|
  {
    PollRuns.Follow(marks[..n])
  }

  /** The last so many updates each judged a value of the register. */
  ghost predicate JudgedLast(marks: seq<PollRuns.Mark>, count: nat) {
    count <= |marks| && forall n :: |marks| - count < n <= |marks| ==> EntryAt(marks, n).Some?
  }

  /** Commit k of the first n is the one whose decode the reading then holds. */
  predicate Behind(marks: seq<PollRuns.Mark>, n: nat, k: int)
    requires n <= |marks|
  {
    PollRuns.Survives(marks[..n], k)
  }

  predicate Decodes(marks: seq<PollRuns.Mark>, i: nat)
    requires i < |marks|
  {
    marks[i].decoded.Some?
  }

  function MarksFor(s: PollRuns.State, name: string): seq<PollRuns.Mark> {
    PollRuns.MarksOf(s.commits, name)
  }

  /** The register is the only one behind its range code. */
  predicate Alone(rm: RegisterMap, r: RegisterDef) {
    r in rm.registers && forall x :: x in rm.registers && RangeCode(x) == RangeCode(r) ==> x == r
  }

  ghost predicate Inv(rm: RegisterMap, w: World) {
    PollRuns.Inv(w.poll) && w.poll.regmap == rm && AlarmRuns.Inv(w.alarms) && w.alarms.rm == rm
  }

  ghost predicate RangeInv(rm: RegisterMap, r: RegisterDef, w: World) {
    && Inv(rm, w)
    && JudgedLast(MarksFor(w.poll, r.name), Count(w.alarms.t.rangeCounts, RangeCode(r)))
  }

  lemma StepKeeps(rm: RegisterMap, w: World, e: PollRuns.Event, ats: Ats, u: World)
    requires Inv(rm, w) && Follows(w, e, ats, u)
    ensures Inv(rm, u)
  {
    PollRuns.StepInv(w.poll, e);
    if e.Finish? {
      var values := PollRuns.Step(w.poll, e).reading.values;
      AlarmRuns.NextKeeps(w.alarms, AlarmRuns.Poll(e.tier, values, ats));
    }
  }

  /** A hit needs a value of the register. */
  lemma HitJudges(rm: RegisterMap, r: RegisterDef, values: Values, engine: string)
    requires Alone(rm, r) && RangeCode(r) in RangeHits(rm, values, engine)
    ensures r.name in values
  {
    var x :| x in rm.registers && OutOfRange(x, values) && RangeCode(x) == RangeCode(r);
  }

  lemma JudgedExtends(marks: seq<PollRuns.Mark>, m: PollRuns.Mark, count: nat)
    requires JudgedLast(marks, count) && PollRuns.Follow(marks + [m]).Some?
    ensures JudgedLast(marks + [m], count + 1)
  {
    var longer := marks + [m];
    assert longer[..|longer|] == longer;
    forall n | |longer| - (count + 1) < n <= |longer| ensures EntryAt(longer, n).Some? {
      if n <= |marks| {
        assert longer[..n] == marks[..n];
        assert EntryAt(marks, n).Some?;
      }
    }
  }

  /** With range checks on, an update counts a hit or starts anew. */
  lemma CountStep(a: AlarmRuns.World, tier: Tier, values: Values, ats: Ats, c: Code)
    requires a.rm.numericAlarms
    ensures var hits := RangeHits(a.rm, values, EngineAfter(a.t.engine, a.rm, values));
            Count(AlarmRuns.Next(a, AlarmRuns.Poll(tier, values, ats)).t.rangeCounts, c) ==
            if c in hits then Count(a.t.rangeCounts, c) + 1 else 0
  {
    Debounce.UpdateCounters(a.t, a.rm, values, ats, c);
  }

  /** A finished poll adds one mark for the name, and the marks still tell its entry. */
  lemma FinishMarks(w: World, e: PollRuns.Event, ats: Ats, u: World, name: string)
    requires PollRuns.Inv(w.poll) && Follows(w, e, ats, u) && e.Finish?
    ensures Extends(MarksFor(w.poll, name), MarksFor(u.poll, name))
    ensures KeysMatch(u.poll.reading) && EntryOf(u.poll.reading, name) == PollRuns.Follow(MarksFor(u.poll, name))
    ensures u.alarms == AlarmRuns.Next(w.alarms, AlarmRuns.Poll(e.tier, u.poll.reading.values, ats))
  {
    PollRuns.StepInv(w.poll, e);
    PollRuns.MarksAppend(w.poll.commits, PollRuns.Commit(w.poll.inFlight[e.tier], e.answers, e.now), name);
  }

  predicate Extends(marks: seq<PollRuns.Mark>, longer: seq<PollRuns.Mark>) {
    |longer| == |marks| + 1 && longer[..|marks|] == marks
  }

  lemma JudgedStep(marks: seq<PollRuns.Mark>, longer: seq<PollRuns.Mark>, count: nat)
    requires JudgedLast(marks, count) && Extends(marks, longer) && PollRuns.Follow(longer).Some?
    ensures JudgedLast(longer, count + 1)
  {
    assert longer == marks + [longer[|marks|]];
    JudgedExtends(marks, longer[|marks|], count);
  }

  lemma RangeStep(rm: RegisterMap, r: RegisterDef, w: World, e: PollRuns.Event, ats: Ats, u: World)
    requires RangeInv(rm, r, w) && Follows(w, e, ats, u) && Alone(rm, r) && rm.numericAlarms
    ensures RangeInv(rm, r, u)
  {
    StepKeeps(rm, w, e, ats, u);
    if e.Finish? {
      FinishMarks(w, e, ats, u, r.name);
      FinishJudged(rm, r, w.alarms, e.tier, u.poll.reading, ats, u.alarms, MarksFor(w.poll, r.name),
                   MarksFor(u.poll, r.name));
    }
  }

  lemma FinishJudged(rm: RegisterMap, r: RegisterDef, a: AlarmRuns.World, tier: Tier, reading: Reading, ats: Ats,
                     b: AlarmRuns.World, marks: seq<PollRuns.Mark>, longer: seq<PollRuns.Mark>)
    requires Alone(rm, r) && rm.numericAlarms && a.rm == rm && KeysMatch(reading)
    requires b == AlarmRuns.Next(a, AlarmRuns.Poll(tier, reading.values, ats))
    requires JudgedLast(marks, Count(a.t.rangeCounts, RangeCode(r))) && Extends(marks, longer)
    requires EntryOf(reading, r.name) == PollRuns.Follow(longer)
    ensures JudgedLast(longer, Count(b.t.rangeCounts, RangeCode(r)))
  {
    var engine := EngineAfter(a.t.engine, rm, reading.values);
    CountStep(a, tier, reading.values, ats, RangeCode(r));
    if RangeCode(r) in RangeHits(rm, reading.values, engine) {
      HitJudges(rm, r, reading.values, engine);
      JudgedStep(marks, longer, Count(a.t.rangeCounts, RangeCode(r)));
    }
  }

  lemma {:induction false} EveryRun(rm: RegisterMap, rows: set<Code>, r: RegisterDef,
                                    events: seq<Segment>, w: World)
    requires PollRuns.Usable(rm) && Reached(rm, rows, events, w) && Alone(rm, r) && rm.numericAlarms
    ensures RangeInv(rm, r, w)
    decreases |events|
  {
    if events == [] {
      PollRuns.StartInv(rm);
    } else {
      var before :| Reached(rm, rows, Front(events), before) && Follows(before, Last(events).e, Last(events).ats, w);
      EveryRun(rm, rows, r, Front(events), before);
      RangeStep(rm, r, before, Last(events).e, Last(events).ats, w);
    }
  }

  // ---- the decode behind a value ----------------------------------------------------------------------

  lemma SomeDecodeBehind(marks: seq<PollRuns.Mark>, n: nat) returns (k: int)
    requires PollRuns.WellMarked(marks) && n <= |marks| && EntryAt(marks, n).Some?
    ensures Behind(marks, n, k)
  {
    k := PollRuns.EntrySurvives(marks[..n]);
  }

  /** From one commit to the next the decode behind the value changes exactly when that commit decodes. */
  lemma DecodeMovesIff(marks: seq<PollRuns.Mark>, n: nat, j: int, k: int)
    requires n < |marks| && Behind(marks, n, j) && Behind(marks, n + 1, k)
    ensures j <= k && (j == k <==> !Decodes(marks, n))
  {
    assert marks[..n + 1] == marks[..n] + [marks[n]];
    PollRuns.SurvivorMovesIff(marks[..n], marks[n], j, k);
  }

  /**
   * In every run, the update that raises a range alarm has judged three values; the decodes behind them are
   * the same or later from one to the next, and differ exactly where the later poll decoded the register.
   * So the alarm rests on one single sample exactly when neither this poll nor the one before decoded it anew.
   */
  lemma RaiseRestsOnDecodes(rm: RegisterMap, rows: set<Code>, r: RegisterDef, events: seq<Segment>, w: World,
                            e: PollRuns.Event, ats: Ats, u: World) returns (first: int, second: int, third: int)
    requires PollRuns.Usable(rm) && Reached(rm, rows, events, w) && Alone(rm, r) && rm.numericAlarms
    requires Follows(w, e, ats, u)
    requires RangeCode(r) !in w.alarms.t.rangeRaised && RangeCode(r) in u.alarms.t.rangeRaised
    ensures |MarksFor(u.poll, r.name)| >= 3 && RestsOn(MarksFor(u.poll, r.name), first, second, third)
  {
    EveryRun(rm, rows, r, events, w);
    RangeStep(rm, r, w, e, ats, u);
    RaisedAtThree(u.alarms, RangeCode(r));
    MarksAreWell(u.poll, r.name);
    first, second, third := ThreeDecodes(MarksFor(u.poll, r.name), Count(u.alarms.t.rangeCounts, RangeCode(r)));
  }

  lemma MarksAreWell(s: PollRuns.State, name: string)
    ensures PollRuns.WellMarked(MarksFor(s, name))
  {
  }

  /** The decodes behind the last three values judged, and where they differ. */
  predicate RestsOn(marks: seq<PollRuns.Mark>, first: int, second: int, third: int)
    requires |marks| >= 3
  {
    var n := |marks|;
    && Behind(marks, n - 2, first) && Behind(marks, n - 1, second) && Behind(marks, n, third)
    && first <= second <= third
    && (first == second <==> !Decodes(marks, n - 2))
    && (second == third <==> !Decodes(marks, n - 1))
    && (first == third <==> !Decodes(marks, n - 2) && !Decodes(marks, n - 1))
  }

  lemma RaisedAtThree(a: AlarmRuns.World, c: Code)
    requires AlarmRuns.Inv(a) && c in a.t.rangeRaised
    ensures Count(a.t.rangeCounts, c) >= 3
  {
  }

  lemma ThreeDecodes(marks: seq<PollRuns.Mark>, count: nat) returns (first: int, second: int, third: int)
    requires PollRuns.WellMarked(marks) && count >= 3 && JudgedLast(marks, count)
    ensures |marks| >= 3 && RestsOn(marks, first, second, third)
  {
    var n := |marks|;
    assert EntryAt(marks, n - 2).Some? && EntryAt(marks, n - 1).Some?;
    first := SomeDecodeBehind(marks, n - 2);
    second := SomeDecodeBehind(marks, n - 1);
    third := SomeDecodeBehind(marks, n);
    DecodeMovesIff(marks, n - 2, first, second);
    DecodeMovesIff(marks, n - 1, second, third);
  }

  // ---- what a poll of the other tier adds ----------------------------------------------------------------

  /** The value is out of range for the register, whatever else was read. */
  ghost predicate HotValue(rm: RegisterMap, r: RegisterDef, v: Value) {
    forall values: Values, engine: string :: r.name in values && values[r.name] == v ==>
      RangeCode(r) in RangeHits(rm, values, EngineAfter(engine, rm, values))
  }

  /** One whole poll of a tier: it begins, and finishes with any answers. */
  ghost predicate Polls(w: World, t: Tier, answers: seq<Answer>, now: real, ats: Ats, begun: World, u: World) {
    && Follows(w, PollRuns.Begin(t), ats, begun)
    && Follows(begun, PollRuns.Finish(t, answers, now), ats, u)
  }

  /** A poll of one tier leaves a register of the other as it was and does not decode it. */
  lemma OtherTierKept(rm: RegisterMap, r: RegisterDef, w: World, t: Tier, answers: seq<Answer>, now: real, ats: Ats,
                      begun: World, u: World)
    requires Inv(rm, w) && r in rm.registers && r.tier != t && Polls(w, t, answers, now, ats, begun, u)
    ensures Inv(rm, u) && EntryOf(u.poll.reading, r.name) == EntryOf(w.poll.reading, r.name)
    ensures u.alarms == AlarmRuns.Next(w.alarms, AlarmRuns.Poll(t, u.poll.reading.values, ats))
    ensures var marks, longer := MarksFor(w.poll, r.name), MarksFor(u.poll, r.name);
            Extends(marks, longer) && !Decodes(longer, |marks|)
  {
    JustBegun(rm, w, t, ats, begun);
    StepKeeps(rm, begun, PollRuns.Finish(t, answers, now), ats, u);
    FinishMarks(begun, PollRuns.Finish(t, answers, now), ats, u, r.name);
    OtherTierEntry(rm, r, begun, t, answers, now, ats, u);
    OtherTierMark(rm, r, begun, t, answers, now, ats, u);
  }

  lemma OtherTierEntry(rm: RegisterMap, r: RegisterDef, begun: World, t: Tier, answers: seq<Answer>, now: real,
                       ats: Ats, u: World)
    requires Inv(rm, begun) && r in rm.registers && r.tier != t
    requires Follows(begun, PollRuns.Finish(t, answers, now), ats, u) && begun.poll.inFlight[t].regmap == rm
    ensures KeysMatch(u.poll.reading) && EntryOf(u.poll.reading, r.name) == EntryOf(begun.poll.reading, r.name)
  {
    PollRuns.TiersDoNotCollide(begun.poll, answers, now, t, r);
  }

  lemma OtherTierMark(rm: RegisterMap, r: RegisterDef, begun: World, t: Tier, answers: seq<Answer>, now: real, ats: Ats,
                      u: World)
    requires PollRuns.Usable(rm) && r in rm.registers && r.tier != t
    requires Follows(begun, PollRuns.Finish(t, answers, now), ats, u)
    requires begun.poll.inFlight[t].regmap == rm && begun.poll.inFlight[t].tier == t
    ensures var n := |begun.poll.commits|;
            |MarksFor(u.poll, r.name)| == n + 1 && !Decodes(MarksFor(u.poll, r.name), n)
  {
    OtherTierUnlisted(rm, r, begun.poll.inFlight[t]);
  }

  /** A poll that begins changes nothing yet but its own flight. */
  lemma JustBegun(rm: RegisterMap, w: World, t: Tier, ats: Ats, begun: World)
    requires Inv(rm, w) && Follows(w, PollRuns.Begin(t), ats, begun)
    ensures Inv(rm, begun) && begun.alarms == w.alarms
    ensures begun.poll.reading == w.poll.reading && begun.poll.commits == w.poll.commits
    ensures t in begun.poll.inFlight ==> begun.poll.inFlight[t].regmap == rm && begun.poll.inFlight[t].tier == t
  {
    StepKeeps(rm, w, PollRuns.Begin(t), ats, begun);
  }

  lemma OtherTierUnlisted(rm: RegisterMap, r: RegisterDef, poll: Poll)
    requires PollRuns.Usable(rm) && r in rm.registers && r.tier != poll.tier && poll.regmap == rm
    ensures RegNamed(poll.Regs(), r.name).None?
  {
    RegNamedIn(poll.Regs(), r.name);
    forall x | x in poll.Regs() ensures x.name != r.name {
      var i :| 0 <= i < |rm.registers| && rm.registers[i] == r;
      var j :| 0 <= j < |rm.registers| && rm.registers[j] == x;
    }
  }

  /** The reading holds a hot value of the register. */
  ghost predicate HoldsHot(rm: RegisterMap, r: RegisterDef, w: World, v: Value) {
    r.name in w.poll.reading.values && w.poll.reading.values[r.name] == v && HotValue(rm, r, v)
  }

  /** A prime poll keeps a base register's hot value, and with it the hit. */
  lemma PrimePollRepeats(rm: RegisterMap, r: RegisterDef, v: Value, w: World, answers: seq<Answer>, now: real, ats: Ats,
                         begun: World, u: World)
    requires Inv(rm, w) && rm.numericAlarms && HoldsHot(rm, r, w, v) && r in rm.registers && r.tier == Base
    requires Polls(w, Prime, answers, now, ats, begun, u)
    ensures Inv(rm, u) && HoldsHot(rm, r, u, v)
    ensures Count(u.alarms.t.rangeCounts, RangeCode(r)) == Count(w.alarms.t.rangeCounts, RangeCode(r)) + 1
    ensures RangeCode(r) in u.alarms.t.rangeRaised <==> Count(u.alarms.t.rangeCounts, RangeCode(r)) >= 3
  {
    OtherTierKept(rm, r, w, Prime, answers, now, ats, begun, u);
    assert EntryOf(w.poll.reading, r.name).Some?;
    CountStep(w.alarms, Prime, u.poll.reading.values, ats, RangeCode(r));
  }

  lemma KeepsMark(marks: seq<PollRuns.Mark>, longer: seq<PollRuns.Mark>, n: nat)
    requires Extends(marks, longer) && n < |marks|
    ensures longer[n] == marks[n]
  {
  }

  /**
   * An alarm bit of a prime register that asks for two prime polls: once one has seen it, any base poll,
   * whatever it reads, puts it on display.
   */
  lemma BasePollDisplays(rm: RegisterMap, r: RegisterDef, i: nat, w: World, answers: seq<Answer>, now: real, ats: Ats,
                         begun: World, u: World)
    requires Inv(rm, w) && Debounce.UniqueCodes(rm) && i < |rm.alarmBits|
    requires rm.alarmBits[i].minPolls == 2 && rm.alarmBits[i].suppressIn == {}
    requires r in rm.registers && r.tier == Prime && r.name == rm.alarmBits[i].register
    requires BitIsSet(rm.alarmBits[i], w.poll.reading.values)
    requires Count(w.alarms.t.counts, Bit(rm.alarmBits[i].code)) == 1
    requires Polls(w, Base, answers, now, ats, begun, u)
    ensures Bit(rm.alarmBits[i].code) in u.alarms.t.shown
  {
    OtherTierKept(rm, r, w, Base, answers, now, ats, begun, u);
    assert EntryOf(w.poll.reading, r.name).Some?;
    Debounce.ShownIffCounted(w.alarms.t, rm, u.poll.reading.values, ats, i);
  }

  // ---- that run, from the start ------------------------------------------------------------------------------

  /** A poll that reads a value of its own tier's register publishes it. */
  lemma OwnPollDecodes(rm: RegisterMap, r: RegisterDef, v: Value, w: World, answers: seq<Answer>, now: real, ats: Ats,
                       begun: World, u: World)
    requires Inv(rm, w) && r in rm.registers && Polls(w, r.tier, answers, now, ats, begun, u) && rm.PollMs(r.tier) > 0
    requires begun.poll.inFlight[r.tier].batches == BatchTable(TierRegs(rm.registers, r.tier))
    requires |BatchTable(TierRegs(rm.registers, r.tier))| == |answers|
    requires FreshValue(BatchTable(TierRegs(rm.registers, r.tier)), answers, r) == Some(v)
    ensures Inv(rm, u) && EntryOf(u.poll.reading, r.name) == Some((v, now))
    ensures u.alarms == AlarmRuns.Next(w.alarms, AlarmRuns.Poll(r.tier, u.poll.reading.values, ats))
    ensures var marks, longer := MarksFor(w.poll, r.name), MarksFor(u.poll, r.name);
            Extends(marks, longer) && Decodes(longer, |marks|)
  {
    JustBegun(rm, w, r.tier, ats, begun);
    StepKeeps(rm, begun, PollRuns.Finish(r.tier, answers, now), ats, u);
    FinishMarks(begun, PollRuns.Finish(r.tier, answers, now), ats, u, r.name);
    OwnMark(rm, r, v, PollRuns.Commit(begun.poll.inFlight[r.tier], answers, now));
    FollowLast(MarksFor(u.poll, r.name));
  }

  lemma OwnMark(rm: RegisterMap, r: RegisterDef, v: Value, c: PollRuns.Commit)
    requires PollRuns.Usable(rm) && r in rm.registers && c.poll.regmap == rm && c.poll.tier == r.tier
    requires |c.poll.batches| == |c.answers| && FreshValue(c.poll.batches, c.answers, r) == Some(v)
    ensures PollRuns.MarkOf(c, r.name) == PollRuns.Mark(true, Some(v), c.now, c.poll.Threshold())
  {
    NamedByItself(rm.registers, c.poll.Regs(), r);
  }

  lemma NamedByItself(all: seq<RegisterDef>, regs: seq<RegisterDef>, r: RegisterDef)
    requires DistinctNames(all) && r in regs && forall x :: x in regs ==> x in all
    ensures RegNamed(regs, r.name) == Some(r)
  {
    RegNamedIn(regs, r.name);
    forall x | x in regs && x.name == r.name ensures x == r {
      var i :| 0 <= i < |all| && all[i] == r;
      var j :| 0 <= j < |all| && all[j] == x;
    }
  }

  lemma FollowLast(marks: seq<PollRuns.Mark>)
    requires marks != []
    requires var m := marks[|marks| - 1]; m.listed && m.decoded.Some? && m.threshold > 0.0
    ensures var m := marks[|marks| - 1]; PollRuns.Follow(marks) == Some((m.decoded.value, m.now))
  {
  }

  lemma Reaches(rm: RegisterMap, rows: set<Code>, events: seq<Segment>, w: World, e: PollRuns.Event, ats: Ats, u: World)
    requires PollRuns.Usable(rm) && Reached(rm, rows, events, w) && Follows(w, e, ats, u)
    ensures Reached(rm, rows, events + [Segment(e, ats)], u)
  {
    assert Front(events + [Segment(e, ats)]) == events;
  }

  /** Between polls, in a state some interleaving reaches. */
  ghost predicate Idle(rm: RegisterMap, events: seq<Segment>, w: World) {
    PollRuns.Usable(rm) && Inv(rm, w) && Reached(rm, {}, events, w) && w.poll.inFlight == map[]
  }

  function Table(rm: RegisterMap, t: Tier): seq<Batch> {
    BatchTable(TierRegs(rm.registers, t))
  }

  lemma BeginReaches(rm: RegisterMap, events: seq<Segment>, w: World, t: Tier, ats: Ats)
    returns (longer: seq<Segment>, begun: World)
    requires Idle(rm, events, w) && t in {Prime, Base} && Table(rm, t) != []
    ensures Follows(w, PollRuns.Begin(t), ats, begun) && Inv(rm, begun) && Reached(rm, {}, longer, begun)
    ensures begun.poll.inFlight == map[t := Poll(t, rm, Table(rm, t))]
  {
    begun := Step(w, PollRuns.Begin(t), ats);
    longer := events + [Segment(PollRuns.Begin(t), ats)];
    Reaches(rm, {}, events, w, PollRuns.Begin(t), ats, begun);
    StepKeeps(rm, w, PollRuns.Begin(t), ats, begun);
  }

  lemma FinishReaches(rm: RegisterMap, events: seq<Segment>, begun: World, t: Tier, answers: seq<Answer>, now: real,
                      ats: Ats) returns (longer: seq<Segment>, u: World)
    requires PollRuns.Usable(rm) && Inv(rm, begun) && Reached(rm, {}, events, begun)
    requires begun.poll.inFlight == map[t := Poll(t, rm, Table(rm, t))] && Answers(Table(rm, t), answers)
    ensures Follows(begun, PollRuns.Finish(t, answers, now), ats, u) && Idle(rm, longer, u)
  {
    var finish := PollRuns.Finish(t, answers, now);
    u := Step(begun, finish, ats);
    longer := events + [Segment(finish, ats)];
    Reaches(rm, {}, events, begun, finish, ats, u);
    StepKeeps(rm, begun, finish, ats, u);
    assert begun.poll.inFlight - {t} == map[];
  }

  /** Between polls any tier with registers can be polled, with any answers of the right length. */
  lemma PollReaches(rm: RegisterMap, events: seq<Segment>, w: World, t: Tier, answers: seq<Answer>, now: real, ats: Ats)
    returns (longer: seq<Segment>, begun: World, u: World)
    requires Idle(rm, events, w) && t in {Prime, Base} && Table(rm, t) != [] && Answers(Table(rm, t), answers)
    ensures Polls(w, t, answers, now, ats, begun, u) && Idle(rm, longer, u)
    ensures t in begun.poll.inFlight && begun.poll.inFlight[t].batches == Table(rm, t)
  {
    longer, begun := BeginReaches(rm, events, w, t, ats);
    longer, u := FinishReaches(rm, longer, begun, t, answers, now, ats);
  }

  /** So many updates are done, each a hit, and only the first of them decoded the register. */
  ghost predicate DecodedOnce(rm: RegisterMap, r: RegisterDef, w: World, updates: nat) {
    var marks := MarksFor(w.poll, r.name);
    Count(w.alarms.t.rangeCounts, RangeCode(r)) == updates == |marks| && OnlyFirstDecodes(marks)
  }

  predicate OnlyFirstDecodes(marks: seq<PollRuns.Mark>) {
    marks != [] && forall k :: 0 <= k < |marks| ==> (Decodes(marks, k) <==> k == 0)
  }

  lemma StaysOnlyFirst(marks: seq<PollRuns.Mark>, longer: seq<PollRuns.Mark>)
    requires OnlyFirstDecodes(marks) && Extends(marks, longer) && !Decodes(longer, |marks|)
    ensures OnlyFirstDecodes(longer)
  {
    forall k | 0 <= k < |longer| ensures Decodes(longer, k) <==> k == 0 {
      if k < |marks| {
        KeepsMark(marks, longer, k);
        assert Decodes(marks, k) <==> k == 0;
      }
    }
  }

  lemma FirstPoll(rm: RegisterMap, r: RegisterDef, v: Value, answers: seq<Answer>, now: real, ats: Ats)
    returns (events: seq<Segment>, w: World)
    requires PollRuns.Usable(rm) && r in rm.registers && r.tier == Base && rm.basePollMs > 0 && rm.numericAlarms
    requires HotValue(rm, r, v) && Table(rm, Base) != [] && Answers(Table(rm, Base), answers)
    requires FreshValue(Table(rm, Base), answers, r) == Some(v)
    ensures Idle(rm, events, w) && HoldsHot(rm, r, w, v) && DecodedOnce(rm, r, w, 1)
  {
    var start := Begin(rm, {});
    PollRuns.StartInv(rm);
    assert Idle(rm, [], start);
    var begun;
    events, begun, w := PollReaches(rm, [], start, Base, answers, now, ats);
    OwnPollDecodes(rm, r, v, start, answers, now, ats, begun, w);
    CountStep(start.alarms, Base, w.poll.reading.values, ats, RangeCode(r));
  }

  lemma PrimePoll(rm: RegisterMap, r: RegisterDef, v: Value, events: seq<Segment>, w: World, updates: nat,
                  answers: seq<Answer>, now: real, ats: Ats) returns (longer: seq<Segment>, u: World)
    requires Idle(rm, events, w) && HoldsHot(rm, r, w, v) && DecodedOnce(rm, r, w, updates)
    requires r in rm.registers && r.tier == Base && rm.numericAlarms
    requires Table(rm, Prime) != [] && Answers(Table(rm, Prime), answers)
    ensures Idle(rm, longer, u) && HoldsHot(rm, r, u, v) && DecodedOnce(rm, r, u, updates + 1)
    ensures RangeCode(r) in u.alarms.t.rangeRaised <==> updates + 1 >= 3
  {
    var begun;
    longer, begun, u := PollReaches(rm, events, w, Prime, answers, now, ats);
    PrimePollRepeats(rm, r, v, w, answers, now, ats, begun, u);
    OtherTierKept(rm, r, w, Prime, answers, now, ats, begun, u);
    StaysOnlyFirst(MarksFor(w.poll, r.name), MarksFor(u.poll, r.name));
  }

  /** A run of three updates that ends with the range alarm raised, and only the first decoded the register. */
  ghost predicate RaisedByOne(rm: RegisterMap, r: RegisterDef, events: seq<Segment>, w: World) {
    && PollRuns.Usable(rm) && Reached(rm, {}, events, w) && RangeCode(r) in w.alarms.t.rangeRaised
    && |MarksFor(w.poll, r.name)| == 3 && OnlyFirstDecodes(MarksFor(w.poll, r.name))
  }

  /**
   * From the start of the service: a base poll decodes one sample of a register, two prime polls follow with
   * whatever they read, and the range alarm of that register is raised.
   */
  lemma SingleSampleRun(rm: RegisterMap, r: RegisterDef, v: Value, first: seq<Answer>, second: seq<Answer>,
                        third: seq<Answer>, ats: Ats) returns (events: seq<Segment>, w: World)
    requires PollRuns.Usable(rm) && r in rm.registers && r.tier == Base && rm.basePollMs > 0 && rm.numericAlarms
    requires HotValue(rm, r, v) && Table(rm, Base) != [] && Answers(Table(rm, Base), first)
    requires FreshValue(Table(rm, Base), first, r) == Some(v)
    requires Table(rm, Prime) != [] && Answers(Table(rm, Prime), second) && Answers(Table(rm, Prime), third)
    ensures RaisedByOne(rm, r, events, w)
  {
    events, w := FirstPoll(rm, r, v, first, 0.0, ats);
    events, w := PrimePoll(rm, r, v, events, w, 1, second, 1.5, ats);
    events, w := PrimePoll(rm, r, v, events, w, 2, third, 3.0, ats);
  }

  // ---- and a map on which it happens ------------------------------------------------------------------------

  const LOAD := RegisterDef("kw", 7, 3, U16, Base, 1.0, None, Some((0.0, 1.0)))
  const KEY := RegisterDef("key", 9, 3, U16, Prime, 1.0, None, None)
  const HOT_MAP := RegisterMap(1, 3, 1500, 15000, [BitRule("running", "kw", 1)], [], [], [LOAD, KEY], [], true)

  lemma HotMapAccepted()
    ensures Accepted(HOT_MAP) && Alone(HOT_MAP, LOAD)
  {
    assert LOAD in HOT_MAP.registers && KEY in HOT_MAP.registers;
    assert |Upper(LOAD.name)| != |Upper(KEY.name)|;
    assert !Overlap(LOAD, KEY);
  }

  lemma ThreeIsHot()
    ensures HotValue(HOT_MAP, LOAD, IntVal(3))
  {
    forall values: Values, engine: string | LOAD.name in values && values[LOAD.name] == IntVal(3)
      ensures RangeCode(LOAD) in RangeHits(HOT_MAP, values, EngineAfter(engine, HOT_MAP, values))
    {
      Debounce.ThreeRuns("kw", values);
      assert OutOfRange(LOAD, values);
    }
  }

  lemma SingleBatch(r: RegisterDef)
    requires r.kind == U16
    ensures BatchTable([r]) == [Batch(r.addr, 1)]
  {
    assert [r][..0] == [];
    assert SortByAddr([r]) == [r] && Close([r], 0, 1, MAX_WORDS) == 1;
    assert BatchesFrom([r], 1, MAX_WORDS) == [];
    assert RunThen([r], 0, 1, MAX_WORDS) == [Span([r], 0, 1)] + [];
  }

  lemma HotUsable()
    ensures PollRuns.Usable(HOT_MAP)
  {
  }

  lemma HotTables()
    ensures Table(HOT_MAP, Base) == [Batch(7, 1)] && Table(HOT_MAP, Prime) == [Batch(9, 1)]
  {
    SingleBatch(LOAD);
    SingleBatch(KEY);
    OnlyOfTier(Base);
    OnlyOfTier(Prime);
  }

  lemma OnlyOfTier(t: Tier)
    requires t in {Base, Prime}
    ensures TierRegs(HOT_MAP.registers, t) == [if t == Base then LOAD else KEY]
  {
    assert HOT_MAP.registers[1..] == [KEY] && [KEY][1..] == [];
    assert TierRegs([], t) == [];
    assert TierRegs([KEY], t) == if t == Base then [] else [KEY];
  }

  /** One base poll that reads a 3. */
  const NOISE := [Answer(Some([3]), [None], 0.0)]
  /** A prime poll that reads nothing. */
  const SILENCE := [Answer(None, [None], 0.0)]

  lemma NoiseDecodes()
    ensures Table(HOT_MAP, Base) != [] && Answers(Table(HOT_MAP, Base), NOISE)
    ensures FreshValue(Table(HOT_MAP, Base), NOISE, LOAD) == Some(IntVal(3))
  {
    HotTables();
    assert WordRead([Batch(7, 1)], NOISE, 7) == Some(3);
  }

  lemma SilenceAnswers()
    ensures Table(HOT_MAP, Prime) != [] && Answers(Table(HOT_MAP, Prime), SILENCE)
  {
    HotTables();
  }

  /** The validator accepts a map on which that happens while the two prime polls read nothing at all. */
  lemma SingleSampleMapExists()
    ensures exists rm, r, events, w :: Accepted(rm) && Alone(rm, r) && RaisedByOne(rm, r, events, w)
  {
    HotMapAccepted();
    NoiseDecodes();
    SilenceAnswers();
    ThreeIsHot();
    HotUsable();
    var events, w := SingleSampleRun(HOT_MAP, LOAD, IntVal(3), NOISE, SILENCE, SILENCE,
                                     Ats(false, LoadSource.Unknown, false));
  }
}
