/**
 * Polling, state tracking and generator commands put together for one register map: what a Modbus
 * write says about the world at the moment its gates were checked (services/control.py,
 * services/state.py and modbus/poller.py under backend/genwatch).
 */
module System {
  import opened Prelude
  import opened Registers
  import opened Comms
  import opened Polling
  import PollRuns
  import StateTracker
  import Control

  /** A poll segment, or a change of comms health: a batch outcome or a trip of the silence watchdog. */
  datatype Event = Polled(segment: PollRuns.Event) | Linked(outcome: CommsEvent)

  /** updated: some poll has reached the state machine, which then shares the poller's comms object. */
  datatype World = World(poll: PollRuns.State, history: History, engine: string, panel: string, updated: bool)

  predicate Enabled(w: World, e: Event) {
    match e
    case Polled(p) => !p.Reload? && PollRuns.Enabled(w.poll, p)
    case Linked(c) => NotBefore(w.history, c.at)
  }

  function Begin(rm: RegisterMap): World {
    World(PollRuns.Start(rm), [], "unknown", "unknown", false)
  }

  /** A finished poll publishes its reading and updates the state in one segment, without awaiting. */
  function Step(w: World, e: Event): World
    requires Enabled(w, e) && KeysMatch(w.poll.reading)
  {
    match e
    case Linked(c) => w.(history := w.history + [c])
    case Polled(p) =>
      var poll := PollRuns.Step(w.poll, p);
      if !p.Finish? then w.(poll := poll)
      else
        var rm, values := w.poll.regmap, poll.reading.values;
        var engine := StateTracker.EngineAfter(w.engine, rm, values);
        World(poll, w.history, engine, FirstMatch(rm.panelModeBits, values), true)
  }

  /** The engine state and panel mode tracked here are those of the full state machine. */
  lemma FollowsTracker(t: StateTracker.Tracker, rm: RegisterMap, values: Values, ats: StateTracker.Ats)
    ensures StateTracker.Update(t, rm, values, ats).engine == StateTracker.EngineAfter(t.engine, rm, values)
    ensures StateTracker.Update(t, rm, values, ats).panel == FirstMatch(rm.panelModeBits, values)
  {
  }

  /** What a command reads: before the first update the snapshot is all defaults, comms "healthy" among them. */
  function SnapshotOf(w: World): Control.Snapshot {
    if w.updated then Control.Snapshot(w.engine, w.panel, Classified(w.history), w.poll.reading)
    else Control.Snapshot("unknown", "unknown", Healthy, Reading(map[], map[]))
  }

  predicate OneMap(rm: RegisterMap, s: PollRuns.State) {
    && s.regmap == rm
    && (forall t :: t in s.inFlight ==> s.inFlight[t].regmap == rm)
    && (forall k :: 0 <= k < |s.commits| ==> s.commits[k].poll.regmap == rm)
  }

  ghost predicate Inv(rm: RegisterMap, w: World) {
    && PollRuns.Inv(w.poll)
    && OneMap(rm, w.poll)
    && Timed(w.history)
    && (w.updated ==> Derived(rm, w))
  }

  /** Panel mode is what the last published reading derives to; so is engine state, unless no rule matches it. */
  predicate Derived(rm: RegisterMap, w: World) {
    && w.panel == FirstMatch(rm.panelModeBits, w.poll.reading.values)
    && FirstMatch(rm.engineStateBits, w.poll.reading.values) in {w.engine, "unknown"}
  }

  lemma BeginInv(rm: RegisterMap)
    requires PollRuns.Usable(rm)
    ensures Inv(rm, Begin(rm))
  {
    PollRuns.StartInv(rm);
  }

  lemma StepInv(rm: RegisterMap, w: World, e: Event)
    requires Inv(rm, w) && Enabled(w, e)
    ensures Inv(rm, Step(w, e))
  {
    match e
    case Linked(c) => assert Front(w.history + [c]) == w.history;
    case Polled(p) =>
      PollRuns.StepInv(w.poll, p);
      PollKeepsMap(rm, w.poll, p);
  }

  /** Without reloads every poll, in flight or committed, is of the one map. */
  lemma PollKeepsMap(rm: RegisterMap, s: PollRuns.State, p: PollRuns.Event)
    requires OneMap(rm, s) && KeysMatch(s.reading) && PollRuns.Enabled(s, p) && !p.Reload?
    ensures OneMap(rm, PollRuns.Step(s, p))
  {
  }

  ghost predicate Reached(rm: RegisterMap, events: seq<Event>, w: World)
    requires PollRuns.Usable(rm)
    decreases |events|
  {
    if events == [] then w == Begin(rm)
    else exists before: World ::
        && Reached(rm, events[..|events| - 1], before)
        && KeysMatch(before.poll.reading)
        && Enabled(before, events[|events| - 1])
        && w == Step(before, events[|events| - 1])
  }

  lemma {:induction false} EveryRun(rm: RegisterMap, events: seq<Event>, w: World)
    requires PollRuns.Usable(rm) && Reached(rm, events, w)
    ensures Inv(rm, w)
    decreases |events|
  {
    if events == [] {
      BeginInv(rm);
    } else {
      var before :| Reached(rm, events[..|events| - 1], before) && KeysMatch(before.poll.reading)
                 && Enabled(before, events[|events| - 1]) && w == Step(before, events[|events| - 1]);
      EveryRun(rm, events[..|events| - 1], before);
      StepInv(rm, before, events[|events| - 1]);
    }
  }

  /**
   * Some poll decoded the register within two prime periods of now, from words it read, and no later poll decoded it.
   */
  ghost predicate DecodedRecently(w: World, name: string, now: real)
    requires PollRuns.AllValid(w.poll.commits)
  {
    exists k ::
      && PollRuns.Survives(PollRuns.MarksOf(w.poll.commits, name), k)
      && now - w.poll.commits[k].now <= MaxInt(w.poll.regmap.primePollMs, 1) as real / 1000.0 * 2.0
  }

  lemma FreshMeansDecoded(rm: RegisterMap, w: World, name: string, now: real)
    requires Inv(rm, w) && Control.FreshAt(rm, w.poll.reading, name, now)
    ensures DecodedRecently(w, name, now)
  {
    var reading := w.poll.reading;
    PollRuns.ReadingIsLatestSurvivingDecode(w.poll, name, reading.values[name], reading.ages[name]);
    assert EntryOf(reading, name) == Some((reading.values[name], reading.ages[name]));
  }

  /**
   * In every state some interleaving of polls and link events reaches, a command whose gates pass
   * finds: the link healthy by its full history, its last sample a success; every register behind
   * panel mode and engine state decoded by a poll at most two prime periods ago; the panel bits of
   * that same reading saying "auto"; and the engine in a state the verb allows, which is what the
   * reading's engine bits derive to unless no rule matches them.
   */
  lemma WriteMeansGatesHeld(rm: RegisterMap, events: seq<Event>, w: World, verb: string, role: string, now: real)
    requires PollRuns.Usable(rm) && Reached(rm, events, w)
    requires Control.MayCommand(verb, role, rm, SnapshotOf(w), now)
    ensures w.updated
    ensures Classified(w.history) == Healthy && (w.history != [] ==> Latest(w.history).Sample? && Latest(w.history).ok)
    ensures PollRuns.AllValid(w.poll.commits) && forall n :: n in Control.Sources(rm) ==> DecodedRecently(w, n, now)
    ensures FirstMatch(rm.panelModeBits, w.poll.reading.values) == "auto"
    ensures w.engine in Control.AllowedStates(verb)
    ensures FirstMatch(rm.engineStateBits, w.poll.reading.values) in {w.engine, "unknown"}
  {
    EveryRun(rm, events, w);
    if w.history != [] { HealthyMeansLastSampleGood(w.history); }
    forall n | n in Control.Sources(rm) ensures DecodedRecently(w, n, now) {
      FreshMeansDecoded(rm, w, n, now);
    }
  }
}
