/**
 * Whole runs of the transfer-switch companion: its polls, its link and acknowledgements in any order, and
 * what an asserted command then rests on (services/ats.py and services/ats_control.py under backend/genwatch).
 */
module AtsRuns {
  import opened Prelude
  import opened Registers
  import opened Comms
  import opened LoadSource
  import opened Alarms
  import Control
  import opened AtsControl

  datatype Event =
    | Polled(tier: Tier, values: Values) // a finished poll of the companion
    | Linked(outcome: CommsEvent)        // a batch outcome or a trip of its silence watchdog
    | Acked(code: Code)                  // the local deletion at the end of an acknowledgement

  /** shared: some poll has handed over the poller's comms object; until then it is a default one. */
  datatype World = World(
    snap: AtsSnap,
    rows: set<Code>,
    mine: set<Code>, // fault rows this service inserted and nobody deleted
    history: History,
    shared: bool)

  function Next(rules: seq<AlarmBit>, w: World, e: Event): World {
    match e
    case Polled(tier, values) =>
      var snap := Observe(w.snap, rules, tier, values);
      World(snap, RowsAfter(w.rows, w.snap.faults, snap.faults),
            MineAfter(w.mine, w.rows, w.snap.faults, snap.faults), w.history, true)
    case Linked(c) => w.(history := w.history + [c])
    case Acked(code) => w.(rows := w.rows - {code}, mine := w.mine - {code})
  }

  /** Rows of new faults that were not there before are inserted; rows of faults that ceased are deleted. */
  function MineAfter(mine: set<Code>, rows: set<Code>, before: set<string>, after: set<string>): set<Code> {
    mine + (FaultRows(after - before) - rows) - FaultRows(before - after)
  }

  function Run(rules: seq<AlarmBit>, rows: set<Code>, es: seq<Event>): World {
    if es == [] then World(UNPOLLED, rows, {}, [], false)
    else Next(rules, Run(rules, rows, es[..|es| - 1]), es[|es| - 1])
  }

  function CommsSeen(w: World): CommsState {
    if w.shared then Classified(w.history) else Healthy
  }

  // ---- what was read last -------------------------------------------------------------------------

  predicate Carries(e: Event, name: string) {
    e.Polled? && name in e.values
  }

  /** i is the last poll that carried the register. */
  predicate LastCarrier(es: seq<Event>, name: string, i: int) {
    0 <= i < |es| && Carries(es[i], name) && forall j :: i < j < |es| ==> !Carries(es[j], name)
  }

  predicate NeverCarried(es: seq<Event>, name: string) {
    forall i :: 0 <= i < |es| ==> !Carries(es[i], name)
  }

  /** The register's last reading was n; one never carried counts as 0. */
  ghost predicate LastRead(es: seq<Event>, name: string, n: int) {
    (n == 0 && NeverCarried(es, name)) || exists i :: LastCarrier(es, name, i) && es[i].values[name].AsInt() == n
  }

  /** Whether the register's last reading was non-zero; None while it was never carried. */
  ghost predicate LastFlag(es: seq<Event>, name: string, flag: Option<bool>) {
    match flag
    case None => NeverCarried(es, name)
    case Some(b) => exists i :: LastCarrier(es, name, i) && (es[i].values[name].AsInt() != 0) == b
  }

  function PositionIn(values: Values): Source
    requires "position" in values
  {
    PositionOf(Word16(values["position"].AsInt()))
  }

  /** The switch position is the one last read, unknown before that. */
  ghost predicate LastPosition(es: seq<Event>, p: Source) {
    || (p == Unknown && NeverCarried(es, "position"))
    || exists i :: LastCarrier(es, "position", i) && p == PositionIn(es[i].values)
  }

  predicate LastPoll(es: seq<Event>, i: int) {
    0 <= i < |es| && es[i].Polled? && forall j :: i < j < |es| ==> !es[j].Polled?
  }

  /** The faults are those of the very last poll, which reads none when it did not carry the summary. */
  ghost predicate LastFaults(rules: seq<AlarmBit>, es: seq<Event>, faults: set<string>) {
    || (faults == {} && forall i :: 0 <= i < |es| ==> !es[i].Polled?)
    || exists i :: LastPoll(es, i) && faults == FaultsIn(rules, IntOr(es[i].values, "fault_summary", 0))
  }

  predicate SomeBasePoll(es: seq<Event>) {
    exists i :: 0 <= i < |es| && es[i].Polled? && es[i].tier == Base
  }

  lemma LastReadStep(es: seq<Event>, e: Event, name: string, n: int)
    requires LastRead(es, name, n)
    ensures LastRead(es + [e], name, if Carries(e, name) then e.values[name].AsInt() else n)
  {
    var next := es + [e];
    if Carries(e, name) {
      assert LastCarrier(next, name, |es|);
    } else if i :| LastCarrier(es, name, i) && es[i].values[name].AsInt() == n {
      assert LastCarrier(next, name, i);
    }
  }

  lemma LastFlagStep(es: seq<Event>, e: Event, name: string, flag: Option<bool>)
    requires LastFlag(es, name, flag)
    ensures LastFlag(es + [e], name, if Carries(e, name) then Some(e.values[name].AsInt() != 0) else flag)
  {
    var next := es + [e];
    if Carries(e, name) {
      assert LastCarrier(next, name, |es|);
    } else if flag.Some? {
      var i :| LastCarrier(es, name, i) && (es[i].values[name].AsInt() != 0) == flag.value;
      assert LastCarrier(next, name, i);
    }
  }

  lemma LastPositionStep(es: seq<Event>, e: Event, p: Source)
    requires LastPosition(es, p)
    ensures LastPosition(es + [e], if Carries(e, "position") then PositionIn(e.values) else p)
  {
    var next := es + [e];
    if Carries(e, "position") {
      assert LastCarrier(next, "position", |es|);
    } else if i :| LastCarrier(es, "position", i) && p == PositionIn(es[i].values) {
      assert LastCarrier(next, "position", i);
    }
  }

  lemma LastFaultsStep(rules: seq<AlarmBit>, es: seq<Event>, e: Event, faults: set<string>)
    requires LastFaults(rules, es, faults)
    ensures LastFaults(rules, es + [e],
                       if e.Polled? then FaultsIn(rules, IntOr(e.values, "fault_summary", 0)) else faults)
  {
    var next := es + [e];
    if e.Polled? {
      assert LastPoll(next, |es|);
    } else if i :| LastPoll(es, i) && faults == FaultsIn(rules, IntOr(es[i].values, "fault_summary", 0)) {
      assert LastPoll(next, i);
    }
  }

  lemma BasePollStep(es: seq<Event>, e: Event)
    ensures SomeBasePoll(es + [e]) <==> SomeBasePoll(es) || (e.Polled? && e.tier == Base)
  {
    var next := es + [e];
    if i :| 0 <= i < |es| && es[i].Polled? && es[i].tier == Base {
      assert next[i] == es[i];
    }
    assert next[|es|] == e;
  }

  lemma MineStep(mine: set<Code>, rows: set<Code>, before: set<string>, after: set<string>)
    requires mine <= FaultRows(before) && mine <= rows
    ensures MineAfter(mine, rows, before, after) <= FaultRows(after)
    ensures MineAfter(mine, rows, before, after) <= RowsAfter(rows, before, after)
  {
    forall x | x in MineAfter(mine, rows, before, after) ensures x in FaultRows(after) {
      if x in mine {
        var c :| c in before && Fault(c) == x;
        assert c in before - after ==> x in FaultRows(before - after);
      }
    }
  }

  /** Every field the gates read is what the run last showed. */
  ghost predicate Tells(rules: seq<AlarmBit>, es: seq<Event>, s: AtsSnap) {
    && LastRead(es, "icd_version_major", s.icdMajor)
    && LastRead(es, "ats_pi_unit_id", s.unitId)
    && LastPosition(es, s.position)
    && LastFlag(es, "normal_available", s.normalAvailable)
    && LastFaults(rules, es, s.faults)
    && (s.basePolled <==> SomeBasePoll(es))
  }

  /**
   * Whatever the run: position, identity, normal source and faults are the last ones read, the base flag says that
   * a base poll completed, and no fault row the service inserted outlives its bit.
   */
  lemma {:induction false} SnapshotTellsLastReads(rules: seq<AlarmBit>, rows: set<Code>, es: seq<Event>)
    ensures var w := Run(rules, rows, es);
            && Tells(rules, es, w.snap) && (w.snap.basePolled ==> w.shared)
            && w.mine <= FaultRows(w.snap.faults) && w.mine <= w.rows
  {
    if es != [] {
      var front, e := es[..|es| - 1], es[|es| - 1];
      assert es == front + [e];
      SnapshotTellsLastReads(rules, rows, front);
      var s := Run(rules, rows, front).snap;
      LastReadStep(front, e, "icd_version_major", s.icdMajor);
      LastReadStep(front, e, "ats_pi_unit_id", s.unitId);
      LastPositionStep(front, e, s.position);
      LastFlagStep(front, e, "normal_available", s.normalAvailable);
      LastFaultsStep(rules, front, e, s.faults);
      BasePollStep(front, e);
      MineStep(Run(rules, rows, front).mine, Run(rules, rows, front).rows, s.faults, Run(rules, rows, es).snap.faults);
    }
  }

  /**
   * In every state some run reaches, a transfer-switch command that asserts something and passes its gates
   * finds: the link healthy by its full history; a base poll completed; the interface version and, if one is
   * expected, the unit last read as required; no blocking fault in the very last poll; and, to force a
   * transfer without override, a normal source last read as gone or never read.
   */
  lemma AssertMeansGatesHeld(rules: seq<AlarmBit>, rows: set<Code>, es: seq<Event>, r: AtsRequest,
                             expectedUnit: Option<int>, controls: seq<Registers.ControlDef>)
    requires MayOperate(r, Run(rules, rows, es).snap, CommsSeen(Run(rules, rows, es)), expectedUnit, controls)
    requires r.asserting || r.command in {"test", "bypass_delay"}
    ensures var w := Run(rules, rows, es);
            && Classified(w.history) == Healthy
            && (w.history != [] ==> Latest(w.history).Sample? && Latest(w.history).ok)
            && SomeBasePoll(es)
            && LastRead(es, "icd_version_major", 1)
            && (expectedUnit.Some? ==> LastRead(es, "ats_pi_unit_id", expectedUnit.value))
    ensures exists faults :: LastFaults(rules, es, faults) && faults !! BLOCKING_FAULTS
    ensures r.command == "force_transfer" && !r.override ==>
              LastFlag(es, "normal_available", None) || LastFlag(es, "normal_available", Some(false))
    ensures r.role in {"operator", "admin"} && (r.command == "force_transfer" ==> r.role == "admin")
  {
    var w := Run(rules, rows, es);
    SnapshotTellsLastReads(rules, rows, es);
    AssertNeedsAuthority(r, w.snap, CommsSeen(w), expectedUnit, controls);
    if w.history != [] { HealthyMeansLastSampleGood(w.history); }
    assert LastFlag(es, "normal_available", w.snap.normalAvailable);
  }
}
