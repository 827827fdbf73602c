/**
 * The transfer-switch companion: authority, faults and commands (AtsService in
 * backend/genwatch/services/ats.py, AtsControlService in backend/genwatch/services/ats_control.py).
 */
module AtsControl {
  import opened Prelude
  import opened Registers
  import opened Comms
  import opened LoadSource
  import opened Alarms
  import opened Tokens
  import opened Control

  const EXPECTED_ICD_MAJOR := 1
  const POSITION_FAULTS := {"ATS_PI_INPUT_FAULT", "ATS_PI_CALIBRATION"}
  const BLOCKING_FAULTS := {"ATS_PI_INPUT_FAULT", "ATS_PI_CALIBRATION", "ATS_PI_OUTPUT_FAULT", "ATS_PI_MODE_UNKNOWN"}

  // ---- what a poll of the companion tells -----------------------------------------------------

  /** The fields of the snapshot that the load source, authority and the command gates read, comms apart. */
  datatype AtsSnap = AtsSnap(
    position: Source,
    faults: set<string>,
    normalAvailable: Option<bool>,
    icdMajor: int,
    unitId: int,
    basePolled: bool)

  const UNPOLLED := AtsSnap(Unknown, {}, None, 0, 0, false)

  /** A companion register as an int; absent, it keeps what was known. */
  function IntOr(values: Values, name: string, known: int): int {
    if name in values then values[name].AsInt() else known
  }

  /** The position register's values; anything unlisted is unknown. */
  function PositionOf(raw: int): Source {
    if raw == 0 then Utility else if raw == 1 then Generator else if raw == 2 then Transferring else Unknown
  }

  /** Back from a position to a register value, to default to what was known. */
  function RawPosition(p: Source): (raw: int)
    ensures PositionOf(raw) == p
  {
    match p
    case Utility => 0
    case Generator => 1
    case Transferring => 2
    case Unknown => 3
  }

  function FaultsIn(rules: seq<AlarmBit>, raw: int): set<string> {
    set ab | ab in rules && ab.register == "fault_summary" && AllBitsSet(raw, ab.mask) :: ab.code
  }

  /** One poll: faults are those of this very reading (none when unread), the rest is last known. */
  function Observe(s: AtsSnap, rules: seq<AlarmBit>, tier: Tier, values: Values): AtsSnap {
    AtsSnap(
      if "position" in values then PositionOf(Word16(values["position"].AsInt())) else s.position,
      FaultsIn(rules, IntOr(values, "fault_summary", 0)),
      if "normal_available" in values then Some(values["normal_available"].AsInt() != 0) else s.normalAvailable,
      IntOr(values, "icd_version_major", s.icdMajor),
      IntOr(values, "ats_pi_unit_id", s.unitId),
      s.basePolled || tier == Base)
  }

  /** The companion's word on the load source may be believed. */
  predicate Trustworthy(s: AtsSnap, comms: CommsState, expectedUnit: Option<int>) {
    && comms == Healthy
    && s.basePolled
    && s.icdMajor == EXPECTED_ICD_MAJOR
    && (expectedUnit.Some? ==> s.unitId == expectedUnit.value)
    && s.faults !! POSITION_FAULTS
  }

  function FaultRows(faults: set<string>): set<Code> {
    set c | c in faults :: Fault(c)
  }

  /** Rows of new faults come, rows of faults that ceased go. */
  function RowsAfter(rows: set<Code>, before: set<string>, after: set<string>): set<Code> {
    rows + FaultRows(after - before) - FaultRows(before - after)
  }

  class AtsService {
    const rules: seq<AlarmBit>
    const expectedUnit: Option<int>
    var snap: AtsSnap
    var comms: CommsTracker // shared with the companion's poller once it has polled
    const table: AlarmTable

    constructor (rules: seq<AlarmBit>, expectedUnit: Option<int>, table: AlarmTable)
      ensures snap == UNPOLLED && this.table == table && this.rules == rules && this.expectedUnit == expectedUnit
      ensures fresh(comms) && comms.state == Healthy && !IsAuthoritative()
    {
      this.rules, this.expectedUnit := rules, expectedUnit;
      snap, this.table := UNPOLLED, table;
      comms := new CommsTracker();
    }

    predicate IsAuthoritative()
      reads this, comms
    {
      Trustworthy(snap, comms.state, expectedUnit)
    }

    method DecodeFaultBits(raw: int) returns (active: set<string>)
      ensures active == FaultsIn(rules, raw)
    {
      active := {};
      for i := 0 to |rules|
        invariant active == FaultsIn(rules[..i], raw)
      {
        var ab := rules[i];
        assert rules[..i + 1] == rules[..i] + [ab];
        FaultsAppend(rules[..i], ab, raw);
        if ab.register == "fault_summary" && AllBitsSet(raw, ab.mask) { active := active + {ab.code}; }
      }
      assert rules[..|rules|] == rules;
    }

    method RaiseFaults(faults: set<string>)
      modifies table
      ensures table.codes == old(table.codes) + FaultRows(faults)
    {
      var todo := faults;
      while todo != {}
        invariant todo <= faults && table.codes == old(table.codes) + FaultRows(faults - todo)
      {
        var c :| c in todo;
        var inserted := table.Raise(Fault(c));
        todo := todo - {c};
      }
      assert faults - {} == faults;
    }

    method ClearFaults(faults: set<string>)
      modifies table
      ensures table.codes == old(table.codes) - FaultRows(faults)
    {
      var todo := faults;
      while todo != {}
        invariant todo <= faults && table.codes == old(table.codes) - FaultRows(faults - todo)
      {
        var c :| c in todo;
        var removed := table.Clear(Fault(c));
        todo := todo - {c};
      }
      assert faults - {} == faults;
    }

    /** Fault rows are raised and cleared by difference with the previous poll. */
    method Update(tier: Tier, values: Values, health: CommsTracker)
      modifies this, table
      ensures snap == Observe(old(snap), rules, tier, values) && comms == health
      ensures table.codes == RowsAfter(old(table.codes), old(snap.faults), snap.faults)
    {
      var faults := DecodeFaultBits(IntOr(values, "fault_summary", 0));
      RaiseFaults(faults - snap.faults);
      ClearFaults(snap.faults - faults);
      var positionRaw := RawPosition(snap.position);
      if "position" in values { positionRaw := Word16(values["position"].AsInt()); }
      snap := AtsSnap(
        PositionOf(positionRaw),
        faults,
        if "normal_available" in values then Some(values["normal_available"].AsInt() != 0) else snap.normalAvailable,
        IntOr(values, "icd_version_major", snap.icdMajor),
        IntOr(values, "ats_pi_unit_id", snap.unitId),
        snap.basePolled || tier == Base);
      comms := health;
    }
  }

  lemma FaultsAppend(rules: seq<AlarmBit>, ab: AlarmBit, raw: int)
    ensures FaultsIn(rules + [ab], raw) == FaultsIn(rules, raw)
         + (if ab.register == "fault_summary" && AllBitsSet(raw, ab.mask) then {ab.code} else {})
  {
    forall c | c in FaultsIn(rules, raw) ensures c in FaultsIn(rules + [ab], raw) {
      var x :| x in rules && x.register == "fault_summary" && AllBitsSet(raw, x.mask) && x.code == c;
      assert x in rules + [ab];
    }
    assert ab in rules + [ab];
  }

  // ---- commands -------------------------------------------------------------------------------------

  datatype CommandSpec = CommandSpec(maintained: bool, assertControl: string, releaseControl: string, role: string)

  function SpecOf(command: string): Option<CommandSpec> {
    match command
    case "test" => Some(CommandSpec(false, "ats_test", "", "operator"))
    case "inhibit" => Some(CommandSpec(true, "ats_inhibit_assert", "ats_inhibit_release", "operator"))
    case "force_transfer" => Some(CommandSpec(true, "ats_force_assert", "ats_force_release", "admin"))
    case "bypass_delay" => Some(CommandSpec(false, "ats_bypass_delay", "", "operator"))
    case _ => None
  }

  function RoleRank(role: string, unknown: nat): nat {
    match role
    case "viewer" => 0
    case "operator" => 1
    case "admin" => 2
    case _ => unknown
  }

  predicate RoleSatisfies(role: string, required: string) {
    RoleRank(role, 0) >= RoleRank(required, 99)
  }

  datatype AtsRefusal =
    | UnknownCommand
    | RoleTooLow
    | LinkLost
    | NotAuthoritative
    | Faulted
    | OverrideRequired
    | Unmapped
    | TokenRefused(verdict: Verdict)

  datatype AtsRequest = AtsRequest(command: string, role: string, asserting: bool, override: bool)

  predicate IsAssert(r: AtsRequest, spec: CommandSpec) {
    !spec.maintained || r.asserting
  }

  function ControlName(r: AtsRequest, spec: CommandSpec): string {
    if IsAssert(r, spec) then spec.assertControl else spec.releaseControl
  }

  /** What an assertion needs beyond a live link. */
  predicate MayAssert(r: AtsRequest, s: AtsSnap, comms: CommsState, expectedUnit: Option<int>) {
    && Trustworthy(s, comms, expectedUnit)
    && s.faults !! BLOCKING_FAULTS
    && (r.command == "force_transfer" ==> r.override || s.normalAvailable != Some(true))
  }

  /** Every gate of a transfer-switch command before its token; a release passes with far less than an assertion. */
  predicate MayOperate(r: AtsRequest, s: AtsSnap, comms: CommsState, expectedUnit: Option<int>,
                       controls: seq<ControlDef>) {
    && SpecOf(r.command).Some?
    && RoleSatisfies(r.role, SpecOf(r.command).value.role)
    && comms != Lost
    && (IsAssert(r, SpecOf(r.command).value) ==> MayAssert(r, s, comms, expectedUnit))
    && FindControl(controls, ControlName(r, SpecOf(r.command).value)).Some?
  }

  datatype AtsOutcome = AtsRefused(why: AtsRefusal) | AtsSent(write: Write)

  function AtsCommand(r: AtsRequest, operator: string, token: ConfirmToken, at: real, controls: seq<ControlDef>): Write
    requires SpecOf(r.command).Some? && FindControl(controls, ControlName(r, SpecOf(r.command).value)).Some?
  {
    Write(r.command, operator, token, at, FindControl(controls, ControlName(r, SpecOf(r.command).value)).value)
  }

  class AtsControlService {
    const controls: seq<ControlDef>
    const ats: AtsService
    const control: ControlService

    constructor (controls: seq<ControlDef>, ats: AtsService, control: ControlService)
      ensures this.controls == controls && this.ats == ats && this.control == control
    {
      this.controls, this.ats, this.control := controls, ats, control;
    }

    method CheckGates(r: AtsRequest) returns (refusal: Option<AtsRefusal>)
      ensures refusal == None <==> MayOperate(r, ats.snap, ats.comms.state, ats.expectedUnit, controls)
      ensures refusal == Some(UnknownCommand) <==> SpecOf(r.command) == None
      ensures refusal == Some(RoleTooLow) <==>
                SpecOf(r.command).Some? && !RoleSatisfies(r.role, SpecOf(r.command).value.role)
      ensures refusal == Some(Unmapped) ==> FindControl(controls, ControlName(r, SpecOf(r.command).value)) == None
      ensures refusal == Some(LinkLost) ==> ats.comms.state == Lost
      ensures refusal == Some(NotAuthoritative) ==> !ats.IsAuthoritative() && ats.comms.state != Lost
      ensures refusal == Some(Faulted) ==> ats.IsAuthoritative() && !(ats.snap.faults !! BLOCKING_FAULTS)
      ensures refusal == Some(OverrideRequired) ==>
                r.command == "force_transfer" && r.asserting && !r.override && ats.snap.normalAvailable == Some(true)
      ensures !(refusal.Some? && refusal.value.TokenRefused?)
    {
      var spec := SpecOf(r.command);
      if spec == None { return Some(UnknownCommand); }
      if !RoleSatisfies(r.role, spec.value.role) { return Some(RoleTooLow); }
      if ats.comms.state == Lost { return Some(LinkLost); }
      var name := if spec.value.maintained && !r.asserting then spec.value.releaseControl else spec.value.assertControl;
      if !spec.value.maintained || r.asserting {
        if !ats.IsAuthoritative() { return Some(NotAuthoritative); }
        if ats.snap.faults * BLOCKING_FAULTS != {} { return Some(Faulted); }
        if r.command == "force_transfer" && !r.override {
          if ats.snap.normalAvailable == Some(true) { return Some(OverrideRequired); }
        }
      }
      if FindControl(controls, name) == None { return Some(Unmapped); }
      return None;
    }

    /** A command: gates, then the shared token, then the write; the control lock is held for the token alone. */
    method Execute(r: AtsRequest, code: TokenCode, operator: string, mono: real, later: real) returns (out: AtsOutcome)
      requires control.Valid() && mono <= later
      modifies control.store
      ensures control.Valid()
      ensures out.AtsSent? <==>
                && MayOperate(r, ats.snap, ats.comms.state, ats.expectedUnit, controls)
                && Presented(old(control.store.tokens), code, operator, Some(r.command), mono, later).Granted?
      ensures out.AtsSent? ==> out.write == AtsCommand(r, operator, old(control.store.tokens)[code], later, controls)
      ensures out.AtsSent? ==> control.store.popped == old(control.store.popped) + multiset{out.write.token}
      ensures out.AtsRefused? && !out.why.TokenRefused? ==> unchanged(control.store)
      ensures out.AtsRefused? && out.why.TokenRefused? ==>
                && MayOperate(r, ats.snap, ats.comms.state, ats.expectedUnit, controls)
                && out.why.verdict == Presented(old(control.store.tokens), code, operator, Some(r.command), mono, later)
      ensures MayOperate(r, ats.snap, ats.comms.state, ats.expectedUnit, controls) ==>
                control.store.tokens == Unexpired(old(control.store.tokens), mono) - {code}
    {
      var refusal := CheckGates(r);
      if refusal.Some? { return AtsRefused(refusal.value); }
      var verdict := control.store.ConsumeToken(code, operator, Some(r.command), mono, later);
      if !verdict.Granted? { return AtsRefused(TokenRefused(verdict)); }
      return AtsSent(AtsCommand(r, operator, verdict.token, later, controls));
    }
  }

  /**
   * Releasing is the fail-safe direction: faults, a degraded link, a version or unit mismatch and
   * an available utility never refuse it.
   */
  lemma ReleaseNeverRefused(r: AtsRequest, s: AtsSnap, comms: CommsState, expectedUnit: Option<int>,
                            controls: seq<ControlDef>)
    requires r.command in {"inhibit", "force_transfer"} && !r.asserting
    ensures MayOperate(r, s, comms, expectedUnit, controls) <==>
              && comms != Lost
              && r.role in (if r.command == "inhibit" then {"operator", "admin"} else {"admin"})
              && (r.command == "inhibit" ==> FindControl(controls, "ats_inhibit_release").Some?)
              && (r.command == "force_transfer" ==> FindControl(controls, "ats_force_release").Some?)
  {
  }

  /** Asserting needs an authoritative, fault-free link, and forcing off a healthy utility needs the override. */
  lemma AssertNeedsAuthority(r: AtsRequest, s: AtsSnap, comms: CommsState, expectedUnit: Option<int>,
                             controls: seq<ControlDef>)
    requires MayOperate(r, s, comms, expectedUnit, controls)
    requires r.asserting || r.command in {"test", "bypass_delay"}
    ensures comms == Healthy && s.basePolled && s.icdMajor == 1 && s.faults !! BLOCKING_FAULTS
    ensures expectedUnit.Some? ==> s.unitId == expectedUnit.value
    ensures r.command == "force_transfer" && !r.override ==> s.normalAvailable != Some(true)
    ensures r.role in {"operator", "admin"} && (r.command == "force_transfer" ==> r.role == "admin")
  {
  }
}
