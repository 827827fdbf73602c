/** Generator commands and their gates (ControlService in backend/genwatch/services/control.py). */
module Control {
  import opened Prelude
  import opened Registers
  import opened Comms
  import opened Polling
  import opened Tokens

  const FRESH_MULTIPLIER := 2.0

  /** What the command path reads of the state snapshot. */
  datatype Snapshot = Snapshot(engine: string, panel: string, comms: CommsState, reading: Reading)

  datatype Refusal =
    | Forbidden
    | UnknownVerb
    | NoRegister
    | CommsNotHealthy
    | StaleData
    | PanelLocked
    | InvalidState
    | BadToken(verdict: Verdict)

  /** A write handed to the Modbus client, with the authority it rests on. */
  datatype Write = Write(action: string, operator: string, token: ConfirmToken, at: real, control: ControlDef)

  datatype Outcome = Refused(why: Refusal) | Sent(write: Write)

  // ---- tables ------------------------------------------------------------------------------

  function ControlOf(verb: string): Option<string> {
    match verb
    case "start" => Some("remote_start")
    case "stop" => Some("remote_stop")
    case "exercise" => Some("exercise")
    case "transfer" => Some("transfer")
    case _ => None
  }

  function AllowedStates(verb: string): set<string> {
    match verb
    case "start" => {"stopped"}
    case "stop" => {"running", "exercising", "cranking", "cooling", "alarm"}
    case "exercise" => {"stopped"}
    case "transfer" => {"running"}
    case _ => {}
  }

  function FindControl(controls: seq<ControlDef>, name: string): Option<ControlDef> {
    if controls == [] then None
    else if controls[0].name == name then Some(controls[0])
    else FindControl(controls[1..], name)
  }

  // ---- freshness ------------------------------------------------------------------------------

  /** The registers behind engine state and panel mode. */
  function Sources(rm: RegisterMap): set<string> {
    (set b | b in rm.engineStateBits :: b.register) + (set b | b in rm.panelModeBits :: b.register)
  }

  function MaxAge(rm: RegisterMap): real {
    MaxInt(rm.primePollMs, 1) as real / 1000.0 * FRESH_MULTIPLIER
  }

  /** Decoded, and at most two prime periods ago. */
  predicate FreshAt(rm: RegisterMap, reading: Reading, name: string, now: real) {
    name in reading.ages && now - reading.ages[name] <= MaxAge(rm)
  }

  predicate AllSourcesFresh(rm: RegisterMap, reading: Reading, now: real) {
    forall n :: n in Sources(rm) ==> FreshAt(rm, reading, n, now)
  }

  // ---- the gates --------------------------------------------------------------------------------

  /** The first gate that refuses, in the order they are tried; the token is looked at only after all of them. */
  function FirstRefusal(verb: string, role: string, rm: RegisterMap, snap: Snapshot, now: real): Option<Refusal> {
    if role !in {"operator", "admin"} then Some(Forbidden)
    else if ControlOf(verb) == None then Some(UnknownVerb)
    else if FindControl(rm.controls, ControlOf(verb).value) == None then Some(NoRegister)
    else if snap.comms != Healthy then Some(CommsNotHealthy)
    else if !AllSourcesFresh(rm, snap.reading, now) then Some(StaleData)
    else if snap.panel != "auto" then Some(PanelLocked)
    else if snap.engine !in AllowedStates(verb) then Some(InvalidState)
    else None
  }

  /** Every gate at once. */
  predicate MayCommand(verb: string, role: string, rm: RegisterMap, snap: Snapshot, now: real) {
    && role in {"operator", "admin"}
    && snap.comms == Healthy
    && AllSourcesFresh(rm, snap.reading, now)
    && snap.panel == "auto"
    && snap.engine in AllowedStates(verb)
    && ControlOf(verb).Some? && FindControl(rm.controls, ControlOf(verb).value).Some?
  }

  function Command(verb: string, operator: string, token: ConfirmToken, at: real, rm: RegisterMap): Write
    requires ControlOf(verb).Some? && FindControl(rm.controls, ControlOf(verb).value).Some?
  {
    Write(verb, operator, token, at, FindControl(rm.controls, ControlOf(verb).value).value)
  }

  class ControlService {
    var regmap: RegisterMap
    const store: TokenStore

    ghost predicate Valid()
      reads this, store
    {
      store.Valid()
    }

    constructor (rm: RegisterMap)
      ensures Valid() && regmap == rm && store.tokens == map[] && fresh(store)
    {
      regmap := rm;
      store := new TokenStore();
    }

    method ApplyRegmap(rm: RegisterMap)
      modifies this`regmap
      ensures regmap == rm
    {
      regmap := rm;
    }

    /** The stale sources, each named once. */
    method StaleControlRegisters(reading: Reading, now: real) returns (stale: seq<string>)
      ensures forall n :: n in stale <==> n in Sources(regmap) && !FreshAt(regmap, reading, n, now)
      ensures forall i, j :: 0 <= i < j < |stale| ==> stale[i] != stale[j]
    {
      stale := [];
      var maxAge := MaxInt(regmap.primePollMs, 1) as real / 1000.0 * FRESH_MULTIPLIER;
      var todo := Sources(regmap);
      while todo != {}
        invariant todo <= Sources(regmap)
        invariant forall n :: n in stale <==> n in Sources(regmap) && n !in todo && !FreshAt(regmap, reading, n, now)
        invariant forall i, j :: 0 <= i < j < |stale| ==> stale[i] != stale[j]
      {
        var name :| name in todo;
        assert forall n :: n in stale + [name] <==> n in stale || n == name;
        if name !in reading.ages || now - reading.ages[name] > maxAge { stale := stale + [name]; }
        todo := todo - {name};
      }
    }

    /** The gates in order: the first that refuses is the answer, and none touches the token store. */
    method CheckGates(verb: string, role: string, snap: Snapshot, now: real) returns (refusal: Option<Refusal>)
      ensures refusal == FirstRefusal(verb, role, regmap, snap, now)
      ensures refusal == None <==> MayCommand(verb, role, regmap, snap, now)
    {
      if role != "operator" && role != "admin" { return Some(Forbidden); }
      var name := ControlOf(verb);
      if name == None { return Some(UnknownVerb); }
      var control := FindControl(regmap.controls, name.value);
      if control == None { return Some(NoRegister); }
      if snap.comms != Healthy { return Some(CommsNotHealthy); }
      var stale := StaleControlRegisters(snap.reading, now);
      if stale != [] {
        assert stale[0] in stale;
        return Some(StaleData);
      }
      if snap.panel != "auto" { return Some(PanelLocked); }
      if snap.engine !in AllowedStates(verb) { return Some(InvalidState); }
      return None;
    }

    /**
     * A command.  A refusing gate leaves the token store exactly as it was; once every gate has passed
     * the token is presented, and only a granted one lets the write out.  The caller holds the control
     * lock from the first gate to the write.
     */
    method Execute(verb: string, code: TokenCode, operator: string, role: string, snap: Snapshot,
                   now: real, mono: real, later: real) returns (out: Outcome)
      requires Valid() && mono <= later
      modifies store
      ensures Valid()
      ensures out.Sent? <==> MayCommand(verb, role, regmap, snap, now)
                             && Presented(old(store.tokens), code, operator, Some(verb), mono, later).Granted?
      ensures out.Sent? ==> out.write == Command(verb, operator, old(store.tokens)[code], later, regmap)
      ensures out.Refused? ==> out.why == (match FirstRefusal(verb, role, regmap, snap, now)
                case Some(r) => r
                case None => BadToken(Presented(old(store.tokens), code, operator, Some(verb), mono, later)))
      ensures !MayCommand(verb, role, regmap, snap, now) ==> unchanged(store)
      ensures MayCommand(verb, role, regmap, snap, now) ==> store.tokens == Unexpired(old(store.tokens), mono) - {code}
      ensures out.Sent? ==> store.popped == old(store.popped) + multiset{out.write.token}
    {
      var refusal := CheckGates(verb, role, snap, now);
      if refusal.Some? { return Refused(refusal.value); }
      assert MayCommand(verb, role, regmap, snap, now);
      var verdict := store.ConsumeToken(code, operator, Some(verb), mono, later);
      if !verdict.Granted? { return Refused(BadToken(verdict)); }
      return Sent(Command(verb, operator, verdict.token, later, regmap));
    }
  }
}
