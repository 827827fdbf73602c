/** Alarm acknowledgement, the third user of confirm tokens (ack_alarm in backend/genwatch/api/events.py). */
module Acknowledge {
  import opened Prelude
  import opened Registers
  import opened Comms
  import opened Alarms
  import opened Tokens
  import opened Control

  datatype AckOutcome =
    | NotActive
    | LinkLost
    | TokenRefused(verdict: Verdict)
    | WriteFailed(tried: Write)
    | Cleared(write: Option<Write>)

  function Attempted(out: AckOutcome): Option<Write> {
    match out
    case WriteFailed(w) => Some(w)
    case Cleared(w) => w
    case _ => None
  }

  /** The action an acknowledging token must be for. */
  function AckVerb(): Option<string> {
    Some("ack")
  }

  function AckRegister(rm: RegisterMap): Option<ControlDef> {
    FindControl(rm.controls, "ack_alarm")
  }

  function Settled(register: Option<ControlDef>, token: ConfirmToken, operator: string, wireOk: bool,
                   at: real): AckOutcome {
    match register
    case None => Cleared(None)
    case Some(c) =>
      var write := Write("ack", operator, token, at, c);
      if wireOk then Cleared(Some(write)) else WriteFailed(write)
  }

  function AfterToken(verdict: Verdict, register: Option<ControlDef>, operator: string, wireOk: bool,
                      at: real): AckOutcome {
    if verdict.Granted? then Settled(register, verdict.token, operator, wireOk, at) else TokenRefused(verdict)
  }

  class AckService {
    const table: AlarmTable
    const control: ControlService

    constructor (table: AlarmTable, control: ControlService)
      ensures this.table == table && this.control == control
    {
      this.table, this.control := table, control;
    }

    /** The controller write, if the map has one, and the deletion of the row if nothing failed. */
    method Settle(alarm: Code, token: ConfirmToken, operator: string, wireOk: bool, at: real) returns (out: AckOutcome)
      modifies table
      ensures out == Settled(AckRegister(control.regmap), token, operator, wireOk, at)
      ensures table.codes == old(table.codes) - (if out.Cleared? then {alarm} else {})
    {
      var register := AckRegister(control.regmap);
      var write: Option<Write> := None;
      if register.Some? {
        write := Some(Write("ack", operator, token, at, register.value));
        if !wireOk { return WriteFailed(write.value); }
      }
      var removed := table.Clear(alarm);
      return Cleared(write);
    }

    /**
     * Acknowledges one alarm.  wireOk is what the controller answers, if it is asked.  The row goes only
     * when the controller accepted the write or the map has no such control; a failed write keeps it.
     */
    method AckAlarm(alarm: Code, code: TokenCode, operator: string, comms: CommsState, wireOk: bool,
                    mono: real, later: real) returns (out: AckOutcome)
      requires control.Valid() && mono <= later
      modifies table, control.store
      ensures control.Valid()
      ensures out.NotActive? <==> alarm !in old(table.codes)
      ensures out.LinkLost? <==> alarm in old(table.codes) && comms == Lost
      ensures out.NotActive? || out.LinkLost? ==> unchanged(table) && unchanged(control.store)
      ensures !out.NotActive? && !out.LinkLost? ==>
                && control.store.tokens == Unexpired(old(control.store.tokens), mono) - {code}
                && out == AfterToken(Presented(old(control.store.tokens), code, operator, AckVerb(), mono, later),
                                     AckRegister(control.regmap), operator, wireOk, later)
      ensures table.codes == old(table.codes) - (if out.Cleared? then {alarm} else {})
    {
      if alarm !in table.codes { return NotActive; }
      if comms == Lost { return LinkLost; }
      var verdict := control.store.ConsumeToken(code, operator, AckVerb(), mono, later);
      if !verdict.Granted? { return TokenRefused(verdict); }
      out := Settle(alarm, verdict.token, operator, wireOk, later);
    }
  }

  /** A failed write is never a clearance, and a clearance of a latched alarm means the controller accepted it. */
  lemma ClearedMeansAccepted(verdict: Verdict, register: Option<ControlDef>, operator: string, wireOk: bool, at: real)
    ensures AfterToken(verdict, register, operator, wireOk, at).Cleared? <==>
              verdict.Granted? && (register.Some? ==> wireOk)
    ensures Attempted(AfterToken(verdict, register, operator, wireOk, at)).Some? <==> verdict.Granted? && register.Some?
  {
  }
}
