/**
 * The Modbus client's contract: a read succeeds only with exactly the words asked for, and a control
 * of an accepted map always reaches the wire as declared (backend/genwatch/modbus/client.py).
 */
module Client {
  import opened Prelude
  import opened Registers
  import opened Batching
  import opened Polling

  /** What one attempt on the wire comes back with. */
  datatype Attempt = Disconnected | NoResponse | ErrorReply | TimedOut | Reply(words: seq<int>)

  predicate Exact(a: Attempt, count: nat) {
    a.Reply? && |a.words| == count
  }

  predicate FirstExact(attempts: seq<Attempt>, count: nat, i: int) {
    0 <= i < |attempts| && Exact(attempts[i], count) && forall j :: 0 <= j < i ==> !Exact(attempts[j], count)
  }

  /** Tries until an attempt brings exactly count words; a short or long frame is a failure like any other. */
  method Read(count: nat, attempts: seq<Attempt>) returns (r: Option<seq<int>>)
    ensures r == None <==> forall i :: 0 <= i < |attempts| ==> !Exact(attempts[i], count)
    ensures r.Some? ==> |r.value| == count && exists i :: FirstExact(attempts, count, i) && attempts[i].words == r.value
  {
    for i := 0 to |attempts|
      invariant forall j :: 0 <= j < i ==> !Exact(attempts[j], count)
    {
      match attempts[i]
      case Reply(words) =>
        if |words| == count {
          assert FirstExact(attempts, count, i);
          return Some(words);
        }
      case _ =>
    }
    return None;
  }

  /** One batch of a poll: the batch read and, when it fails, one read per word.  Its answers are always well formed. */
  method AskBatch(b: Batch, attempts: seq<Attempt>, single: seq<seq<Attempt>>, at: real) returns (a: Answer)
    requires b.count == |single|
    ensures WellFormed(a, b.count) && a.at == at
    ensures a.batch == None <==> forall i :: 0 <= i < |attempts| ==> !Exact(attempts[i], b.count)
    ensures a.batch == None ==> forall o :: 0 <= o < b.count ==>
              (a.singles[o] == None <==> forall i :: 0 <= i < |single[o]| ==> !Exact(single[o][i], 1))
  {
    var whole := Read(b.count, attempts);
    if whole.Some? {
      return Answer(whole, seq(b.count, o => None), at);
    }
    var singles: seq<Option<int>> := [];
    for o := 0 to b.count
      invariant |singles| == o
      invariant forall k :: 0 <= k < o ==>
                  (singles[k] == None <==> forall i :: 0 <= i < |single[k]| ==> !Exact(single[k][i], 1))
    {
      var one := Read(1, single[o]);
      singles := singles + [if one.Some? then Some(one.value[0]) else None];
    }
    return Answer(None, singles, at);
  }

  // ---- writes -----------------------------------------------------------------------------

  datatype WriteError = BothGiven | NeitherGiven | EmptyValues | SingleExpected | UnsupportedFc

  /** What leaves for the controller: a single-register or a multi-register write. */
  datatype Frame = WriteSingle(addr: int, word: int) | WriteMany(addr: int, words: seq<int>)

  datatype Coerced = Ok(words: seq<int>) | Bad(error: WriteError)

  function CoerceWriteArgs(value: Option<int>, values: Option<seq<int>>, fc: int): Coerced {
    if value.Some? && values.Some? then Bad(BothGiven)
    else if value.None? && values.None? then Bad(NeitherGiven)
    else
      var words := if values.Some? then values.value else [value.value];
      if words == [] then Bad(EmptyValues)
      else if fc == 6 && |words| != 1 then Bad(SingleExpected)
      else Ok(words)
  }

  /** The frame a write call sends, if its arguments are in order. */
  method WriteFrame(addr: int, value: Option<int>, values: Option<seq<int>>, fc: int)
    returns (frame: Option<Frame>, error: Option<WriteError>)
    ensures frame.Some? <==> error == None
    ensures frame.Some? <==> fc in {6, 16} && CoerceWriteArgs(value, values, fc).Ok?
    ensures frame.Some? ==> Carried(frame.value) == CoerceWriteArgs(value, values, fc).words
                            && frame.value.addr == addr && (frame.value.WriteSingle? <==> fc == 6)
  {
    var coerced := CoerceWriteArgs(value, values, fc);
    match coerced
    case Bad(e) => return None, Some(e);
    case Ok(words) =>
      if fc == 6 { return Some(WriteSingle(addr, words[0])), None; }
      if fc == 16 { return Some(WriteMany(addr, words)), None; }
      return None, Some(UnsupportedFc);
  }

  function Carried(f: Frame): seq<int> {
    match f
    case WriteSingle(_, w) => [w]
    case WriteMany(_, ws) => ws
  }

  /**
   * The call every command surface makes for a control; it reaches the wire exactly for controls the validator passes.
   */
  method SendControl(c: ControlDef) returns (frame: Option<Frame>)
    ensures frame.Some? <==> c.fc in {6, 16} && (c.fc == 6 ==> |c.WriteValues()| == 1)
    ensures frame.Some? ==> frame.value.addr == c.addr && Carried(frame.value) == c.WriteValues()
  {
    var words := c.WriteValues();
    var error;
    if |words| == 1 && c.fc == 6 {
      frame, error := WriteFrame(c.addr, Some(words[0]), None, 6);
    } else {
      frame, error := WriteFrame(c.addr, None, Some(words), c.fc);
    }
  }

  /** A control of an accepted map is never refused for its arguments. */
  lemma AcceptedControlsSend(rm: RegisterMap, c: ControlDef)
    requires Accepted(rm) && c in rm.controls
    ensures c.fc in {6, 16} && (c.fc == 6 ==> |c.WriteValues()| == 1) && c.WriteValues() != []
    ensures 0 <= c.addr <= 0xFFFF
  {
    var i :| 0 <= i < |rm.controls| && rm.controls[i] == c;
    assert ControlOk(rm.controls[i]);
  }
}
