/**
 * Which function code a register is read with: the poller uses the map's own for every batch
 * (backend/genwatch/modbus/poller.py), each register also carries one of its own.
 */
module ReadCodes {
  import opened Prelude
  import opened Registers
  import opened Batching
  import opened Polling

  /** What the controller holds, or fails to give, under each function code and address. */
  type Device = (int, int) -> Option<int>

  /** The answers to one poll come from the device under one function code. */
  ghost predicate Serves(device: Device, fc: int, batches: seq<Batch>, answers: seq<Answer>) {
    && Answers(batches, answers)
    && forall k, o :: 0 <= k < |batches| && 0 <= o < batches[k].count ==>
         WordIn(answers[k], o) == device(fc, batches[k].start + o)
  }

  /** The register read on its own, under a given function code. */
  function ReadAlone(device: Device, fc: int, r: RegisterDef): Option<Value> {
    DecodeWords(r, Gather(device(fc, r.addr), device(fc, r.addr + 1), r.Words()))
  }

  lemma {:induction false} ServedWord(device: Device, fc: int, batches: seq<Batch>, answers: seq<Answer>, n: nat,
                                      addr: int)
    requires Serves(device, fc, batches, answers)
    requires n < |batches| && batches[n].start <= addr < batches[n].End()
    ensures WordRead(batches, answers, addr) == device(fc, addr)
  {
    if batches[0].start <= addr < batches[0].End() {
      assert WordIn(answers[0], addr - batches[0].start) == device(fc, batches[0].start + (addr - batches[0].start));
    } else {
      ServesTail(device, fc, batches, answers);
      assert batches[1..][n - 1] == batches[n];
      ServedWord(device, fc, batches[1..], answers[1..], n - 1, addr);
    }
  }

  lemma ServesTail(device: Device, fc: int, batches: seq<Batch>, answers: seq<Answer>)
    requires Serves(device, fc, batches, answers) && batches != []
    ensures Serves(device, fc, batches[1..], answers[1..])
  {
    forall k, o | 0 <= k < |batches[1..]| && 0 <= o < batches[1..][k].count
      ensures WordIn(answers[1..][k], o) == device(fc, batches[1..][k].start + o)
    {
      assert batches[1..][k] == batches[k + 1] && answers[1..][k] == answers[k + 1];
    }
  }

  /** A poll decodes each register of its tier as read alone under the map's function code. */
  lemma PollReadsWithMapCode(device: Device, poll: Poll, answers: seq<Answer>, r: RegisterDef)
    requires poll.Consistent() && r in poll.Regs()
    requires Serves(device, poll.regmap.readFc, poll.batches, answers)
    ensures FreshValue(poll.batches, answers, r) == ReadAlone(device, poll.regmap.readFc, r)
  {
    TierKeepsPromises(poll.regmap.registers, poll.tier);
    var n := EachRegisterInOneBatch(poll.Regs(), r, MAX_WORDS);
    ServedWord(device, poll.regmap.readFc, poll.batches, answers, n, r.addr);
    if r.Words() == 2 { ServedWord(device, poll.regmap.readFc, poll.batches, answers, n, r.addr + 1); }
  }

  /** A device that holds 0 everywhere under one function code and nothing under any other. */
  function OnlyUnder(fc: int): Device {
    (c, addr) => if c == fc then Some(0) else None
  }

  function AllZero(batches: seq<Batch>): seq<Answer>
    requires forall k :: 0 <= k < |batches| ==> batches[k].count >= 0
  {
    seq(|batches|, k requires 0 <= k < |batches| =>
      Answer(Some(seq(batches[k].count, o => 0)), seq(batches[k].count, o => None), 0.0))
  }

  predicate OwnCodes(poll: Poll) {
    forall r :: r in poll.Regs() ==> r.fc == poll.regmap.readFc
  }

  /** Every poll of the map decodes each register as its own function code would have it. */
  ghost predicate ReadsAsDeclared(poll: Poll) {
    forall device: Device, answers: seq<Answer>, r ::
      Serves(device, poll.regmap.readFc, poll.batches, answers) && r in poll.Regs() ==>
      FreshValue(poll.batches, answers, r) == ReadAlone(device, r.fc, r)
  }

  /**
   * Polling equals reading each register with its own function code, on every device, exactly when all
   * registers of the tier declare the map's.  The validator does not ask for that.
   */
  lemma ReadsAsDeclaredIff(poll: Poll)
    requires poll.Consistent()
    ensures ReadsAsDeclared(poll) <==> OwnCodes(poll)
  {
    if OwnCodes(poll) {
      forall device: Device, answers: seq<Answer>, r
        | Serves(device, poll.regmap.readFc, poll.batches, answers) && r in poll.Regs()
        ensures FreshValue(poll.batches, answers, r) == ReadAlone(device, r.fc, r)
      {
        PollReadsWithMapCode(device, poll, answers, r);
      }
    } else {
      var r :| r in poll.Regs() && r.fc != poll.regmap.readFc;
      OtherCodeMissed(poll, r);
    }
  }

  lemma OtherCodeMissed(poll: Poll, r: RegisterDef)
    requires poll.Consistent() && r in poll.Regs() && r.fc != poll.regmap.readFc
    ensures !ReadsAsDeclared(poll)
  {
    var fc := poll.regmap.readFc;
    TierKeepsPromises(poll.regmap.registers, poll.tier);
    BatchTableShape(poll.Regs(), MAX_WORDS);
    var answers := AllZero(poll.batches);
    assert Serves(OnlyUnder(fc), fc, poll.batches, answers);
    PollReadsWithMapCode(OnlyUnder(fc), poll, answers, r);
    assert ReadAlone(OnlyUnder(fc), r.fc, r) == None;
    DecodeTotal(r, if r.Words() == 2 then [0, 0] else [0]);
    assert ReadAlone(OnlyUnder(fc), fc, r).Some?;
  }

  /** An accepted map may declare other codes than it polls with. */
  lemma AcceptedMayMixCodes()
    ensures exists rm :: Accepted(rm) && exists r :: r in rm.registers && r.fc != rm.readFc
  {
    var r := RegisterDef("kw", 7, 4, U16, Prime, 1.0, None, None);
    var rm := RegisterMap(1, 3, 1500, 15000, [], [], [], [r], [], false);
    assert r in rm.registers;
    assert Accepted(rm);
  }
}
