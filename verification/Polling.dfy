/**
 * The two-tier poller: batched reads, single-register fall-back, decoding and eviction
 * (Poller._poll_tier, _fallback_singles and apply_regmap in backend/genwatch/modbus/poller.py).
 */
module Polling {
  import opened Prelude
  import opened Registers
  import opened Batching
  import opened Comms

  const STALE_MULTIPLIER := 3.0

  /** Decoded values and, for each, the monotonic time of its last decode. */
  datatype Reading = Reading(values: Values, ages: map<string, real>)

  predicate KeysMatch(r: Reading) {
    r.values.Keys == r.ages.Keys
  }

  /**
   * What the device answers for one batch: the batch read, and the single reads of each offset
   * that are made if it fails.  None is a failed read; at is when the outcome was recorded.
   */
  datatype Answer = Answer(batch: Option<seq<int>>, singles: seq<Option<int>>, at: real)

  /** A successful read returns exactly as many words as were asked for. */
  predicate WellFormed(a: Answer, count: int) {
    (a.batch.Some? ==> |a.batch.value| == count) && |a.singles| == count
  }

  predicate Answers(batches: seq<Batch>, answers: seq<Answer>) {
    |batches| == |answers| && forall k :: 0 <= k < |batches| ==> WellFormed(answers[k], batches[k].count)
  }

  // ---- the simple specification: each register on its own ---------------------------

  /** The word at an offset of a batch, if the batch read or the fall-back brought it. */
  function WordIn(a: Answer, offset: int): Option<int> {
    if offset < 0 then None
    else if a.batch.Some? then if offset < |a.batch.value| then Some(a.batch.value[offset]) else None
    else if offset < |a.singles| then a.singles[offset] else None
  }

  /** The word read at an address during this poll, if any. */
  function WordRead(batches: seq<Batch>, answers: seq<Answer>, addr: int): Option<int>
    requires |batches| == |answers|
  {
    if batches == [] then None
    else if batches[0].start <= addr < batches[0].End() then WordIn(answers[0], addr - batches[0].start)
    else WordRead(batches[1..], answers[1..], addr)
  }

  /** A register's words, once every one of them is there. */
  function Gather(first: Option<int>, second: Option<int>, count: nat): Option<seq<int>> {
    if first.None? || (count == 2 && second.None?) then None
    else Some(if count == 2 then [first.value, second.value] else [first.value])
  }

  function DecodeWords(r: RegisterDef, words: Option<seq<int>>): Option<Value> {
    match words
    case Some(w) => DecodeValue(r, w)
    case None => None
  }

  /** The decode of the words read at the register's own addresses, if all of them were read. */
  function FreshValue(batches: seq<Batch>, answers: seq<Answer>, r: RegisterDef): Option<Value>
    requires |batches| == |answers|
  {
    DecodeWords(r, Gather(WordRead(batches, answers, r.addr), WordRead(batches, answers, r.addr + 1), r.Words()))
  }

  function RegNamed(regs: seq<RegisterDef>, name: string): Option<RegisterDef> {
    if regs == [] then None else if regs[0].name == name then Some(regs[0]) else RegNamed(regs[1..], name)
  }

  /** A value with the time of its decode; None when the reading has no such register. */
  type Entry = Option<(Value, real)>

  function EntryOf(r: Reading, name: string): Entry
    requires KeysMatch(r)
  {
    if name in r.values then Some((r.values[name], r.ages[name])) else None
  }

  function Evicted(e: Entry, now: real, threshold: real): Entry {
    if e.Some? && now - e.value.1 >= threshold then None else e
  }

  function Renewed(prior: Entry, decoded: Option<Value>, now: real): Entry {
    if decoded.Some? then Some((decoded.value, now)) else prior
  }

  /** What becomes of one register: fresh decode or prior entry, evicted when too old; other tiers keep theirs. */
  function EntryAfter(prior: Reading, poll: Poll, answers: seq<Answer>, now: real, name: string): Entry
    requires KeysMatch(prior) && |poll.batches| == |answers|
  {
    match RegNamed(poll.Regs(), name)
    case Some(r) =>
      Evicted(Renewed(EntryOf(prior, name), FreshValue(poll.batches, answers, r), now), now, poll.Threshold())
    case None => EntryOf(prior, name)
  }

  /** post holds, name by name, what the per-register specification says. */
  ghost predicate RefinesSimple(prior: Reading, post: Reading, poll: Poll, answers: seq<Answer>, now: real)
    requires KeysMatch(prior) && |poll.batches| == |answers|
  {
    && KeysMatch(post)
    && forall name :: EntryOf(post, name) == EntryAfter(prior, poll, answers, now, name)
  }

  // ---- tiers and polls in flight -----------------------------------------------------

  function TierRegs(regs: seq<RegisterDef>, t: Tier): (s: seq<RegisterDef>)
    ensures forall r :: r in s <==> r in regs && r.tier == t
  {
    if regs == [] then []
    else
      assert regs == [regs[0]] + regs[1..];
      (if regs[0].tier == t then [regs[0]] else []) + TierRegs(regs[1..], t)
  }

  /** A tier of a map keeps the map's two promises: distinct names and private words. */
  lemma {:induction false} TierKeepsPromises(regs: seq<RegisterDef>, t: Tier)
    requires DistinctNames(regs) && OwnWords(regs)
    ensures DistinctNames(TierRegs(regs, t)) && OwnWords(TierRegs(regs, t))
  {
    if regs != [] {
      TierKeepsPromises(regs[1..], t);
      var rest := TierRegs(regs[1..], t);
      forall r | r in rest ensures r.name != regs[0].name && Apart(regs[0], r) {
        var k :| 0 <= k < |regs[1..]| && regs[1..][k] == r;
        assert regs[k + 1] == r;
      }
    }
  }

  /** The snapshot a poll takes under the map lock before its first await. */
  datatype Poll = Poll(tier: Tier, regmap: RegisterMap, batches: seq<Batch>) {
    function Regs(): seq<RegisterDef> {
      TierRegs(regmap.registers, tier)
    }

    /** Age at which a value of this tier is dropped: three of its periods. */
    function Threshold(): real {
      regmap.PollMs(tier) as real / 1000.0 * STALE_MULTIPLIER
    }

    /** The batches are those of the very map the registers come from. */
    ghost predicate Consistent() {
      && DistinctNames(regmap.registers) && OwnWords(regmap.registers)
      && batches == BatchTable(Regs())
    }
  }

  // ---- what the code works with ----------------------------------------------------

  /** Words that cover a batch; failed offsets hold a 0 that must never be decoded. */
  datatype Result = Result(start: int, words: seq<int>, failed: set<int>)

  function WordOrZero(w: Option<int>): int {
    if w.Some? then w.value else 0
  }

  predicate NoneRead(singles: seq<Option<int>>) {
    forall o :: 0 <= o < |singles| ==> singles[o].None?
  }

  function Fallback(start: int, singles: seq<Option<int>>): Option<Result> {
    if NoneRead(singles) then None
    else Some(Result(start,
                     seq(|singles|, o requires 0 <= o < |singles| => WordOrZero(singles[o])),
                     set o | 0 <= o < |singles| && singles[o].None?))
  }

  function ResultOf(b: Batch, a: Answer): Option<Result> {
    if a.batch.Some? then Some(Result(b.start, a.batch.value, {})) else Fallback(b.start, a.singles)
  }

  function ResultsOf(batches: seq<Batch>, answers: seq<Answer>): seq<Result>
    requires |batches| == |answers|
  {
    if batches == [] then []
    else
      var rest := ResultsOf(batches[1..], answers[1..]);
      match ResultOf(batches[0], answers[0])
      case Some(r) => [r] + rest
      case None => rest
  }

  predicate Contains(res: Result, r: RegisterDef) {
    res.start <= r.addr && res.start + |res.words| >= r.End()
  }

  predicate TouchesFailed(res: Result, r: RegisterDef) {
    var offset := r.addr - res.start;
    offset in res.failed || (r.Words() == 2 && offset + 1 in res.failed)
  }

  /** The first result that contains the register decides. */
  function Lookup(results: seq<Result>, r: RegisterDef): Option<Value> {
    if results == [] then None
    else if !Contains(results[0], r) then Lookup(results[1..], r)
    else if TouchesFailed(results[0], r) then None
    else
      var offset := r.addr - results[0].start;
      DecodeValue(r, results[0].words[offset..offset + r.Words()])
  }

  lemma AnswersTail(batches: seq<Batch>, answers: seq<Answer>)
    requires Answers(batches, answers) && batches != []
    ensures Answers(batches[1..], answers[1..])
    ensures WellFormed(answers[0], batches[0].count)
  {
  }

  /** A batch that holds a register decodes it exactly when all its words were read, never from a placeholder. */
  lemma HeadDecodes(b: Batch, a: Answer, rest: seq<Result>, r: RegisterDef)
    requires WellFormed(a, b.count) && WithinBatch(r, b)
    ensures var offset := r.addr - b.start;
            var decoded := DecodeWords(r, Gather(WordIn(a, offset), WordIn(a, offset + 1), r.Words()));
            match ResultOf(b, a)
            case None => decoded == None
            case Some(res) => Lookup([res] + rest, r) == decoded
  {
    var offset := r.addr - b.start;
    match ResultOf(b, a)
    case None =>
    case Some(res) =>
      assert ([res] + rest)[0] == res && Contains(res, r);
      SliceWords(res.words, offset, r.Words());
  }

  lemma SliceWords(words: seq<int>, offset: int, count: int)
    requires 0 <= offset && count in {1, 2} && offset + count <= |words|
    ensures words[offset..offset + count] == if count == 2 then [words[offset], words[offset + 1]] else [words[offset]]
  {
  }

  lemma HeadMisses(b: Batch, a: Answer, rest: seq<Result>, r: RegisterDef)
    requires WellFormed(a, b.count) && !WithinBatch(r, b)
    ensures ResultOf(b, a).Some? ==> Lookup([ResultOf(b, a).value] + rest, r) == Lookup(rest, r)
  {
    if ResultOf(b, a).Some? {
      var results := [ResultOf(b, a).value] + rest;
      assert results[1..] == rest;
    }
  }

  /** Registers outside every batch of a list are not found in its results. */
  lemma {:induction false} LookupMisses(batches: seq<Batch>, answers: seq<Answer>, r: RegisterDef)
    requires Answers(batches, answers)
    requires forall k :: 0 <= k < |batches| ==> !WithinBatch(r, batches[k])
    ensures Lookup(ResultsOf(batches, answers), r) == None
  {
    if batches != [] {
      AnswersTail(batches, answers);
      forall k | 0 <= k < |batches[1..]| ensures !WithinBatch(r, batches[1..][k]) {
        assert batches[1..][k] == batches[k + 1];
      }
      LookupMisses(batches[1..], answers[1..], r);
      HeadMisses(batches[0], answers[0], ResultsOf(batches[1..], answers[1..]), r);
    }
  }

  lemma DisjointTail(batches: seq<Batch>)
    requires DisjointSorted(batches) && batches != []
    ensures DisjointSorted(batches[1..])
    ensures forall k :: 0 <= k < |batches[1..]| ==> batches[0].End() <= batches[1..][k].start
  {
  }

  /** The scan over batch results agrees with reading each register on its own. */
  lemma {:induction false} LookupIsFresh(batches: seq<Batch>, answers: seq<Answer>, r: RegisterDef, n: nat)
    requires Answers(batches, answers) && DisjointSorted(batches) && n < |batches| && WithinBatch(r, batches[n])
    ensures Lookup(ResultsOf(batches, answers), r) == FreshValue(batches, answers, r)
  {
    AnswersTail(batches, answers);
    DisjointTail(batches);
    var rest := ResultsOf(batches[1..], answers[1..]);
    if n == 0 {
      HeadDecodes(batches[0], answers[0], rest, r);
      forall k | 0 <= k < |batches[1..]| ensures !WithinBatch(r, batches[1..][k]) {
        assert batches[0].End() <= batches[1..][k].start;
      }
      LookupMisses(batches[1..], answers[1..], r);
    } else {
      assert batches[1..][n - 1] == batches[n];
      LookupIsFresh(batches[1..], answers[1..], r, n - 1);
      assert !WithinBatch(r, batches[0]);
      HeadMisses(batches[0], answers[0], rest, r);
    }
  }

  /** Every register of the tier is looked up faithfully, whatever the pattern of failed reads. */
  lemma PollLooksUpFresh(poll: Poll, answers: seq<Answer>, r: RegisterDef)
    requires poll.Consistent() && Answers(poll.batches, answers) && r in poll.Regs()
    ensures Lookup(ResultsOf(poll.batches, answers), r) == FreshValue(poll.batches, answers, r)
  {
    TierKeepsPromises(poll.regmap.registers, poll.tier);
    BatchTableShape(poll.Regs(), MAX_WORDS);
    var n := EachRegisterInOneBatch(poll.Regs(), r, MAX_WORDS);
    LookupIsFresh(poll.batches, answers, r, n);
  }

  lemma {:induction false} RegNamedAppend(regs: seq<RegisterDef>, r: RegisterDef, name: string)
    ensures RegNamed(regs + [r], name) ==
            if RegNamed(regs, name).Some? then RegNamed(regs, name) else if r.name == name then Some(r) else None
  {
    if regs == [] {
      assert regs + [r] == [r];
    } else {
      assert (regs + [r])[1..] == regs[1..] + [r];
      RegNamedAppend(regs[1..], r, name);
    }
  }

  lemma {:induction false} RegNamedIn(regs: seq<RegisterDef>, name: string)
    ensures RegNamed(regs, name).Some? ==> RegNamed(regs, name).value in regs && RegNamed(regs, name).value.name == name
    ensures RegNamed(regs, name).None? ==> forall r :: r in regs ==> r.name != name
  {
    if regs != [] {
      assert regs == [regs[0]] + regs[1..];
      RegNamedIn(regs[1..], name);
    }
  }

  // ---- the steps of a poll ------------------------------------------------------------

  /** Re-reads a failed batch one register at a time; None when not a single one could be read. */
  method FallbackSingles(start: int, count: nat, singles: seq<Option<int>>) returns (r: Option<Result>)
    requires |singles| == count
    ensures r == Fallback(start, singles)
    ensures r.Some? ==> |r.value.words| == count
  {
    var words: seq<int>, failed: set<int>, anyOk := [], {}, false;
    for offset := 0 to count
      invariant |words| == offset
      invariant forall o :: 0 <= o < offset ==> words[o] == WordOrZero(singles[o])
      invariant failed == set o | 0 <= o < offset && singles[o].None?
      invariant anyOk <==> !NoneRead(singles[..offset])
    {
      match singles[offset]
      case Some(w) =>
        assert singles[..offset + 1][offset] == singles[offset];
        words, anyOk := words + [w], true;
      case None =>
        if anyOk {
          var o :| 0 <= o < offset && singles[..offset][o].Some?;
          assert singles[..offset + 1][o].Some?;
        }
        words, failed := words + [0], failed + {offset};
    }
    assert singles[..count] == singles;
    if !anyOk { return None; }
    assert words == Fallback(start, singles).value.words;
    return Some(Result(start, words, failed));
  }

  method DecodeFrom(results: seq<Result>, r: RegisterDef) returns (v: Option<Value>)
    ensures v == Lookup(results, r)
  {
    for k := 0 to |results|
      invariant Lookup(results, r) == Lookup(results[k..], r)
    {
      var res := results[k];
      assert results[k..][0] == res && results[k..][1..] == results[k + 1..];
      if Contains(res, r) {
        if TouchesFailed(res, r) { return None; }
        var offset := r.addr - res.start;
        return DecodeValue(r, res.words[offset..offset + r.Words()]);
      }
    }
    return None;
  }

  /** The decode loop: every register of the tier that decodes is stamped now, the rest keep their entry. */
  method Decode(prior: Reading, regs: seq<RegisterDef>, results: seq<Result>, now: real) returns (post: Reading)
    requires KeysMatch(prior) && DistinctNames(regs)
    ensures KeysMatch(post)
    ensures forall name :: EntryOf(post, name) ==
              match RegNamed(regs, name)
              case Some(r) => Renewed(EntryOf(prior, name), Lookup(results, r), now)
              case None => EntryOf(prior, name)
  {
    post := prior;
    for i := 0 to |regs|
      invariant KeysMatch(post)
      invariant forall name :: EntryOf(post, name) ==
                  match RegNamed(regs[..i], name)
                  case Some(r) => Renewed(EntryOf(prior, name), Lookup(results, r), now)
                  case None => EntryOf(prior, name)
    {
      var r := regs[i];
      ghost var was := post;
      var v := DecodeFrom(results, r);
      if v.Some? {
        post := Reading(post.values[r.name := v.value], post.ages[r.name := now]);
      }
      assert regs[..i + 1] == regs[..i] + [r];
      RegNamedIn(regs[..i], r.name);
      forall name ensures EntryOf(post, name) ==
          match RegNamed(regs[..i + 1], name)
          case Some(r) => Renewed(EntryOf(prior, name), Lookup(results, r), now)
          case None => EntryOf(prior, name)
      {
        RegNamedAppend(regs[..i], r, name);
        assert EntryOf(was, name) == EntryOf(post, name) || name == r.name;
      }
    }
    assert regs[..|regs|] == regs;
  }

  /** The eviction loop: registers of the tier whose last decode is too old lose value and age together. */
  method Evict(mid: Reading, regs: seq<RegisterDef>, now: real, threshold: real) returns (post: Reading)
    requires KeysMatch(mid)
    ensures KeysMatch(post)
    ensures forall name :: EntryOf(post, name) ==
              if RegNamed(regs, name).Some? then Evicted(EntryOf(mid, name), now, threshold) else EntryOf(mid, name)
  {
    post := mid;
    for i := 0 to |regs|
      invariant KeysMatch(post)
      invariant forall name :: EntryOf(post, name) ==
                  if RegNamed(regs[..i], name).Some? then Evicted(EntryOf(mid, name), now, threshold)
                  else EntryOf(mid, name)
    {
      var name := regs[i].name;
      ghost var was := post;
      if name in post.ages && now - post.ages[name] >= threshold {
        post := Reading(post.values - {name}, post.ages - {name});
      }
      assert regs[..i + 1] == regs[..i] + [regs[i]];
      forall other ensures EntryOf(post, other) ==
          if RegNamed(regs[..i + 1], other).Some? then Evicted(EntryOf(mid, other), now, threshold)
          else EntryOf(mid, other)
      {
        RegNamedAppend(regs[..i], regs[i], other);
        assert EntryOf(was, other) == EntryOf(post, other) || other == name;
      }
    }
    assert regs[..|regs|] == regs;
  }

  // ---- the poller ------------------------------------------------------------------------

  /** One health sample per batch: a fan-out of many single reads still counts as one. */
  function SamplesOf(batches: seq<Batch>, answers: seq<Answer>): History
    requires |batches| == |answers|
  {
    if batches == [] then []
    else [Sample(ResultOf(batches[0], answers[0]).Some?, answers[0].at)] + SamplesOf(batches[1..], answers[1..])
  }

  /** What batch k adds to the samples and results still to come. */
  lemma NextBatch(batches: seq<Batch>, answers: seq<Answer>, k: nat)
    requires |batches| == |answers| && k < |batches|
    ensures var r := ResultOf(batches[k], answers[k]);
            && SamplesOf(batches[k..], answers[k..]) ==
               [Sample(r.Some?, answers[k].at)] + SamplesOf(batches[k + 1..], answers[k + 1..])
            && ResultsOf(batches[k..], answers[k..]) ==
               (if r.Some? then [r.value] else []) + ResultsOf(batches[k + 1..], answers[k + 1..])
  {
    assert batches[k..][1..] == batches[k + 1..] && answers[k..][1..] == answers[k + 1..];
  }

  predicate AnyBatchOk(batches: seq<Batch>, answers: seq<Answer>)
    requires |batches| == |answers|
  {
    ResultsOf(batches, answers) != []
  }

  predicate IsFresh(r: Reading, name: string, now: real) {
    name in r.ages && r.ages[name] == now
  }

  /** "Engine-state detection is alive": every register the state rules read was decoded in this very poll. */
  predicate StateFresh(r: Reading, rules: seq<BitRule>, anyOk: bool, now: real) {
    if rules == [] then anyOk else forall k :: 0 <= k < |rules| ==> IsFresh(r, rules[k].register, now)
  }

  /** The watchdog heartbeat after a poll that published r. */
  function Heartbeat(before: Option<real>, poll: Poll, r: Reading, anyOk: bool, now: real, later: real): Option<real> {
    if poll.tier == Prime && StateFresh(r, poll.regmap.engineStateBits, anyOk, now) then Some(later) else before
  }

  /** A heartbeat from a map with state rules vouches for every one of their registers, not just for some read. */
  lemma HeartbeatMeansStateDecoded(prior: Reading, post: Reading, poll: Poll, answers: seq<Answer>,
                                   anyOk: bool, now: real, name: string)
    requires KeysMatch(prior) && |poll.batches| == |answers| && RefinesSimple(prior, post, poll, answers, now)
    requires forall n :: n in prior.ages ==> prior.ages[n] < now
    requires poll.regmap.engineStateBits != [] && StateFresh(post, poll.regmap.engineStateBits, anyOk, now)
    requires exists k :: 0 <= k < |poll.regmap.engineStateBits| && poll.regmap.engineStateBits[k].register == name
    ensures RegNamed(poll.Regs(), name).Some?
    ensures FreshValue(poll.batches, answers, RegNamed(poll.Regs(), name).value).Some?
    ensures var r := RegNamed(poll.Regs(), name).value;
            EntryOf(post, name) == Some((FreshValue(poll.batches, answers, r).value, now))
  {
    assert IsFresh(post, name, now);
    assert EntryOf(post, name) == EntryAfter(prior, poll, answers, now, name);
  }

  ghost predicate ClockOrder(h: History, answers: seq<Answer>) {
    && (forall i, j :: 0 <= i < j < |answers| ==> answers[i].at <= answers[j].at)
    && (forall i :: 0 <= i < |answers| ==> NotBefore(h, answers[i].at))
  }

  class Poller {
    const health: CommsTracker
    var regmap: RegisterMap
    var primeBatches: seq<Batch>
    var baseBatches: seq<Batch>
    var reading: Reading

    /** The tables belong to the current map, and every value has an age. */
    ghost predicate Valid()
      reads this, health
    {
      && health.Valid()
      && DistinctNames(regmap.registers) && OwnWords(regmap.registers)
      && Snapshot(Prime).Consistent() && Snapshot(Base).Consistent()
      && KeysMatch(reading)
    }

    function Snapshot(t: Tier): Poll
      reads this
    {
      Poll(t, regmap, if t == Prime then primeBatches else baseBatches)
    }

    constructor (rm: RegisterMap, tracker: CommsTracker)
      requires tracker.Valid() && DistinctNames(rm.registers) && OwnWords(rm.registers)
      ensures Valid() && health == tracker && regmap == rm && reading == Reading(map[], map[])
    {
      health, regmap, reading := tracker, rm, Reading(map[], map[]);
      new;
      ApplyRegmap(rm);
    }

    /** Hot reload: the map and both tables change together, the reading stays. */
    method ApplyRegmap(rm: RegisterMap)
      requires health.Valid() && KeysMatch(reading)
      requires DistinctNames(rm.registers) && OwnWords(rm.registers)
      modifies this`regmap, this`primeBatches, this`baseBatches
      ensures Valid() && regmap == rm
    {
      TierKeepsPromises(rm.registers, Prime);
      TierKeepsPromises(rm.registers, Base);
      var newPrime := BatchReads(TierRegs(rm.registers, Prime), MAX_WORDS);
      var newBase := BatchReads(TierRegs(rm.registers, Base), MAX_WORDS);
      regmap, primeBatches, baseBatches := rm, newPrime, newBase;
    }

    /** One batch with its fall-back: the words it brought, and exactly one health sample. */
    method ReadBatch(b: Batch, a: Answer) returns (r: Option<Result>)
      requires WellFormed(a, b.count)
      requires health.Valid() && NotBefore(health.history, a.at)
      modifies health
      ensures health.Valid() && health.lastPrimeGood == old(health.lastPrimeGood)
      ensures r == ResultOf(b, a)
      ensures health.history == old(health.history) + [Sample(r.Some?, a.at)]
    {
      if a.batch.Some? {
        health.Record(true, a.at);
        return Some(Result(b.start, a.batch.value, {}));
      }
      r := FallbackSingles(b.start, |a.singles|, a.singles);
      health.Record(r.Some?, a.at);
    }

    /**
     * The rest of a poll, after its last read: decode, evict, publish, stamp the heartbeat.
     * It merges into the reading as it is now, not as it was when the poll began.
     */
    method FinishPoll(poll: Poll, results: seq<Result>, anyOk: bool, now: real, later: real, ghost answers: seq<Answer>)
      requires health.Valid() && KeysMatch(reading)
      requires poll.Consistent() && Answers(poll.batches, answers)
      requires results == ResultsOf(poll.batches, answers) && anyOk == (results != [])
      modifies this`reading, health`lastPrimeGood
      ensures health.Valid()
      ensures RefinesSimple(old(reading), reading, poll, answers, now)
      ensures health.lastPrimeGood == Heartbeat(old(health.lastPrimeGood), poll, reading, anyOk, now, later)
    {
      Publish(poll, results, now, answers);
      if poll.tier == Prime {
        var stateFresh := AllFresh(poll.regmap.engineStateBits, anyOk, now);
        if stateFresh { health.StampPrime(later); }
      }
    }

    /** Has every register of the rules been decoded at now?  Without rules, was any batch read? */
    method AllFresh(rules: seq<BitRule>, anyOk: bool, now: real) returns (stateFresh: bool)
      ensures stateFresh == StateFresh(reading, rules, anyOk, now)
    {
      if rules == [] { return anyOk; }
      stateFresh := true;
      for k := 0 to |rules|
        invariant stateFresh <==> forall m :: 0 <= m < k ==> IsFresh(reading, rules[m].register, now)
      {
        stateFresh := stateFresh && IsFresh(reading, rules[k].register, now);
      }
    }

    /** Decode, evict and publish. */
    method Publish(poll: Poll, results: seq<Result>, now: real, ghost answers: seq<Answer>)
      requires KeysMatch(reading) && poll.Consistent() && Answers(poll.batches, answers)
      requires results == ResultsOf(poll.batches, answers)
      modifies this`reading
      ensures RefinesSimple(old(reading), reading, poll, answers, now)
    {
      var regs := TierRegs(poll.regmap.registers, poll.tier);
      TierKeepsPromises(poll.regmap.registers, poll.tier);
      var mid := Decode(reading, regs, results, now);
      var post := Evict(mid, regs, now, poll.regmap.PollMs(poll.tier) as real / 1000.0 * STALE_MULTIPLIER);
      forall name ensures EntryOf(post, name) == EntryAfter(reading, poll, answers, now, name) {
        RegNamedIn(regs, name);
        match RegNamed(regs, name)
        case Some(r) => PollLooksUpFresh(poll, answers, r);
        case None =>
      }
      reading := post;
    }

    /** The read loop of a poll, when no other poll records samples in between. */
    method ReadBatches(batches: seq<Batch>, answers: seq<Answer>) returns (results: seq<Result>)
      requires health.Valid() && Answers(batches, answers) && ClockOrder(health.history, answers)
      modifies health
      ensures health.Valid() && health.lastPrimeGood == old(health.lastPrimeGood)
      ensures health.history == old(health.history) + SamplesOf(batches, answers)
      ensures results == ResultsOf(batches, answers)
    {
      results := [];
      for k := 0 to |batches|
        invariant health.Valid() && health.lastPrimeGood == old(health.lastPrimeGood)
        invariant health.history + SamplesOf(batches[k..], answers[k..]) ==
                  old(health.history) + SamplesOf(batches, answers)
        invariant forall i :: k <= i < |answers| ==> NotBefore(health.history, answers[i].at)
        invariant results + ResultsOf(batches[k..], answers[k..]) == ResultsOf(batches, answers)
      {
        NextBatch(batches, answers, k);
        var r := ReadBatch(batches[k], answers[k]);
        if r.Some? { results := results + [r.value]; }
      }
    }

    /**
     * A whole poll of one tier, when no other poll runs between its reads.  A tier without registers
     * does nothing at all; otherwise the reading refines the simple per-register specification.
     */
    method PollTier(t: Tier, answers: seq<Answer>, now: real, later: real)
      requires Valid() && t != OtherTier
      requires Answers(Snapshot(t).batches, answers) && ClockOrder(health.history, answers)
      modifies this`reading, health
      ensures Valid()
      ensures health.history == old(health.history) + SamplesOf(Snapshot(t).batches, answers)
      ensures Snapshot(t).batches == [] ==> reading == old(reading) && health.lastPrimeGood == old(health.lastPrimeGood)
      ensures Snapshot(t).batches != [] ==> RefinesSimple(old(reading), reading, Snapshot(t), answers, now)
      ensures Snapshot(t).batches != [] ==>
              health.lastPrimeGood == Heartbeat(old(health.lastPrimeGood), Snapshot(t), reading,
                                                AnyBatchOk(Snapshot(t).batches, answers), now, later)
    {
      var poll := Snapshot(t);
      if poll.batches == [] { return; }
      var results := ReadBatches(poll.batches, answers);
      FinishPoll(poll, results, results != [], now, later, answers);
    }
  }
}
