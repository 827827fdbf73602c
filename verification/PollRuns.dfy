/**
 * Two poll loops and hot reloads interleaved: each poll takes its snapshot, awaits its reads while
 * anything else may happen, then commits in one step (backend/genwatch/modbus/poller.py).
 */
module PollRuns {
  import opened Prelude
  import opened Registers
  import opened Batching
  import opened Polling

  /** One finished poll. */
  datatype Commit = Commit(poll: Poll, answers: seq<Answer>, now: real) {
    ghost predicate Valid() {
      poll.Consistent() && Answers(poll.batches, answers) && poll.batches != []
    }
  }

  // ---- the reading as a function of the commits alone ---------------------------------------

  /** The registers' fate under one commit, as a reading: what FinishPoll publishes. */
  function Committed(prior: Reading, c: Commit): (post: Reading)
    requires KeysMatch(prior) && |c.poll.batches| == |c.answers|
    ensures RefinesSimple(prior, post, c.poll, c.answers, c.now)
  {
    var names := prior.values.Keys + Names(c.poll.Regs());
    var post := Reading(
      map n | n in names && EntryAfter(prior, c.poll, c.answers, c.now, n).Some?
        :: EntryAfter(prior, c.poll, c.answers, c.now, n).value.0,
      map n | n in names && EntryAfter(prior, c.poll, c.answers, c.now, n).Some?
        :: EntryAfter(prior, c.poll, c.answers, c.now, n).value.1);
    assert forall n :: EntryOf(post, n) == EntryAfter(prior, c.poll, c.answers, c.now, n) by {
      forall n ensures EntryOf(post, n) == EntryAfter(prior, c.poll, c.answers, c.now, n) {
        RegNamedIn(c.poll.Regs(), n);
      }
    }
    post
  }

  lemma SameEntries(a: Reading, b: Reading)
    requires KeysMatch(a) && KeysMatch(b)
    requires forall n :: EntryOf(a, n) == EntryOf(b, n)
    ensures a == b
  {
    forall n ensures n in a.values <==> n in b.values
      ensures n in a.values && n in b.values ==> a.values[n] == b.values[n] && a.ages[n] == b.ages[n]
    {
      assert EntryOf(a, n) == EntryOf(b, n);
    }
    assert a.values.Keys == b.values.Keys && a.ages.Keys == b.ages.Keys;
    assert a.values == b.values && a.ages == b.ages;
  }

  /** The specification leaves no freedom: it determines the published reading. */
  lemma SpecDetermines(prior: Reading, post: Reading, c: Commit)
    requires KeysMatch(prior) && |c.poll.batches| == |c.answers|
    requires RefinesSimple(prior, post, c.poll, c.answers, c.now)
    ensures post == Committed(prior, c)
  {
    var spec := Committed(prior, c);
    forall n ensures EntryOf(post, n) == EntryOf(spec, n) {
      assert EntryOf(post, n) == EntryAfter(prior, c.poll, c.answers, c.now, n);
    }
    SameEntries(post, spec);
  }

  // ---- interleavings ---------------------------------------------------------------------------

  datatype Event =
    | Reload(rm: RegisterMap)
    | Begin(tier: Tier)
    | Finish(tier: Tier, answers: seq<Answer>, now: real)

  /** The poller's fields, the polls awaiting their reads, and the commits so far. */
  datatype State = State(
    regmap: RegisterMap,
    primeBatches: seq<Batch>,
    baseBatches: seq<Batch>,
    reading: Reading,
    inFlight: map<Tier, Poll>,
    commits: seq<Commit>)
  {
    function Snapshot(t: Tier): Poll {
      Poll(t, regmap, if t == Prime then primeBatches else baseBatches)
    }
  }

  predicate Usable(rm: RegisterMap) {
    DistinctNames(rm.registers) && OwnWords(rm.registers)
  }

  /** Events that can happen: validated maps, the two tiers, reads of the right length for the poll in flight. */
  predicate Enabled(s: State, e: Event) {
    match e
    case Reload(rm) => Usable(rm)
    case Begin(t) => t != OtherTier && t !in s.inFlight
    case Finish(t, answers, _) => t in s.inFlight && Answers(s.inFlight[t].batches, answers)
  }

  function Start(rm: RegisterMap): State {
    State(rm, BatchTable(TierRegs(rm.registers, Prime)), BatchTable(TierRegs(rm.registers, Base)),
          Reading(map[], map[]), map[], [])
  }

  function Step(s: State, e: Event): State
    requires Enabled(s, e) && KeysMatch(s.reading)
  {
    match e
    case Reload(rm) =>
      s.(regmap := rm,
         primeBatches := BatchTable(TierRegs(rm.registers, Prime)),
         baseBatches := BatchTable(TierRegs(rm.registers, Base)))
    case Begin(t) =>
      if s.Snapshot(t).batches == [] then s else s.(inFlight := s.inFlight[t := s.Snapshot(t)])
    case Finish(t, answers, now) =>
      var c := Commit(s.inFlight[t], answers, now);
      s.(reading := Committed(s.reading, c), inFlight := s.inFlight - {t}, commits := s.commits + [c])
  }

  ghost predicate Inv(s: State) {
    && Usable(s.regmap)
    && s.Snapshot(Prime).Consistent() && s.Snapshot(Base).Consistent()
    && KeysMatch(s.reading)
    && (forall t :: t in s.inFlight ==>
          s.inFlight[t].tier == t && t != OtherTier && s.inFlight[t].Consistent() && s.inFlight[t].batches != [])
    && AllValid(s.commits)
    && (forall name :: EntryOf(s.reading, name) == Follow(MarksOf(s.commits, name)))
  }

  /** States some interleaving reaches from a start on a usable map. */
  ghost predicate Reached(rm: RegisterMap, events: seq<Event>, s: State)
    requires Usable(rm)
    decreases |events|
  {
    if events == [] then s == Start(rm)
    else exists before: State ::
        && Reached(rm, events[..|events| - 1], before)
        && KeysMatch(before.reading)
        && Enabled(before, events[|events| - 1])
        && s == Step(before, events[|events| - 1])
  }

  // ---- what a reading is, told by the commits --------------------------------------------------

  /** What one commit means for one name: whether its tier has it, and what it decoded for it. */
  datatype Mark = Mark(listed: bool, decoded: Option<Value>, now: real, threshold: real) {
    /** A commit of the name's tier that finds its value three periods old. */
    predicate Drops(decodedAt: real) {
      listed && now - decodedAt >= threshold
    }
  }

  /** decoded is Some only when the commit had read all the words at the register's own addresses. */
  function MarkOf(c: Commit, name: string): Mark {
    match RegNamed(c.poll.Regs(), name)
    case Some(r) => Mark(true, DecodedBy(c, r), c.now, c.poll.Threshold())
    case None => Mark(false, None, c.now, c.poll.Threshold())
  }

  /** A poll has one answer per batch; with anything else it would decode nothing. */
  function DecodedBy(c: Commit, r: RegisterDef): Option<Value> {
    if |c.poll.batches| == |c.answers| then FreshValue(c.poll.batches, c.answers, r) else None
  }

  ghost predicate AllValid(commits: seq<Commit>) {
    forall k :: 0 <= k < |commits| ==> commits[k].Valid()
  }

  function MarksOf(commits: seq<Commit>, name: string): (marks: seq<Mark>)
    ensures |marks| == |commits|
  {
    seq(|commits|, k requires 0 <= k < |commits| => MarkOf(commits[k], name))
  }

  /** One name followed through the commits. */
  function Follow(marks: seq<Mark>): Entry {
    if marks == [] then None
    else
      var before, m := Follow(marks[..|marks| - 1]), marks[|marks| - 1];
      if m.listed then Evicted(Renewed(before, m.decoded, m.now), m.now, m.threshold) else before
  }

  predicate WellMarked(marks: seq<Mark>) {
    forall k :: 0 <= k < |marks| && marks[k].decoded.Some? ==> marks[k].listed
  }

  /** Commit k decoded the name, no later commit did, and none since has found it too old. */
  predicate Survives(marks: seq<Mark>, k: int) {
    && 0 <= k < |marks|
    && marks[k].decoded.Some?
    && (forall j :: k < j < |marks| ==> marks[j].decoded.None?)
    && (forall j :: k <= j < |marks| ==> !marks[j].Drops(marks[k].now))
  }

  lemma {:induction false} SurvivorIsEntry(marks: seq<Mark>, k: int)
    requires WellMarked(marks) && Survives(marks, k)
    ensures Follow(marks) == Some((marks[k].decoded.value, marks[k].now))
  {
    var front, last := marks[..|marks| - 1], marks[|marks| - 1];
    assert !last.Drops(marks[k].now);
    if k < |front| {
      assert Survives(front, k);
      SurvivorIsEntry(front, k);
    }
  }

  lemma {:induction false} EntrySurvives(marks: seq<Mark>) returns (k: int)
    requires WellMarked(marks) && Follow(marks).Some?
    ensures Survives(marks, k)
  {
    var front, last := marks[..|marks| - 1], marks[|marks| - 1];
    if last.decoded.Some? {
      k := |front|;
    } else {
      k := EntrySurvives(front);
      SurvivorIsEntry(front, k);
      forall j | k <= j < |marks| ensures !marks[j].Drops(marks[k].now) {
        if j < |front| { assert !front[j].Drops(front[k].now); }
      }
    }
  }

  /** From one commit to the next the surviving decode stays exactly when the commit decodes nothing. */
  lemma SurvivorMovesIff(before: seq<Mark>, m: Mark, j: int, k: int)
    requires Survives(before, j) && Survives(before + [m], k)
    ensures j <= k && (j == k <==> m.decoded.None?)
  {
    var after := before + [m];
    assert after[|before|] == m && after[j] == before[j];
    if k < |before| {
      assert after[k] == before[k];
    }
  }

  /**
   * Over every interleaving: a register has a value exactly when some poll decoded it from words it
   * had read at the register's own addresses, no later poll decoded it anew, and no poll of its tier
   * since found it three periods old; value and age are those of that decode.
   */
  lemma ReadingIsLatestSurvivingDecode(s: State, name: string, value: Value, at: real)
    requires Inv(s)
    ensures EntryOf(s.reading, name) == Some((value, at)) <==>
            exists k :: Survives(MarksOf(s.commits, name), k)
                     && MarkOf(s.commits[k], name).decoded == Some(value) && s.commits[k].now == at
  {
    var marks := MarksOf(s.commits, name);
    assert WellMarked(marks);
    assert EntryOf(s.reading, name) == Follow(marks);
    if Follow(marks) == Some((value, at)) {
      var k := EntrySurvives(marks);
      SurvivorIsEntry(marks, k);
      assert marks[k] == MarkOf(s.commits[k], name);
    }
    if k :| Survives(marks, k) && MarkOf(s.commits[k], name).decoded == Some(value) && s.commits[k].now == at {
      SurvivorIsEntry(marks, k);
      assert marks[k] == MarkOf(s.commits[k], name);
    }
  }

  lemma MarksAppend(commits: seq<Commit>, c: Commit, name: string)
    ensures MarksOf(commits + [c], name) == MarksOf(commits, name) + [MarkOf(c, name)]
    ensures var marks := MarksOf(commits + [c], name); marks[..|marks| - 1] == MarksOf(commits, name)
  {
  }

  lemma StartInv(rm: RegisterMap)
    requires Usable(rm)
    ensures Inv(Start(rm))
  {
  }

  lemma FinishFollows(reading: Reading, commits: seq<Commit>, c: Commit, name: string)
    requires KeysMatch(reading) && AllValid(commits) && c.Valid()
    requires EntryOf(reading, name) == Follow(MarksOf(commits, name))
    ensures EntryOf(Committed(reading, c), name) == Follow(MarksOf(commits + [c], name))
  {
    assert EntryOf(Committed(reading, c), name) == EntryAfter(reading, c.poll, c.answers, c.now, name);
    MarksAppend(commits, c, name);
  }

  lemma StepInv(s: State, e: Event)
    requires Inv(s) && Enabled(s, e)
    ensures Inv(Step(s, e))
  {
    if e.Finish? { FinishInv(s, e.tier, e.answers, e.now); }
  }

  lemma FinishInv(s: State, t: Tier, answers: seq<Answer>, now: real)
    requires Inv(s) && Enabled(s, Finish(t, answers, now))
    ensures Inv(Step(s, Finish(t, answers, now)))
  {
    var c := Commit(s.inFlight[t], answers, now);
    assert c.Valid();
    forall name ensures EntryOf(Committed(s.reading, c), name) == Follow(MarksOf(s.commits + [c], name)) {
      FinishFollows(s.reading, s.commits, c, name);
    }
  }

  /** Tables of the current map, matching keys and decode provenance, in every reachable state. */
  lemma {:induction false} EveryRun(rm: RegisterMap, events: seq<Event>, s: State)
    requires Usable(rm) && Reached(rm, events, s)
    ensures Inv(s)
    decreases |events|
  {
    if events == [] {
      StartInv(rm);
    } else {
      var front := events[..|events| - 1];
      var before :| Reached(rm, front, before) && KeysMatch(before.reading)
                 && Enabled(before, events[|events| - 1]) && s == Step(before, events[|events| - 1]);
      EveryRun(rm, front, before);
      StepInv(before, events[|events| - 1]);
    }
  }

  /** A commit touches only its own tier, and leaves none of its registers three periods old. */
  lemma CommitIsLocalAndFresh(s: State, t: Tier, answers: seq<Answer>, now: real, name: string)
    requires Inv(s) && Enabled(s, Finish(t, answers, now))
    ensures var poll, post := s.inFlight[t], Step(s, Finish(t, answers, now)).reading;
            if RegNamed(poll.Regs(), name).Some?
            then name in post.values ==> now - post.ages[name] < poll.Threshold()
            else EntryOf(post, name) == EntryOf(s.reading, name)
  {
    var c := Commit(s.inFlight[t], answers, now);
    assert EntryOf(Committed(s.reading, c), name) == EntryAfter(s.reading, c.poll, answers, now, name);
  }

  /** With one map, polls of the two tiers never lose each other's decodes. */
  lemma TiersDoNotCollide(s: State, answers: seq<Answer>, now: real, t: Tier, r: RegisterDef)
    requires Inv(s) && Enabled(s, Finish(t, answers, now)) && s.inFlight[t].regmap == s.regmap
    requires r in s.regmap.registers && r.tier != t
    ensures EntryOf(Step(s, Finish(t, answers, now)).reading, r.name) == EntryOf(s.reading, r.name)
  {
    CommitIsLocalAndFresh(s, t, answers, now, r.name);
    RegNamedIn(s.inFlight[t].Regs(), r.name);
  }
}
