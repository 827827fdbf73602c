/** The Slack notifier: dedupe, bounded queue, one worker, retry timers (backend/genwatch/services/slack.py). */
module Slack {
  import opened Prelude

  const MAX_QUEUE: nat := 200
  const MAX_ATTEMPTS: nat := 4
  const MAX_AGE_S := 300.0
  const DEDUPE_WINDOW_S := 60.0
  const PRUNE_ABOVE: nat := 256

  /** Alarm code and direction ("raised" / "cleared"). */
  datatype Key = Key(code: string, kind: string)

  /** id is the identity of the message object. */
  datatype Message = Message(id: nat, enqueuedAt: real, attempt: nat)

  datatype Outcome = Accepted | Rejected | TransportFailed

  datatype Event =
    | Alarm(key: Key, wanted: bool, enabled: bool, now: real) // alert_alarm / alert_alarm_cleared
    | Other(enabled: bool, now: real)                         // alerts that are not deduplicated
    | Take                                                    // the worker picks up a message
    | Sent(outcome: Outcome, now: real)                       // its send returns
    | Retry(id: nat)                                          // a retry timer fires

  /** One entry of the full log of deduplicated alerts that were let through. */
  datatype Admission = Admission(key: Key, at: real)

  datatype State = State(
    queue: seq<Message>,
    recent: map<Key, real>,
    inFlight: Option<Message>,
    waiting: map<nat, Message>,
    // bookkeeping of the whole run
    nextId: nat,
    delivered: set<nat>,
    dropped: set<nat>,
    sends: map<nat, nat>,
    admitted: seq<Admission>,
    clock: real)

  const INITIAL := State([], map[], None, map[], 0, {}, {}, map[], [], 0.0)

  // ---- dedupe ---------------------------------------------------------------------

  /** Housekeeping: entries ten windows old are forgotten once the table grows. */
  function Housekeep(recent: map<Key, real>, now: real): map<Key, real> {
    if |recent| > PRUNE_ABOVE then map k | k in recent && recent[k] > now - DEDUPE_WINDOW_S * 10.0 :: recent[k]
    else recent
  }

  predicate Skips(recent: map<Key, real>, key: Key, now: real) {
    key in recent && now - recent[key] < DEDUPE_WINDOW_S
  }

  /** Some admission of the key in the full log lies inside the window. */
  predicate AdmittedWithin(log: seq<Admission>, key: Key, now: real) {
    exists i :: 0 <= i < |log| && log[i].key == key && now - log[i].at < DEDUPE_WINDOW_S
  }

  /** Any two admissions of one key are at least a window apart. */
  predicate Spaced(log: seq<Admission>) {
    forall i, j :: 0 <= i < j < |log| && log[i].key == log[j].key ==> log[j].at - log[i].at >= DEDUPE_WINDOW_S
  }

  /** The bounded table remembers every admission that can still matter. */
  predicate Remembers(recent: map<Key, real>, log: seq<Admission>, clock: real) {
    && (forall i :: 0 <= i < |log| ==> log[i].at <= clock)
    && (forall i :: 0 <= i < |log| ==>
          if log[i].key in recent then log[i].at <= recent[log[i].key]
          else log[i].at <= clock - DEDUPE_WINDOW_S * 10.0)
    && (forall k :: k in recent ==> exists i :: 0 <= i < |log| && log[i] == Admission(k, recent[k]))
  }

  /** Pruned or not, the table decides as the full log of admissions does. */
  lemma DedupeMatchesLog(recent: map<Key, real>, log: seq<Admission>, clock: real, key: Key, now: real)
    requires Remembers(recent, log, clock) && clock <= now
    ensures Remembers(Housekeep(recent, now), log, now)
    ensures Skips(Housekeep(recent, now), key, now) <==> AdmittedWithin(log, key, now)
    ensures Skips(recent, key, now) <==> AdmittedWithin(log, key, now)
  {
    if Skips(recent, key, now) {
      var i :| 0 <= i < |log| && log[i] == Admission(key, recent[key]);
      assert AdmittedWithin(log, key, now);
    }
  }

  lemma AdmissionRemembered(recent: map<Key, real>, log: seq<Admission>, clock: real, key: Key)
    requires Remembers(recent, log, clock) && Spaced(log) && !AdmittedWithin(log, key, clock)
    ensures Remembers(recent[key := clock], log + [Admission(key, clock)], clock)
    ensures Spaced(log + [Admission(key, clock)])
  {
    var longer, r := log + [Admission(key, clock)], recent[key := clock];
    forall k | k in r ensures exists i :: 0 <= i < |longer| && longer[i] == Admission(k, r[k]) {
      if k == key {
        assert longer[|log|] == Admission(k, r[k]);
      } else {
        var i :| 0 <= i < |log| && log[i] == Admission(k, recent[k]);
        assert longer[i] == Admission(k, r[k]);
      }
    }
  }

  // ---- the transition function ---------------------------------------------------

  /** put_nowait, evicting the oldest message when the queue is full. */
  function Enqueue(s: State, now: real): State {
    var m := Message(s.nextId, now, 0);
    var full := |s.queue| >= MAX_QUEUE;
    s.(queue := (if full then s.queue[1..] else s.queue) + [m],
       dropped := if full then s.dropped + {s.queue[0].id} else s.dropped,
       nextId := s.nextId + 1,
       sends := s.sends[s.nextId := 0],
       clock := now)
  }

  function Finish(s: State, now: real): State
    requires s.inFlight.Some?
  {
    s.(inFlight := None, dropped := s.dropped + {s.inFlight.value.id}, clock := now)
  }

  function Step(s: State, e: Event): State {
    match e
    case Alarm(key, wanted, enabled, now) =>
      if !wanted then s.(clock := now)
      else
        var recent := Housekeep(s.recent, now);
        if Skips(recent, key, now) then s.(recent := recent, clock := now)
        else
          var t := s.(recent := recent[key := now], admitted := s.admitted + [Admission(key, now)], clock := now);
          if enabled then Enqueue(t, now) else t
    case Other(enabled, now) => if enabled then Enqueue(s, now) else s.(clock := now)
    case Take =>
      if s.inFlight.Some? || s.queue == [] then s
      else
        var m := s.queue[0];
        s.(queue := s.queue[1..], inFlight := Some(m),
           sends := if m.id in s.sends then s.sends[m.id := s.sends[m.id] + 1] else s.sends)
    case Sent(outcome, now) =>
      if s.inFlight.None? then s.(clock := now)
      else
        var m := s.inFlight.value;
        var again := m.(attempt := m.attempt + 1);
        if outcome == Accepted then s.(inFlight := None, delivered := s.delivered + {m.id}, clock := now)
        else if outcome == Rejected || again.attempt >= MAX_ATTEMPTS then Finish(s, now)
        else if m.enqueuedAt != 0.0 && now - m.enqueuedAt > MAX_AGE_S then Finish(s, now)
        else s.(inFlight := None, waiting := s.waiting[m.id := again], clock := now)
    case Retry(id) =>
      if id !in s.waiting then s
      else if |s.queue| >= MAX_QUEUE then s.(waiting := s.waiting - {id}, dropped := s.dropped + {id})
      else s.(waiting := s.waiting - {id}, queue := s.queue + [s.waiting[id]])
  }

  /** Wall-clock readings do not run backwards. */
  predicate Legal(s: State, e: Event) {
    match e
    case Alarm(_, _, _, now) => s.clock <= now
    case Other(_, now) => s.clock <= now
    case Sent(_, now) => s.clock <= now
    case _ => true
  }

  // ---- invariants -------------------------------------------------------------------

  function Queued(q: seq<Message>): set<nat> {
    set i | 0 <= i < |q| :: q[i].id
  }

  function Flying(f: Option<Message>): set<nat> {
    if f.Some? then {f.value.id} else {}
  }

  function OneIf(b: bool): nat {
    if b then 1 else 0
  }

  /** In how many of the five places a message id is found. */
  function Places(q: set<nat>, f: set<nat>, w: set<nat>, d: set<nat>, x: set<nat>, id: nat): nat {
    OneIf(id in q) + OneIf(id in f) + OneIf(id in w) + OneIf(id in d) + OneIf(id in x)
  }

  /** Each id below n is in exactly one place, any other in none. */
  ghost predicate Split(q: set<nat>, f: set<nat>, w: set<nat>, d: set<nat>, x: set<nat>, n: nat) {
    forall id: nat :: Places(q, f, w, d, x, id) == OneIf(id < n)
  }

  predicate DistinctIds(q: seq<Message>) {
    forall i, j :: 0 <= i < j < |q| ==> q[i].id != q[j].id
  }

  /** Messages are in exactly one place: queued, in flight, waiting, delivered or dropped. */
  ghost predicate Partitioned(s: State) {
    && DistinctIds(s.queue)
    && (forall id :: id in s.waiting ==> s.waiting[id].id == id)
    && Split(Queued(s.queue), Flying(s.inFlight), s.waiting.Keys, s.delivered, s.dropped, s.nextId)
  }

  predicate SentTimes(s: State, id: nat, n: nat) {
    id in s.sends && s.sends[id] == n
  }

  /** The attempt counter of a message counts its failed sends. */
  ghost predicate Counted(s: State) {
    && (forall id :: id in s.sends <==> 0 <= id < s.nextId)
    && (forall id :: id in s.sends ==> s.sends[id] <= MAX_ATTEMPTS)
    && (forall i :: 0 <= i < |s.queue| ==>
          s.queue[i].attempt < MAX_ATTEMPTS && SentTimes(s, s.queue[i].id, s.queue[i].attempt))
    && (forall id :: id in s.waiting ==>
          s.waiting[id].attempt < MAX_ATTEMPTS && SentTimes(s, id, s.waiting[id].attempt))
    && (s.inFlight.Some? ==> s.inFlight.value.attempt < MAX_ATTEMPTS
                             && SentTimes(s, s.inFlight.value.id, s.inFlight.value.attempt + 1))
  }

  ghost predicate Inv(s: State) {
    && |s.queue| <= MAX_QUEUE
    && Partitioned(s)
    && Counted(s)
    && Remembers(s.recent, s.admitted, s.clock)
    && Spaced(s.admitted)
  }

  lemma QueuedTail(q: seq<Message>)
    requires q != [] && DistinctIds(q)
    ensures Queued(q[1..]) == Queued(q) - {q[0].id} && DistinctIds(q[1..])
    ensures q[0].id in Queued(q)
  {
    assert forall i :: 0 <= i < |q| - 1 ==> q[1..][i] == q[i + 1];
    forall id | id in Queued(q) - {q[0].id} ensures id in Queued(q[1..]) {
      var i :| 0 <= i < |q| && q[i].id == id;
      assert q[1..][i - 1].id == id;
    }
  }

  lemma QueuedAppend(q: seq<Message>, m: Message)
    requires DistinctIds(q) && m.id !in Queued(q)
    ensures Queued(q + [m]) == Queued(q) + {m.id} && DistinctIds(q + [m])
  {
    assert (q + [m])[|q|] == m;
    assert forall i :: 0 <= i < |q| ==> (q + [m])[i] == q[i];
  }

  lemma SplitMoves(q: set<nat>, f: set<nat>, w: set<nat>, d: set<nat>, x: set<nat>, n: nat, id: nat)
    requires Split(q, f, w, d, x, n)
    ensures Split(q + {n}, f, w, d, x, n + 1)
    ensures id in q ==> Split(q - {id}, f, w, d, x + {id}, n)
    ensures id in q && f == {} ==> Split(q - {id}, {id}, w, d, x, n)
    ensures f == {id} ==> Split(q, {}, w, d + {id}, x, n) && Split(q, {}, w, d, x + {id}, n)
    ensures f == {id} ==> Split(q, {}, w + {id}, d, x, n)
    ensures id in w ==> Split(q + {id}, f, w - {id}, d, x, n) && Split(q, f, w - {id}, d, x + {id}, n)
  {
    assert Places(q, f, w, d, x, id) == OneIf(id < n) && Places(q, f, w, d, x, n) == 0;
    forall k: nat
      ensures Places(q + {n}, f, w, d, x, k) == OneIf(k < n + 1)
      ensures id in q ==> Places(q - {id}, f, w, d, x + {id}, k) == OneIf(k < n)
      ensures id in q && f == {} ==> Places(q - {id}, {id}, w, d, x, k) == OneIf(k < n)
      ensures f == {id} ==> Places(q, {}, w, d + {id}, x, k) == OneIf(k < n)
      ensures f == {id} ==> Places(q, {}, w, d, x + {id}, k) == OneIf(k < n)
      ensures f == {id} ==> Places(q, {}, w + {id}, d, x, k) == OneIf(k < n)
      ensures id in w ==> Places(q + {id}, f, w - {id}, d, x, k) == OneIf(k < n)
      ensures id in w ==> Places(q, f, w - {id}, d, x + {id}, k) == OneIf(k < n)
    {
      assert Places(q, f, w, d, x, k) == OneIf(k < n);
    }
  }

  lemma SplitApart(q: set<nat>, f: set<nat>, w: set<nat>, d: set<nat>, x: set<nat>, n: nat, id: nat)
    requires Split(q, f, w, d, x, n)
    ensures id in q ==> id !in f && id !in w && id < n
    ensures id in f ==> id !in q && id !in w && id < n
    ensures id in w ==> id !in q && id !in f && id < n
  {
    assert Places(q, f, w, d, x, id) == OneIf(id < n);
  }

  /** The sets of a state, for the two lemmas above. */
  lemma Apart(s: State, id: nat)
    requires Partitioned(s)
    ensures id in Queued(s.queue) ==> id !in Flying(s.inFlight) && id !in s.waiting && id < s.nextId
    ensures id in Flying(s.inFlight) ==> id !in Queued(s.queue) && id !in s.waiting && id < s.nextId
    ensures id in s.waiting ==> id !in Queued(s.queue) && id !in Flying(s.inFlight) && id < s.nextId
  {
    SplitApart(Queued(s.queue), Flying(s.inFlight), s.waiting.Keys, s.delivered, s.dropped, s.nextId, id);
  }

  lemma Moves(s: State, id: nat)
    requires Partitioned(s)
    ensures var q, f, w := Queued(s.queue), Flying(s.inFlight), s.waiting.Keys;
            var d, x, n := s.delivered, s.dropped, s.nextId;
            && Split(q + {n}, f, w, d, x, n + 1)
            && (id in q ==> Split(q - {id}, f, w, d, x + {id}, n))
            && (id in q && f == {} ==> Split(q - {id}, {id}, w, d, x, n))
            && (f == {id} ==> Split(q, {}, w, d + {id}, x, n) && Split(q, {}, w, d, x + {id}, n))
            && (f == {id} ==> Split(q, {}, w + {id}, d, x, n))
            && (id in w ==> Split(q + {id}, f, w - {id}, d, x, n) && Split(q, f, w - {id}, d, x + {id}, n))
  {
    SplitMoves(Queued(s.queue), Flying(s.inFlight), s.waiting.Keys, s.delivered, s.dropped, s.nextId, id);
  }

  lemma AppendPartition(s: State, now: real)
    requires Partitioned(s) && |s.queue| < MAX_QUEUE
    ensures Partitioned(Enqueue(s, now))
  {
    Moves(s, 0);
    Apart(s, s.nextId);
    QueuedAppend(s.queue, Message(s.nextId, now, 0));
  }

  lemma EvictPartition(s: State)
    requires Partitioned(s) && s.queue != []
    ensures Partitioned(s.(queue := s.queue[1..], dropped := s.dropped + {s.queue[0].id}))
  {
    QueuedTail(s.queue);
    Moves(s, s.queue[0].id);
  }

  lemma EnqueuePartition(s: State, now: real)
    requires Partitioned(s) && |s.queue| <= MAX_QUEUE
    ensures Partitioned(Enqueue(s, now))
  {
    if |s.queue| < MAX_QUEUE {
      AppendPartition(s, now);
    } else {
      EvictPartition(s);
      var t := s.(queue := s.queue[1..], dropped := s.dropped + {s.queue[0].id});
      AppendPartition(t, now);
      assert Enqueue(t, now) == Enqueue(s, now);
    }
  }

  lemma TakePartition(s: State)
    requires Partitioned(s)
    ensures Partitioned(Step(s, Take))
  {
    if s.inFlight.None? && s.queue != [] {
      QueuedTail(s.queue);
      Moves(s, s.queue[0].id);
    }
  }

  lemma SentPartition(s: State, outcome: Outcome, now: real)
    requires Partitioned(s)
    ensures Partitioned(Step(s, Sent(outcome, now)))
  {
    if s.inFlight.Some? {
      var id := s.inFlight.value.id;
      Moves(s, id);
      Apart(s, id);
      var t := Step(s, Sent(outcome, now));
      assert Flying(s.inFlight) == {id} && Flying(t.inFlight) == {};
      if t.waiting != s.waiting { assert t.waiting.Keys == s.waiting.Keys + {id}; }
    }
  }

  lemma RetryPartition(s: State, id: nat)
    requires Partitioned(s)
    ensures Partitioned(Step(s, Retry(id)))
  {
    if id in s.waiting {
      Moves(s, id);
      Apart(s, id);
      assert (s.waiting - {id}).Keys == s.waiting.Keys - {id};
      if |s.queue| < MAX_QUEUE { QueuedAppend(s.queue, s.waiting[id]); }
    }
  }

  // ---- counting sends -----------------------------------------------------------------

  lemma QueuedAt(q: seq<Message>)
    ensures forall i :: 0 <= i < |q| ==> q[i].id in Queued(q)
  {
  }

  lemma EnqueueCounted(s: State, now: real)
    requires Partitioned(s) && Counted(s)
    ensures Counted(Enqueue(s, now))
  {
    var t := Enqueue(s, now);
    forall i | 0 <= i < |t.queue|
      ensures t.queue[i].attempt < MAX_ATTEMPTS && SentTimes(t, t.queue[i].id, t.queue[i].attempt)
    {
      if i < |t.queue| - 1 {
        var j := if |s.queue| >= MAX_QUEUE then i + 1 else i;
        assert t.queue[i] == s.queue[j];
        assert SentTimes(s, s.queue[j].id, s.queue[j].attempt);
      }
    }
    forall id | id in t.waiting ensures SentTimes(t, id, t.waiting[id].attempt) {
      assert SentTimes(s, id, s.waiting[id].attempt);
    }
  }

  lemma TakeCounted(s: State)
    requires Partitioned(s) && Counted(s)
    ensures Counted(Step(s, Take))
  {
    if s.inFlight.None? && s.queue != [] {
      var t, m := Step(s, Take), s.queue[0];
      assert SentTimes(s, m.id, m.attempt);
      forall i | 0 <= i < |t.queue|
        ensures t.queue[i].attempt < MAX_ATTEMPTS && SentTimes(t, t.queue[i].id, t.queue[i].attempt)
      {
        assert t.queue[i] == s.queue[i + 1] && s.queue[0].id != s.queue[i + 1].id;
        assert SentTimes(s, s.queue[i + 1].id, s.queue[i + 1].attempt);
      }
      QueuedAt(s.queue);
      Apart(s, m.id);
      forall id | id in t.waiting ensures SentTimes(t, id, t.waiting[id].attempt) {
        assert SentTimes(s, id, s.waiting[id].attempt);
      }
    }
  }

  lemma SentCounted(s: State, outcome: Outcome, now: real)
    requires Partitioned(s) && Counted(s)
    ensures Counted(Step(s, Sent(outcome, now)))
  {
    var t := Step(s, Sent(outcome, now));
    assert t.sends == s.sends && t.queue == s.queue;
    forall i | 0 <= i < |t.queue| ensures SentTimes(t, t.queue[i].id, t.queue[i].attempt) {
      assert SentTimes(s, s.queue[i].id, s.queue[i].attempt);
    }
    forall id | id in t.waiting
      ensures t.waiting[id].attempt < MAX_ATTEMPTS && SentTimes(t, id, t.waiting[id].attempt)
    {
      assert id in s.waiting ==> SentTimes(s, id, s.waiting[id].attempt);
      if s.inFlight.Some? {
        assert SentTimes(s, s.inFlight.value.id, s.inFlight.value.attempt + 1);
        Apart(s, s.inFlight.value.id);
      }
    }
  }

  lemma RetryCounted(s: State, id: nat)
    requires Partitioned(s) && Counted(s)
    ensures Counted(Step(s, Retry(id)))
  {
    if id in s.waiting && |s.queue| < MAX_QUEUE {
      var t := Step(s, Retry(id));
      forall i | 0 <= i < |t.queue|
        ensures t.queue[i].attempt < MAX_ATTEMPTS && SentTimes(t, t.queue[i].id, t.queue[i].attempt)
      {
        if i < |s.queue| {
          assert t.queue[i] == s.queue[i];
          assert SentTimes(s, s.queue[i].id, s.queue[i].attempt);
        } else {
          assert t.queue[i] == s.waiting[id];
          assert SentTimes(s, id, s.waiting[id].attempt);
        }
      }
    }
  }

  // ---- each step keeps the invariant ---------------------------------------------------

  /** A fresh alert is always queued, last, and the queue stays within its bound. */
  lemma EnqueueKeeps(s: State, now: real)
    requires Inv(s) && s.clock <= now
    ensures Inv(Enqueue(s, now))
    ensures Enqueue(s, now).queue[|Enqueue(s, now).queue| - 1] == Message(s.nextId, now, 0)
  {
    EnqueuePartition(s, now);
    EnqueueCounted(s, now);
  }

  lemma AlarmKeeps(s: State, e: Event)
    requires Inv(s) && Legal(s, e) && e.Alarm?
    ensures Inv(Step(s, e))
  {
    DedupeMatchesLog(s.recent, s.admitted, s.clock, e.key, e.now);
    LaterRemembers(s.recent, s.admitted, s.clock, e.now);
    var recent := Housekeep(s.recent, e.now);
    if e.wanted && !Skips(recent, e.key, e.now) {
      AdmitKeeps(s, recent, e.key, e.now);
      if e.enabled { EnqueueKeeps(Admitted(s, recent, e.key, e.now), e.now); }
    } else {
      RefusalKeeps(s, if e.wanted then recent else s.recent, e.now);
    }
  }

  lemma LaterRemembers(recent: map<Key, real>, log: seq<Admission>, clock: real, now: real)
    requires Remembers(recent, log, clock) && clock <= now
    ensures Remembers(recent, log, now)
  {
  }

  lemma RefusalKeeps(s: State, recent: map<Key, real>, now: real)
    requires Inv(s) && Remembers(recent, s.admitted, now)
    ensures Inv(s.(recent := recent, clock := now))
  {
    SameMessages(s, s.(recent := recent, clock := now));
  }

  function Admitted(s: State, recent: map<Key, real>, key: Key, now: real): State {
    s.(recent := recent[key := now], admitted := s.admitted + [Admission(key, now)], clock := now)
  }

  lemma AdmitKeeps(s: State, recent: map<Key, real>, key: Key, now: real)
    requires Inv(s) && Remembers(recent, s.admitted, now) && !AdmittedWithin(s.admitted, key, now)
    ensures Inv(Admitted(s, recent, key, now))
  {
    AdmissionRemembered(recent, s.admitted, now, key);
    SameMessages(s, Admitted(s, recent, key, now));
  }

  /** Partition and counting look only at the message fields. */
  lemma SameMessages(s: State, t: State)
    requires Partitioned(s) && Counted(s)
    requires t == s.(recent := t.recent, admitted := t.admitted, clock := t.clock)
    ensures Partitioned(t) && Counted(t)
  {
    forall i | 0 <= i < |t.queue| ensures SentTimes(t, t.queue[i].id, t.queue[i].attempt) {
      assert SentTimes(s, s.queue[i].id, s.queue[i].attempt);
    }
    forall id | id in t.waiting ensures SentTimes(t, id, t.waiting[id].attempt) {
      assert SentTimes(s, id, s.waiting[id].attempt);
    }
  }

  lemma StepKeeps(s: State, e: Event)
    requires Inv(s) && Legal(s, e)
    ensures Inv(Step(s, e))
  {
    match e
    case Alarm(_, _, _, _) => AlarmKeeps(s, e);
    case Other(enabled, now) => OtherKeeps(s, enabled, now);
    case Take => TakeKeeps(s);
    case Sent(outcome, now) => SentKeeps(s, outcome, now);
    case Retry(id) => RetryKeeps(s, id);
  }

  lemma OtherKeeps(s: State, enabled: bool, now: real)
    requires Inv(s) && s.clock <= now
    ensures Inv(Step(s, Other(enabled, now)))
  {
    if enabled { EnqueueKeeps(s, now); } else { SameMessages(s, s.(clock := now)); }
  }

  // The worker and the timers never touch the dedupe table.

  lemma TakeKeeps(s: State)
    requires Inv(s)
    ensures Inv(Step(s, Take))
  {
    TakePartition(s);
    TakeCounted(s);
  }

  lemma SentKeeps(s: State, outcome: Outcome, now: real)
    requires Inv(s) && s.clock <= now
    ensures Inv(Step(s, Sent(outcome, now)))
  {
    SentPartition(s, outcome, now);
    SentCounted(s, outcome, now);
    LaterRemembers(s.recent, s.admitted, s.clock, now);
    SentTouchesOnly(s, outcome, now);
  }

  lemma SentTouchesOnly(s: State, outcome: Outcome, now: real)
    ensures var t := Step(s, Sent(outcome, now));
            t.queue == s.queue && t.recent == s.recent && t.admitted == s.admitted && t.clock == now
  {
  }

  lemma RetryKeeps(s: State, id: nat)
    requires Inv(s)
    ensures Inv(Step(s, Retry(id)))
  {
    RetryPartition(s, id);
    RetryCounted(s, id);
  }

  // ---- whole runs -----------------------------------------------------------------

  function Run(events: seq<Event>): State {
    if events == [] then INITIAL else Step(Run(events[..|events| - 1]), events[|events| - 1])
  }

  predicate LegalRun(events: seq<Event>) {
    events == [] || (LegalRun(events[..|events| - 1]) && Legal(Run(events[..|events| - 1]), events[|events| - 1]))
  }

  lemma {:induction false} RunKeeps(events: seq<Event>)
    requires LegalRun(events)
    ensures Inv(Run(events))
  {
    if events != [] {
      RunKeeps(events[..|events| - 1]);
      StepKeeps(Run(events[..|events| - 1]), events[|events| - 1]);
    }
  }

  /**
   * In every interleaving of alerts, worker and timers: the queue is bounded, each message is in
   * exactly one place, none is sent more than four times, and alarms of one key are spaced.
   */
  lemma EveryRun(events: seq<Event>)
    requires LegalRun(events)
    ensures var s := Run(events);
            && |s.queue| <= 200
            && Partitioned(s)
            && (forall id :: id in s.sends ==> s.sends[id] <= 4)
            && (forall i, j :: 0 <= i < j < |s.admitted| && s.admitted[i].key == s.admitted[j].key
                  ==> s.admitted[j].at - s.admitted[i].at >= 60.0)
  {
    RunKeeps(events);
  }

  /**
   * After any run, an alert the operator wants is refused exactly when the same alert was let
   * through less than a minute ago; otherwise, if Slack is enabled, it ends the queue.
   */
  lemma AlarmDecision(events: seq<Event>, e: Event)
    requires LegalRun(events) && Legal(Run(events), e) && e.Alarm? && e.wanted
    ensures var s, t := Run(events), Step(Run(events), e);
            if AdmittedWithin(s.admitted, e.key, e.now) then t.admitted == s.admitted && t.queue == s.queue
            else t.admitted == s.admitted + [Admission(e.key, e.now)]
                 && (e.enabled ==> t.queue != [] && t.queue[|t.queue| - 1] == Message(s.nextId, e.now, 0))
  {
    RunKeeps(events);
    var s := Run(events);
    DedupeMatchesLog(s.recent, s.admitted, s.clock, e.key, e.now);
  }

  // ---- the notifier -----------------------------------------------------------------

  lemma RunExtends(events: seq<Event>, e: Event)
    requires LegalRun(events) && Legal(Run(events), e)
    ensures LegalRun(events + [e]) && Run(events + [e]) == Step(Run(events), e)
  {
    assert (events + [e])[..|events|] == events;
  }

  class SlackNotifier {
    var queue: seq<Message>
    var recentSends: map<Key, real>
    var inFlight: Option<Message>
    var retryTasks: map<nat, Message>
    var created: nat // messages constructed so far: their identities
    ghost var events: seq<Event>

    /** The live fields are those of the run so far. */
    ghost predicate Valid()
      reads this
    {
      && LegalRun(events)
      && queue == Run(events).queue && recentSends == Run(events).recent && created == Run(events).nextId
      && inFlight == Run(events).inFlight && retryTasks == Run(events).waiting
    }

    constructor ()
      ensures Valid() && events == []
    {
      queue, recentSends, inFlight, retryTasks, created, events := [], map[], None, map[], 0, [];
    }

    method DedupeSkip(key: Key, now: real) returns (skip: bool)
      modifies this`recentSends
      ensures skip == Skips(Housekeep(old(recentSends), now), key, now)
      ensures var kept := Housekeep(old(recentSends), now);
              recentSends == if skip then kept else kept[key := now]
    {
      if |recentSends| > PRUNE_ABOVE {
        var cutoff := now - DEDUPE_WINDOW_S * 10.0;
        recentSends := map k | k in recentSends && recentSends[k] > cutoff :: recentSends[k];
      }
      if key in recentSends && now - recentSends[key] < DEDUPE_WINDOW_S { return true; }
      recentSends := recentSends[key := now];
      return false;
    }

    /** Queues a new message; the oldest makes room for it. */
    method PutFresh(now: real)
      modifies this`queue, this`created
      ensures queue == (if |old(queue)| >= MAX_QUEUE then old(queue)[1..] else old(queue))
                       + [Message(old(created), now, 0)]
      ensures created == old(created) + 1
    {
      var m := Message(created, now, 0);
      created := created + 1;
      if |queue| >= MAX_QUEUE {
        queue := queue[1..];
      }
      queue := queue + [m];
    }

    /** alert_alarm and alert_alarm_cleared. */
    method AlertAlarm(key: Key, wanted: bool, enabled: bool, now: real)
      requires Valid() && Run(events).clock <= now
      modifies this
      ensures Valid() && events == old(events) + [Alarm(key, wanted, enabled, now)]
    {
      RunExtends(events, Alarm(key, wanted, enabled, now));
      events := events + [Alarm(key, wanted, enabled, now)];
      if !wanted { return; }
      var skip := DedupeSkip(key, now);
      if !skip && enabled { PutFresh(now); }
    }

    /** The alerts that bypass dedupe. */
    method AlertOther(enabled: bool, now: real)
      requires Valid() && Run(events).clock <= now
      modifies this
      ensures Valid() && events == old(events) + [Other(enabled, now)]
    {
      RunExtends(events, Other(enabled, now));
      events := events + [Other(enabled, now)];
      if enabled { PutFresh(now); }
    }

    /** The worker's queue.get. */
    method WorkerTake()
      requires Valid() && inFlight.None? && queue != []
      modifies this
      ensures Valid() && events == old(events) + [Take]
    {
      RunExtends(events, Take);
      events := events + [Take];
      inFlight, queue := Some(queue[0]), queue[1..];
    }

    /** The rest of the worker's turn, once _send has answered. */
    method WorkerSent(outcome: Outcome, now: real)
      requires Valid() && inFlight.Some? && Run(events).clock <= now
      modifies this
      ensures Valid() && events == old(events) + [Sent(outcome, now)]
    {
      RunExtends(events, Sent(outcome, now));
      events := events + [Sent(outcome, now)];
      var msg := inFlight.value;
      inFlight := None;
      if outcome == Accepted { return; }
      if outcome == Rejected { return; }
      msg := msg.(attempt := msg.attempt + 1);
      if msg.attempt >= MAX_ATTEMPTS { return; }
      if msg.enqueuedAt != 0.0 && now - msg.enqueuedAt > MAX_AGE_S { return; }
      retryTasks := retryTasks[msg.id := msg];
    }

    /** A retry timer fires: back to the queue, unless it is full. */
    method RequeueAfter(id: nat)
      requires Valid() && id in retryTasks
      modifies this
      ensures Valid() && events == old(events) + [Retry(id)]
    {
      RunExtends(events, Retry(id));
      events := events + [Retry(id)];
      var msg := retryTasks[id];
      retryTasks := retryTasks - {id};
      if |queue| < MAX_QUEUE { queue := queue + [msg]; }
    }
  }
}
