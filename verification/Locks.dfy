/**
 * The locks of the command surfaces, the pollers and the Modbus clients, and why no interleaving of
 * their users can deadlock (backend/genwatch/services/control.py, services/ats_control.py,
 * api/events.py, modbus/poller.py and modbus/client.py).
 */
module Locks {

  datatype Lock = AtsLock | ControlLock | MapLock | AtsMapLock | ClientLock | AtsClientLock

  /** The one order in which locks are ever nested. */
  function Rank(l: Lock): nat {
    match l
    case AtsLock => 0
    case ControlLock => 1
    case MapLock => 2
    case AtsMapLock => 3
    case ClientLock => 4
    case AtsClientLock => 5
  }

  datatype Op = Acquire(lock: Lock) | Release(lock: Lock)

  /** Who uses locks, with every way each can end. */
  datatype Request =
    | TokenRequest                                  // issue a token, reload the map of the control service
    | Command(reachesWrite: bool)
    | AtsRefusedAtGate
    | AtsCommand(reachesWrite: bool)                // the token may still be refused
    | Acknowledge(reachesWrite: bool)
    | PollOnce(ats: bool, rounds: nat)
    | Reload

  function With(l: Lock, inner: seq<Op>): seq<Op> {
    [Acquire(l)] + inner + [Release(l)]
  }

  /** Each attempt of each read takes the client lock on its own. */
  function Reads(l: Lock, n: nat): seq<Op> {
    if n == 0 then [] else With(l, []) + Reads(l, n - 1)
  }

  function Program(r: Request): seq<Op> {
    match r
    case TokenRequest => With(ControlLock, [])
    case Command(true) => With(ControlLock, With(ClientLock, []))
    case Command(false) => With(ControlLock, [])
    case AtsRefusedAtGate => With(AtsLock, [])
    case AtsCommand(true) => With(AtsLock, With(ControlLock, []) + With(AtsClientLock, []))
    case AtsCommand(false) => With(AtsLock, With(ControlLock, []))
    case Acknowledge(true) => With(ControlLock, []) + With(ClientLock, [])
    case Acknowledge(false) => With(ControlLock, [])
    case PollOnce(false, n) => With(MapLock, []) + Reads(ClientLock, n)
    case PollOnce(true, n) => With(AtsMapLock, []) + Reads(AtsClientLock, n)
    case Reload => With(MapLock, []) + With(ControlLock, [])
  }

  // ---- lock discipline ---------------------------------------------------------------------

  /** From here on, locks are taken in rank order and all given back. */
  predicate Disciplined(held: set<Lock>, ops: seq<Op>)
    decreases |ops|
  {
    if ops == [] then held == {}
    else match ops[0]
      case Acquire(l) => (forall h :: h in held ==> Rank(h) < Rank(l)) && Disciplined(held + {l}, ops[1..])
      case Release(l) => l in held && Disciplined(held - {l}, ops[1..])
  }

  lemma {:induction false} Sequenced(held: set<Lock>, first: seq<Op>, l: Lock, second: seq<Op>)
    requires first == With(l, []) && Disciplined(held, second) && forall h :: h in held ==> Rank(h) < Rank(l)
    ensures Disciplined(held, first + second)
  {
    var ops := first + second;
    assert ops[0] == Acquire(l) && ops[1..][0] == Release(l) && ops[1..][1..] == second;
    assert (held + {l}) - {l} == held;
  }

  lemma {:induction false} ReadsDisciplined(l: Lock, n: nat)
    ensures Disciplined({}, Reads(l, n))
  {
    if n > 0 {
      ReadsDisciplined(l, n - 1);
      Sequenced({}, With(l, []), l, Reads(l, n - 1));
    }
  }

  lemma OneLock(l: Lock)
    ensures Disciplined({}, With(l, []))
  {
    Sequenced({}, With(l, []), l, []);
    assert With(l, []) + [] == With(l, []);
  }

  lemma Nested(outer: Lock, inner: seq<Op>)
    requires Disciplined({outer}, inner + [Release(outer)])
    ensures Disciplined({}, With(outer, inner))
  {
    var ops := With(outer, inner);
    assert ops[0] == Acquire(outer) && ops[1..] == inner + [Release(outer)];
    assert {} + {outer} == {outer};
  }

  lemma LastRelease(l: Lock)
    ensures Disciplined({l}, [Release(l)])
  {
    assert [Release(l)][1..] == [];
    assert {l} - {l} == {};
  }

  /** Every user of locks keeps the discipline, however its request ends. */
  lemma ProgramsDisciplined(r: Request)
    ensures Disciplined({}, Program(r))
  {
    OneLock(ControlLock);
    OneLock(AtsLock);
    OneLock(ClientLock);
    LastRelease(ControlLock);
    LastRelease(AtsLock);
    match r
    case Command(true) =>
      Sequenced({ControlLock}, With(ClientLock, []), ClientLock, [Release(ControlLock)]);
      Nested(ControlLock, With(ClientLock, []));
    case AtsCommand(w) =>
      Sequenced({AtsLock}, With(ControlLock, []), ControlLock, [Release(AtsLock)]);
      if w {
        Sequenced({AtsLock}, With(AtsClientLock, []), AtsClientLock, [Release(AtsLock)]);
        var tail := With(AtsClientLock, []) + [Release(AtsLock)];
        Sequenced({AtsLock}, With(ControlLock, []), ControlLock, tail);
        assert With(ControlLock, []) + tail == (With(ControlLock, []) + With(AtsClientLock, [])) + [Release(AtsLock)];
        Nested(AtsLock, With(ControlLock, []) + With(AtsClientLock, []));
      } else {
        Nested(AtsLock, With(ControlLock, []));
      }
    case Acknowledge(true) => Sequenced({}, With(ControlLock, []), ControlLock, With(ClientLock, []));
    case PollOnce(false, n) =>
      ReadsDisciplined(ClientLock, n);
      Sequenced({}, With(MapLock, []), MapLock, Reads(ClientLock, n));
    case PollOnce(true, n) =>
      ReadsDisciplined(AtsClientLock, n);
      Sequenced({}, With(AtsMapLock, []), AtsMapLock, Reads(AtsClientLock, n));
    case Reload => Sequenced({}, With(MapLock, []), MapLock, With(ControlLock, []));
    case _ =>
  }

  // ---- interleavings ---------------------------------------------------------------------------

  /** What each task still has to do, and who holds which lock. */
  datatype State = State(rest: seq<seq<Op>>, owner: map<Lock, nat>)

  function Start(requests: seq<Request>): State {
    State(seq(|requests|, i requires 0 <= i < |requests| => Program(requests[i])), map[])
  }

  function Held(s: State, i: nat): set<Lock> {
    set l | l in s.owner && s.owner[l] == i
  }

  /** Task i can move: it has something left and, if that is a lock, the lock is free. */
  predicate CanStep(s: State, i: nat) {
    i < |s.rest| && s.rest[i] != [] && (s.rest[i][0].Acquire? ==> s.rest[i][0].lock !in s.owner)
  }

  function Step(s: State, i: nat): State
    requires CanStep(s, i)
  {
    var rest := s.rest[i := s.rest[i][1..]];
    match s.rest[i][0]
    case Acquire(l) => State(rest, s.owner[l := i])
    case Release(l) => State(rest, s.owner - {l})
  }

  predicate Legal(s: State, schedule: seq<nat>)
    decreases |schedule|
  {
    schedule == [] || (CanStep(s, schedule[0]) && Legal(Step(s, schedule[0]), schedule[1..]))
  }

  function After(s: State, schedule: seq<nat>): State
    requires Legal(s, schedule)
    decreases |schedule|
  {
    if schedule == [] then s else After(Step(s, schedule[0]), schedule[1..])
  }

  ghost predicate Inv(s: State) {
    && (forall i :: 0 <= i < |s.rest| ==> Disciplined(Held(s, i), s.rest[i]))
    && (forall l :: l in s.owner ==> s.owner[l] < |s.rest|)
  }

  lemma StartInv(requests: seq<Request>)
    ensures Inv(Start(requests))
  {
    var s := Start(requests);
    forall i | 0 <= i < |s.rest| ensures Disciplined(Held(s, i), s.rest[i]) {
      ProgramsDisciplined(requests[i]);
      assert Held(s, i) == {};
    }
  }

  lemma StepInv(s: State, i: nat)
    requires Inv(s) && CanStep(s, i)
    ensures Inv(Step(s, i))
  {
    var t := Step(s, i);
    assert Disciplined(Held(s, i), s.rest[i]);
    var l := s.rest[i][0].lock;
    if s.rest[i][0].Acquire? {
      assert Held(t, i) == Held(s, i) + {l};
    } else {
      assert Held(t, i) == Held(s, i) - {l};
    }
    forall j | 0 <= j < |t.rest| ensures Disciplined(Held(t, j), t.rest[j]) {
      if j != i {
        assert s.rest[i][0].Release? ==> l in Held(s, i);
        assert Held(t, j) == Held(s, j);
        assert Disciplined(Held(s, j), s.rest[j]);
      }
    }
  }

  lemma {:induction false} RunInv(s: State, schedule: seq<nat>)
    requires Inv(s) && Legal(s, schedule)
    ensures Inv(After(s, schedule))
    decreases |schedule|
  {
    if schedule != [] {
      StepInv(s, schedule[0]);
      RunInv(Step(s, schedule[0]), schedule[1..]);
    }
  }

  /** The highest lock anyone holds. */
  lemma {:induction false} TopHeld(owner: map<Lock, nat>, bound: nat) returns (top: Lock)
    requires exists l :: l in owner
    requires forall l :: l in owner ==> Rank(l) < bound
    ensures top in owner && forall l :: l in owner ==> Rank(l) <= Rank(top)
  {
    if l :| l in owner && Rank(l) == bound - 1 {
      top := l;
    } else {
      top := TopHeld(owner, bound - 1);
    }
  }

  predicate Done(s: State) {
    forall i :: 0 <= i < |s.rest| ==> s.rest[i] == []
  }

  /** In a disciplined state, unless everything is finished, somebody can move. */
  lemma SomeoneCanStep(s: State) returns (i: nat)
    requires Inv(s) && !Done(s)
    ensures CanStep(s, i)
  {
    if l :| l in s.owner {
      var top := TopHeld(s.owner, 6);
      i := s.owner[top];
      assert Disciplined(Held(s, i), s.rest[i]) && top in Held(s, i);
    } else {
      i :| 0 <= i < |s.rest| && s.rest[i] != [];
      assert Disciplined(Held(s, i), s.rest[i]);
    }
  }

  /** No interleaving of any requests deadlocks: a reachable state with unfinished tasks can always move. */
  lemma NoDeadlock(requests: seq<Request>, schedule: seq<nat>) returns (i: nat)
    requires Legal(Start(requests), schedule) && !Done(After(Start(requests), schedule))
    ensures CanStep(After(Start(requests), schedule), i)
  {
    StartInv(requests);
    RunInv(Start(requests), schedule);
    i := SomeoneCanStep(After(Start(requests), schedule));
  }

  // ---- every run ends ---------------------------------------------------------------------------

  function Work(rest: seq<seq<Op>>): nat {
    if rest == [] then 0 else |rest[0]| + Work(rest[1..])
  }

  lemma {:induction false} WorkDrops(rest: seq<seq<Op>>, i: nat)
    requires i < |rest| && rest[i] != []
    ensures Work(rest[i := rest[i][1..]]) == Work(rest) - 1
  {
    var next := rest[i := rest[i][1..]];
    if i == 0 {
      assert next[1..] == rest[1..];
    } else {
      assert next[1..] == rest[1..][i - 1 := rest[1..][i - 1][1..]];
      WorkDrops(rest[1..], i - 1);
    }
  }

  /** Every schedule is as long as the work it did, so none goes on for ever. */
  lemma {:induction false} RunsAreFinite(s: State, schedule: seq<nat>)
    requires Legal(s, schedule)
    ensures |schedule| + Work(After(s, schedule).rest) == Work(s.rest)
    decreases |schedule|
  {
    if schedule != [] {
      WorkDrops(s.rest, schedule[0]);
      RunsAreFinite(Step(s, schedule[0]), schedule[1..]);
    }
  }

  /** A schedule that cannot be extended has served every request and freed every lock. */
  lemma MaximalRunsServeAll(requests: seq<Request>, schedule: seq<nat>)
    requires Legal(Start(requests), schedule)
    requires forall i :: !CanStep(After(Start(requests), schedule), i)
    ensures Done(After(Start(requests), schedule)) && After(Start(requests), schedule).owner == map[]
  {
    var s := After(Start(requests), schedule);
    if !Done(s) {
      var i := NoDeadlock(requests, schedule);
      assert false;
    }
    StartInv(requests);
    RunInv(Start(requests), schedule);
    assert forall i :: 0 <= i < |s.rest| ==> Disciplined(Held(s, i), s.rest[i]) && Held(s, i) == {};
    assert forall l :: l in s.owner ==> l in Held(s, s.owner[l]);
  }

  /** The order matters: a command that took the transfer-switch lock inside the control lock could deadlock. */
  lemma CrossedOrderDeadlocks()
    ensures exists s, schedule: seq<nat> ::
              && s == State([Program(AtsCommand(false)), With(ControlLock, With(AtsLock, []))], map[])
              && Legal(s, schedule)
              && !Done(After(s, schedule)) && forall i :: !CanStep(After(s, schedule), i)
  {
    var a, b := Program(AtsCommand(false)), With(ControlLock, With(AtsLock, []));
    var s0 := State([a, b], map[]);
    var s1 := Step(s0, 0);
    assert s1 == State([a[1..], b], map[AtsLock := 0]);
    var s2 := Step(s1, 1);
    assert s2 == State([a[1..], b[1..]], map[AtsLock := 0, ControlLock := 1]);
    var schedule: seq<nat> := [0, 1];
    assert schedule[1..] == [1] && [1][1..] == [];
    assert Legal(s1, schedule[1..]);
    assert Legal(s0, schedule) && After(s0, schedule) == s2;
    assert a[1..][0] == Acquire(ControlLock) && b[1..][0] == Acquire(AtsLock);
    assert s2.rest[0] == a[1..] != [];
    assert forall i :: !CanStep(s2, i);
  }
}
