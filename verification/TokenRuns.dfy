/**
 * The token ledger over whole runs of the three surfaces that share the store: generator commands
 * (services/control.py), transfer-switch commands (services/ats_control.py) and alarm
 * acknowledgements (api/events.py), all under backend/genwatch.
 */
module TokenRuns {
  import opened Prelude
  import opened Registers
  import opened Tokens
  import opened Control
  import Comms
  import Alarms
  import AtsControl
  import Acknowledge

  /** What one of the three surfaces is asked, with everything its gates look at. */
  datatype Request =
    | Generator(verb: string, role: string, rm: RegisterMap, snap: Snapshot, now: real)
    | Switch(ask: AtsControl.AtsRequest, ats: AtsControl.AtsSnap, comms: Comms.CommsState, expectedUnit: Option<int>,
             controls: seq<ControlDef>)
    | Ack(alarm: Alarms.Code, rows: set<Alarms.Code>, comms: Comms.CommsState, rm: RegisterMap)

  /** One atomic segment under the control lock: a token issued, or a request with the token it names. */
  datatype Event =
    | Issue(operator: string, verb: Option<string>, code: TokenCode, mono: real, later: real)
    | Attempt(request: Request, operator: string, code: TokenCode, mono: real, later: real)

  /** No gate of the request's own surface refuses, in the order that surface tries them. */
  predicate Passes(q: Request) {
    match q
    case Generator(verb, role, rm, snap, now) => FirstRefusal(verb, role, rm, snap, now) == None
    case Switch(ask, ats, comms, expectedUnit, controls) =>
      AtsControl.MayOperate(ask, ats, comms, expectedUnit, controls)
    case Ack(alarm, rows, comms, _) => alarm in rows && comms != Comms.Lost
  }

  /** The action a token for the request must be for. */
  function ActionOf(q: Request): string {
    match q
    case Generator(verb, _, _, _, _) => verb
    case Switch(ask, _, _, _, _) => ask.command
    case Ack(_, _, _, _) => "ack"
  }

  /** The register a granted request writes; an acknowledgement may have none. */
  function ControlFor(q: Request): Option<ControlDef> {
    match q
    case Generator(verb, _, rm, _, _) =>
      if ControlOf(verb).Some? then FindControl(rm.controls, ControlOf(verb).value) else None
    case Switch(ask, _, _, _, controls) =>
      var spec := AtsControl.SpecOf(ask.command);
      if spec.Some? then FindControl(controls, AtsControl.ControlName(ask, spec.value)) else None
    case Ack(_, _, _, rm) => Acknowledge.AckRegister(rm)
  }

  datatype World = World(
    tokens: Table,
    issued: multiset<ConfirmToken>,
    evicted: multiset<ConfirmToken>,
    popped: multiset<ConfirmToken>,
    writes: seq<Write>)

  predicate Enabled(w: World, e: Event) {
    e.mono <= e.later && (e.Issue? ==> e.code !in Unexpired(w.tokens, e.mono))
  }

  ghost function Swept(w: World, mono: real): World {
    w.(tokens := Unexpired(w.tokens, mono), evicted := w.evicted + Live(Overdue(w.tokens, mono)))
  }

  /** A token found is popped, and a granted one authorises the write when there is a register for it. */
  ghost function Spend(w: World, e: Event): World
    requires e.Attempt?
  {
    if e.code !in w.tokens then w
    else
      var token := w.tokens[e.code];
      w.(tokens := w.tokens - {e.code},
         popped := w.popped + multiset{token},
         writes := w.writes + WriteOf(token, e))
  }

  /** The write the event makes with the token it popped, if any. */
  function WriteOf(token: ConfirmToken, e: Event): seq<Write>
    requires e.Attempt?
  {
    var action, control := ActionOf(e.request), ControlFor(e.request);
    if Judge(token, e.operator, Some(action), e.later).Granted? && control.Some?
    then [Write(action, e.operator, token, e.later, control.value)]
    else []
  }

  ghost function Issued(w: World, e: Event): World
    requires e.Issue?
  {
    var token := ConfirmToken(e.code, e.operator, e.later + TOKEN_TTL_S, e.verb);
    w.(tokens := w.tokens[e.code := token], issued := w.issued + multiset{token})
  }

  ghost function Next(w: World, e: Event): World {
    match e
    case Issue(_, _, _, mono, _) => Issued(Swept(w, mono), e)
    case Attempt(request, _, _, mono, _) => if Passes(request) then Spend(Swept(w, mono), e) else w
  }

  ghost predicate Legal(w: World, es: seq<Event>) {
    es == [] || (Legal(w, es[..|es| - 1]) && Enabled(Run(w, es[..|es| - 1]), es[|es| - 1]))
  }

  ghost function Run(w: World, es: seq<Event>): World {
    if es == [] then w else Next(Run(w, es[..|es| - 1]), es[|es| - 1])
  }

  const START := World(map[], multiset{}, multiset{}, multiset{}, [])

  function SpentOn(writes: seq<Write>): multiset<ConfirmToken> {
    if writes == [] then multiset{} else SpentOn(writes[..|writes| - 1]) + multiset{writes[|writes| - 1].token}
  }

  /** The write rests on a token of the same operator, still valid, made for this action or for any. */
  predicate Authorised(x: Write) {
    && x.token.operator == x.operator
    && x.at <= x.token.expires
    && (x.token.verb == None || x.token.verb == Some(x.action))
  }

  ghost predicate Accounts(tokens: Table, issued: multiset<ConfirmToken>, evicted: multiset<ConfirmToken>,
                           popped: multiset<ConfirmToken>) {
    Indexed(tokens) && issued == Live(tokens) + evicted + popped
  }

  predicate WritesCovered(writes: seq<Write>, popped: multiset<ConfirmToken>) {
    SpentOn(writes) <= popped && forall i :: 0 <= i < |writes| ==> Authorised(writes[i])
  }

  ghost predicate Balanced(w: World) {
    Accounts(w.tokens, w.issued, w.evicted, w.popped) && WritesCovered(w.writes, w.popped)
  }

  lemma SweepBalances(w: World, mono: real)
    requires Balanced(w)
    ensures Balanced(Swept(w, mono))
  {
    EvictionSplits(w.tokens, mono);
  }

  lemma AccountsIssue(tokens: Table, issued: multiset<ConfirmToken>, evicted: multiset<ConfirmToken>,
                      popped: multiset<ConfirmToken>, t: ConfirmToken)
    requires Accounts(tokens, issued, evicted, popped) && t.code !in tokens
    ensures Accounts(tokens[t.code := t], issued + multiset{t}, evicted, popped)
  {
    LiveWith(tokens, t);
  }

  lemma AccountsPop(tokens: Table, issued: multiset<ConfirmToken>, evicted: multiset<ConfirmToken>,
                    popped: multiset<ConfirmToken>, code: TokenCode)
    requires Accounts(tokens, issued, evicted, popped) && code in tokens
    ensures Accounts(tokens - {code}, issued, evicted, popped + multiset{tokens[code]})
  {
    LiveWithout(tokens, code);
  }

  lemma WritesExtend(writes: seq<Write>, popped: multiset<ConfirmToken>, x: Write)
    requires WritesCovered(writes, popped)
    requires Authorised(x)
    ensures WritesCovered(writes + [x], popped + multiset{x.token})
  {
    assert (writes + [x])[..|writes|] == writes;
    assert SpentOn(writes + [x]) == SpentOn(writes) + multiset{x.token};
  }

  lemma IssueBalances(w: World, e: Event)
    requires Balanced(w) && e.Issue? && e.code !in w.tokens
    ensures Balanced(Issued(w, e))
  {
    AccountsIssue(w.tokens, w.issued, w.evicted, w.popped,
                  ConfirmToken(e.code, e.operator, e.later + TOKEN_TTL_S, e.verb));
  }

  lemma SpendBalances(w: World, e: Event)
    requires Balanced(w) && e.Attempt?
    ensures Balanced(Spend(w, e))
  {
    if e.code in w.tokens {
      var token := w.tokens[e.code];
      AccountsPop(w.tokens, w.issued, w.evicted, w.popped, e.code);
      var made := WriteOf(token, e);
      if made != [] {
        WritesExtend(w.writes, w.popped, made[0]);
      } else {
        WritesCarryOver(w.writes, w.popped, token);
        assert w.writes + made == w.writes;
      }
    }
  }

  lemma WritesCarryOver(writes: seq<Write>, popped: multiset<ConfirmToken>, t: ConfirmToken)
    requires WritesCovered(writes, popped)
    ensures WritesCovered(writes, popped + multiset{t})
  {
  }

  lemma {:induction false} LedgerBalances(w: World, es: seq<Event>)
    requires Balanced(w) && Legal(w, es)
    ensures Balanced(Run(w, es))
  {
    if es != [] {
      var front, e := es[..|es| - 1], es[|es| - 1];
      LedgerBalances(w, front);
      SweepBalances(Run(w, front), e.mono);
      match e
      case Issue(_, _, _, mono, _) => IssueBalances(Swept(Run(w, front), mono), e);
      case Attempt(request, _, _, mono, _) =>
        if Passes(request) { SpendBalances(Swept(Run(w, front), mono), e); }
    }
  }

  /**
   * Over every run of every surface: each token issued is live, evicted or popped, exactly once;
   * writes use up distinct popped tokens, so there are never more writes than tokens issued; and
   * each write is its token's operator's, made by its expiry, for its action.
   */
  lemma TokenLedger(es: seq<Event>)
    requires Legal(START, es)
    ensures var w := Run(START, es);
            && (forall t :: w.issued[t] == Live(w.tokens)[t] + w.evicted[t] + w.popped[t])
            && (forall t :: SpentOn(w.writes)[t] <= w.popped[t])
            && |w.writes| <= |w.issued|
            && forall i :: 0 <= i < |w.writes| ==> Authorised(w.writes[i])
  {
    assert Live(map[]) == multiset{};
    LedgerBalances(START, es);
    var w := Run(START, es);
    SpentCount(w.writes);
    SubsetCount(SpentOn(w.writes), w.popped);
    SubsetCount(w.popped, w.issued);
  }

  lemma {:induction false} SpentCount(writes: seq<Write>)
    ensures |SpentOn(writes)| == |writes|
  {
    if writes != [] { SpentCount(writes[..|writes| - 1]); }
  }

  lemma SubsetCount(a: multiset<ConfirmToken>, b: multiset<ConfirmToken>)
    requires a <= b
    ensures |a| <= |b|
  {
    assert b == a + (b - a);
  }

  /** Only the events that reach the store: issues, and requests every gate lets through. */
  function Passed(es: seq<Event>): seq<Event> {
    if es == [] then []
    else
      var e := es[|es| - 1];
      Passed(es[..|es| - 1]) + (if e.Attempt? && !Passes(e.request) then [] else [e])
  }

  /**
   * Failed gates leave no trace: over every run table, ledger and writes are those of the run in which
   * the refused requests were never made.
   */
  lemma {:induction false} RefusedRequestsVanish(w: World, es: seq<Event>)
    requires Legal(w, es)
    ensures Legal(w, Passed(es)) && Run(w, es) == Run(w, Passed(es))
  {
    if es != [] {
      var front, e := es[..|es| - 1], es[|es| - 1];
      RefusedRequestsVanish(w, front);
      if e.Attempt? && !Passes(e.request) {
        assert Passed(es) == Passed(front);
      } else {
        assert Passed(es)[..|Passed(es)| - 1] == Passed(front);
      }
    }
  }

  /** The write is what this request's own surface sends, and every gate of that surface held for it. */
  predicate Rests(x: Write, e: Event) {
    && e.Attempt?
    && x.token.code == e.code
    && match e.request
       case Generator(verb, role, rm, snap, now) =>
         MayCommand(verb, role, rm, snap, now) && x == Command(verb, e.operator, x.token, e.later, rm)
       case Switch(ask, ats, comms, unit, controls) =>
         && AtsControl.MayOperate(ask, ats, comms, unit, controls)
         && x == AtsControl.AtsCommand(ask, e.operator, x.token, e.later, controls)
       case Ack(alarm, rows, comms, rm) =>
         && alarm in rows && comms != Comms.Lost
         && Acknowledge.Settled(Acknowledge.AckRegister(rm), x.token, e.operator, false, e.later)
            == Acknowledge.WriteFailed(x)
  }

  lemma WriteRests(token: ConfirmToken, e: Event)
    requires e.Attempt? && Passes(e.request) && token.code == e.code && WriteOf(token, e) != []
    ensures Rests(WriteOf(token, e)[0], e)
  {
  }

  lemma NewWriteRests(w: World, e: Event, x: Write)
    requires Indexed(w.tokens) && x in Next(w, e).writes && x !in w.writes
    ensures Rests(x, e)
  {
    WriteRests(w.tokens[e.code], e);
  }

  /** Over every run of every surface each write rests on a request of that run whose gates all held. */
  lemma {:induction false} WritesPassedGates(es: seq<Event>)
    requires Legal(START, es)
    ensures forall x :: x in Run(START, es).writes ==> exists e :: e in es && Rests(x, e)
  {
    if es != [] {
      var front, e := es[..|es| - 1], es[|es| - 1];
      WritesPassedGates(front);
      LedgerBalances(START, front);
      var w := Run(START, front);
      forall x | x in Run(START, es).writes ensures exists e :: e in es && Rests(x, e) {
        if x in w.writes {
          var b :| b in front && Rests(x, b);
          assert b in es;
        } else {
          NewWriteRests(w, e, x);
          assert e in es;
        }
      }
    }
  }

  /** A request that reaches the store burns the token it names, granted or not. */
  lemma AttemptBurns(w: World, e: Event)
    requires Balanced(w) && e.Attempt? && Enabled(w, e) && Passes(e.request)
    ensures e.code !in Next(w, e).tokens
    ensures e.code in Unexpired(w.tokens, e.mono) ==> Next(w, e).popped == w.popped + multiset{w.tokens[e.code]}
  {
  }

  /** One event does to the store exactly what IssueToken and ConsumeToken promise. */
  lemma NextFollowsStore(w: World, e: Event)
    requires Enabled(w, e)
    ensures var v := Next(w, e);
            match e
            case Issue(operator, verb, code, mono, later) =>
              var token := ConfirmToken(code, operator, later + TOKEN_TTL_S, verb);
              && v.tokens == Unexpired(w.tokens, mono)[code := token] && v.issued == w.issued + multiset{token}
              && v.popped == w.popped && v.evicted == w.evicted + Live(Overdue(w.tokens, mono)) && v.writes == w.writes
            case Attempt(request, operator, code, mono, later) =>
              var verdict := Presented(w.tokens, code, operator, Some(ActionOf(request)), mono, later);
              Passes(request) ==>
                && v.tokens == Unexpired(w.tokens, mono) - {code} && v.issued == w.issued
                && v.popped == w.popped + (if verdict.Missing? then multiset{} else multiset{w.tokens[code]})
                && v.evicted == w.evicted + Live(Overdue(w.tokens, mono))
                && (v.writes != w.writes <==> verdict.Granted? && ControlFor(request).Some?)
  {
    if e.Attempt? && e.code !in Unexpired(w.tokens, e.mono) {
      assert Unexpired(w.tokens, e.mono) - {e.code} == Unexpired(w.tokens, e.mono);
    }
  }

  /** Once gone from the table a code is dead until it is drawn again: no later write rests on it. */
  lemma {:induction false} SpentCodeStaysDead(w: World, es: seq<Event>, code: TokenCode)
    requires Balanced(w) && Legal(w, es) && code !in w.tokens
    requires forall i :: 0 <= i < |es| && es[i].Issue? ==> es[i].code != code
    ensures var v := Run(w, es);
            && code !in v.tokens
            && w.writes <= v.writes
            && forall i :: |w.writes| <= i < |v.writes| ==> v.writes[i].token.code != code
  {
    if es != [] {
      var front, e := es[..|es| - 1], es[|es| - 1];
      SpentCodeStaysDead(w, front, code);
      LedgerBalances(w, front);
      StepKeepsDead(Run(w, front), e, code);
      StillDead(w.writes, Run(w, front).writes, Run(w, es).writes, code);
    }
  }

  /** At most one write more, and not with this code. */
  predicate OneMore(before: seq<Write>, after: seq<Write>, code: TokenCode) {
    && before <= after
    && |after| <= |before| + 1
    && (|after| > |before| ==> after[|before|].token.code != code)
  }

  lemma StillDead(first: seq<Write>, before: seq<Write>, after: seq<Write>, code: TokenCode)
    requires first <= before && OneMore(before, after, code)
    requires forall i :: |first| <= i < |before| ==> before[i].token.code != code
    ensures first <= after && forall i :: |first| <= i < |after| ==> after[i].token.code != code
  {
  }

  lemma StepKeepsDead(w: World, e: Event, code: TokenCode)
    requires Balanced(w) && code !in w.tokens && (e.Issue? ==> e.code != code)
    ensures code !in Next(w, e).tokens
    ensures OneMore(w.writes, Next(w, e).writes, code)
  {
  }
}
