/**
 * The confirm-token store shared by every command surface (ControlService.issue_token, consume_token,
 * _consume_token_locked and _evict_expired_locked in backend/genwatch/services/control.py).
 */
module Tokens {
  import opened Prelude

  const TOKEN_TTL_S := 30.0

  datatype TokenCode = TokenCode(text: string)

  /** expires is on the monotonic clock; verb None means the token is good for any action. */
  datatype ConfirmToken = ConfirmToken(code: TokenCode, operator: string, expires: real, verb: Option<string>)

  type Table = map<TokenCode, ConfirmToken>

  datatype Verdict =
    | Granted(token: ConfirmToken)
    | Missing
    | Expired
    | WrongOperator
    | WrongAction

  // ---- the specification -----------------------------------------------------------------

  function Unexpired(table: Table, mono: real): Table {
    map c | c in table && table[c].expires >= mono :: table[c]
  }

  function Overdue(table: Table, mono: real): Table {
    map c | c in table && table[c].expires < mono :: table[c]
  }

  predicate Binds(token: ConfirmToken, verb: Option<string>) {
    token.verb.Some? && verb.Some? && token.verb != verb
  }

  /** What a popped token is worth to this operator, for this action, at this time. */
  function Judge(token: ConfirmToken, operator: string, verb: Option<string>, mono: real): Verdict {
    if token.expires < mono then Expired
    else if token.operator != operator then WrongOperator
    else if Binds(token, verb) then WrongAction
    else Granted(token)
  }

  function Presented(table: Table, code: TokenCode, operator: string, verb: Option<string>, mono: real,
                     later: real): Verdict {
    if code !in Unexpired(table, mono) then Missing else Judge(table[code], operator, verb, later)
  }

  /** Every token sits under its own code. */
  predicate Indexed(table: Table) {
    forall c :: c in table ==> table[c].code == c
  }

  ghost function Live(table: Table): multiset<ConfirmToken> {
    multiset(table.Values)
  }

  lemma LiveCounts(table: Table, t: ConfirmToken)
    requires Indexed(table)
    ensures Live(table)[t] == if t.code in table && table[t.code] == t then 1 else 0
  {
    if t in table.Values {
      var c :| c in table && table[c] == t;
    }
  }

  /** Eviction splits the table in two and loses nothing. */
  lemma EvictionSplits(table: Table, mono: real)
    requires Indexed(table)
    ensures Live(table) == Live(Unexpired(table, mono)) + Live(Overdue(table, mono))
  {
    forall t ensures Live(table)[t] == Live(Unexpired(table, mono))[t] + Live(Overdue(table, mono))[t] {
      LiveCounts(table, t);
      LiveCounts(Unexpired(table, mono), t);
      LiveCounts(Overdue(table, mono), t);
    }
  }

  lemma LiveWithout(table: Table, code: TokenCode)
    requires Indexed(table) && code in table
    ensures Live(table) == Live(table - {code}) + multiset{table[code]}
  {
    forall t ensures Live(table)[t] == Live(table - {code})[t] + multiset{table[code]}[t] {
      LiveCounts(table, t);
      LiveCounts(table - {code}, t);
    }
  }

  lemma LiveWith(table: Table, t: ConfirmToken)
    requires Indexed(table) && t.code !in table
    ensures Live(table[t.code := t]) == Live(table) + multiset{t}
  {
    LiveWithout(table[t.code := t], t.code);
    assert table[t.code := t] - {t.code} == table;
  }

  // ---- the store -----------------------------------------------------------------------------

  class TokenStore {
    var tokens: Table
    ghost var issued: multiset<ConfirmToken>
    ghost var evicted: multiset<ConfirmToken>
    ghost var popped: multiset<ConfirmToken>

    /** The ledger balances: every token issued is live, evicted or popped, exactly once. */
    ghost predicate Valid()
      reads this
    {
      Indexed(tokens) && issued == Live(tokens) + evicted + popped
    }

    constructor ()
      ensures Valid() && tokens == map[] && issued == multiset{}
    {
      tokens, issued, evicted, popped := map[], multiset{}, multiset{}, multiset{};
    }

    /** Drops every token past its expiry; the order of the sweep does not matter. */
    method Sweep(mono: real)
      modifies this`tokens
      ensures tokens == Unexpired(old(tokens), mono)
    {
      ghost var before := tokens;
      var todo := tokens.Keys;
      while todo != {}
        invariant todo <= tokens.Keys
        invariant forall c :: c in tokens <==> c in before && (c in todo || before[c].expires >= mono)
        invariant forall c :: c in tokens ==> tokens[c] == before[c]
      {
        var c :| c in todo;
        todo := todo - {c};
        if tokens[c].expires < mono { tokens := tokens - {c}; }
      }
    }

    method EvictExpired(mono: real)
      requires Valid()
      modifies this`tokens, this`evicted
      ensures Valid() && tokens == Unexpired(old(tokens), mono)
      ensures evicted == old(evicted) + Live(Overdue(old(tokens), mono))
    {
      EvictionSplits(tokens, mono);
      evicted := evicted + Live(Overdue(tokens, mono));
      Sweep(mono);
    }

    /** Draws again until the code is not in use. */
    method DrawCode(draws: seq<TokenCode>) returns (code: TokenCode)
      requires exists k :: 0 <= k < |draws| && draws[k] !in tokens
      ensures code in draws && code !in tokens
    {
      var k := 0;
      while draws[k] in tokens
        invariant 0 <= k < |draws|
        invariant forall i :: 0 <= i < k ==> draws[i] in tokens
        decreases |draws| - k
      {
        k := k + 1;
      }
      code := draws[k];
    }

    method Put(token: ConfirmToken)
      requires Valid() && token.code !in tokens
      modifies this`tokens, this`issued
      ensures Valid() && tokens == old(tokens)[token.code := token]
      ensures issued == old(issued) + multiset{token}
    {
      LiveWith(tokens, token);
      tokens := tokens[token.code := token];
      issued := issued + multiset{token};
    }

    method Pop(code: TokenCode) returns (token: ConfirmToken)
      requires Valid() && code in tokens
      modifies this`tokens, this`popped
      ensures Valid() && tokens == old(tokens) - {code}
      ensures token == old(tokens)[code] && popped == old(popped) + multiset{token}
    {
      token := tokens[code];
      LiveWithout(tokens, code);
      tokens := tokens - {code};
      popped := popped + multiset{token};
    }

    /**
     * Issues a token under the first drawn code that is not in use.  The draws stand for the random
     * generator, which is asked again for as long as it collides.
     */
    method IssueToken(operator: string, verb: Option<string>, draws: seq<TokenCode>, mono: real, later: real)
      returns (token: ConfirmToken)
      requires Valid() && mono <= later
      requires exists k :: 0 <= k < |draws| && draws[k] !in Unexpired(tokens, mono)
      modifies this
      ensures Valid()
      ensures token.code in draws && token.code !in Unexpired(old(tokens), mono)
      ensures token == ConfirmToken(token.code, operator, later + TOKEN_TTL_S, verb)
      ensures tokens == Unexpired(old(tokens), mono)[token.code := token]
      ensures issued == old(issued) + multiset{token} && popped == old(popped)
      ensures evicted == old(evicted) + Live(Overdue(old(tokens), mono))
    {
      EvictExpired(mono);
      var code := DrawCode(draws);
      token := ConfirmToken(code, operator, later + TOKEN_TTL_S, verb);
      Put(token);
    }

    /**
     * Presents a token.  Whatever the verdict, a token that was found is gone: a mismatch burns it.
     */
    method ConsumeToken(code: TokenCode, operator: string, verb: Option<string>, mono: real, later: real)
      returns (v: Verdict)
      requires Valid() && mono <= later
      modifies this`tokens, this`evicted, this`popped
      ensures Valid()
      ensures v == Presented(old(tokens), code, operator, verb, mono, later)
      ensures tokens == Unexpired(old(tokens), mono) - {code}
      ensures popped == old(popped) + if v.Missing? then multiset{} else multiset{old(tokens)[code]}
      ensures evicted == old(evicted) + Live(Overdue(old(tokens), mono))
    {
      EvictExpired(mono);
      if code !in tokens {
        assert tokens - {code} == tokens;
        return Missing;
      }
      var token := Pop(code);
      if token.expires < later { return Expired; }
      if token.operator != operator { return WrongOperator; }
      if token.verb.Some? && verb.Some? && token.verb.value != verb.value { return WrongAction; }
      return Granted(token);
    }
  }

  /** A token is granted exactly to its own operator, by its expiry, for its own action or for any if unbound. */
  lemma GrantedIff(table: Table, code: TokenCode, operator: string, verb: string, mono: real, later: real)
    requires mono <= later
    ensures Presented(table, code, operator, Some(verb), mono, later).Granted? <==>
              && code in table && later <= table[code].expires
              && table[code].operator == operator
              && (table[code].verb == None || table[code].verb == Some(verb))
  {
  }
}
