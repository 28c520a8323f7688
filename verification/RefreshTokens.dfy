/**
 Refresh token families. A row stands for the token it stores the hash of, and each method is one transaction.
 Times are seconds: `now` of the database, and the clock of the process that compares expiries.
 */
module RefreshTokens {
  import opened Common

  type TokenId = nat
  type FamilyId = nat

  /** REFRESH_TOKEN_TTL_SECONDS */
  const TTL: int := 1_209_600

  datatype Revocation = Revocation(at: int, reason: string)

  const REASON_REUSE: string := "reuse_detected"

  datatype Token = Token(
    user: nat, family: FamilyId, parent: Option<TokenId>, expires: int,
    used: Option<int>, revoked: Option<Revocation>, replacedBy: Option<TokenId>)

  type Table = map<TokenId, Token>

  /** The table, and every identifier that was ever drawn at random: none of them is drawn again. */
  datatype State = State(tokens: Table, ids: set<TokenId>, families: set<FamilyId>)

  datatype Response = Issued(token: TokenId) | Rotated(user: nat, token: TokenId) | Unauthorized | Done

  datatype Action =
    | Issue(user: nat, newToken: TokenId, family: FamilyId, at: int)
    | Rotate(token: TokenId, nextToken: TokenId, dbNow: int, clock: int)
    | Logout(known: TokenId, reason: string, when: int)

  /** UPDATE ... WHERE family_id = f AND revoked_at IS NULL */
  function RevokeFamily(t: Table, f: FamilyId, r: Revocation): Table {
    map id | id in t :: if t[id].family == f && t[id].revoked.None? then t[id].(revoked := Some(r)) else t[id]
  }

  predicate Spent(t: Token) {
    t.used.Some? || t.revoked.Some? || t.replacedBy.Some?
  }

  /** Neither used, revoked nor replaced: the token a client may still exchange before it expires. */
  predicate Live(t: Token) {
    !Spent(t)
  }

  function Fresh(s: State, id: TokenId): State {
    s.(ids := s.ids + {id})
  }

  function Step(s: State, a: Action): (State, Response) {
    match a
    case Issue(user, id, f, at) =>
      (State(s.tokens[id := Token(user, f, None, at + TTL, None, None, None)], s.ids + {id}, s.families + {f}), Issued(id))
    case Rotate(token, next, dbNow, clock) =>
      if token !in s.tokens then (s, Unauthorized)
      else
        var row := s.tokens[token];
        if Spent(row) then (s.(tokens := RevokeFamily(s.tokens, row.family, Revocation(dbNow, REASON_REUSE))), Unauthorized)
        else if row.expires <= clock then (s, Unauthorized)
        else
          var child := Token(row.user, row.family, Some(token), dbNow + TTL, None, None, None);
          (Fresh(s.(tokens := s.tokens[next := child][token := row.(used := Some(dbNow), replacedBy := Some(next))]), next),
           Rotated(row.user, next))
    case Logout(token, reason, when) =>
      if token !in s.tokens then (s, Done)
      else (s.(tokens := RevokeFamily(s.tokens, s.tokens[token].family, Revocation(when, reason))), Done)
  }

  /** What a transaction does to the table alone. */
  function Outcome(t: Table, a: Action): (Table, Response) {
    var (s, r) := Step(State(t, {}, {}), a);
    (s.tokens, r)
  }

  /** Random identifiers are new. */
  predicate Legal(s: State, a: Action) {
    match a
    case Issue(_, id, f, _) => id !in s.ids && f !in s.families
    case Rotate(_, next, _, _) => next !in s.ids
    case Logout(_, _, _) => true
  }

  /** From every state a user can log in, and exchange the token once while it has not expired. */
  lemma IssueThenRotate(s: State, user: nat, at: int, dbNow: int, clock: int) returns (id: TokenId, f: FamilyId, next: TokenId)
    requires s.tokens.Keys <= s.ids
    ensures var issue, rotate := Issue(user, id, f, at), Rotate(id, next, dbNow, clock);
      var issued := Step(s, issue).0;
      && Legal(s, issue) && Legal(issued, rotate)
      && Step(s, issue).1 == Issued(id) && id !in s.tokens
      && Step(issued, rotate).1 == if clock < at + 14 * 24 * 60 * 60 then Rotated(user, next) else Unauthorized
  {
    id := NewNumber(s.ids);
    f := NewNumber(s.families);
    next := NewNumber(s.ids + {id});
  }

  lemma {:induction false} NewNumber(used: set<nat>) returns (n: nat)
    ensures n !in used && forall k | k in used :: k < n
  {
    n := 0;
    if used != {} {
      var k :| k in used;
      var m := NewNumber(used - {k});
      n := Max(m, k + 1);
      assert forall j | j in used :: j == k || j in used - {k};
    }
  }

  class RefreshTokensService {
    var tokens: Table

    constructor ()
      ensures tokens == map[]
    {
      tokens := map[];
    }

    method IssueToken(user: nat, id: TokenId, family: FamilyId, now: int) returns (r: Response)
      modifies this
      ensures (tokens, r) == Outcome(old(tokens), Issue(user, id, family, now))
    {
      tokens := tokens[id := Token(user, family, None, now + TTL, None, None, None)];
      r := Issued(id);
    }

    method RevokeWhere(family: FamilyId, r: Revocation)
      modifies this
      ensures tokens == RevokeFamily(old(tokens), family, r)
    {
      var todo := tokens.Keys;
      while todo != {}
        invariant todo <= tokens.Keys == old(tokens).Keys
        invariant forall id | id in tokens ::
          tokens[id] == if id in todo then old(tokens)[id] else RevokeFamily(old(tokens), family, r)[id]
        decreases |todo|
      {
        var id :| id in todo;
        if tokens[id].family == family && tokens[id].revoked.None? {
          tokens := tokens[id := tokens[id].(revoked := Some(r))];
        }
        todo := todo - {id};
      }
      assert tokens == RevokeFamily(old(tokens), family, r);
    }

    method RotateToken(token: TokenId, next: TokenId, dbNow: int, clock: int) returns (r: Response)
      modifies this
      ensures (tokens, r) == Outcome(old(tokens), Rotate(token, next, dbNow, clock))
    {
      if token !in tokens { return Unauthorized; }
      var row := tokens[token];
      if row.used.Some? || row.revoked.Some? || row.replacedBy.Some? {
        RevokeWhere(row.family, Revocation(dbNow, REASON_REUSE));
        return Unauthorized;
      }
      if row.expires <= clock { return Unauthorized; }
      tokens := tokens[next := Token(row.user, row.family, Some(token), dbNow + TTL, None, None, None)];
      tokens := tokens[token := row.(used := Some(dbNow), replacedBy := Some(next))];
      r := Rotated(row.user, next);
    }

    method RevokeFamilyByToken(token: TokenId, reason: string, now: int)
      modifies this
      ensures tokens == Outcome(old(tokens), Logout(token, reason, now)).0
    {
      if token in tokens { RevokeWhere(tokens[token].family, Revocation(now, reason)); }
    }
  }

  // --- Every family is one chain ---

  predicate Linked(t: Table, chain: seq<TokenId>, i: nat)
    requires i < |chain| && forall k | 0 <= k < |chain| :: chain[k] in t
  {
    var row := t[chain[i]];
    && row.parent == (if i == 0 then None else Some(chain[i - 1]))
    && row.replacedBy == (if i == |chain| - 1 then None else Some(chain[i + 1]))
    && (row.used.Some? <==> i < |chain| - 1)
    && row.user == t[chain[0]].user
  }

  /** `chain` holds the tokens of the family from the first to the newest, each linked to its neighbours both ways. */
  ghost predicate IsChain(t: Table, f: FamilyId, chain: seq<TokenId>) {
    && (forall i, j | 0 <= i < j < |chain| :: chain[i] != chain[j])
    && (forall id :: id in chain <==> id in t && t[id].family == f)
    && (forall k | 0 <= k < |chain| :: chain[k] in t)
    && (forall i | 0 <= i < |chain| :: Linked(t, chain, i))
  }

  ghost predicate Chained(t: Table, f: FamilyId) {
    exists chain :: IsChain(t, f, chain)
  }

  ghost predicate Inv(s: State) {
    && s.tokens.Keys <= s.ids
    && (forall id | id in s.tokens :: s.tokens[id].family in s.families)
    && (forall f :: Chained(s.tokens, f))
  }

  /** At most one token of a family can be exchanged. */
  lemma AtMostOneLive(s: State, a: TokenId, b: TokenId)
    requires Inv(s) && a in s.tokens && b in s.tokens && s.tokens[a].family == s.tokens[b].family
    requires Live(s.tokens[a]) && Live(s.tokens[b])
    ensures a == b
  {
    assert Chained(s.tokens, s.tokens[a].family);
    var chain :| IsChain(s.tokens, s.tokens[a].family, chain);
    assert a in chain && b in chain;
    var i :| 0 <= i < |chain| && chain[i] == a;
    var j :| 0 <= j < |chain| && chain[j] == b;
    assert Linked(s.tokens, chain, i) && Linked(s.tokens, chain, j);
  }

  /** The lineage columns never dangle, and stay within the family. */
  lemma NoDanglingLineage(s: State, id: TokenId)
    requires Inv(s) && id in s.tokens
    ensures var row := s.tokens[id];
      && (row.parent.Some? ==> row.parent.value in s.tokens && s.tokens[row.parent.value].replacedBy == Some(id)
                               && s.tokens[row.parent.value].family == row.family)
      && (row.replacedBy.Some? ==> row.replacedBy.value in s.tokens && s.tokens[row.replacedBy.value].parent == Some(id)
                                   && s.tokens[row.replacedBy.value].family == row.family)
  {
    var f := s.tokens[id].family;
    assert Chained(s.tokens, f);
    var chain :| IsChain(s.tokens, f, chain);
    var i :| 0 <= i < |chain| && chain[i] == id;
    assert Linked(s.tokens, chain, i);
    if i > 0 { assert Linked(s.tokens, chain, i - 1); }
    if i < |chain| - 1 { assert Linked(s.tokens, chain, i + 1); }
  }

  lemma RevokeKeepsChain(t: Table, g: FamilyId, r: Revocation, f: FamilyId, chain: seq<TokenId>)
    requires IsChain(t, f, chain)
    ensures IsChain(RevokeFamily(t, g, r), f, chain)
  {
    forall i | 0 <= i < |chain| ensures chain[i] in RevokeFamily(t, g, r) && Linked(RevokeFamily(t, g, r), chain, i) {
      assert Linked(t, chain, i);
    }
  }

  lemma OtherFamilyKeepsChain(t: Table, t': Table, f: FamilyId, chain: seq<TokenId>)
    requires IsChain(t, f, chain)
    requires forall id | id in t && t[id].family == f :: id in t' && t'[id] == t[id]
    requires forall id | id in t' && t'[id].family == f :: id in t
    requires forall id | id in t && id in t' :: t'[id].family == t[id].family
    ensures IsChain(t', f, chain)
  {
    forall i | 0 <= i < |chain| ensures chain[i] in t' && Linked(t', chain, i) {
      assert Linked(t, chain, i) && chain[i] in chain && chain[0] in chain;
    }
  }

  lemma IssueKeepsInv(s: State, a: Action)
    requires Inv(s) && Legal(s, a) && a.Issue?
    ensures Inv(Step(s, a).0)
  {
    var t, t' := s.tokens, Step(s, a).0.tokens;
    forall f ensures Chained(t', f) {
      if f == a.family {
        assert IsChain(t', f, [a.newToken]);
      } else {
        assert Chained(t, f);
        var chain :| IsChain(t, f, chain);
        OtherFamilyKeepsChain(t, t', f, chain);
      }
    }
  }

  /** A successful rotation appends to the chain of its family. */
  lemma RotationExtends(t: Table, token: TokenId, next: TokenId, child: Token, at: int, chain: seq<TokenId>)
    requires token in t && next !in t && Live(t[token])
    requires IsChain(t, t[token].family, chain)
    requires child.user == t[token].user && child.family == t[token].family && child.parent == Some(token)
    requires child.used.None? && child.replacedBy.None?
    ensures var t' := t[next := child][token := t[token].(used := Some(at), replacedBy := Some(next))];
      IsChain(t', t[token].family, chain + [next])
  {
    var t' := t[next := child][token := t[token].(used := Some(at), replacedBy := Some(next))];
    var longer := chain + [next];
    assert token in chain;
    var i :| 0 <= i < |chain| && chain[i] == token;
    assert Linked(t, chain, i);
    assert i == |chain| - 1;
    assert forall k | 0 <= k < |chain| :: chain[k] in chain;
    assert forall k | 0 <= k < |longer| :: longer[k] in t';
    forall k | 0 <= k < |longer| ensures Linked(t', longer, k) {
      if k < |chain| { assert Linked(t, chain, k); }
      if k == |chain| { assert longer[k - 1] == token; }
    }
  }

  lemma RotateKeepsInv(s: State, a: Action)
    requires Inv(s) && Legal(s, a) && a.Rotate?
    ensures Inv(Step(s, a).0)
  {
    if a.token in s.tokens {
      var t, t', row := s.tokens, Step(s, a).0.tokens, s.tokens[a.token];
      forall f ensures Chained(t', f) {
        assert Chained(t, f);
        var chain :| IsChain(t, f, chain);
        if Spent(row) {
          RevokeKeepsChain(t, row.family, Revocation(a.dbNow, REASON_REUSE), f, chain);
        } else if row.expires > a.clock {
          var child := Token(row.user, row.family, Some(a.token), a.dbNow + TTL, None, None, None);
          if f == row.family {
            RotationExtends(t, a.token, a.nextToken, child, a.dbNow, chain);
          } else {
            OtherFamilyKeepsChain(t, t', f, chain);
          }
        }
      }
    }
  }

  lemma StepKeepsInv(s: State, a: Action)
    requires Inv(s) && Legal(s, a)
    ensures Inv(Step(s, a).0)
  {
    match a
    case Issue(_, _, _, _) => IssueKeepsInv(s, a);
    case Rotate(_, _, _, _) => RotateKeepsInv(s, a);
    case Logout(known, reason, when) =>
      if known in s.tokens {
        forall f ensures Chained(Step(s, a).0.tokens, f) {
          assert Chained(s.tokens, f);
          var chain :| IsChain(s.tokens, f, chain);
          RevokeKeepsChain(s.tokens, s.tokens[known].family, Revocation(when, reason), f, chain);
        }
      }
  }

  // --- Revocation is final ---

  /** No token of the family can ever be exchanged again. */
  predicate Dead(s: State, f: FamilyId) {
    f in s.families && forall id | id in s.tokens && s.tokens[id].family == f :: s.tokens[id].revoked.Some?
  }

  function Run(s: State, actions: seq<Action>): State {
    if actions == [] then s else Step(Run(s, actions[..|actions| - 1]), actions[|actions| - 1]).0
  }

  predicate LegalRun(s: State, actions: seq<Action>) {
    actions == [] || (LegalRun(s, actions[..|actions| - 1]) && Legal(Run(s, actions[..|actions| - 1]), actions[|actions| - 1]))
  }

  const START: State := State(map[], {}, {})

  lemma {:induction false} RunKeepsInv(s: State, actions: seq<Action>)
    requires Inv(s) && LegalRun(s, actions)
    ensures Inv(Run(s, actions))
  {
    if actions != [] {
      RunKeepsInv(s, actions[..|actions| - 1]);
      StepKeepsInv(Run(s, actions[..|actions| - 1]), actions[|actions| - 1]);
    }
  }

  lemma StartInv()
    ensures Inv(START)
  {
    forall f ensures Chained(START.tokens, f) { assert IsChain(START.tokens, f, []); }
  }

  /** A detected reuse and a logout kill the family. */
  lemma RevocationKills(s: State, a: Action)
    requires Inv(s)
    requires (a.Rotate? && a.token in s.tokens && Spent(s.tokens[a.token])) || (a.Logout? && a.known in s.tokens)
    ensures var f := s.tokens[if a.Rotate? then a.token else a.known].family;
      Dead(Step(s, a).0, f) && !Step(s, a).1.Rotated?
  {
  }

  lemma StepKeepsDead(s: State, a: Action, f: FamilyId)
    requires Dead(s, f) && Legal(s, a)
    ensures Dead(Step(s, a).0, f)
    ensures a.Rotate? && a.token in s.tokens && s.tokens[a.token].family == f ==> Step(s, a).1 == Unauthorized
  {
  }

  /** After a detected reuse or a logout, every later rotation of any token of the family is refused. */
  lemma DeadForever(s: State, actions: seq<Action>, f: FamilyId, later: Action)
    requires Dead(s, f) && LegalRun(s, actions)
    requires later.Rotate? && later.token in Run(s, actions).tokens && Run(s, actions).tokens[later.token].family == f
    ensures Step(Run(s, actions), later).1 == Unauthorized
  {
    DeadStays(s, actions, f);
  }

  lemma {:induction false} DeadStays(s: State, actions: seq<Action>, f: FamilyId)
    requires Dead(s, f) && LegalRun(s, actions)
    ensures Dead(Run(s, actions), f)
  {
    if actions != [] {
      DeadStays(s, actions[..|actions| - 1], f);
      StepKeepsDead(Run(s, actions[..|actions| - 1]), actions[|actions| - 1], f);
    }
  }

  /** The first revocation of a token, with its time and reason, is never overwritten. */
  lemma {:induction false} RevocationStays(s: State, actions: seq<Action>, id: TokenId)
    requires s.tokens.Keys <= s.ids && LegalRun(s, actions) && id in s.tokens && s.tokens[id].revoked.Some?
    ensures Run(s, actions).tokens.Keys <= Run(s, actions).ids
    ensures id in Run(s, actions).tokens && Run(s, actions).tokens[id].revoked == s.tokens[id].revoked
  {
    if actions != [] { RevocationStays(s, actions[..|actions| - 1], id); }
  }

  /** A simple expiry is no reuse: the family stays as it is. */
  lemma ExpiryRevokesNothing(s: State, token: TokenId, next: TokenId, dbNow: int, clock: int)
    requires token in s.tokens && Live(s.tokens[token])
    ensures var (s', r) := Step(s, Rotate(token, next, dbNow, clock));
      && (r == Unauthorized <==> s.tokens[token].expires <= clock)
      && (r == Unauthorized ==> s' == s)
      && (r != Unauthorized ==> r == Rotated(s.tokens[token].user, next) && s'.tokens[token].replacedBy == Some(next))
  {
  }

  // --- The rows the transactions write ---

  /** A first token: fourteen days to live, no parent, and nothing spent. */
  lemma IssuedRow(s: State, user: nat, id: TokenId, family: FamilyId, at: int)
    ensures var (s', r) := Step(s, Issue(user, id, family, at));
      && r == Issued(id) && s'.tokens.Keys == s.tokens.Keys + {id}
      && s'.tokens[id] == Token(user, family, None, at + 14 * 24 * 3600, None, None, None)
      && forall x | x in s.tokens && x != id :: s'.tokens[x] == s.tokens[x]
  {
  }

  /** A rotation: the child has its own fourteen days from now, the same user and family, and the parent is used up at the same moment. */
  lemma RotatedRows(s: State, token: TokenId, next: TokenId, dbNow: int, clock: int)
    requires next !in s.tokens
    ensures var (s', r) := Step(s, Rotate(token, next, dbNow, clock));
      && (r.Rotated? <==> token in s.tokens && s.tokens[token].used.None? && s.tokens[token].revoked.None?
                          && s.tokens[token].replacedBy.None? && clock < s.tokens[token].expires)
      && (r.Rotated? ==>
            && r == Rotated(s.tokens[token].user, next) && s'.tokens.Keys == s.tokens.Keys + {next}
            && s'.tokens[next] == Token(s.tokens[token].user, s.tokens[token].family, Some(token), dbNow + 14 * 24 * 3600, None, None, None)
            && s'.tokens[token] == s.tokens[token].(used := Some(dbNow), replacedBy := Some(next))
            && forall x | x in s.tokens && x != token :: s'.tokens[x] == s.tokens[x])
      && (!r.Rotated? ==> r == Unauthorized)
  {
  }

  /** `after` is `before` with the unrevoked tokens of the family revoked at that time for that reason, and nothing else. */
  predicate FamilyRevoked(before: Table, after: Table, f: FamilyId, at: int, reason: string) {
    && after.Keys == before.Keys
    && forall x | x in before ::
         after[x] == if before[x].family == f && before[x].revoked.None? then before[x].(revoked := Some(Revocation(at, reason))) else before[x]
  }

  /** A reused token revokes its family as reuse_detected, at the time of the database. */
  lemma ReuseRevokes(s: State, token: TokenId, next: TokenId, dbNow: int, clock: int)
    requires token in s.tokens && Spent(s.tokens[token])
    ensures FamilyRevoked(s.tokens, Step(s, Rotate(token, next, dbNow, clock)).0.tokens, s.tokens[token].family, dbNow, "reuse_detected")
  {
  }

  /** A logout revokes the family of a known token for the given reason, does nothing for an unknown one, and never fails. */
  lemma LogoutRevokes(s: State, token: TokenId, reason: string, when: int)
    ensures var (s', r) := Step(s, Logout(token, reason, when));
      && r == Done
      && (token in s.tokens ==> FamilyRevoked(s.tokens, s'.tokens, s.tokens[token].family, when, reason))
      && (token !in s.tokens ==> s'.tokens == s.tokens)
  {
  }
}
