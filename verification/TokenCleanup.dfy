/** The batched deletion of expired token families, and why no client can see it. */
module TokenCleanup {
  import opened Common
  import opened Arithmetic
  import opened RefreshTokens

  const DAY: int := 86_400

  /** HAVING max(expires_at) < now() - retention, over the rows of the family. */
  ghost predicate Eligible(t: Table, f: FamilyId, now: int, retention: int) {
    && (exists id :: id in t && t[id].family == f)
    && (forall id | id in t && t[id].family == f :: t[id].expires < now - retention)
  }

  ghost function EligibleFamilies(t: Table, now: int, retention: int): set<FamilyId> {
    set id | id in t && Eligible(t, t[id].family, now, retention) :: t[id].family
  }

  /** A family is eligible exactly when its newest token expired longer ago than the retention. */
  lemma EligibleByNewest(t: Table, newest: TokenId, now: int, retention: int)
    requires newest in t && forall id | id in t && t[id].family == t[newest].family :: t[id].expires <= t[newest].expires
    ensures t[newest].family in EligibleFamilies(t, now, retention) <==> now - t[newest].expires > retention
  {
  }

  /** DELETE ... WHERE family_id IN (gone) */
  function Without(t: Table, gone: set<FamilyId>): Table {
    map id | id in t && t[id].family !in gone :: t[id]
  }

  lemma EligibleAfter(t: Table, gone: set<FamilyId>, now: int, retention: int)
    ensures EligibleFamilies(Without(t, gone), now, retention) == EligibleFamilies(t, now, retention) - gone
  {
    var t' := Without(t, gone);
    forall f ensures f in EligibleFamilies(t', now, retention) <==> f in EligibleFamilies(t, now, retention) - gone {
      if f in EligibleFamilies(t', now, retention) {
        var id :| id in t' && t'[id].family == f && Eligible(t', f, now, retention);
        assert forall j | j in t && t[j].family == f :: j in t';
      }
      if f in EligibleFamilies(t, now, retention) - gone {
        var id :| id in t && t[id].family == f && Eligible(t, f, now, retention);
        assert id in t';
      }
    }
  }

  lemma WithoutTwice(t: Table, a: set<FamilyId>, b: set<FamilyId>)
    ensures Without(Without(t, a), b) == Without(t, a + b)
  {
  }

  /** CLEANUP_SQL: LIMIT may choose any families, as many as there are up to the limit. */
  method DeleteBatch(service: RefreshTokensService, now: int, retention: int, limit: nat)
    returns (rows: nat, families: nat, ghost gone: set<FamilyId>)
    modifies service
    ensures gone <= EligibleFamilies(old(service.tokens), now, retention)
    ensures families == |gone| == Min(limit, |EligibleFamilies(old(service.tokens), now, retention)|)
    ensures service.tokens == Without(old(service.tokens), gone)
    ensures rows == |old(service.tokens)| - |service.tokens|
  {
    var t := service.tokens;
    var all := GroupEligible(t, now, retention);
    var target: set<FamilyId> := {};
    while |target| < limit && target != all
      invariant target <= all && |target| <= limit
      decreases |all| - |target|
    {
      assert all == target + (all - target);
      var f :| f in all && f !in target;
      SubsetSmaller(target + {f}, all);
      target := target + {f};
    }
    SubsetSmaller(target, all);
    gone := target;
    service.tokens := Without(t, target);
    assert service.tokens.Keys <= t.Keys;
    SubsetSmaller(service.tokens.Keys, t.Keys);
    rows := |t| - |service.tokens|;
    families := |target|;
  }

  lemma SubsetSmaller<T>(a: set<T>, b: set<T>)
    requires a <= b
    ensures |a| <= |b| && (|a| == |b| ==> a == b)
  {
    assert b == a + (b - a);
    assert |b| == |a| + |b - a|;
  }

  /** GROUP BY family_id HAVING max(expires_at) < bound. */
  method GroupEligible(t: Table, now: int, retention: int) returns (families: set<FamilyId>)
    ensures families == EligibleFamilies(t, now, retention)
  {
    var newest: map<FamilyId, int> := map[];
    var todo := t.Keys;
    while todo != {}
      invariant todo <= t.Keys
      invariant forall f :: f in newest <==> exists id :: id in t.Keys - todo && t[id].family == f
      invariant forall id | id in t.Keys - todo :: t[id].expires <= newest[t[id].family]
      invariant forall f | f in newest :: exists id :: id in t.Keys - todo && t[id].family == f && t[id].expires == newest[f]
      decreases |todo|
    {
      var id :| id in todo;
      var f, x := t[id].family, t[id].expires;
      ghost var before := newest;
      ghost var done := t.Keys - todo;
      newest := newest[f := if f in newest then Max(newest[f], x) else x];
      todo := todo - {id};
      assert t.Keys - todo == done + {id};
      forall g | g in newest
        ensures exists i :: i in t.Keys - todo && t[i].family == g && t[i].expires == newest[g]
      {
        if g == f && newest[f] == x {
          assert id in t.Keys - todo && t[id].family == g;
        } else {
          var i :| i in done && t[i].family == g && t[i].expires == before[g];
          assert i in t.Keys - todo;
        }
      }
    }
    assert t.Keys - todo == t.Keys;
    families := set f | f in newest && newest[f] < now - retention;
    forall f ensures f in families <==> f in EligibleFamilies(t, now, retention) {
      if f in families {
        var id :| id in t && t[id].family == f && t[id].expires == newest[f];
        assert Eligible(t, f, now, retention);
      }
      if f in EligibleFamilies(t, now, retention) {
        assert Eligible(t, f, now, retention);
        var id :| id in t && t[id].family == f && t[id].expires == newest[f];
      }
    }
  }

  datatype Result = Result(deletedRows: nat, deletedFamilies: nat, batches: nat, reachedMaxBatches: bool)

  /**
   cleanupExpiredRefreshTokenFamilies at a fixed time. With k eligible families it runs min(maxBatches, k / batchSize + 1)
   statements, removes min(k, batchSize * batches) families whole, and stops early only when none is left.
   */
  method CleanupExpiredRefreshTokenFamilies(service: RefreshTokensService, now: int, retentionDays: int, batchSize: int, maxBatches: int)
    returns (r: Option<Result>, ghost gone: set<FamilyId>)
    modifies service
    ensures r.None? <==> retentionDays < 0 || batchSize <= 0 || maxBatches <= 0
    ensures r.None? ==> gone == {}
    ensures gone <= EligibleFamilies(old(service.tokens), now, retentionDays * DAY)
    ensures service.tokens == Without(old(service.tokens), gone)
    ensures r.Some? ==>
      var k := |EligibleFamilies(old(service.tokens), now, retentionDays * DAY)|;
      && r.value.batches == Min(maxBatches, k / batchSize + 1)
      && r.value.deletedFamilies == |gone| == Min(k, batchSize * r.value.batches)
      && r.value.deletedRows == |old(service.tokens)| - |service.tokens|
      && (r.value.reachedMaxBatches <==> k >= batchSize * maxBatches)
      && (!r.value.reachedMaxBatches ==> EligibleFamilies(service.tokens, now, retentionDays * DAY) == {})
  {
    gone := {};
    assert Without(service.tokens, {}) == service.tokens;
    if retentionDays < 0 || batchSize <= 0 || maxBatches <= 0 { return None, gone; }
    var rows, families, batches, last, reached, all := DeleteInBatches(service, now, retentionDays * DAY, batchSize, maxBatches);
    gone := all;
    ghost var k := |EligibleFamilies(old(service.tokens), now, retentionDays * DAY)|;
    EligibleAfter(old(service.tokens), gone, now, retentionDays * DAY);
    SubsetSmaller(gone, EligibleFamilies(old(service.tokens), now, retentionDays * DAY));
    if reached { AllBatches(k, batchSize, maxBatches); } else { LastBatch(k, batchSize, batches, last, maxBatches); }
    r := Some(Result(rows, families, batches, reached));
  }

  /** The loop: full batches, until a short one or the bound. */
  method DeleteInBatches(service: RefreshTokensService, now: int, retention: int, batchSize: nat, maxBatches: nat)
    returns (rows: nat, families: nat, batches: nat, last: nat, reached: bool, ghost gone: set<FamilyId>)
    requires batchSize > 0 && maxBatches > 0
    modifies service
    ensures gone <= EligibleFamilies(old(service.tokens), now, retention)
    ensures service.tokens == Without(old(service.tokens), gone)
    ensures rows == |old(service.tokens)| - |service.tokens| && families == |gone|
    ensures reached ==> batches == maxBatches && |gone| == batchSize * maxBatches
    ensures !reached ==> 0 < batches <= maxBatches && last < batchSize && |gone| == batchSize * (batches - 1) + last
    ensures !reached ==> gone == EligibleFamilies(old(service.tokens), now, retention)
  {
    ghost var start := service.tokens;
    assert Without(start, {}) == start;
    gone, rows, families, batches, last := {}, 0, 0, 0, 0;
    while batches < maxBatches
      invariant batches <= maxBatches
      invariant gone <= EligibleFamilies(start, now, retention) && service.tokens == Without(start, gone)
      invariant families == |gone| == batchSize * batches
      invariant rows == |start| - |service.tokens|
      decreases maxBatches - batches
    {
      var deletedRows, deletedFamilies, all := NextBatch(service, start, gone, now, retention, batchSize);
      NextMultiple(batches, batchSize);
      gone := all;
      batches, rows, families := batches + 1, rows + deletedRows, families + deletedFamilies;
      if deletedFamilies < batchSize {
        last, reached := deletedFamilies, false;
        return;
      }
    }
    reached := true;
  }

  /** One statement of the loop, after the families in `gone` were deleted from `start`. */
  method NextBatch(service: RefreshTokensService, ghost start: Table, ghost gone: set<FamilyId>, now: int, retention: int, limit: nat)
    returns (rows: nat, families: nat, ghost all: set<FamilyId>)
    requires service.tokens == Without(start, gone) && gone <= EligibleFamilies(start, now, retention)
    modifies service
    ensures service.tokens == Without(start, all) && all <= EligibleFamilies(start, now, retention)
    ensures |all| == |gone| + families && families == Min(limit, |EligibleFamilies(start, now, retention)| - |gone|)
    ensures families < limit ==> all == EligibleFamilies(start, now, retention)
    ensures rows == |old(service.tokens)| - |service.tokens|
  {
    EligibleAfter(start, gone, now, retention);
    ghost var batch;
    rows, families, batch := DeleteBatch(service, now, retention, limit);
    Disjoint(EligibleFamilies(start, now, retention), gone, batch);
    WithoutTwice(start, gone, batch);
    all := gone + batch;
  }

  lemma Disjoint(eligible: set<FamilyId>, gone: set<FamilyId>, batch: set<FamilyId>)
    requires gone <= eligible && batch <= eligible - gone
    ensures |gone + batch| == |gone| + |batch| && gone + batch <= eligible
    ensures |eligible - gone| == |eligible| - |gone|
    ensures |batch| == |eligible - gone| ==> gone + batch == eligible
  {
    assert eligible == gone + (eligible - gone);
    SubsetSmaller(batch, eligible - gone);
  }

  /** A short batch is the last one. */
  lemma LastBatch(k: nat, size: nat, batches: nat, last: nat, max: nat)
    requires 0 < batches <= max && last < size && k == size * (batches - 1) + last
    ensures batches == Min(max, k / size + 1) && Min(k, size * batches) == k < size * max
  {
    DivUnique(k, size, batches - 1, last);
    assert size * batches == size * (batches - 1) + size;
    assert size * batches <= size * max;
  }

  lemma AllBatches(k: nat, size: nat, max: nat)
    requires 0 < size && k >= size * max
    ensures max == Min(max, k / size + 1) && Min(k, size * max) == size * max
  {
    assert k == size * (k / size) + k % size;
    MultipleSize(size, max - k / size);
  }

  // --- The advisory lock ---

  class AdvisoryLock {
    /** The session that holds REFRESH_TOKEN_CLEANUP_ADVISORY_LOCK_KEY. */
    var holder: Option<nat>

    constructor ()
      ensures holder.None?
    {
      holder := None;
    }
  }

  datatype Locked = Skipped | Completed(result: Result) | Refused

  /** runRefreshTokenCleanupWithLock: one run at a time, and the lock is given back unless the unlock itself fails. */
  method RunRefreshTokenCleanupWithLock(
    lock: AdvisoryLock, session: nat, service: RefreshTokensService,
    now: int, retentionDays: int, batchSize: int, maxBatches: int, unlockFails: bool) returns (r: Locked)
    requires lock.holder != Some(session)
    modifies lock, service
    ensures r.Skipped? <==> old(lock.holder).Some?
    ensures r.Skipped? ==> service.tokens == old(service.tokens) && lock.holder == old(lock.holder)
    ensures !r.Skipped? ==> lock.holder == if unlockFails then Some(session) else None
    ensures r.Completed? && !r.result.reachedMaxBatches ==>
              service.tokens == Without(old(service.tokens), EligibleFamilies(old(service.tokens), now, retentionDays * DAY))
    ensures r.Completed? ==> batchSize > 0
    ensures r.Completed? ==>
      var k := |EligibleFamilies(old(service.tokens), now, retentionDays * DAY)|;
      && r.result.batches == Min(maxBatches, k / batchSize + 1)
      && r.result.deletedFamilies == Min(k, batchSize * r.result.batches)
      && r.result.deletedRows == |old(service.tokens)| - |service.tokens|
    ensures r.Refused? <==> old(lock.holder).None? && (retentionDays < 0 || batchSize <= 0 || maxBatches <= 0)
    ensures r.Refused? ==> service.tokens == old(service.tokens)
  {
    if lock.holder.Some? { return Skipped; }
    lock.holder := Some(session);
    ghost var start := service.tokens;
    var result, gone := CleanupExpiredRefreshTokenFamilies(service, now, retentionDays, batchSize, maxBatches);
    EligibleAfter(start, gone, now, retentionDays * DAY);
    r := if result.Some? then Completed(result.value) else Refused;
    assert Without(start, {}) == start;
    if !unlockFails { lock.holder := None; }
  }

  // --- Cleanup cannot be observed ---

  /** A run of clients with cleanup statements at any points. */
  datatype Event = Act(action: Action) | Clean(gone: set<FamilyId>, at: int)

  function TimeOf(ev: Event): int {
    match ev
    case Act(Issue(_, _, _, at)) => at
    case Act(Rotate(_, _, dbNow, _)) => dbNow
    case Act(Logout(_, _, when)) => when
    case Clean(_, at) => at
  }

  function Swept(s: State, ev: Event): State {
    if ev.Act? then Step(s, ev.action).0 else s.(tokens := Without(s.tokens, ev.gone))
  }

  /** A cleanup takes away the rows of the families it names; no other row changes, and drawn identifiers stay drawn. */
  lemma SweptRows(s: State, gone: set<FamilyId>, at: int)
    ensures var s' := Swept(s, Clean(gone, at));
      && s'.ids == s.ids && s'.families == s.families
      && forall id :: (id in s'.tokens <==> id in s.tokens && s.tokens[id].family !in gone)
                      && (id in s'.tokens ==> s'.tokens[id] == s.tokens[id])
  {
  }

  function Unswept(s: State, ev: Event): State {
    if ev.Act? then Step(s, ev.action).0 else s
  }

  function RunSwept(s: State, trace: seq<Event>): State {
    if trace == [] then s else Swept(RunSwept(s, trace[..|trace| - 1]), trace[|trace| - 1])
  }

  function RunUnswept(s: State, trace: seq<Event>): State {
    if trace == [] then s else Unswept(RunUnswept(s, trace[..|trace| - 1]), trace[|trace| - 1])
  }

  function Answers(s: State, ev: Event): seq<Response> {
    if ev.Act? then [Step(s, ev.action).1] else []
  }

  function SweptAnswers(s: State, trace: seq<Event>): seq<Response> {
    if trace == [] then []
    else SweptAnswers(s, trace[..|trace| - 1]) + Answers(RunSwept(s, trace[..|trace| - 1]), trace[|trace| - 1])
  }

  function UnsweptAnswers(s: State, trace: seq<Event>): seq<Response> {
    if trace == [] then []
    else UnsweptAnswers(s, trace[..|trace| - 1]) + Answers(RunUnswept(s, trace[..|trace| - 1]), trace[|trace| - 1])
  }

  /**
   Time moves on, random identifiers are new, each cleanup deletes eligible families only, and the process that
   compares expiries lags the database by at most the retention.
   */
  ghost predicate Timely(s: State, trace: seq<Event>, start: int, retention: int) {
    trace == [] ||
    var front, ev := trace[..|trace| - 1], trace[|trace| - 1];
    && Timely(s, front, start, retention)
    && TimeOf(ev) >= LastTime(front, start)
    && (ev.Act? ==> Legal(RunUnswept(s, front), ev.action))
    && (ev.Act? && ev.action.Rotate? ==> ev.action.clock >= ev.action.dbNow - retention)
    && (ev.Clean? ==> ev.gone <= EligibleFamilies(RunSwept(s, front).tokens, ev.at, retention))
  }

  function LastTime(trace: seq<Event>, start: int): int {
    if trace == [] then start else TimeOf(trace[|trace| - 1])
  }

  /** What the swept table lacks are whole families, expired for longer than the retention. */
  ghost predicate Simulates(full: State, swept: State, now: int, retention: int) {
    && swept.ids == full.ids && swept.families == full.families
    && full.tokens.Keys <= full.ids
    && (forall id | id in full.tokens :: full.tokens[id].family in full.families)
    && (forall id | id in swept.tokens :: id in full.tokens && swept.tokens[id] == full.tokens[id])
    && (forall id | id in full.tokens && id !in swept.tokens ::
          && full.tokens[id].expires < now - retention
          && forall j | j in swept.tokens :: swept.tokens[j].family != full.tokens[id].family)
  }

  lemma StepSimulates(full: State, swept: State, now: int, retention: int, a: Action)
    requires Simulates(full, swept, now, retention) && Legal(full, a)
    requires TimeOf(Act(a)) >= now
    requires a.Rotate? ==> a.clock >= a.dbNow - retention
    ensures Step(full, a).1 == Step(swept, a).1
    ensures Simulates(Step(full, a).0, Step(swept, a).0, TimeOf(Act(a)), retention)
  {
  }

  lemma CleanSimulates(full: State, swept: State, now: int, retention: int, gone: set<FamilyId>, at: int)
    requires Simulates(full, swept, now, retention) && at >= now
    requires gone <= EligibleFamilies(swept.tokens, at, retention)
    ensures Simulates(full, swept.(tokens := Without(swept.tokens, gone)), at, retention)
  {
    forall id | id in swept.tokens && swept.tokens[id].family in gone ensures swept.tokens[id].expires < at - retention {
      assert Eligible(swept.tokens, swept.tokens[id].family, at, retention);
    }
  }

  /** Whatever cleanup statements run between the requests, every request is answered as if none had. */
  lemma {:induction false} CleanupUnobservable(s: State, trace: seq<Event>, start: int, retention: int)
    requires Inv(s) && Timely(s, trace, start, retention)
    ensures SweptAnswers(s, trace) == UnsweptAnswers(s, trace)
    ensures Simulates(RunUnswept(s, trace), RunSwept(s, trace), LastTime(trace, start), retention)
  {
    if trace != [] {
      var front, ev := trace[..|trace| - 1], trace[|trace| - 1];
      CleanupUnobservable(s, front, start, retention);
      var full, swept := RunUnswept(s, front), RunSwept(s, front);
      if ev.Act? {
        StepSimulates(full, swept, LastTime(front, start), retention, ev.action);
      } else {
        CleanSimulates(full, swept, LastTime(front, start), retention, ev.gone, ev.at);
      }
    }
  }

  /** Deleting families whole leaves every other family a chain: no lineage column ever dangles. */
  lemma CleanupKeepsInv(s: State, gone: set<FamilyId>)
    requires Inv(s)
    ensures Inv(s.(tokens := Without(s.tokens, gone)))
  {
    forall f ensures Chained(Without(s.tokens, gone), f) {
      assert Chained(s.tokens, f);
      var chain :| IsChain(s.tokens, f, chain);
      if f in gone {
        assert IsChain(Without(s.tokens, gone), f, []);
      } else {
        OtherFamilyKeepsChain(s.tokens, Without(s.tokens, gone), f, chain);
      }
    }
  }

  lemma {:induction false} SweptRunKeepsInv(s: State, trace: seq<Event>, start: int, retention: int)
    requires Inv(s) && Timely(s, trace, start, retention)
    ensures Inv(RunSwept(s, trace))
  {
    if trace != [] {
      var front, ev := trace[..|trace| - 1], trace[|trace| - 1];
      SweptRunKeepsInv(s, front, start, retention);
      CleanupUnobservable(s, front, start, retention);
      if ev.Act? { StepKeepsInv(RunSwept(s, front), ev.action); } else { CleanupKeepsInv(RunSwept(s, front), ev.gone); }
    }
  }

  /** The bound on the clocks is needed: a deleted token is missed exactly when its owner's clock still accepts it. */
  lemma CleanupObservedIff(s: State, gone: set<FamilyId>, token: TokenId, next: TokenId, dbNow: int, clock: int)
    requires token in s.tokens && s.tokens[token].family in gone
    ensures var a := Rotate(token, next, dbNow, clock);
      Step(s, a).1 != Step(s.(tokens := Without(s.tokens, gone)), a).1
      <==> Live(s.tokens[token]) && clock < s.tokens[token].expires
  {
  }
}
