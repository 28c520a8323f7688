/**
 The per-process cache of prefilter plans: a bounded LRU map with a time to live, and single-flight loads. A load
 arrives (stores its result) and settles (leaves the in-flight map) in two separate steps, any number of
 other calls between them.
 */
module Resolver {
  import opened Common
  import opened InventoryTables
  import Purchases
  import Runs = InventoryRuns
  import C = Counters
  import P = Prefilter

  /** PrefilterPlan */
  datatype Plan = LegacyScope | SingleType(typeId: TypeId) | ManyTypes

  /** loadPlanFromDatabase reads the mode and at most two types of the event. */
  ghost function LoadPlan(db: Db, e: EventId): Plan {
    if db.mode == Legacy then LegacyScope
    else if e in db.events && |db.events[e].types| == 1 then
      var t :| t in db.events[e].types;
      SingleType(t)
    else ManyTypes
  }

  /** ORDER BY id LIMIT 2 is enough to tell one type from several. */
  method LoadPlanFromDatabase(db: Db, e: EventId) returns (plan: Plan)
    ensures plan == LoadPlan(db, e)
  {
    if db.mode == Legacy { return LegacyScope; }
    if e !in db.events || |db.events[e].types| != 1 { return ManyTypes; }
    assert |db.events[e].types.Keys| == 1;
    var t :| t in db.events[e].types;
    P.OneType(db.events[e].types, t);
    plan := SingleType(t);
  }

  /** What a loaded plan says: the mode, and the type exactly when the event has one. */
  lemma LoadedPlanIs(db: Db, e: EventId)
    ensures LoadPlan(db, e).LegacyScope? <==> db.mode == Legacy
    ensures forall t: TypeId :: LoadPlan(db, e) == SingleType(t) <==>
              db.mode == TicketType && e in db.events && db.events[e].types.Keys == {t}
  {
    if db.mode == TicketType && e in db.events {
      var types := db.events[e].types;
      if |types| == 1 {
        var t :| t in types;
        P.OneType(types, t);
      }
      forall t: TypeId | types.Keys == {t} ensures |types| == 1 && t in types { assert |types| == |types.Keys| == |{t}|; }
    }
  }

  /** In a reachable state, a plan loaded for an event that exists names a counter whose stock row exists. */
  lemma LoadedPlanIsStocked(db: Db, input: Purchases.Input)
    requires Runs.Inv(db) && input.event in db.events && (input.typeId.Some? ==> input.typeId.value in db.events[input.event].types)
    ensures var scope := ScopeOf(LoadPlan(db, input.event), input);
      var key := P.PlanKey(input, scope);
      && (key.Some? ==> P.StockRow(db, key.value).Some?)
      && (key.None? <==> db.mode == TicketType && input.typeId.None? && |db.events[input.event].types| != 1)
  {
    var d := db.events[input.event];
    assert Runs.EventInv(db.mode, d);
    if input.typeId.Some? { TypeIsStocked(db, input.event, input.typeId.value); }
    if |d.types| == 1 {
      var t :| t in d.types;
      P.OneType(d.types, t);
      TypeIsStocked(db, input.event, t);
    }
  }

  lemma TypeIsStocked(db: Db, e: EventId, t: TypeId)
    requires Runs.Inv(db) && e in db.events && t in db.events[e].types
    ensures P.StockRow(db, C.TypeCounter(e, t)).Some? && P.StockRow(db, C.EventCounter(e)).Some?
  {
    assert Runs.EventInv(db.mode, db.events[e]);
  }

  /** The scope createPurchaseTicketType derives from a plan and an explicit choice. */
  function ScopeOf(plan: Plan, input: Purchases.Input): P.Plan {
    match plan
    case LegacyScope => P.LegacyPlan
    case SingleType(t) => P.TypePlan(if input.typeId.Some? then input.typeId else Some(t))
    case ManyTypes => P.TypePlan(input.typeId)
  }

  /** Whatever plan the cache holds, an explicit choice of the buyer decides the counter. */
  lemma ScopeFits(plan: Plan, input: Purchases.Input)
    ensures P.PlanFits(input, ScopeOf(plan, input))
    ensures P.PlanKey(input, ScopeOf(plan, input)).None? <==> plan.ManyTypes? && input.typeId.None?
    ensures plan.LegacyScope? ==> P.PlanKey(input, ScopeOf(plan, input)) == Some(C.EventCounter(input.event))
    ensures !plan.LegacyScope? && input.typeId.Some? ==>
              P.PlanKey(input, ScopeOf(plan, input)) == Some(C.TypeCounter(input.event, input.typeId.value))
    ensures plan.SingleType? && input.typeId.None? ==>
              P.PlanKey(input, ScopeOf(plan, input)) == Some(C.TypeCounter(input.event, plan.typeId))
  {
  }

  /** The counter an event gets when it is created is the one its requests ask, under the plan loaded next. */
  lemma InitialKeyIsAsked(db: Db, e: EventId, t: TypeId, total: int, input: Purchases.Input)
    requires e !in db.events && 0 < total <= INT4_MAX && input.event == e && (input.typeId.Some? ==> input.typeId.value == t)
    ensures var plan := LoadPlan(Runs.Step(db, Runs.Create(e, t, total)), e);
      P.PlanKey(input, ScopeOf(plan, input)) == Some(P.InitialKey(db.mode, e, t))
  {
    var d := Runs.Step(db, Runs.Create(e, t, total)).events[e];
    Purchases.CreatedEventIs(db.mode, t, total);
    assert d.types.Keys == {t};
    assert |d.types.Keys| == 1;
  }

  datatype Entry = Entry(plan: Plan, expiresAt: int)

  /** What happened, in order: the ghost history the freshness of a plan is stated on. */
  datatype Log =
    | Primed(event: EventId, plan: Plan, at: int)
    | Invalidated(dropped: EventId)
    | Started(missed: EventId, token: nat)
    | Arrived(loaded: EventId, loader: nat, result: Plan, when: int)
    | Committed(state: Db)

  datatype Resolution = Hit(plan: Plan) | Joined(token: nat) | Loading(token: nat)

  /** A call that makes everything learned about the event before it obsolete. */
  predicate Resets(l: Log, e: EventId) {
    (l.Primed? && l.event == e) || (l.Invalidated? && l.dropped == e)
  }

  /** prime and invalidate are such calls, for their own event and no other; a load or a commit is not. */
  lemma ResetsIff(l: Log, e: EventId)
    ensures Resets(l, e) <==> l == Invalidated(e) || exists plan, at :: l == Primed(e, plan, at)
  {
  }

  predicate NoResetAfter(log: seq<Log>, i: nat, e: EventId) {
    forall k | i < k < |log| :: !Resets(log[k], e)
  }

  predicate PrimedAt(log: seq<Log>, i: nat, e: EventId, plan: Plan, at: int) {
    i < |log| && log[i] == Primed(e, plan, at) && NoResetAfter(log, i, e)
  }

  /** The database as the last transaction of the history left it. */
  function StateAfter(log: seq<Log>): Option<Db> {
    if log == [] then None
    else if log[|log| - 1].Committed? then Some(log[|log| - 1].state) else StateAfter(log[..|log| - 1])
  }

  /** At the moment `r` of the history the tables said this plan. */
  ghost predicate PlanAt(log: seq<Log>, r: nat, e: EventId, plan: Plan) {
    r <= |log| && StateAfter(log[..r]).Some? && plan == LoadPlan(StateAfter(log[..r]).value, e)
  }

  /** A load that started at `i` read the tables at `r` and arrived at `j`, with no reset since it started. */
  ghost predicate LoadedAt(log: seq<Log>, i: nat, r: nat, j: nat, token: nat, e: EventId, plan: Plan, at: int) {
    && i < r <= j < |log| && log[i] == Started(e, token) && log[j] == Arrived(e, token, plan, at)
    && PlanAt(log, r, e, plan) && NoResetAfter(log, i, e)
  }

  /** The plan was primed, or read from the tables by a load that started, after the last prime or invalidate of the event. */
  ghost predicate Fresh(log: seq<Log>, e: EventId, plan: Plan, at: int) {
    (exists i: nat :: PrimedAt(log, i, e, plan, at))
    || (exists i: nat, r: nat, j: nat, token: nat :: LoadedAt(log, i, r, j, token, e, plan, at))
  }

  /** The commit at `c` was the last one before the moment `r`, it left the event with this plan, and there was no reset since `r`. */
  ghost predicate SaidAt(log: seq<Log>, c: nat, r: nat, e: EventId, plan: Plan) {
    && c < r <= |log| && log[c].Committed? && plan == LoadPlan(log[c].state, e)
    && (forall k | c < k < r :: !log[k].Committed?)
    && forall k | r <= k < |log| :: !Resets(log[k], e)
  }

  /** A fresh plan was primed by the last reset, or is what the tables said at some moment after it. */
  lemma FreshPlanIsCurrent(log: seq<Log>, e: EventId, plan: Plan, at: int)
    requires Fresh(log, e, plan, at)
    ensures (exists i: nat :: i < |log| && log[i] == Primed(e, plan, at) && forall k | i < k < |log| :: !Resets(log[k], e))
            || (exists c: nat, r: nat :: SaidAt(log, c, r, e, plan))
  {
    if i: nat :| PrimedAt(log, i, e, plan, at) {
      assert forall k | i < k < |log| :: !Resets(log[k], e);
    } else {
      var i: nat, r: nat, j: nat, token: nat :| LoadedAt(log, i, r, j, token, e, plan, at);
      var c := LastCommit(log[..r]);
      assert SaidAt(log, c, r, e, plan);
    }
  }

  lemma {:induction false} LastCommit(log: seq<Log>) returns (c: nat)
    requires StateAfter(log).Some?
    ensures c < |log| && log[c].Committed? && StateAfter(log) == Some(log[c].state)
    ensures forall k | c < k < |log| :: !log[k].Committed?
  {
    c := |log| - 1;
    if !log[c].Committed? { c := LastCommit(log[..c]); }
  }

  ghost predicate StartedLive(log: seq<Log>, e: EventId, token: nat) {
    exists i: nat :: i < |log| && log[i] == Started(e, token) && NoResetAfter(log, i, e)
  }

  lemma FreshGrows(log: seq<Log>, l: Log, e: EventId, plan: Plan, at: int)
    requires Fresh(log, e, plan, at) && !Resets(l, e)
    ensures Fresh(log + [l], e, plan, at)
  {
    if i: nat :| PrimedAt(log, i, e, plan, at) {
      assert PrimedAt(log + [l], i, e, plan, at);
    } else {
      var i: nat, r: nat, j: nat, token: nat :| LoadedAt(log, i, r, j, token, e, plan, at);
      assert (log + [l])[..r] == log[..r];
      assert LoadedAt(log + [l], i, r, j, token, e, plan, at);
    }
  }

  lemma StartedGrows(log: seq<Log>, l: Log, e: EventId, token: nat)
    requires StartedLive(log, e, token) && !Resets(l, e)
    ensures StartedLive(log + [l], e, token)
  {
    var i: nat :| i < |log| && log[i] == Started(e, token) && NoResetAfter(log, i, e);
    assert (log + [l])[i] == Started(e, token) && NoResetAfter(log + [l], i, e);
  }

  // --- The recency list ---

  function Remove(s: seq<EventId>, e: EventId): (r: seq<EventId>)
    ensures |r| <= |s|
  {
    if s == [] then [] else if s[0] == e then Remove(s[1..], e) else [s[0]] + Remove(s[1..], e)
  }

  predicate Distinct(s: seq<EventId>) {
    forall i, j | 0 <= i < j < |s| :: s[i] != s[j]
  }

  lemma {:induction false} RemoveFacts(s: seq<EventId>, e: EventId)
    requires Distinct(s)
    ensures Distinct(Remove(s, e)) && (forall x :: x in Remove(s, e) <==> x in s && x != e)
    ensures |Remove(s, e)| == |s| - (if e in s then 1 else 0)
    ensures e !in s ==> Remove(s, e) == s
  {
    if s != [] {
      assert Distinct(s[1..]);
      RemoveFacts(s[1..], e);
      var rest := Remove(s[1..], e);
      assert s == [s[0]] + s[1..];
      assert s[0] !in s[1..];
      if s[0] != e {
        forall i, j | 0 <= i < j < |Remove(s, e)| ensures Remove(s, e)[i] != Remove(s, e)[j] {
          if i == 0 { assert Remove(s, e)[j] == rest[j - 1] && rest[j - 1] in rest; } else { assert rest[i - 1] != rest[j - 1]; }
        }
      }
    }
  }

  function LastN(s: seq<EventId>, n: nat): seq<EventId> {
    if |s| <= n then s else s[|s| - n..]
  }

  /** What happens to an event in the cache: it is served or stored, or it expires or is invalidated. */
  datatype Touch = Used(event: EventId) | Dropped(event: EventId)

  /** The events in order of their last use, without those dropped since. */
  function Recent(touches: seq<Touch>): seq<EventId> {
    if touches == [] then []
    else
      var t := touches[|touches| - 1];
      Remove(Recent(touches[..|touches| - 1]), t.event) + (if t.Used? then [t.event] else [])
  }

  /** One use: the event moves to the end, and the oldest ones leave while there are too many. */
  function Use(order: seq<EventId>, e: EventId, max: nat): seq<EventId> {
    LastN(Remove(order, e) + [e], max)
  }

  /** The bounded list. */
  function Bounded(touches: seq<Touch>, max: nat): seq<EventId> {
    if touches == [] then []
    else
      var t := touches[|touches| - 1];
      var before := Bounded(touches[..|touches| - 1], max);
      if t.Used? then Use(before, t.event, max) else Remove(before, t.event)
  }

  lemma BoundedNext(touches: seq<Touch>, t: Touch, max: nat)
    ensures Bounded(touches + [t], max)
         == if t.Used? then Use(Bounded(touches, max), t.event, max) else Remove(Bounded(touches, max), t.event)
  {
    assert (touches + [t])[..|touches|] == touches;
  }

  lemma {:induction false} RecentDistinct(touches: seq<Touch>)
    ensures Distinct(Recent(touches))
  {
    if touches != [] {
      RecentDistinct(touches[..|touches| - 1]);
      RemoveFacts(Recent(touches[..|touches| - 1]), touches[|touches| - 1].event);
    }
  }

  lemma {:induction false} RemoveJoin(a: seq<EventId>, b: seq<EventId>, e: EventId)
    ensures Remove(a + b, e) == Remove(a, e) + Remove(b, e)
  {
    if a == [] {
      assert a + b == b;
    } else {
      assert (a + b)[1..] == a[1..] + b;
      RemoveJoin(a[1..], b, e);
    }
  }

  /** Truncating before or after a use is the same. */
  lemma TruncateCommutes(s: seq<EventId>, e: EventId, max: nat)
    requires Distinct(s) && max > 0
    ensures Use(LastN(s, max), e, max) == Use(s, e, max)
  {
    if |s| > max {
      var a, b := s[..|s| - max], s[|s| - max..];
      assert s == a + b;
      RemoveJoin(a, b, e);
      RemoveFacts(a, e);
      RemoveFacts(b, e);
      if e in b { forall i | 0 <= i < |a| ensures a[i] != e { assert a[i] == s[i]; } }
      SuffixTail(Remove(a, e), Remove(b, e) + [e], max);
      assert Remove(s, e) + [e] == Remove(a, e) + (Remove(b, e) + [e]);
    }
  }

  lemma SuffixTail(a: seq<EventId>, b: seq<EventId>, n: nat)
    requires |b| >= n || a == []
    ensures LastN(a + b, n) == LastN(b, n)
  {
    assert a == [] ==> a + b == b;
  }

  /** While nothing is dropped the bounded list holds exactly the `max` most recently used events, in order of use. */
  lemma {:induction false} LruKeepsMostRecent(touches: seq<Touch>, max: nat)
    requires max > 0 && forall t | t in touches :: t.Used?
    ensures Bounded(touches, max) == LastN(Recent(touches), max)
  {
    if touches != [] {
      var front, e := touches[..|touches| - 1], touches[|touches| - 1].event;
      LruKeepsMostRecent(front, max);
      RecentDistinct(front);
      TruncateCommutes(Recent(front), e, max);
    }
  }

  predicate IsSuffix(tail: seq<EventId>, s: seq<EventId>) {
    |tail| <= |s| && s[|s| - |tail|..] == tail
  }

  lemma RemoveKeepsSuffix(tail: seq<EventId>, s: seq<EventId>, e: EventId)
    requires IsSuffix(tail, s)
    ensures IsSuffix(Remove(tail, e), Remove(s, e))
  {
    var head := s[..|s| - |tail|];
    assert s == head + tail;
    RemoveJoin(head, tail, e);
  }

  /**
   With drops between the uses, the bounded list is always a tail of the recency list: whatever is cached was used more
   recently than whatever is not, among the events not dropped since their last use.
   */
  lemma {:induction false} LruIsTail(touches: seq<Touch>, max: nat)
    ensures IsSuffix(Bounded(touches, max), Recent(touches)) && |Bounded(touches, max)| <= max
  {
    if touches != [] {
      var front, t := touches[..|touches| - 1], touches[|touches| - 1];
      LruIsTail(front, max);
      RemoveKeepsSuffix(Bounded(front, max), Recent(front), t.event);
      if t.Used? { UseKeepsSuffix(Remove(Bounded(front, max), t.event), Remove(Recent(front), t.event), t.event, max); }
    }
  }

  lemma UseKeepsSuffix(tail: seq<EventId>, s: seq<EventId>, e: EventId, max: nat)
    requires IsSuffix(tail, s)
    ensures IsSuffix(LastN(tail + [e], max), s + [e]) && |LastN(tail + [e], max)| <= max
  {
    assert s == s[..|s| - |tail|] + tail;
  }

  /** A drop can leave room that an evicted event does not return to, so the tail may be shorter than the bound allows. */
  lemma DropLeavesRoom()
    ensures var touches := [Used(1), Used(2), Used(3), Dropped(3)];
      Recent(touches) == [1, 2] && Bounded(touches, 2) == [2]
  {
    var a, b, c := [Used(1)], [Used(1), Used(2)], [Used(1), Used(2), Used(3)];
    assert a[..0] == [] && b[..1] == a && c[..2] == b && [Used(1), Used(2), Used(3), Dropped(3)][..3] == c;
    assert Recent(a) == [1] && Bounded(a, 2) == [1];
    RemoveFacts([1], 2);
    assert Recent(b) == [1, 2] && Bounded(b, 2) == [1, 2];
    RemoveFacts([1, 2], 3);
    assert Recent(c) == [1, 2, 3];
    assert LastN([1, 2] + [3], 2) == [2, 3];
    assert Bounded(c, 2) == [2, 3];
    RemoveJoin([1, 2], [3], 3);
    RemoveJoin([2], [3], 3);
    RemoveFacts([2], 3);
    assert [1, 2] + [3] == [1, 2, 3] && [2] + [3] == [2, 3];
    assert Remove([3], 3) == [];
  }

  // --- What the fields of the cache keep ---

  /** A JavaScript Map: entries, and the order of insertion. */
  ghost predicate MapOk(order: seq<EventId>, cache: map<EventId, Entry>) {
    Distinct(order) && forall e :: e in order <==> e in cache
  }

  ghost predicate EntryFresh(log: seq<Log>, e: EventId, entry: Entry, ttl: int) {
    Fresh(log, e, entry.plan, entry.expiresAt - ttl)
  }

  ghost predicate AllFresh(log: seq<Log>, cache: map<EventId, Entry>, ttl: int) {
    forall e | e in cache :: EntryFresh(log, e, cache[e], ttl)
  }

  ghost predicate AllStarted(log: seq<Log>, inflight: map<EventId, nat>, loadToken: nat) {
    && (forall e | e in inflight :: inflight[e] <= loadToken && StartedLive(log, e, inflight[e]))
    && (forall a, b | a in inflight && b in inflight && inflight[a] == inflight[b] :: a == b)
  }

  lemma FreshNext(log: seq<Log>, l: Log, cache: map<EventId, Entry>, cache': map<EventId, Entry>, ttl: int)
    requires AllFresh(log, cache, ttl)
    requires forall e | e in cache' ::
      (e in cache && cache'[e] == cache[e] && !Resets(l, e)) || EntryFresh(log + [l], e, cache'[e], ttl)
    ensures AllFresh(log + [l], cache', ttl)
  {
    forall e | e in cache' ensures EntryFresh(log + [l], e, cache'[e], ttl) {
      if e in cache && cache'[e] == cache[e] && !Resets(l, e) {
        assert EntryFresh(log, e, cache[e], ttl);
        FreshGrows(log, l, e, cache[e].plan, cache[e].expiresAt - ttl);
      }
    }
  }

  lemma StartedNext(log: seq<Log>, l: Log, inflight: map<EventId, nat>, loadToken: nat)
    requires AllStarted(log, inflight, loadToken) && forall e | e in inflight :: !Resets(l, e)
    ensures AllStarted(log + [l], inflight, loadToken)
  {
    forall e | e in inflight ensures StartedLive(log + [l], e, inflight[e]) {
      StartedGrows(log, l, e, inflight[e]);
    }
  }

  lemma StartedNew(log: seq<Log>, inflight: map<EventId, nat>, loadToken: nat, e: EventId)
    requires AllStarted(log, inflight, loadToken)
    ensures AllStarted(log + [Started(e, loadToken + 1)], inflight[e := loadToken + 1], loadToken + 1)
  {
    var l := Started(e, loadToken + 1);
    StartedNext(log, l, inflight, loadToken);
    assert (log + [l])[|log|] == l && NoResetAfter(log + [l], |log|, e);
  }

  class TicketTypeResolver {
    const ttl: int
    const maxEntries: nat
    var cache: map<EventId, Entry>
    var order: seq<EventId>
    var inflight: map<EventId, nat>
    var loadToken: nat
    ghost var log: seq<Log>
    ghost var touches: seq<Touch>

    ghost predicate Valid()
      reads this
    {
      && ttl > 0
      && CacheOk()
      && AllFresh(log, cache, ttl)
      && AllStarted(log, inflight, loadToken)
    }

    constructor (ttl: int, maxEntries: nat, ghost db: Db)
      requires ttl > 0 && maxEntries > 0
      ensures Valid() && this.ttl == ttl && this.maxEntries == maxEntries
      ensures cache == map[] && inflight == map[] && log == [Committed(db)] && touches == []
    {
      this.ttl, this.maxEntries := ttl, maxEntries;
      cache, order, inflight, loadToken, log, touches := map[], [], map[], 0, [Committed(db)], [];
    }

    /** Somebody commits a transaction; the cache does not notice. */
    ghost method Commit(db: Db)
      requires Valid()
      modifies this`log
      ensures Valid() && log == old(log) + [Committed(db)]
    {
      FreshNext(log, Committed(db), cache, cache, ttl);
      StartedNext(log, Committed(db), inflight, loadToken);
      log := log + [Committed(db)];
    }

    method MapDelete(e: EventId)
      requires MapOk(order, cache)
      modifies this`cache, this`order
      ensures cache == old(cache) - {e} && order == Remove(old(order), e)
      ensures MapOk(order, cache) && |order| == |old(order)| - (if e in old(cache) then 1 else 0)
    {
      RemoveFacts(order, e);
      cache := cache - {e};
      order := Remove(order, e);
    }

    /** Map.set on an absent key. */
    method MapAppend(e: EventId, entry: Entry)
      requires MapOk(order, cache) && e !in cache
      modifies this`cache, this`order
      ensures cache == old(cache)[e := entry] && order == old(order) + [e] && MapOk(order, cache)
    {
      cache := cache[e := entry];
      order := order + [e];
    }

    /** The map within its bound, in the order the touches left. */
    ghost predicate CacheOk()
      reads this
    {
      maxEntries > 0 && MapOk(order, cache) && |order| <= maxEntries && order == Bounded(touches, maxEntries)
    }

    /** The key leaves the map, if it is there. */
    method Drop(e: EventId)
      requires CacheOk()
      modifies this`cache, this`order, this`touches
      ensures CacheOk() && touches == old(touches) + [Dropped(e)]
      ensures cache == old(cache) - {e} && order == Remove(old(order), e)
    {
      BoundedNext(touches, Dropped(e), maxEntries);
      MapDelete(e);
      touches := touches + [Dropped(e)];
    }

    /** getFresh: an expired entry leaves the cache, a served one becomes the most recently used. */
    method GetFresh(e: EventId, now: int) returns (plan: Option<Plan>)
      requires CacheOk()
      modifies this`cache, this`order, this`touches
      ensures CacheOk() && touches == old(touches) + [if plan.Some? then Used(e) else Dropped(e)]
      ensures plan.Some? <==> e in old(cache) && now < old(cache)[e].expiresAt
      ensures plan.Some? ==> plan.value == old(cache)[e].plan
      ensures plan.Some? ==> cache == old(cache) && order == Remove(old(order), e) + [e]
      ensures plan.None? ==> cache == old(cache) - {e} && order == Remove(old(order), e)
    {
      if e !in cache || cache[e].expiresAt <= now {
        Drop(e);
        return None;
      }
      Serve(e);
      plan := Some(cache[e].plan);
    }

    /** LRU touch: the entry moves to the end. */
    method Serve(e: EventId)
      requires CacheOk() && e in cache
      modifies this`order, this`touches, this`cache
      ensures CacheOk() && touches == old(touches) + [Used(e)]
      ensures cache == old(cache) && order == Remove(old(order), e) + [e]
    {
      BoundedNext(touches, Used(e), maxEntries);
      var entry := cache[e];
      MapDelete(e);
      MapAppend(e, entry);
      assert cache == old(cache);
      touches := touches + [Used(e)];
    }

    /** storeInternal: insert as the newest, then evict the oldest beyond the bound. */
    method StoreInternal(e: EventId, plan: Plan, now: int)
      requires CacheOk()
      modifies this`cache, this`order, this`touches
      ensures CacheOk() && touches == old(touches) + [Used(e)] && order == Use(old(order), e, maxEntries)
      ensures e in cache && cache[e] == Entry(plan, now + ttl)
      ensures forall x | x in cache && x != e :: x in old(cache) && cache[x] == old(cache)[x]
    {
      BoundedNext(touches, Used(e), maxEntries);
      MapDelete(e);
      MapAppend(e, Entry(plan, now + ttl));
      ghost var full := order;
      assert full[|full| - 1] == e;
      if |order| > maxEntries { EvictOldest(); }
      assert order == LastN(full, maxEntries);
      assert order[|order| - 1] == e && e in order;
      touches := touches + [Used(e)];
    }

    method EvictOldest()
      requires MapOk(order, cache) && |order| > 0
      modifies this`cache, this`order
      ensures order == old(order)[1..] && cache == old(cache) - {old(order)[0]} && MapOk(order, cache)
    {
      assert order == [order[0]] + order[1..];
      cache := cache - {order[0]};
      order := order[1..];
    }

    /** resolvePrefilterPlan up to its first await: a hit, a ride on a load in flight, or a new load. */
    method Resolve(e: EventId, now: int) returns (r: Resolution)
      requires Valid()
      modifies this
      ensures Valid()
      ensures r.Hit? <==> e in old(cache) && now < old(cache)[e].expiresAt
      ensures touches == old(touches) + [if r.Hit? then Used(e) else Dropped(e)]
      ensures r.Hit? ==> log == old(log) && inflight == old(inflight)
      ensures r.Hit? ==> exists at :: Fresh(old(log), e, r.plan, at) && now < at + ttl
      ensures r.Joined? <==> !r.Hit? && e in old(inflight)
      ensures r.Joined? ==> r.token == old(inflight)[e] && inflight == old(inflight) && log == old(log)
      ensures r.Loading? ==> inflight == old(inflight)[e := r.token] && r.token == old(loadToken) + 1
      ensures r.Loading? ==> log == old(log) + [Started(e, r.token)]
    {
      var hit := Lookup(e, now);
      if hit.Some? { return Hit(hit.value); }
      if e in inflight { return Joined(inflight[e]); }
      var token := StartLoad(e);
      r := Loading(token);
    }

    method Lookup(e: EventId, now: int) returns (hit: Option<Plan>)
      requires Valid()
      modifies this`cache, this`order, this`touches
      ensures Valid()
      ensures hit.Some? <==> e in old(cache) && now < old(cache)[e].expiresAt
      ensures touches == old(touches) + [if hit.Some? then Used(e) else Dropped(e)]
      ensures hit.Some? ==> exists at :: Fresh(log, e, hit.value, at) && now < at + ttl
    {
      ghost var before := cache;
      hit := GetFresh(e, now);
      assert AllFresh(log, cache, ttl) by {
        forall x | x in cache ensures EntryFresh(log, x, cache[x], ttl) { assert EntryFresh(log, x, before[x], ttl); }
      }
      if hit.Some? {
        assert EntryFresh(log, e, before[e], ttl);
        assert Fresh(log, e, hit.value, before[e].expiresAt - ttl);
      }
    }

    method StartLoad(e: EventId) returns (token: nat)
      requires Valid()
      modifies this`inflight, this`loadToken, this`log
      ensures Valid()
      ensures token == old(loadToken) + 1 && inflight == old(inflight)[e := token]
      ensures log == old(log) + [Started(e, token)]
    {
      token := loadToken + 1;
      FreshNext(log, Started(e, token), cache, cache, ttl);
      StartedNew(log, inflight, loadToken, e);
      loadToken := token;
      inflight := inflight[e := token];
      log := log + [Started(e, token)];
    }

    /**
     A load brings the plan it read from the tables at the moment `read` after its start; it is stored only if no prime or
     invalidate came after the load began.
     */
    method Arrive(e: EventId, token: nat, plan: Plan, now: int, ghost read: nat)
      requires Valid()
      requires PlanAt(log, read, e, plan) && forall i | 0 <= i < |log| && log[i] == Started(e, token) :: i < read
      modifies this`cache, this`order, this`log, this`touches
      ensures Valid() && log == old(log) + [Log.Arrived(e, token, plan, now)]
      ensures var mine := e in inflight && inflight[e] == token;
        && (mine ==> order == Use(old(order), e, maxEntries) && e in cache && cache[e] == Entry(plan, now + ttl))
        && (!mine ==> cache == old(cache) && order == old(order))
        && touches == old(touches) + (if mine then [Used(e)] else [])
    {
      var l := Log.Arrived(e, token, plan, now);
      ghost var before := cache;
      if e in inflight && inflight[e] == token {
        StoreInternal(e, plan, now);
        LoadIsFresh(log, e, token, plan, now, read);
      }
      FreshNext(log, l, before, cache, ttl);
      StartedNext(log, l, inflight, loadToken);
      log := log + [l];
    }

    /** The finally block: a load leaves the in-flight map, but never removes another one. */
    method Settle(e: EventId, token: nat)
      requires Valid()
      modifies this`inflight
      ensures Valid()
      ensures inflight == if e in old(inflight) && old(inflight)[e] == token then old(inflight) - {e} else old(inflight)
    {
      if e in inflight && inflight[e] == token { inflight := inflight - {e}; }
    }

    method Prime(e: EventId, plan: Plan, now: int)
      requires Valid()
      modifies this`cache, this`order, this`inflight, this`log, this`touches
      ensures Valid()
      ensures inflight == old(inflight) - {e} && order == Use(old(order), e, maxEntries)
      ensures e in cache && cache[e] == Entry(plan, now + ttl) && log == old(log) + [Primed(e, plan, now)]
      ensures touches == old(touches) + [Used(e)]
    {
      var l := Primed(e, plan, now);
      ghost var before := cache;
      StoreInternal(e, plan, now);
      inflight := inflight - {e};
      assert PrimedAt(log + [l], |log|, e, plan, now);
      FreshNext(log, l, before, cache, ttl);
      StartedNext(log, l, inflight, loadToken);
      log := log + [l];
    }

    method Invalidate(e: EventId)
      requires Valid()
      modifies this`cache, this`order, this`inflight, this`log, this`touches
      ensures Valid()
      ensures cache == old(cache) - {e} && inflight == old(inflight) - {e} && order == Remove(old(order), e)
      ensures log == old(log) + [Invalidated(e)] && touches == old(touches) + [Dropped(e)]
    {
      ghost var before := cache;
      Drop(e);
      inflight := inflight - {e};
      FreshNext(log, Invalidated(e), before, cache, ttl);
      StartedNext(log, Invalidated(e), inflight, loadToken);
      log := log + [Invalidated(e)];
    }
  }

  lemma LoadIsFresh(log: seq<Log>, e: EventId, token: nat, plan: Plan, now: int, read: nat)
    requires StartedLive(log, e, token)
    requires PlanAt(log, read, e, plan) && forall i | 0 <= i < |log| && log[i] == Started(e, token) :: i < read
    ensures Fresh(log + [Log.Arrived(e, token, plan, now)], e, plan, now)
  {
    var i: nat :| i < |log| && log[i] == Started(e, token) && NoResetAfter(log, i, e);
    assert (log + [Log.Arrived(e, token, plan, now)])[..read] == log[..read];
    assert LoadedAt(log + [Log.Arrived(e, token, plan, now)], i, read, |log|, token, e, plan, now);
  }
}
