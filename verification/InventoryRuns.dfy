/** What holds in every committed state, whatever requests arrived and whoever was the active writer. */
module InventoryRuns {
  import opened Common
  import opened Sums
  import opened InventoryTables
  import opened InventoryTriggers
  import opened InventoryMessages
  import opened Purchases
  import opened WriterSwitch

  /** Committed transactions. AddType is the environment adding a type with stock through the active type writer. */
  datatype Action =
    | Create(event: EventId, newType: TypeId, total: int)
    | Buy(input: Input, newId: nat, staleMiss: bool)
    | Switch(target: Mode, revisionStable: bool)
    | AddType(toEvent: EventId, addedType: TypeId, name: string, total: int)

  /** An INSERT on ticket_types followed by one on ticket_type_inventory. */
  ghost function AddTypeSpec(db: Db, e: EventId, t: TypeId, name: string, total: int): Db {
    if e !in db.events || t in db.events[e].types then db
    else
      var d := db.events[e].(types := db.events[e].types[t := name]);
      if !TypeAccepted(db.mode, d, t, Row(total, total, 0)) then db
      else db.(events := db.events[e := TypeWritten(d, t, Row(total, total, 0))])
  }

  ghost function Step(db: Db, a: Action): Db {
    match a
    case Create(e, t, total) =>
      if 0 < total <= INT4_MAX && e !in db.events then db.(events := db.events[e := CreatedEvent(db.mode, t, total)]) else db
    case Buy(input, newId, stale) => if ValidInput(input) then PurchaseSpec(db, input, newId, stale).0 else db
    case Switch(target, stable) => SwitchSpec(db, target, stable).0
    case AddType(e, t, name, total) => AddTypeSpec(db, e, t, name, total)
  }

  ghost function Exec(db: Db, run: seq<Action>): Db
  {
    if run == [] then db else Step(Exec(db, run[..|run| - 1]), run[|run| - 1])
  }

  const EMPTY: Db := Db(Legacy, map[])

  // --- The invariant of one event ---

  ghost predicate EventInv(mode: Mode, d: EventData) {
    && d.defaultType.Some? && d.defaultType.value in d.types
    && d.stock.Keys == d.types.Keys
    && (mode == Legacy ==> d.types.Keys == {d.defaultType.value})
    && d.legacy.Some? && RowOk(d.legacy.value)
    && d.legacy.value.total == Sum(Totals(d.stock))
    && d.legacy.value.remaining == Sum(Remainings(d.stock))
    && (forall t | t in d.stock :: RowOk(d.stock[t]) && d.stock[t].version <= d.legacy.value.version)
    && (forall t | t in d.stock :: d.stock[t].total - d.stock[t].remaining == Sold(d.purchases, t))
    && (forall p | p in d.purchases :: p.typeId in d.types && p.quantity > 0)
    && KeysUnique(d.purchases)
  }

  ghost predicate Inv(db: Db) {
    forall e | e in db.events :: EventInv(db.mode, db.events[e])
  }

  lemma CreatedEventInv(mode: Mode, t: TypeId, total: int)
    requires 0 < total <= INT4_MAX
    ensures EventInv(mode, CreatedEvent(mode, t, total))
  {
    var row := Row(total, total, 0);
    assert map[][t := row] == map[t := row];
    TotalsSingleton(t, row);
  }

  lemma AddedTypeInv(d: EventData, t: TypeId, name: string, total: int)
    requires EventInv(TicketType, d) && t !in d.types
    requires TypeAccepted(TicketType, d.(types := d.types[t := name]), t, Row(total, total, 0))
    ensures EventInv(TicketType, TypeWritten(d.(types := d.types[t := name]), t, Row(total, total, 0)))
  {
    TotalsUpdate(d.stock, t, Row(total, total, 0));
    NothingSold(d.purchases, t);
  }

  lemma {:induction false} NothingSold(ps: seq<Purchase>, t: TypeId)
    requires forall p | p in ps :: p.typeId != t
    ensures Sold(ps, t) == 0
  {
    if ps != [] { NothingSold(ps[..|ps| - 1], t); }
  }

  lemma RejectedInv(mode: Mode, d: EventData, p: Purchase)
    requires EventInv(mode, d) && p.typeId in d.types && p.quantity > 0 && p.status == Rejected
    requires KeysUnique(d.purchases + [p])
    ensures EventInv(mode, d.(purchases := d.purchases + [p]))
  {
    forall t | t in d.stock ensures Sold(d.purchases + [p], t) == Sold(d.purchases, t) {
      SoldAppend(d.purchases, p, t);
    }
  }

  /** The single-type aggregate of legacy mode: the default type carries the whole legacy row. */
  lemma LegacySingle(d: EventData)
    requires EventInv(Legacy, d)
    ensures var t := d.defaultType.value;
      d.stock == map[t := d.stock[t]]
      && d.stock[t].total == d.legacy.value.total && d.stock[t].remaining == d.legacy.value.remaining
  {
    var t := d.defaultType.value;
    assert d.stock == map[t := d.stock[t]];
    TotalsSingleton(t, d.stock[t]);
  }

  lemma ConfirmedLegacyInv(d: EventData, p: Purchase, row: Row)
    requires EventInv(Legacy, d) && RowOk(row)
    requires p.typeId == d.defaultType.value && p.quantity > 0 && p.status == Confirmed
    requires row == Decremented(d.legacy.value, p.quantity)
    requires KeysUnique(d.purchases + [p])
    ensures EventInv(Legacy, LegacyWritten(d, row).(purchases := d.purchases + [p]))
  {
    var t := d.defaultType.value;
    LegacySingle(d);
    assert d.stock[t := row] == map[t := row];
    TotalsSingleton(t, row);
    SoldAppend(d.purchases, p, t);
  }

  lemma ConfirmedTypeInv(d: EventData, p: Purchase, row: Row)
    requires EventInv(TicketType, d)
    requires p.typeId in d.stock && p.quantity > 0 && p.status == Confirmed
    requires row == Decremented(d.stock[p.typeId], p.quantity)
    requires TypeAccepted(TicketType, d, p.typeId, row)
    requires KeysUnique(d.purchases + [p])
    ensures EventInv(TicketType, TypeWritten(d, p.typeId, row).(purchases := d.purchases + [p]))
  {
    TotalsUpdate(d.stock, p.typeId, row);
    forall t | t in d.stock
      ensures Sold(d.purchases + [p], t) == Sold(d.purchases, t) + (if t == p.typeId then p.quantity else 0)
    {
      SoldAppend(d.purchases, p, t);
    }
  }

  lemma PurchaseKeepsInv(d: EventData, mode: Mode, input: Input, newId: nat, stale: bool)
    requires EventInv(mode, d) && ValidInput(input)
    ensures EventInv(mode, PurchaseOn(d, mode, input, newId, stale).0)
  {
    var (d', out) := PurchaseOn(d, mode, input, newId, stale);
    PurchaseKeepsKeysUnique(d, mode, input, newId, stale);
    if out.Created? {
      var t := ResolveType(d, mode, input.typeId).id;
      var attempt := AttemptPurchase(d, mode, t, input.quantity);
      var p := NewPurchase(input, newId, t, attempt.confirmed, attempt.after.legacy.value.remaining);
      assert d' == attempt.after.(purchases := d.purchases + [p]);
      if !attempt.confirmed {
        RejectedInv(mode, d, p);
      } else if mode == Legacy {
        ConfirmedLegacyInv(d, p, Decremented(d.legacy.value, input.quantity));
      } else {
        ConfirmedTypeInv(d, p, Decremented(d.stock[t], input.quantity));
      }
    }
  }

  lemma PurchaseSpecKeepsInv(db: Db, input: Input, newId: nat, stale: bool)
    requires Inv(db) && ValidInput(input)
    ensures Inv(PurchaseSpec(db, input, newId, stale).0)
  {
    if input.event in db.events { PurchaseKeepsInv(db.events[input.event], db.mode, input, newId, stale); }
  }

  /** Every committed transaction keeps the invariant of every event. */
  lemma StepKeepsInv(db: Db, a: Action)
    requires Inv(db)
    ensures Inv(Step(db, a))
  {
    match a
    case Create(e, t, total) =>
      if 0 < total <= INT4_MAX && e !in db.events { CreatedEventInv(db.mode, t, total); }
    case Buy(input, newId, stale) =>
      if ValidInput(input) { PurchaseSpecKeepsInv(db, input, newId, stale); }
    case Switch(target, stable) =>
      SwitchKeepsInv(db, target, stable);
    case AddType(e, t, name, total) =>
      AddTypeKeepsInv(db, e, t, name, total);
  }

  lemma AddTypeKeepsInv(db: Db, e: EventId, t: TypeId, name: string, total: int)
    requires Inv(db)
    ensures Inv(AddTypeSpec(db, e, t, name, total))
  {
    if e in db.events && t !in db.events[e].types
       && TypeAccepted(db.mode, db.events[e].(types := db.events[e].types[t := name]), t, Row(total, total, 0)) {
      AddedTypeInv(db.events[e], t, name, total);
    }
  }

  lemma SwitchKeepsInv(db: Db, target: Mode, stable: bool)
    requires Inv(db)
    ensures Inv(SwitchSpec(db, target, stable).0)
  {
    var (db', passed) := SwitchSpec(db, target, stable);
    if passed && target == Legacy {
      forall e | e in db.events ensures EventInv(Legacy, db.events[e]) {
        assert !Violates(NonDefaultTypeInventoryInLegacyMode, db'.events[e], Legacy);
        assert db.events[e].types.Keys == {db.events[e].defaultType.value};
      }
    }
  }

  lemma {:induction false} RunKeepsInv(db: Db, run: seq<Action>)
    requires Inv(db)
    ensures Inv(Exec(db, run))
  {
    if run != [] {
      RunKeepsInv(db, run[..|run| - 1]);
      StepKeepsInv(Exec(db, run[..|run| - 1]), run[|run| - 1]);
    }
  }

  // --- Conservation ---

  /**
   In every reachable committed state, across any sequence of writer switches: both tables agree, no stock
   is negative or above its total, and what is missing from the stock is exactly what was confirmed,
   per type and per event.
   */
  lemma Conservation(run: seq<Action>, e: EventId)
    requires e in Exec(EMPTY, run).events
    ensures var d := Exec(EMPTY, run).events[e];
      && d.legacy.Some?
      && d.legacy.value.total == Sum(Totals(d.stock)) && d.legacy.value.remaining == Sum(Remainings(d.stock))
      && 0 <= d.legacy.value.remaining <= d.legacy.value.total
      && d.legacy.value.total - d.legacy.value.remaining == SoldInEvent(d.purchases)
      && (forall t | t in d.stock :: 0 <= d.stock[t].remaining <= d.stock[t].total
                                     && d.stock[t].total - d.stock[t].remaining == Sold(d.purchases, t))
  {
    RunKeepsInv(EMPTY, run);
    var d := Exec(EMPTY, run).events[e];
    assert EventInv(Exec(EMPTY, run).mode, d);
    SumDifference(Totals(d.stock), Remainings(d.stock), SoldPerType(d.purchases, d.stock.Keys));
    SoldByType(d.purchases, d.stock.Keys);
  }

  /**
   In every reachable state, a mode switch succeeds exactly when the current mode is the source, the schema
   stands still and, for the way back to legacy, no event has grown a second type.
   */
  lemma SwitchSucceedsIff(db: Db, target: Mode, stable: bool)
    requires Inv(db)
    ensures SwitchSpec(db, target, stable).1 <==>
      db.mode == target.Opposite() && stable
      && (target == Legacy ==> forall e | e in db.events :: |db.events[e].types| == 1)
  {
    forall e | e in db.events
      ensures forall expected :: EventClean(db.events[e], expected) <==> (expected == Legacy ==> |db.events[e].types| == 1)
      ensures db.mode == Legacy ==> |db.events[e].types| == 1
    {
      EventCleanIff(db.mode, db.events[e], Legacy);
      EventCleanIff(db.mode, db.events[e], TicketType);
    }
  }

  lemma EventCleanIff(mode: Mode, d: EventData, expected: Mode)
    requires EventInv(mode, d)
    ensures EventClean(d, expected) <==> (expected == Legacy ==> |d.types| == 1)
    ensures mode == Legacy ==> |d.types| == 1
  {
    var others := d.types.Keys - {d.defaultType.value};
    assert d.types.Keys == {d.defaultType.value} + others;
    assert |d.types| == |d.types.Keys| == 1 + |others|;
    if |d.types| != 1 {
      var t :| t in others;
      assert expected == Legacy ==> Violates(NonDefaultTypeInventoryInLegacyMode, d, expected);
    } else {
      assert others == {};
    }
    forall c | c != NonDefaultTypeInventoryInLegacyMode ensures !Violates(c, d, expected) {}
  }

  // --- Versions ---

  /** `b` is a later state of the event `a` was: versions never fall, and an equal version means an equal row. */
  ghost predicate Later(a: EventData, b: EventData) {
    && a.legacy.Some? && b.legacy.Some?
    && a.types.Keys <= b.types.Keys && a.stock.Keys <= b.stock.Keys
    && (forall t | t in a.types :: b.types[t] == a.types[t])
    && a.legacy.value.version <= b.legacy.value.version
    && (a.legacy.value.version == b.legacy.value.version ==> a.legacy == b.legacy && a.stock == b.stock)
    && (forall t | t in a.stock :: a.stock[t].version <= b.stock[t].version)
    && (forall t | t in a.stock && a.stock[t].version == b.stock[t].version :: a.stock[t] == b.stock[t])
    && |a.purchases| <= |b.purchases| && b.purchases[..|a.purchases|] == a.purchases
  }

  ghost predicate LaterDb(a: Db, b: Db) {
    a.events.Keys <= b.events.Keys && forall e | e in a.events :: Later(a.events[e], b.events[e])
  }

  lemma LaterTransitive(a: EventData, b: EventData, c: EventData)
    requires Later(a, b) && Later(b, c)
    ensures Later(a, c)
  {
    assert c.purchases[..|a.purchases|] == b.purchases[..|a.purchases|];
  }

  lemma LaterReflexive(mode: Mode, d: EventData)
    requires EventInv(mode, d)
    ensures Later(d, d)
  {
  }

  lemma AttemptIsLater(d: EventData, mode: Mode, t: TypeId, quantity: int)
    requires EventInv(mode, d) && t in d.types && quantity > 0
    requires AttemptPurchase(d, mode, t, quantity).Outcome?
    ensures Later(d, AttemptPurchase(d, mode, t, quantity).after)
  {
  }

  lemma PurchaseIsLater(d: EventData, mode: Mode, input: Input, newId: nat, stale: bool)
    requires EventInv(mode, d) && ValidInput(input)
    ensures Later(d, PurchaseOn(d, mode, input, newId, stale).0)
  {
    var (d', out) := PurchaseOn(d, mode, input, newId, stale);
    PurchaseKeepsKeysUnique(d, mode, input, newId, stale);
    LaterReflexive(mode, d);
    if out.Created? {
      AttemptIsLater(d, mode, ResolveType(d, mode, input.typeId).id, input.quantity);
    }
  }

  lemma AddedTypeIsLater(d: EventData, t: TypeId, name: string, total: int)
    requires EventInv(TicketType, d) && t !in d.types
    ensures Later(d, TypeWritten(d.(types := d.types[t := name]), t, Row(total, total, 0)))
  {
  }

  lemma {:induction false} StepIsLater(db: Db, a: Action)
    requires Inv(db)
    ensures LaterDb(db, Step(db, a))
  {
    var db' := Step(db, a);
    forall e | e in db.events ensures e in db'.events && Later(db.events[e], db'.events[e]) {
      StepIsLaterOn(db, a, e);
    }
  }

  lemma StepIsLaterOn(db: Db, a: Action, e: EventId)
    requires e in db.events && EventInv(db.mode, db.events[e])
    ensures e in Step(db, a).events && Later(db.events[e], Step(db, a).events[e])
  {
    var d := db.events[e];
    LaterReflexive(db.mode, d);
    match a
    case Create(_, _, _) =>
    case Buy(input, newId, stale) =>
      if input.event == e && ValidInput(input) { PurchaseIsLater(d, db.mode, input, newId, stale); }
    case Switch(_, _) =>
    case AddType(_, t, name, total) =>
      if db.mode == TicketType && t !in d.types { AddedTypeIsLater(d, t, name, total); }
  }

  lemma {:induction false} RunIsLater(db: Db, run: seq<Action>)
    requires Inv(db)
    ensures LaterDb(db, Exec(db, run))
  {
    if run != [] {
      var mid := Exec(db, run[..|run| - 1]);
      RunIsLater(db, run[..|run| - 1]);
      RunKeepsInv(db, run[..|run| - 1]);
      StepIsLater(mid, run[|run| - 1]);
      forall e | e in db.events ensures Later(db.events[e], Exec(db, run).events[e]) {
        LaterTransitive(db.events[e], mid.events[e], Exec(db, run).events[e]);
      }
    } else {
      forall e | e in db.events ensures Later(db.events[e], db.events[e]) {
        assert EventInv(db.mode, db.events[e]);
      }
    }
  }

  /**
   A confirmed purchase raises both versions strictly, in either mode, although the forward bridge overwrites
   the type version with the legacy one; and the message it hands to the producer describes the committed rows.
   */
  lemma ConfirmedRaisesVersions(d: EventData, mode: Mode, input: Input, newId: nat, stale: bool)
    requires EventInv(mode, d) && ValidInput(input)
    requires var out := PurchaseOn(d, mode, input, newId, stale).1; out.Created? && out.result.status == Confirmed
    ensures var (d', out) := PurchaseOn(d, mode, input, newId, stale);
      && out.typeId in d.stock && out.typeId in d'.stock && out.typeId in d'.types
      && d'.stock[out.typeId].version > d.stock[out.typeId].version
      && d'.legacy.Some? && d'.legacy.value.version > d.legacy.value.version
      && d'.stock[out.typeId].remaining == d.stock[out.typeId].remaining - input.quantity
      && d'.legacy.value.remaining == d.legacy.value.remaining - input.quantity
      && (forall t | t in d.stock && t != out.typeId :: t in d'.stock && d'.stock[t] == d.stock[t])
      && out.change == Some(ChangeOf(input.event, d', out.typeId))
  {
    var t := ResolveType(d, mode, input.typeId).id;
    ConfirmedAttempt(d, mode, t, input.quantity);
  }

  lemma ConfirmedAttempt(d: EventData, mode: Mode, t: TypeId, quantity: int)
    requires EventInv(mode, d) && t in d.types && quantity > 0
    requires var a := AttemptPurchase(d, mode, t, quantity); a.Outcome? && a.confirmed
    ensures var d' := AttemptPurchase(d, mode, t, quantity).after;
      && d'.stock[t].version > d.stock[t].version
      && d'.legacy.value.version > d.legacy.value.version
      && d'.stock[t].remaining == d.stock[t].remaining - quantity
      && d'.legacy.value.remaining == d.legacy.value.remaining - quantity
      && (forall u | u in d.stock && u != t :: u in d'.stock && d'.stock[u] == d.stock[u])
  {
    if mode == Legacy {
      LegacySingle(d);
    } else {
      TotalsUpdate(d.stock, t, Decremented(d.stock[t], quantity));
    }
  }

  /**
   After a key has been committed, every later retry with the same payload answers with exactly the first
   result, and no retry changes the database: the stock is decremented at most once per key.
   */
  lemma RetryAnswersFirstResult(db: Db, input: Input, newId: nat, stale: bool, run: seq<Action>, retry: Input, retryId: nat, retryStale: bool)
    requires Inv(db) && ValidInput(input) && input.requestId.Some?
    requires PurchaseSpec(db, input, newId, stale).1.Created?
    requires retry.event == input.event && retry.buyer == input.buyer && retry.requestId == input.requestId
    ensures var first := PurchaseSpec(db, input, newId, stale);
      var later := Exec(first.0, run);
      var (after, answer) := PurchaseSpec(later, retry, retryId, retryStale);
      var samePayload := retry.quantity == input.quantity && (retry.typeId.Some? ==> retry.typeId.value == first.1.typeId);
      && after == later
      && (samePayload && !retryStale ==> answer == Replayed(first.1.result, first.1.typeId, later.mode))
      && (!samePayload ==> answer.Failed?)
      && (answer.Failed? || answer == Replayed(first.1.result, first.1.typeId, later.mode))
  {
    var later := Exec(PurchaseSpec(db, input, newId, stale).0, run);
    var p := StoredRow(db, input, newId, stale, run);
    RetryInDb(later, retry, retryId, retryStale, p);
  }

  /** The row every later lookup of a committed key finds. */
  lemma StoredRow(db: Db, input: Input, newId: nat, stale: bool, run: seq<Action>) returns (p: Purchase)
    requires Inv(db) && ValidInput(input) && input.requestId.Some?
    requires PurchaseSpec(db, input, newId, stale).1.Created?
    ensures var (db1, out) := PurchaseSpec(db, input, newId, stale);
      var later := Exec(db1, run);
      && input.event in later.events
      && FindExisting(later.events[input.event].purchases, input.buyer, input.requestId.value) == Some(p)
      && ToResult(p, input.event) == out.result && p.typeId == out.typeId && p.quantity == input.quantity
  {
    CommittedKeyPersists(db, input, newId, stale, run);
    var later := Exec(PurchaseSpec(db, input, newId, stale).0, run);
    p := FindExisting(later.events[input.event].purchases, input.buyer, input.requestId.value).value;
  }

  lemma RetryInDb(db: Db, retry: Input, retryId: nat, retryStale: bool, p: Purchase)
    requires retry.event in db.events && ExistingFor(db.events[retry.event], retry) == Some(p)
    ensures var (after, answer) := PurchaseSpec(db, retry, retryId, retryStale);
      && after == db
      && (SamePayload(p, retry) && !retryStale ==> answer == Replayed(ToResult(p, retry.event), p.typeId, db.mode))
      && (!SamePayload(p, retry) ==> answer.Failed?)
      && (answer.Failed? || answer == Replayed(ToResult(p, retry.event), p.typeId, db.mode))
  {
    RetryChangesNothing(db.events[retry.event], db.mode, retry, retryId, retryStale, p);
  }

  /** The row of a committed key is found by every later lookup, and still reads as the first result. */
  lemma CommittedKeyPersists(db: Db, input: Input, newId: nat, stale: bool, run: seq<Action>)
    requires Inv(db) && ValidInput(input) && input.requestId.Some?
    requires input.event in db.events && PurchaseSpec(db, input, newId, stale).1.Created?
    ensures var (db1, out) := PurchaseSpec(db, input, newId, stale);
      var later := Exec(db1, run);
      && input.event in later.events
      && var found := FindExisting(later.events[input.event].purchases, input.buyer, input.requestId.value);
      && found.Some? && ToResult(found.value, input.event) == out.result && found.value.typeId == out.typeId
      && found.value.quantity == input.quantity
  {
    PurchaseSpecKeepsInv(db, input, newId, stale);
    var i := CommittedRow(db, input, newId, stale);
    RowPersists(PurchaseSpec(db, input, newId, stale).0, run, input.event, i);
  }

  lemma CommittedRow(db: Db, input: Input, newId: nat, stale: bool) returns (i: nat)
    requires input.event in db.events && KeysUnique(db.events[input.event].purchases)
    requires PurchaseSpec(db, input, newId, stale).1.Created?
    ensures var (db1, out) := PurchaseSpec(db, input, newId, stale);
      && input.event in db1.events && i < |db1.events[input.event].purchases|
      && var p := db1.events[input.event].purchases[i];
      && ToResult(p, input.event) == out.result && p.typeId == out.typeId
      && p.requestId == input.requestId && p.buyer == input.buyer && p.quantity == input.quantity
  {
    i := |db.events[input.event].purchases|;
    PurchaseKeepsKeysUnique(db.events[input.event], db.mode, input, newId, stale);
  }

  lemma RowPersists(db: Db, run: seq<Action>, e: EventId, i: nat)
    requires Inv(db) && e in db.events && i < |db.events[e].purchases| && db.events[e].purchases[i].requestId.Some?
    ensures var later := Exec(db, run);
      var p := db.events[e].purchases[i];
      e in later.events && FindExisting(later.events[e].purchases, p.buyer, p.requestId.value) == Some(p)
  {
    var later := Exec(db, run);
    RunIsLater(db, run);
    RunKeepsInv(db, run);
    var ps1, ps2 := db.events[e].purchases, later.events[e].purchases;
    assert Later(db.events[e], later.events[e]);
    assert ps1[i] == ps2[..|ps1|][i] == ps2[i];
    assert EventInv(later.mode, later.events[e]);
    UniqueRowFound(ps2, i);
  }

  lemma UniqueRowFound(ps: seq<Purchase>, i: nat)
    requires i < |ps| && KeysUnique(ps) && ps[i].requestId.Some?
    ensures FindExisting(ps, ps[i].buyer, ps[i].requestId.value) == Some(ps[i])
  {
    var found := FindExisting(ps, ps[i].buyer, ps[i].requestId.value);
    var j :| 0 <= j < |ps| && ps[j] == found.value;
    assert j == i;
  }

  /**
   In a reachable state a purchase of a type of the event aborts only by a database error, and that exactly when it would
   be confirmed and a version is at the end of its range.
   */
  lemma ReachableAborts(d: EventData, mode: Mode, t: TypeId, quantity: int)
    requires EventInv(mode, d) && t in d.types && quantity > 0
    ensures var a := AttemptPurchase(d, mode, t, quantity);
      && (a.Abort? ==> a.error == DatabaseError)
      && (a.Abort? <==>
            if mode == Legacy then quantity <= d.legacy.value.remaining && d.legacy.value.version == INT4_MAX
            else quantity <= d.stock[t].remaining && (d.stock[t].version == INT4_MAX || d.legacy.value.version == INT4_MAX))
  {
    if mode == TicketType { TotalsUpdate(d.stock, t, Decremented(d.stock[t], quantity)); OneOfSum(d, t); }
  }

  lemma OneOfSum(d: EventData, t: TypeId)
    requires EventInv(TicketType, d) && t in d.stock
    ensures d.stock[t].remaining <= d.legacy.value.remaining
  {
    SumAtLeast(Remainings(d.stock), t);
  }
}
