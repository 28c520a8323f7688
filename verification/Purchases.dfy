/** The authoritative purchase transaction, and the transaction that creates an event. */
module Purchases {
  import opened Common
  import opened Sums
  import opened InventoryTables
  import opened InventoryTriggers
  import opened InventoryMessages

  /** A validated request: parsePurchaseInput admits quantities from 1 to INT4_MAX only. */
  datatype Input = Input(
    event: EventId, buyer: BuyerId, quantity: int, requestId: Option<string>, typeId: Option<TypeId>)

  /** HTTP 404, 400, 409, 500, and an error the database raised. */
  datatype TxError = NotFound | BadRequest | Conflict | Internal | DatabaseError

  datatype PurchaseResult = PurchaseResult(
    purchaseId: nat, event: EventId, buyer: BuyerId, quantity: int, status: Status, remaining: Option<int>)

  datatype TxOutcome =
    | Created(result: PurchaseResult, change: Option<Change>, compatRemaining: int,
              typeId: TypeId, typeRemaining: Option<int>, modeUsed: Mode)
    | Replayed(result: PurchaseResult, typeId: TypeId, modeUsed: Mode)
    | Failed(error: TxError)

  predicate ValidInput(input: Input) {
    0 < input.quantity <= INT4_MAX
  }

  /** findExistingPurchase: the row that carries the idempotency key, if any. */
  function FindExisting(ps: seq<Purchase>, buyer: BuyerId, key: string): (r: Option<Purchase>)
    ensures r.Some? ==> r.value in ps && r.value.buyer == buyer && r.value.requestId == Some(key)
    ensures r.None? <==> forall p | p in ps :: !(p.buyer == buyer && p.requestId == Some(key))
  {
    if ps == [] then None
    else if ps[0].buyer == buyer && ps[0].requestId == Some(key) then Some(ps[0])
    else
      assert ps == [ps[0]] + ps[1..];
      FindExisting(ps[1..], buyer, key)
  }

  function ExistingFor(d: EventData, input: Input): Option<Purchase> {
    if input.requestId.None? then None else FindExisting(d.purchases, input.buyer, input.requestId.value)
  }

  /** assertIdempotencyReplayPayload */
  predicate SamePayload(p: Purchase, input: Input) {
    p.quantity == input.quantity && (input.typeId.Some? ==> p.typeId == input.typeId.value)
  }

  function ToResult(p: Purchase, e: EventId): PurchaseResult {
    PurchaseResult(p.id, e, p.buyer, p.quantity, p.status, p.remainingAfter)
  }

  function ReplayOf(p: Purchase, input: Input, mode: Mode): TxOutcome {
    if SamePayload(p, input) then Replayed(ToResult(p, input.event), p.typeId, mode) else Failed(Conflict)
  }

  datatype Resolved = Type(id: TypeId) | Unresolved(error: TxError)

  /** resolveTicketType */
  ghost function ResolveType(d: EventData, mode: Mode, wanted: Option<TypeId>): (r: Resolved)
    ensures r.Type? ==> r.id in d.types
  {
    if mode == TicketType && wanted.Some? then
      if wanted.value in d.types then Type(wanted.value) else Unresolved(NotFound)
    else if |d.types| == 0 then Unresolved(Internal)
    else if |d.types| != 1 then Unresolved(BadRequest)
    else
      var only :| only in d.types;
      if wanted.Some? && wanted.value != only then Unresolved(NotFound) else Type(only)
  }

  /** The row the active writer decrements. */
  function ActiveRow(d: EventData, mode: Mode, t: TypeId): Option<Row> {
    if mode == Legacy then d.legacy
    else if t in d.stock then Some(d.stock[t]) else None
  }

  function Decremented(r: Row, quantity: int): Row {
    Row(r.total, r.remaining - quantity, r.version + 1)
  }

  datatype Attempt = Abort(error: TxError) | Outcome(after: EventData, confirmed: bool, activeRemaining: int)

  /** updateActiveInventory, its trigger cascade, and the reads that follow it. */
  ghost function AttemptPurchase(d: EventData, mode: Mode, t: TypeId, quantity: int): (a: Attempt)
    requires t in d.types
    ensures a.Outcome? ==> a.after.types == d.types && a.after.purchases == d.purchases && a.after.legacy.Some?
    ensures a.Outcome? && a.confirmed ==> t in a.after.stock
  {
    var active := ActiveRow(d, mode, t);
    if active.None? then Abort(Internal)
    else if active.value.remaining < quantity then
      if d.legacy.None? then Abort(Internal) else Outcome(d, false, active.value.remaining)
    else
      var row := Decremented(active.value, quantity);
      if mode == Legacy then
        if !LegacyAccepted(mode, d, row) then Abort(DatabaseError)
        else if t !in LegacyWritten(d, row).stock then Abort(Internal)
        else Outcome(LegacyWritten(d, row), true, row.remaining)
      else
        if !TypeAccepted(mode, d, t, row) then Abort(DatabaseError)
        else Outcome(TypeWritten(d, t, row), true, row.remaining)
  }

  /** The committed state a versioned InventoryChanged describes. */
  function ChangeOf(e: EventId, d: EventData, t: TypeId): Change
    requires t in d.types && t in d.stock && d.legacy.Some?
  {
    Change(e, t, d.types[t], d.stock[t].total, d.stock[t].remaining, d.stock[t].version,
           d.legacy.value.total, d.legacy.value.remaining, d.legacy.value.version)
  }

  function NewPurchase(input: Input, newId: nat, t: TypeId, confirmed: bool, compat: int): Purchase {
    Purchase(newId, t, input.buyer, input.requestId, input.quantity,
             if confirmed then Confirmed else Rejected, if confirmed then Some(compat) else None)
  }

  /**
   executePurchaseTransaction as one atomic step. `staleMiss` is a lookup that ran before a racing
   transaction committed the same key: it finds nothing, and the unique index decides.
   */
  ghost function PurchaseOn(d: EventData, mode: Mode, input: Input, newId: nat, staleMiss: bool): (EventData, TxOutcome) {
    var existing := ExistingFor(d, input);
    if existing.Some? && !staleMiss then (d, ReplayOf(existing.value, input, mode))
    else
      var resolved := ResolveType(d, mode, input.typeId);
      if resolved.Unresolved? then (d, Failed(resolved.error))
      else
        var t := resolved.id;
        var attempt := AttemptPurchase(d, mode, t, input.quantity);
        if attempt.Abort? then (d, Failed(attempt.error))
        else if existing.Some? then (d, ReplayOf(existing.value, input, mode))
        else
          var compat := attempt.after.legacy.value.remaining;
          var p := NewPurchase(input, newId, t, attempt.confirmed, compat);
          (attempt.after.(purchases := attempt.after.purchases + [p]),
           Created(ToResult(p, input.event),
                   if attempt.confirmed then Some(ChangeOf(input.event, attempt.after, t)) else None,
                   compat, t, if mode == TicketType then Some(attempt.activeRemaining) else None, mode))
  }

  ghost function PurchaseSpec(db: Db, input: Input, newId: nat, staleMiss: bool): (Db, TxOutcome) {
    if input.event !in db.events then (db, Failed(NotFound))
    else
      var (d', out) := PurchaseOn(db.events[input.event], db.mode, input, newId, staleMiss);
      (if out.Created? then db.(events := db.events[input.event := d']) else db, out)
  }

  method ResolveTicketType(d: EventData, mode: Mode, wanted: Option<TypeId>) returns (r: Resolved)
    ensures r == ResolveType(d, mode, wanted)
  {
    if mode == TicketType && wanted.Some? {
      return if wanted.value in d.types then Type(wanted.value) else Unresolved(NotFound);
    }
    if |d.types| == 0 { return Unresolved(Internal); }
    if |d.types| != 1 { return Unresolved(BadRequest); }
    assert |d.types.Keys| == 1;
    var only :| only in d.types;
    assert d.types.Keys == {only} by {
      assert |d.types.Keys - {only}| == 0;
    }
    return if wanted.Some? && wanted.value != only then Unresolved(NotFound) else Type(only);
  }

  method ExecutePurchaseTransaction(s: Session, input: Input, newId: nat, staleMiss: bool) returns (out: TxOutcome)
    requires ValidInput(input)
    modifies s
    ensures (s.View(), out) == PurchaseSpec(old(s.View()), input, newId, staleMiss)
  {
    var saved := s.events;
    var mode := s.mode;
    if input.event !in s.events { return Failed(NotFound); }
    var existing := ExistingFor(s.events[input.event], input);
    if existing.Some? && !staleMiss { return ReplayOf(existing.value, input, mode); }
    var resolved := ResolveTicketType(s.events[input.event], mode, input.typeId);
    if resolved.Unresolved? { return Failed(resolved.error); }
    var t := resolved.id;
    var active := ActiveRow(s.events[input.event], mode, t);
    var confirmed := active.Some? && active.value.remaining >= input.quantity;
    var effect := if confirmed then Write(Decremented(active.value, input.quantity)) else NoRow;
    var ok: bool;
    if mode == Legacy {
      ok := s.LegacyStatement(0, input.event, effect);
    } else {
      ok := s.TypeStatement(0, input.event, t, effect);
    }
    if !ok { s.events := saved; return Failed(DatabaseError); }
    var now := ActiveRow(s.events[input.event], mode, t);
    var d := s.events[input.event];
    if now.None? || d.legacy.None? || (confirmed && t !in d.stock) { s.events := saved; return Failed(Internal); }
    if existing.Some? {
      s.events := saved;
      return ReplayOf(existing.value, input, mode);
    }
    var compat := d.legacy.value.remaining;
    var p := NewPurchase(input, newId, t, confirmed, compat);
    var change := if confirmed then Some(ChangeOf(input.event, d, t)) else None;
    s.events := s.events[input.event := d.(purchases := d.purchases + [p])];
    assert s.events == saved[input.event := d.(purchases := d.purchases + [p])];
    out := Created(ToResult(p, input.event), change, compat, t,
                   if mode == TicketType then Some(now.value.remaining) else None, mode);
  }

  /** The rows of a new event: the default type its trigger creates, then stock through the active writer. */
  ghost function CreatedEvent(mode: Mode, t: TypeId, total: int): EventData {
    var row := Row(total, total, 0);
    var bare := EventData(map[t := "General Admission"], Some(t), None, map[], []);
    if mode == Legacy then LegacyWritten(bare, row) else TypeWritten(bare, t, row)
  }

  method CreateEvent(s: Session, e: EventId, t: TypeId, total: int) returns (ok: bool)
    requires 0 < total <= INT4_MAX && e !in s.events
    modifies s
    ensures ok && s.View() == old(s.View()).(events := old(s.events)[e := CreatedEvent(old(s.mode), t, total)])
  {
    var row := Row(total, total, 0);
    s.events := s.events[e := EventData(map[t := "General Admission"], Some(t), None, map[], [])];
    if s.mode == Legacy {
      ok := s.LegacyStatement(0, e, Write(row));
    } else {
      assert map[][t := row] == map[t := row];
      TotalsSingleton(t, row);
      ok := s.TypeStatement(0, e, t, Write(row));
    }
  }

  // --- Idempotency ---

  /** At most one purchase row carries a given (buyer, requestId) of an event. */
  ghost predicate KeysUnique(ps: seq<Purchase>) {
    forall i, j | 0 <= i < j < |ps| :: ps[i].requestId.Some? ==> !(ps[i].requestId == ps[j].requestId && ps[i].buyer == ps[j].buyer)
  }

  /**
   Once a key has a row, no later transaction on that key changes anything, whether its lookup was stale
   or not: a fresh lookup answers with exactly the stored result, or with a conflict when the payload differs,
   and a stale one answers the same unless the request is refused before its INSERT.
   */
  lemma RetryChangesNothing(d: EventData, mode: Mode, input: Input, newId: nat, staleMiss: bool, p: Purchase)
    requires ExistingFor(d, input) == Some(p)
    ensures var (d', out) := PurchaseOn(d, mode, input, newId, staleMiss);
      && d' == d
      && (!staleMiss && SamePayload(p, input) ==> out == Replayed(ToResult(p, input.event), p.typeId, mode))
      && (!SamePayload(p, input) ==> out.Failed?)
      && (out.Failed? || out == Replayed(ToResult(p, input.event), p.typeId, mode))
      && (staleMiss && out.Failed? && SamePayload(p, input) ==>
            var resolved := ResolveType(d, mode, input.typeId);
            resolved.Unresolved? || AttemptPurchase(d, mode, resolved.id, input.quantity).Abort?)
  {
  }

  /**
   The unique index is never violated by a committed transaction, racing or not: the purchases of the event
   stay as they are, or gain exactly the row whose result was returned.
   */
  lemma {:induction false} PurchaseKeepsKeysUnique(d: EventData, mode: Mode, input: Input, newId: nat, staleMiss: bool)
    requires KeysUnique(d.purchases)
    ensures var (d', out) := PurchaseOn(d, mode, input, newId, staleMiss);
      && KeysUnique(d'.purchases)
      && (!out.Created? ==> d' == d)
      && (out.Created? ==>
            && |d'.purchases| == |d.purchases| + 1
            && d'.purchases[..|d.purchases|] == d.purchases
            && ToResult(d'.purchases[|d.purchases|], input.event) == out.result
            && d'.purchases[|d.purchases|].requestId == input.requestId
            && d'.purchases[|d.purchases|].typeId == out.typeId)
  {
    var (d', out) := PurchaseOn(d, mode, input, newId, staleMiss);
    if out.Created? {
      var p := d'.purchases[|d.purchases|];
      assert d'.purchases == d.purchases + [p];
      assert ExistingFor(d, input).None?;
    }
  }

  // --- What the outcomes say, without the functions that build them ---

  /** The branches of resolveTicketType, each with its error. */
  lemma ResolveCases(d: EventData, mode: Mode, wanted: Option<TypeId>)
    ensures var r := ResolveType(d, mode, wanted);
      var chosen := mode == TicketType && wanted.Some?;
      && (forall t :: r == Type(t) <==> t in d.types && (wanted.Some? ==> wanted.value == t) && (chosen || |d.types| == 1))
      && (r == Unresolved(NotFound) <==> wanted.Some? && wanted.value !in d.types && (chosen || |d.types| == 1))
      && (r == Unresolved(Internal) <==> !chosen && |d.types| == 0)
      && (r == Unresolved(BadRequest) <==> !chosen && |d.types| > 1)
  {
    if |d.types| == 1 {
      assert |d.types.Keys| == 1;
      var only :| only in d.types;
      assert d.types.Keys == {only} by { assert |d.types.Keys - {only}| == 0; }
    }
  }

  /** The row that decides, before the purchase. */
  function Deciding(d: EventData, mode: Mode, t: TypeId): Option<Row> {
    match mode
    case Legacy => d.legacy
    case TicketType => if t in d.stock then Some(d.stock[t]) else None
  }

  /**
   A new purchase: confirmed exactly if the quantity fits the row of the active writer, which then falls by the quantity
   and rises by one version; the answer carries the remainder of the event only when confirmed, and is what
   the appended row stores.
   */
  lemma CreatedOutcome(d: EventData, mode: Mode, input: Input, newId: nat, staleMiss: bool)
    requires PurchaseOn(d, mode, input, newId, staleMiss).1.Created?
    ensures var (d', out) := PurchaseOn(d, mode, input, newId, staleMiss);
      && out.typeId in d.types && d'.legacy.Some?
      && (input.typeId.Some? ==> out.typeId == input.typeId.value) && out.modeUsed == mode
      && Deciding(d, mode, out.typeId).Some?
      && var row := Deciding(d, mode, out.typeId).value;
      && (out.result.status == Confirmed <==> input.quantity <= row.remaining)
      && (out.result.status == Confirmed ==>
            Deciding(d', mode, out.typeId) == Some(Row(row.total, row.remaining - input.quantity, row.version + 1)))
      && (out.result.status == Rejected ==> d'.stock == d.stock && d'.legacy == d.legacy)
      && out.result.purchaseId == newId && out.result.event == input.event
      && out.result.buyer == input.buyer && out.result.quantity == input.quantity
      && out.result.remaining == (if out.result.status == Confirmed then Some(d'.legacy.value.remaining) else None)
      && d'.purchases == d.purchases + [Purchase(newId, out.typeId, input.buyer, input.requestId, input.quantity,
                                                 out.result.status, out.result.remaining)]
    ensures var (d', out) := PurchaseOn(d, mode, input, newId, staleMiss);
      && out.compatRemaining == d'.legacy.value.remaining
      && (mode == Legacy ==> out.typeRemaining.None?)
      && (mode == TicketType ==> out.typeId in d'.stock && out.typeRemaining == Some(d'.stock[out.typeId].remaining))
  {
    ResolveCases(d, mode, input.typeId);
  }

  /** A confirmed purchase carries the committed rows for publication, a rejected one nothing. */
  lemma CreatedChange(d: EventData, mode: Mode, input: Input, newId: nat, staleMiss: bool)
    requires PurchaseOn(d, mode, input, newId, staleMiss).1.Created?
    ensures var (d', out) := PurchaseOn(d, mode, input, newId, staleMiss);
      && (out.result.status == Rejected ==> out.change.None?)
      && (out.result.status == Confirmed ==>
            && out.typeId in d'.types && out.typeId in d'.stock && d'.legacy.Some?
            && var t, l := d'.stock[out.typeId], d'.legacy.value;
            out.change == Some(Change(input.event, out.typeId, d'.types[out.typeId], t.total, t.remaining, t.version,
                                      l.total, l.remaining, l.version)))
  {
  }

  /** A replay answers with the stored row, field by field, and only for the same quantity and type. */
  lemma ReplayedOutcome(d: EventData, mode: Mode, input: Input, newId: nat, staleMiss: bool)
    requires PurchaseOn(d, mode, input, newId, staleMiss).1.Replayed?
    ensures var out := PurchaseOn(d, mode, input, newId, staleMiss).1;
      exists p :: p in d.purchases && p.buyer == input.buyer && input.requestId.Some? && p.requestId == input.requestId
        && p.quantity == input.quantity && (input.typeId.Some? ==> p.typeId == input.typeId.value)
        && out.typeId == p.typeId && out.modeUsed == mode
        && out.result == PurchaseResult(p.id, input.event, p.buyer, p.quantity, p.status, p.remainingAfter)
  {
  }

  /** The rows of a new event, in both modes. */
  lemma CreatedEventIs(mode: Mode, t: TypeId, total: int)
    ensures var d := CreatedEvent(mode, t, total);
      && d.types == map[t := "General Admission"] && d.defaultType == Some(t) && d.purchases == []
      && d.stock == map[t := Row(total, total, 0)]
      && d.legacy == Some(Row(total, total, if mode == Legacy then 0 else 1))
  {
    var row := Row(total, total, 0);
    assert map[][t := row] == map[t := row];
    TotalsSingleton(t, row);
  }

  /** The transaction on the tables of all events. */
  lemma SpecOnTables(db: Db, input: Input, newId: nat, staleMiss: bool)
    ensures var (db', out) := PurchaseSpec(db, input, newId, staleMiss);
      && db'.mode == db.mode && db'.events.Keys == db.events.Keys
      && (forall e | e in db.events && e != input.event :: db'.events[e] == db.events[e])
      && (input.event !in db.events ==> out == Failed(NotFound))
      && (!out.Created? ==> db' == db)
      && (input.event in db.events ==>
            && out == PurchaseOn(db.events[input.event], db.mode, input, newId, staleMiss).1
            && (out.Created? ==> db'.events[input.event] == PurchaseOn(db.events[input.event], db.mode, input, newId, staleMiss).0))
  {
  }
}
