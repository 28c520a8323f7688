/**
 From the database to the search document: the versions that purchases, switches and added types produce make
 every message consistent with every other, so no delivery order can raise corruption.
 */
module EndToEnd {
  import opened Common
  import opened Sums
  import opened InventoryTables
  import opened InventoryTriggers
  import opened InventoryMessages
  import opened Purchases
  import opened WriterSwitch
  import opened InventoryRuns
  import Prefilter
  import opened Projection
  import opened Confluence

  /** The payloads a rebuild of event `e` builds from a committed state. */
  ghost function StateMessages(db: Db, e: EventId): set<Change> {
    if e in db.events && db.events[e].legacy.Some?
    then set t | t in db.events[e].types && t in db.events[e].stock :: ChangeOf(e, db.events[e], t)
    else {}
  }

  /** Whatever any committed state of the run could have said about the event. */
  ghost function Sayable(run: seq<Action>, e: EventId): set<Change> {
    (if run == [] then {} else Sayable(run[..|run| - 1], e)) + StateMessages(Exec(EMPTY, run), e)
  }

  /** What the purchases of the run handed to the bus. */
  ghost function Published(run: seq<Action>, e: EventId): set<Change> {
    if run == [] then {}
    else
      var front, a := run[..|run| - 1], run[|run| - 1];
      Published(front, e) + StepPublished(Exec(EMPTY, front), a, e)
  }

  ghost function StepPublished(db: Db, a: Action, e: EventId): set<Change> {
    if a.Buy? && a.input.event == e && ValidInput(a.input)
    then ChangeIn(PurchaseSpec(db, a.input, a.newId, a.staleMiss).1)
    else {}
  }

  function ChangeIn(out: TxOutcome): set<Change> {
    if out.Created? && out.result.status == Confirmed && out.change.Some? then {out.change.value} else {}
  }

  // --- Consistency of everything that can be said ---

  ghost predicate SaidBefore(c: Change, e: EventId, d: EventData) {
    exists past: EventData, t: TypeId :: SaidAt(c, e, past, t) && Later(past, d)
  }

  predicate SaidAt(c: Change, e: EventId, past: EventData, t: TypeId) {
    t in past.types && t in past.stock && past.legacy.Some? && c == ChangeOf(e, past, t)
  }

  lemma LaterSaysTheSame(c: Change, n: Change, e: EventId, past: EventData, t: TypeId, d: EventData, u: TypeId)
    requires SaidAt(c, e, past, t) && SaidAt(n, e, d, u) && Later(past, d)
    ensures Agree(c, n) && Agree(n, c)
    ensures t == u ==> c.typeVersion <= n.typeVersion
    ensures c.eventVersion <= n.eventVersion
  {
  }

  lemma SaidBeforeGrows(c: Change, e: EventId, d: EventData, d': EventData)
    requires SaidBefore(c, e, d) && Later(d, d')
    ensures SaidBefore(c, e, d')
  {
    var past: EventData, t: TypeId :| SaidAt(c, e, past, t) && Later(past, d);
    LaterTransitive(past, d, d');
  }

  lemma SaidNow(db: Db, e: EventId, c: Change) returns (t: TypeId)
    requires Inv(db) && c in StateMessages(db, e)
    ensures e in db.events && SaidAt(c, e, db.events[e], t) && SaidBefore(c, e, db.events[e])
  {
    assert EventInv(db.mode, db.events[e]);
    LaterReflexive(db.mode, db.events[e]);
    t :| t in db.events[e].types && t in db.events[e].stock && c == ChangeOf(e, db.events[e], t);
    assert SaidAt(c, e, db.events[e], t);
  }

  lemma {:induction false} SayableIsPast(run: seq<Action>, e: EventId, c: Change)
    requires c in Sayable(run, e)
    ensures e in Exec(EMPTY, run).events && SaidBefore(c, e, Exec(EMPTY, run).events[e])
  {
    RunKeepsInv(EMPTY, run);
    if c in StateMessages(Exec(EMPTY, run), e) {
      var _ := SaidNow(Exec(EMPTY, run), e, c);
    } else {
      var front := run[..|run| - 1];
      SayableIsPast(front, e, c);
      RunKeepsInv(EMPTY, front);
      StepIsLaterOn(Exec(EMPTY, front), run[|run| - 1], e);
      SaidBeforeGrows(c, e, Exec(EMPTY, front).events[e], Exec(EMPTY, run).events[e]);
    }
  }

  /** A message of a state agrees with, and is not outranked by, anything said before. */
  lemma NewestMessage(run: seq<Action>, e: EventId, n: Change, c: Change)
    requires n in StateMessages(Exec(EMPTY, run), e) && c in Sayable(run, e)
    ensures Agree(c, n) && Agree(n, c) && c.eventVersion <= n.eventVersion
    ensures c.typeId == n.typeId ==> c.typeVersion <= n.typeVersion
  {
    SayableIsPast(run, e, c);
    RunKeepsInv(EMPTY, run);
    var d := Exec(EMPTY, run).events[e];
    var past: EventData, t: TypeId :| SaidAt(c, e, past, t) && Later(past, d);
    var u := SaidNow(Exec(EMPTY, run), e, n);
    LaterSaysTheSame(c, n, e, past, t, d, u);
  }

  lemma {:induction false} SayableAgrees(run: seq<Action>, e: EventId)
    ensures AllAgree(Sayable(run, e))
  {
    if run != [] { SayableAgrees(run[..|run| - 1], e); }
    forall a, b | a in Sayable(run, e) && b in Sayable(run, e) ensures Agree(a, b) {
      if a in StateMessages(Exec(EMPTY, run), e) { NewestMessage(run, e, a, b); }
      if b in StateMessages(Exec(EMPTY, run), e) { NewestMessage(run, e, b, a); }
    }
  }

  /** A confirmed purchase publishes a message of the state it committed. */
  lemma {:induction false} PublishedIsSayable(run: seq<Action>, e: EventId)
    ensures Published(run, e) <= Sayable(run, e)
  {
    if run != [] {
      PublishedIsSayable(run[..|run| - 1], e);
      var front, a := run[..|run| - 1], run[|run| - 1];
      var db := Exec(EMPTY, front);
      RunKeepsInv(EMPTY, front);
      if a.Buy? && a.input.event == e && ValidInput(a.input) && e in db.events {
        var out := PurchaseSpec(db, a.input, a.newId, a.staleMiss).1;
        if ChangeIn(out) != {} {
          ConfirmedRaisesVersions(db.events[e], db.mode, a.input, a.newId, a.staleMiss);
          assert SaidAt(out.change.value, e, Exec(EMPTY, run).events[e], out.typeId);
        }
      }
    }
  }

  // --- What has been published is what the tables hold ---

  predicate Bought(ps: seq<Purchase>, t: TypeId) {
    exists i :: 0 <= i < |ps| && ps[i].status == Confirmed && ps[i].typeId == t
  }

  ghost predicate RowPublished(d: EventData, msgs: set<Change>, t: TypeId)
    requires t in d.stock && t in d.types
  {
    exists c :: c in msgs && EntryOf(c) == EntryOfRow(d, t)
  }

  function EntryOfRow(d: EventData, t: TypeId): Entry
    requires t in d.stock && t in d.types
  {
    Entry(Some(t), Some(d.types[t]), Some(d.stock[t].total), Some(d.stock[t].remaining), Some(d.stock[t].version))
  }

  ghost predicate EventPublished(d: EventData, msgs: set<Change>) {
    d.legacy.Some? && exists c :: c in msgs && EventOf(c) == EventOfRow(d.legacy.value)
  }

  function EventOfRow(r: Row): (Option<int>, Option<int>, Option<int>) {
    (Some(r.version), Some(r.total), Some(r.remaining))
  }

  /** Buying moves exactly the rows it publishes. */
  lemma BuyPublishes(d: EventData, mode: Mode, input: Input, newId: nat, stale: bool, msgs: set<Change>, t: TypeId)
    requires EventInv(mode, d) && ValidInput(input) && t in d.stock
    requires Bought(d.purchases, t) ==> RowPublished(d, msgs, t)
    ensures var (d', out) := PurchaseOn(d, mode, input, newId, stale);
      && t in d'.stock && t in d'.types
      && (Bought(d'.purchases, t) ==> RowPublished(d', msgs + ChangeIn(out), t))
  {
    var (d', out) := PurchaseOn(d, mode, input, newId, stale);
    Prefilter.PurchaseRows(d, mode, input, newId, stale);
    PurchaseKeepsKeysUnique(d, mode, input, newId, stale);
    if out.Created? && out.result.status == Confirmed {
      ConfirmedRaisesVersions(d, mode, input, newId, stale);
      if out.typeId == t {
        assert EntryOf(out.change.value) == EntryOfRow(d', t);
        assert out.change.value in msgs + ChangeIn(out);
      }
    }
    if Bought(d'.purchases, t) && !(out.Created? && out.result.status == Confirmed && out.typeId == t) {
      BoughtBefore(d.purchases, d'.purchases, t);
      var c :| c in msgs && EntryOf(c) == EntryOfRow(d, t);
      assert EntryOfRow(d', t) == EntryOfRow(d, t);
      assert c in msgs + ChangeIn(out);
    }
  }

  lemma BoughtBefore(ps: seq<Purchase>, ps': seq<Purchase>, t: TypeId)
    requires Bought(ps', t)
    requires ps' == ps || (|ps'| == |ps| + 1 && ps'[..|ps|] == ps && !(ps'[|ps|].status == Confirmed && ps'[|ps|].typeId == t))
    ensures Bought(ps, t)
  {
    var i :| 0 <= i < |ps'| && ps'[i].status == Confirmed && ps'[i].typeId == t;
    assert ps[i] == ps'[i];
  }

  /** One step: a type bought before or by this step has its row among the published ones. */
  lemma StepPublishes(db: Db, a: Action, e: EventId, t: TypeId, msgs: set<Change>)
    requires Inv(db) && e in db.events && t in db.events[e].stock
    requires t in db.events[e].types && (Bought(db.events[e].purchases, t) ==> RowPublished(db.events[e], msgs, t))
    ensures e in Step(db, a).events && t in Step(db, a).events[e].stock && t in Step(db, a).events[e].types
    ensures var d' := Step(db, a).events[e];
      Bought(d'.purchases, t) ==> RowPublished(d', msgs + StepPublished(db, a, e), t)
  {
    var d := db.events[e];
    if a.Buy? && a.input.event == e && ValidInput(a.input) {
      BuyPublishes(d, db.mode, a.input, a.newId, a.staleMiss, msgs, t);
      BuyStep(db, a, e);
    } else {
      QuietStep(db, a, e, t);
      assert msgs + StepPublished(db, a, e) == msgs;
    }
  }

  lemma BuyStep(db: Db, a: Action, e: EventId)
    requires Inv(db) && e in db.events && a.Buy? && a.input.event == e && ValidInput(a.input)
    ensures e in Step(db, a).events
    ensures Step(db, a).events[e] == PurchaseOn(db.events[e], db.mode, a.input, a.newId, a.staleMiss).0
    ensures StepPublished(db, a, e) == ChangeIn(PurchaseOn(db.events[e], db.mode, a.input, a.newId, a.staleMiss).1)
  {
    PurchaseKeepsKeysUnique(db.events[e], db.mode, a.input, a.newId, a.staleMiss);
  }

  lemma QuietStep(db: Db, a: Action, e: EventId, t: TypeId)
    requires e in db.events && EventInv(db.mode, db.events[e]) && t in db.events[e].stock
    requires a.Buy? && ValidInput(a.input) ==> a.input.event != e
    ensures e in Step(db, a).events && t in Step(db, a).events[e].stock && t in Step(db, a).events[e].types
    ensures EntryOfRow(Step(db, a).events[e], t) == EntryOfRow(db.events[e], t)
    ensures Step(db, a).events[e].purchases == db.events[e].purchases
  {
  }

  lemma {:induction false} SoldTypesArePublished(run: seq<Action>, e: EventId, t: TypeId)
    requires e in Exec(EMPTY, run).events
    requires var d := Exec(EMPTY, run).events[e]; t in d.stock && t in d.types && Bought(d.purchases, t)
    ensures RowPublished(Exec(EMPTY, run).events[e], Published(run, e), t)
  {
    var front, a := run[..|run| - 1], run[|run| - 1];
    var db := Exec(EMPTY, front);
    RunKeepsInv(EMPTY, front);
    if e in db.events && t in db.events[e].stock {
      assert EventInv(db.mode, db.events[e]);
      if Bought(db.events[e].purchases, t) { SoldTypesArePublished(front, e, t); }
      StepPublishes(db, a, e, t, Published(front, e));
    } else {
      FreshTypeUnsold(db, a, e, t);
    }
  }

  /** A type that has just appeared has not been bought. */
  lemma FreshTypeUnsold(db: Db, a: Action, e: EventId, t: TypeId)
    requires Inv(db) && e in Step(db, a).events && t in Step(db, a).events[e].stock
    requires e in db.events ==> t !in db.events[e].stock
    ensures !Bought(Step(db, a).events[e].purchases, t)
  {
    if e in db.events {
      var d := db.events[e];
      assert EventInv(db.mode, d);
      if a.Buy? && ValidInput(a.input) && a.input.event == e {
        Prefilter.PurchaseRows(d, db.mode, a.input, a.newId, a.staleMiss);
      } else {
        QuietPurchases(db, a, e);
        assert forall i | 0 <= i < |d.purchases| :: d.purchases[i] in d.purchases && d.purchases[i].typeId != t;
      }
    }
  }

  lemma QuietPurchases(db: Db, a: Action, e: EventId)
    requires e in db.events
    requires a.Buy? && ValidInput(a.input) ==> a.input.event != e
    ensures e in Step(db, a).events && Step(db, a).events[e].purchases == db.events[e].purchases
  {
  }

  predicate BoughtAny(ps: seq<Purchase>) {
    exists i :: 0 <= i < |ps| && ps[i].status == Confirmed
  }

  /** The last step that changed the event row of `e` was a confirmed purchase, and not its creation or an added type. */
  ghost predicate LastMovedByPurchase(run: seq<Action>, e: EventId) {
    run != [] &&
    var front, a := run[..|run| - 1], run[|run| - 1];
    if MovesEventRow(Exec(EMPTY, front), a, e) then a.Buy? else LastMovedByPurchase(front, e)
  }

  ghost predicate MovesEventRow(db: Db, a: Action, e: EventId) {
    e in Step(db, a).events && (e !in db.events || Step(db, a).events[e].legacy != db.events[e].legacy)
  }

  lemma BoughtAnyBefore(ps: seq<Purchase>, ps': seq<Purchase>)
    requires BoughtAny(ps')
    requires ps' == ps || (|ps'| == |ps| + 1 && ps'[..|ps|] == ps && ps'[|ps|].status != Confirmed)
    ensures BoughtAny(ps)
  {
    var i :| 0 <= i < |ps'| && ps'[i].status == Confirmed;
    assert ps[i] == ps'[i];
  }

  lemma FreshEventUnsold(db: Db, a: Action, e: EventId)
    requires e !in db.events && e in Step(db, a).events
    ensures !BoughtAny(Step(db, a).events[e].purchases)
  {
  }

  /** A purchase publishes exactly when it moves the event row, and then it publishes the row. */
  lemma BuyMovesEventRow(db: Db, a: Action, e: EventId)
    requires Inv(db) && e in db.events && a.Buy? && a.input.event == e && ValidInput(a.input)
    ensures e in Step(db, a).events
    ensures MovesEventRow(db, a, e) <==> StepPublished(db, a, e) != {}
    ensures forall c | c in StepPublished(db, a, e) ::
      Step(db, a).events[e].legacy.Some? && EventOf(c) == EventOfRow(Step(db, a).events[e].legacy.value)
  {
    var d := db.events[e];
    BuyStep(db, a, e);
    Prefilter.PurchaseRows(d, db.mode, a.input, a.newId, a.staleMiss);
    var out := PurchaseOn(d, db.mode, a.input, a.newId, a.staleMiss).1;
    if out.Created? && out.result.status == Confirmed { ConfirmedRaisesVersions(d, db.mode, a.input, a.newId, a.staleMiss); }
  }

  /** A step that does not move the event row publishes nothing about the event. */
  lemma StillStep(db: Db, a: Action, e: EventId)
    requires Inv(db) && e in db.events && !MovesEventRow(db, a, e)
    ensures e in Step(db, a).events && Step(db, a).events[e].legacy == db.events[e].legacy && StepPublished(db, a, e) == {}
  {
    StepIsLaterOn(db, a, e);
    if a.Buy? && a.input.event == e && ValidInput(a.input) { BuyMovesEventRow(db, a, e); }
  }

  lemma {:induction false} PublishedWhen(run: seq<Action>, e: EventId)
    requires LastMovedByPurchase(run, e)
    ensures e in Exec(EMPTY, run).events && EventPublished(Exec(EMPTY, run).events[e], Published(run, e))
  {
    var front, a := run[..|run| - 1], run[|run| - 1];
    var db := Exec(EMPTY, front);
    RunKeepsInv(EMPTY, front);
    if MovesEventRow(db, a, e) {
      MoverIsBuy(db, a, e);
      BuyMovesEventRow(db, a, e);
      var c :| c in StepPublished(db, a, e);
      assert c in Published(run, e);
    } else {
      PublishedWhen(front, e);
      StillStep(db, a, e);
      assert Published(run, e) == Published(front, e);
    }
  }

  /** A purchase that changed the row of an event was one of that event. */
  lemma MoverIsBuy(db: Db, a: Action, e: EventId)
    requires MovesEventRow(db, a, e) && a.Buy?
    ensures e in db.events && a.input.event == e && ValidInput(a.input)
  {
  }

  lemma {:induction false} NothingPublishedBefore(run: seq<Action>, e: EventId)
    requires e !in Exec(EMPTY, run).events
    ensures Published(run, e) == {}
  {
    if run != [] {
      var front, a := run[..|run| - 1], run[|run| - 1];
      RunKeepsInv(EMPTY, front);
      if e in Exec(EMPTY, front).events { StepIsLaterOn(Exec(EMPTY, front), a, e); }
      NothingPublishedBefore(front, e);
    }
  }

  /** Nothing published earlier describes a row that an added type has moved since. */
  lemma MovedPast(front: seq<Action>, a: Action, e: EventId, c: Change)
    requires e in Exec(EMPTY, front).events && c in Published(front, e)
    requires MovesEventRow(Exec(EMPTY, front), a, e)
    ensures var d := Step(Exec(EMPTY, front), a).events[e]; d.legacy.Some? && EventOf(c) != EventOfRow(d.legacy.value)
  {
    var db := Exec(EMPTY, front);
    RunKeepsInv(EMPTY, front);
    StepIsLaterOn(db, a, e);
    PublishedIsSayable(front, e);
    SayableIsPast(front, e, c);
    var past: EventData, t: TypeId :| SaidAt(c, e, past, t) && Later(past, db.events[e]);
    assert db.events[e].legacy.value.version < Step(db, a).events[e].legacy.value.version;
  }

  lemma {:induction false} PublishedOnlyWhen(run: seq<Action>, e: EventId)
    requires e in Exec(EMPTY, run).events && EventPublished(Exec(EMPTY, run).events[e], Published(run, e))
    ensures LastMovedByPurchase(run, e)
  {
    var front, a := run[..|run| - 1], run[|run| - 1];
    var db := Exec(EMPTY, front);
    RunKeepsInv(EMPTY, front);
    var c :| c in Published(run, e) && EventOf(c) == EventOfRow(Exec(EMPTY, run).events[e].legacy.value);
    if e !in db.events {
      NothingPublishedBefore(front, e);
      assert a.Buy?;
    } else if MovesEventRow(db, a, e) {
      if c in Published(front, e) { MovedPast(front, a, e, c); }
      assert c in StepPublished(db, a, e);
    } else {
      StillStep(db, a, e);
      assert c in Published(front, e);
      PublishedOnlyWhen(front, e);
    }
  }

  // --- The main theorems ---

  /** Any delivery of what a run can say shows exactly what was delivered, and raises no corruption. */
  lemma FedMirrors(run: seq<Action>, e: EventId, ops: seq<Op>)
    requires MessagesOf(ops) <= Sayable(run, e)
    ensures AllAgree(MessagesOf(ops)) && NeverCorrupt(UPSERT, e, ops)
    ensures Mirrors(Deliver(UPSERT, e, ops), MessagesOf(ops))
  {
    SayableAgrees(run, e);
    AgreeSubset(MessagesOf(ops), Sayable(run, e));
    assert {} + MessagesOf(ops) == MessagesOf(ops);
    DeliveryMirrors(UPSERT, {}, e, ops);
  }

  /**
   Live messages and rebuild payloads of any states of the run, delivered in any order, any number of times, with
   any legacy or metadata updates between them, never raise corruption. Once everything published has
   arrived, every type somebody bought shows the database row.
   */
  lemma ProjectionConverges(run: seq<Action>, e: EventId, ops: seq<Op>)
    requires Published(run, e) <= MessagesOf(ops) <= Sayable(run, e)
    ensures NeverCorrupt(UPSERT, e, ops)
    ensures e in Exec(EMPTY, run).events ==>
      forall t | t in Exec(EMPTY, run).events[e].stock && t in Exec(EMPTY, run).events[e].types
                 && Bought(Exec(EMPTY, run).events[e].purchases, t) ::
        Lookup(Deliver(UPSERT, e, ops), t) == Some(EntryOfRow(Exec(EMPTY, run).events[e], t))
  {
    FedMirrors(run, e, ops);
    if e in Exec(EMPTY, run).events {
      var d := Exec(EMPTY, run).events[e];
      RunKeepsInv(EMPTY, run);
      forall t | t in d.stock && t in d.types && Bought(d.purchases, t)
        ensures Lookup(Deliver(UPSERT, e, ops), t) == Some(EntryOfRow(d, t))
      {
        SoldTypesArePublished(run, e, t);
        var c :| c in Published(run, e) && EntryOf(c) == EntryOfRow(d, t);
        CurrentRowWins(run, e, ops, c, t);
      }
    }
  }

  /**
   With exactly the published messages delivered, in any order and with any repetition and other updates between, the
   event fields and the top-level quantities show the event row if and only if a confirmed purchase was the
   last to move it. An added type moves it in silence, until the next purchase.
   */
  lemma EventProjectionConvergesIff(run: seq<Action>, e: EventId, ops: seq<Op>)
    requires MessagesOf(ops) == Published(run, e) && e in Exec(EMPTY, run).events
    ensures Exec(EMPTY, run).events[e].legacy.Some?
    ensures ShownEvent(Deliver(UPSERT, e, ops)) == EventOfRow(Exec(EMPTY, run).events[e].legacy.value) <==> LastMovedByPurchase(run, e)
    ensures LastMovedByPurchase(run, e) ==> EventShown(Deliver(UPSERT, e, ops), Exec(EMPTY, run).events[e].legacy.value)
  {
    RunKeepsInv(EMPTY, run);
    assert EventInv(Exec(EMPTY, run).mode, Exec(EMPTY, run).events[e]);
    PublishedIsSayable(run, e);
    if LastMovedByPurchase(run, e) { EventProjectionConverges(run, e, ops); }
    FedMirrors(run, e, ops);
    var doc := Deliver(UPSERT, e, ops);
    if ShownEvent(doc) == EventOfRow(Exec(EMPTY, run).events[e].legacy.value) {
      var m :| m in MessagesOf(ops) && EventOf(m) == (doc.eventVersion, doc.eventTotal, doc.eventRemaining);
      PublishedOnlyWhen(run, e);
    }
  }

  function ShownEvent(doc: Doc): (Option<int>, Option<int>, Option<int>) {
    (doc.eventVersion, doc.eventTotal, doc.eventRemaining)
  }

  predicate EventShown(doc: Doc, r: Row) {
    && ShownEvent(doc) == EventOfRow(r)
    && doc.total == Some(r.total) && doc.remaining == Some(r.remaining)
  }

  /** The positive half survives rebuild payloads of any past state among the messages. */
  lemma EventProjectionConverges(run: seq<Action>, e: EventId, ops: seq<Op>)
    requires Published(run, e) <= MessagesOf(ops) <= Sayable(run, e) && LastMovedByPurchase(run, e)
    ensures e in Exec(EMPTY, run).events && Exec(EMPTY, run).events[e].legacy.Some?
    ensures EventShown(Deliver(UPSERT, e, ops), Exec(EMPTY, run).events[e].legacy.value)
  {
    PublishedWhen(run, e);
    var d := Exec(EMPTY, run).events[e];
    RunKeepsInv(EMPTY, run);
    assert EventInv(Exec(EMPTY, run).mode, d);
    var c :| c in Published(run, e) && EventOf(c) == EventOfRow(d.legacy.value);
    var n := ChangeOf(e, d, d.defaultType.value);
    assert n in StateMessages(Exec(EMPTY, run), e);
    forall m | m in MessagesOf(ops) ensures m.eventVersion <= c.eventVersion {
      NewestMessage(run, e, n, m);
    }
    SayableAgrees(run, e);
    AgreeSubset(MessagesOf(ops), Sayable(run, e));
    NewestWins(UPSERT, e, ops, c);
  }

  predicate NeverAddsType(run: seq<Action>, e: EventId) {
    forall i | 0 <= i < |run| :: run[i].AddType? ==> run[i].toEvent != e
  }

  /** Where no type is ever added, the first confirmed purchase settles it. */
  lemma {:induction false} OnlyAddedTypesHide(run: seq<Action>, e: EventId)
    requires e in Exec(EMPTY, run).events && NeverAddsType(run, e)
    requires BoughtAny(Exec(EMPTY, run).events[e].purchases)
    ensures LastMovedByPurchase(run, e)
  {
    var front, a := run[..|run| - 1], run[|run| - 1];
    var db := Exec(EMPTY, front);
    RunKeepsInv(EMPTY, front);
    if e !in db.events {
      FreshEventUnsold(db, a, e);
    } else if MovesEventRow(db, a, e) {
      OnlyBuyOrAddMoves(db, a, e);
    } else {
      StillPurchases(db, a, e);
      OnlyAddedTypesHide(front, e);
    }
  }

  lemma OnlyBuyOrAddMoves(db: Db, a: Action, e: EventId)
    requires e in db.events && MovesEventRow(db, a, e)
    ensures a.Buy? || (a.AddType? && a.toEvent == e)
  {
  }

  /** A step that leaves the event row confirms nothing. */
  lemma StillPurchases(db: Db, a: Action, e: EventId)
    requires Inv(db) && e in db.events && !MovesEventRow(db, a, e)
    ensures e in Step(db, a).events && (BoughtAny(Step(db, a).events[e].purchases) ==> BoughtAny(db.events[e].purchases))
  {
    StillStep(db, a, e);
    if a.Buy? && a.input.event == e && ValidInput(a.input) {
      BuyStep(db, a, e);
      PurchaseKeepsKeysUnique(db.events[e], db.mode, a.input, a.newId, a.staleMiss);
      if BoughtAny(Step(db, a).events[e].purchases) {
        StillOutcome(db.events[e], db.mode, a.input, a.newId, a.staleMiss);
        BoughtAnyBefore(db.events[e].purchases, Step(db, a).events[e].purchases);
      }
    } else {
      QuietPurchases(db, a, e);
    }
  }

  lemma StillOutcome(d: EventData, mode: Mode, input: Input, newId: nat, stale: bool)
    requires EventInv(mode, d) && ValidInput(input) && PurchaseOn(d, mode, input, newId, stale).0.legacy == d.legacy
    ensures var out := PurchaseOn(d, mode, input, newId, stale).1; out.Created? ==> out.result.status != Confirmed
  {
    var out := PurchaseOn(d, mode, input, newId, stale).1;
    if out.Created? && out.result.status == Confirmed { ConfirmedRaisesVersions(d, mode, input, newId, stale); }
  }

  // --- A run in which the event row stays unpublished ---

  const ONE_TICKET: Input := Input(0, 1, 1, None, None)

  /** Create an event of ten, switch to the type writer, sell one, add a type of five. */
  function HiddenRun(): seq<Action> {
    [Create(0, 0, 10), Switch(TicketType, true), Buy(ONE_TICKET, 0, false), AddType(0, 1, "VIP", 5)]
  }

  lemma ExecNext(run: seq<Action>, a: Action)
    ensures Exec(EMPTY, run + [a]) == Step(Exec(EMPTY, run), a)
  {
    assert (run + [a])[..|run|] == run;
  }

  lemma OneTypeStock(t: TypeId, r: Row)
    ensures map[][t := r] == map[t := r] && Sum(Totals(map[t := r])) == r.total && Sum(Remainings(map[t := r])) == r.remaining
  {
    TotalsSingleton(t, r);
  }

  lemma CreatedAndSwitched()
    ensures var d := EventData(map[0 := "General Admission"], Some(0), Some(Row(10, 10, 0)), map[0 := Row(10, 10, 0)], []);
      Exec(EMPTY, [Create(0, 0, 10), Switch(TicketType, true)]) == Db(TicketType, map[0 := d])
  {
    var create := [Create(0, 0, 10)];
    FirstCreated();
    RunKeepsInv(EMPTY, create);
    SwitchSucceedsIff(Exec(EMPTY, create), TicketType, true);
    ExecNext(create, Switch(TicketType, true));
    assert create + [Switch(TicketType, true)] == [Create(0, 0, 10), Switch(TicketType, true)];
  }

  lemma FirstCreated()
    ensures var d := EventData(map[0 := "General Admission"], Some(0), Some(Row(10, 10, 0)), map[0 := Row(10, 10, 0)], []);
      Exec(EMPTY, [Create(0, 0, 10)]) == Db(Legacy, map[0 := d])
  {
    OneTypeStock(0, Row(10, 10, 0));
    ExecNext([], Create(0, 0, 10));
    assert [] + [Create(0, 0, 10)] == [Create(0, 0, 10)];
  }

  lemma SoldOne(d: EventData)
    requires d == EventData(map[0 := "General Admission"], Some(0), Some(Row(10, 10, 0)), map[0 := Row(10, 10, 0)], [])
    ensures var (d', out) := PurchaseOn(d, TicketType, ONE_TICKET, 0, false);
      && out.Created? && out.result.status == Confirmed
      && d'.types == d.types && d'.stock == map[0 := Row(10, 9, 1)] && d'.legacy == Some(Row(10, 9, 1))
  {
    OneTypeStock(0, Row(10, 9, 1));
    assert d.stock[0 := Row(10, 9, 1)] == map[0 := Row(10, 9, 1)];
    Prefilter.OneType(d.types, 0);
  }

  lemma AddedFive(db: Db)
    requires db.mode == TicketType && 0 in db.events && db.events[0].types == map[0 := "General Admission"]
    requires db.events[0].stock == map[0 := Row(10, 9, 1)] && db.events[0].legacy == Some(Row(10, 9, 1))
    ensures var a := AddType(0, 1, "VIP", 5);
      MovesEventRow(db, a, 0) && Step(db, a).events[0].legacy == Some(Row(15, 14, 2))
  {
    OneTypeStock(0, Row(10, 9, 1));
    TotalsUpdate(db.events[0].stock, 1, Row(5, 5, 0));
  }

  /** Everything published has been delivered, and the event fields still do not show the event row. */
  lemma AddedTypeHidesEventRow(ops: seq<Op>)
    requires MessagesOf(ops) == Published(HiddenRun(), 0)
    ensures 0 in Exec(EMPTY, HiddenRun()).events
    ensures Exec(EMPTY, HiddenRun()).events[0].legacy == Some(Row(15, 14, 2))
    ensures ShownEvent(Deliver(UPSERT, 0, ops)) != EventOfRow(Row(15, 14, 2))
  {
    var first := [Create(0, 0, 10), Switch(TicketType, true)];
    var buy, add := Buy(ONE_TICKET, 0, false), AddType(0, 1, "VIP", 5);
    CreatedAndSwitched();
    var db := Exec(EMPTY, first);
    SoldOne(db.events[0]);
    ExecNext(first, buy);
    var sold := Exec(EMPTY, first + [buy]);
    assert sold.events[0] == PurchaseOn(db.events[0], TicketType, ONE_TICKET, 0, false).0;
    AddedFive(sold);
    ExecNext(first + [buy], add);
    assert first + [buy] + [add] == HiddenRun();
    assert HiddenRun()[..3] == first + [buy];
    assert !LastMovedByPurchase(HiddenRun(), 0);
    EventProjectionConvergesIff(HiddenRun(), 0, ops);
  }

  lemma CurrentRowWins(run: seq<Action>, e: EventId, ops: seq<Op>, c: Change, t: TypeId)
    requires e in Exec(EMPTY, run).events
    requires var d := Exec(EMPTY, run).events[e]; t in d.stock && t in d.types && EntryOf(c) == EntryOfRow(d, t)
    requires c in MessagesOf(ops) && MessagesOf(ops) <= Sayable(run, e)
    ensures Lookup(Deliver(UPSERT, e, ops), t) == Some(EntryOf(c))
  {
    var d := Exec(EMPTY, run).events[e];
    RunKeepsInv(EMPTY, run);
    assert EventInv(Exec(EMPTY, run).mode, d);
    var n := ChangeOf(e, d, t);
    assert n in StateMessages(Exec(EMPTY, run), e);
    forall m | m in MessagesOf(ops) && m.typeId == t ensures m.typeVersion <= c.typeVersion {
      NewestMessage(run, e, n, m);
    }
    SayableAgrees(run, e);
    AgreeSubset(MessagesOf(ops), Sayable(run, e));
    NewestWins(UPSERT, e, ops, c);
  }

  /**
   With the payloads of the final state among the delivered messages (a rebuild, at any position of the sequence),
   the whole versioned view equals the tables: every type row, the event row, and the top-level fields.
   */
  lemma RebuildConverges(run: seq<Action>, e: EventId, ops: seq<Op>)
    requires e in Exec(EMPTY, run).events
    requires StateMessages(Exec(EMPTY, run), e) <= MessagesOf(ops) <= Sayable(run, e)
    ensures var d := Exec(EMPTY, run).events[e];
      var doc := Deliver(UPSERT, e, ops);
      && NeverCorrupt(UPSERT, e, ops)
      && d.legacy.Some? && d.stock.Keys == d.types.Keys
      && (forall t | t in d.stock :: Lookup(doc, t) == Some(EntryOfRow(d, t)))
      && (forall t | Lookup(doc, t).Some? :: t in d.stock)
      && (doc.eventVersion, doc.eventTotal, doc.eventRemaining) == EventOfRow(d.legacy.value)
      && doc.total == Some(d.legacy.value.total) && doc.remaining == Some(d.legacy.value.remaining)
  {
    var d := Exec(EMPTY, run).events[e];
    RunKeepsInv(EMPTY, run);
    assert EventInv(Exec(EMPTY, run).mode, d);
    FedMirrors(run, e, ops);
    forall t | t in d.stock ensures Lookup(Deliver(UPSERT, e, ops), t) == Some(EntryOfRow(d, t)) {
      CurrentRowWins(run, e, ops, ChangeOf(e, d, t), t);
    }
    EventRowWins(run, e, ops);
    forall t | Lookup(Deliver(UPSERT, e, ops), t).Some? ensures t in d.stock {
      OnlyKnownTypes(run, e, ops, t);
    }
  }

  lemma EventRowWins(run: seq<Action>, e: EventId, ops: seq<Op>)
    requires e in Exec(EMPTY, run).events
    requires EventInv(Exec(EMPTY, run).mode, Exec(EMPTY, run).events[e])
    requires StateMessages(Exec(EMPTY, run), e) <= MessagesOf(ops) <= Sayable(run, e)
    requires AllAgree(MessagesOf(ops))
    ensures var r := Exec(EMPTY, run).events[e].legacy.value;
      var doc := Deliver(UPSERT, e, ops);
      && (doc.eventVersion, doc.eventTotal, doc.eventRemaining) == EventOfRow(r)
      && doc.total == Some(r.total) && doc.remaining == Some(r.remaining)
  {
    var d := Exec(EMPTY, run).events[e];
    var n := ChangeOf(e, d, d.defaultType.value);
    assert n in StateMessages(Exec(EMPTY, run), e);
    forall m | m in MessagesOf(ops) ensures m.eventVersion <= n.eventVersion {
      NewestMessage(run, e, n, m);
    }
    NewestWins(UPSERT, e, ops, n);
  }

  lemma OnlyKnownTypes(run: seq<Action>, e: EventId, ops: seq<Op>, t: TypeId)
    requires e in Exec(EMPTY, run).events
    requires MessagesOf(ops) <= Sayable(run, e)
    requires Mirrors(Deliver(UPSERT, e, ops), MessagesOf(ops))
    requires Lookup(Deliver(UPSERT, e, ops), t).Some?
    ensures t in Exec(EMPTY, run).events[e].stock
  {
    var types := TypesOf(Deliver(UPSERT, e, ops));
    assert FromMessage(types[IndexOf(types, t)], MessagesOf(ops));
    var c :| c in MessagesOf(ops) && EntryOf(c).id == Some(t);
    SayableIsPast(run, e, c);
  }

  /** What the tables say survives its own wire format: the consumer accepts it unchanged. */
  lemma SayableSurvivesTheWire(run: seq<Action>, e: EventId, c: Change)
    requires c in StateMessages(Exec(EMPTY, run), e)
    ensures Parse(Build(c)) == Versioned(c) <==> NonBlank(c.typeName)
  {
    RunKeepsInv(EMPTY, run);
    var t := SaidNow(Exec(EMPTY, run), e, c);
    StateIsWellFormed(Exec(EMPTY, run), e, t);
    BuildParse(c, Other);
  }

  lemma StateIsWellFormed(db: Db, e: EventId, t: TypeId)
    requires Inv(db) && e in db.events && t in db.events[e].types
    ensures var d := db.events[e];
      && t in d.stock && d.legacy.Some?
      && (WellFormed(ChangeOf(e, d, t)) <==> NonBlank(d.types[t]))
  {
    assert EventInv(db.mode, db.events[e]);
  }
}
