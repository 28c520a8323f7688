/** The purchase paths as the service runs them: gate, anchor, transaction, compensation, publication. */
module PurchaseService {
  import opened Common
  import opened Sums
  import opened InventoryTables
  import opened InventoryTriggers
  import opened InventoryMessages
  import opened Purchases
  import Runs = InventoryRuns
  import C = Counters
  import P = Prefilter
  import EndToEnd

  datatype Answer = SoldOutPrecheck | Answered(outcome: TxOutcome)

  /** What the request is answered and what it publishes, from what its transaction returned. */
  function PublishedBy(answer: Answer): seq<Change> {
    if answer.Answered? && answer.outcome.Created? && answer.outcome.result.status == Confirmed
       && answer.outcome.change.Some?
    then [answer.outcome.change.value]
    else []
  }

  /** A new confirmed purchase, as the caller sees it. */
  predicate Bought(answer: Answer) {
    answer.Answered? && answer.outcome.Created? && answer.outcome.result.status == Confirmed
  }

  ghost predicate Described(e: EventId, db: Db, t: TypeId) {
    e in db.events && db.events[e].legacy.Some? && t in db.events[e].types && t in db.events[e].stock
  }

  /** The change that tells the rows of a type and of its event as they stand in the tables. */
  ghost function RowsOf(e: EventId, db: Db, t: TypeId): Change
    requires Described(e, db, t)
  {
    var d := db.events[e];
    Change(e, t, d.types[t], d.stock[t].total, d.stock[t].remaining, d.stock[t].version,
           d.legacy.value.total, d.legacy.value.remaining, d.legacy.value.version)
  }

  /** What is published is the committed rows, for a new confirmed purchase and for nothing else. */
  lemma PublishedRows(db: Db, input: Input, newId: nat, stale: bool)
    ensures var (db', out) := PurchaseSpec(db, input, newId, stale);
      && (!Bought(Answered(out)) ==> PublishedBy(Answered(out)) == [])
      && (Bought(Answered(out)) ==> Described(input.event, db', out.typeId)
                                    && PublishedBy(Answered(out)) == [RowsOf(input.event, db', out.typeId)])
  {
    SpecOnTables(db, input, newId, stale);
    var out := PurchaseSpec(db, input, newId, stale).1;
    if out.Created? {
      CreatedOutcome(db.events[input.event], db.mode, input, newId, stale);
      CreatedChange(db.events[input.event], db.mode, input, newId, stale);
    }
  }

  /** What the service publishes with the answer, against the tables it leaves: the rows of a new confirmed purchase, or nothing. */
  ghost predicate PublishedWell(e: EventId, db: Db, answer: Answer) {
    if Bought(answer)
    then Described(e, db, answer.outcome.typeId) && PublishedBy(answer) == [RowsOf(e, db, answer.outcome.typeId)]
    else PublishedBy(answer) == []
  }

  lemma TransactionPublishes(db: Db, input: Input, newId: nat, stale: bool, fate: P.Fate)
    ensures var (db', out) := PurchaseSpec(db, input, newId, stale);
      PublishedWell(input.event, if fate == P.Throws then db else db', Answered(Seen(out, fate)))
  {
    PublishedRows(db, input, newId, stale);
  }

  /** And it is what the run of the database counts as published by the same purchase. */
  lemma PublishedIsCounted(db: Db, input: Input, newId: nat, stale: bool)
    requires ValidInput(input)
    ensures EndToEnd.StepPublished(db, Runs.Buy(input, newId, stale), input.event)
         == set c | c in PublishedBy(Answered(PurchaseSpec(db, input, newId, stale).1))
  {
    PublishedRows(db, input, newId, stale);
  }

  /** The gate answers a request without an idempotency key that does not fit a known counter. */
  predicate Refused(store: C.Store, input: Input, plan: P.Plan) {
    var key := P.PlanKey(input, plan);
    key.Some? && input.requestId.None? && C.ReplyTo(store, key.value, C.Reserve(input.quantity)).SoldOut?
  }

  ghost function AnswerOf(db: Db, store: C.Store, input: Input, plan: P.Plan, newId: nat, stale: bool, fate: P.Fate): Answer {
    if Refused(store, input, plan) then SoldOutPrecheck
    else Answered(if fate == P.Normal then PurchaseSpec(db, input, newId, stale).1 else Failed(DatabaseError))
  }

  // --- One request with no other step in between ---

  /** The protocol of the prefilter, run for a single request from its arrival to its last remedy. */
  ghost function Alone(db: Db, store: C.Store, input: Input, plan: P.Plan, newId: nat, stale: bool, fate: P.Fate): P.Sys {
    var arrived := P.Sys(db, store, map[0 := P.Req(input, plan, P.Ready)], map[]);
    var anchored := P.Step(P.Step(arrived, P.Gate(0)), P.ReadAnchor(0));
    P.Step(P.Step(P.Step(anchored, P.Transact(0, newId, stale, fate)), P.Remedy(0)), P.Remedy(0))
  }

  datatype Gated = Gated(store: C.Store, reserved: bool, anchor: nat)

  /** The counter side of a request up to its transaction. */
  function Gate(store: C.Store, input: Input, plan: P.Plan): Gated {
    var key := P.PlanKey(input, plan);
    if key.None? then Gated(store, false, 0)
    else
      var after := C.Run(store, key.value, C.Reserve(input.quantity));
      Gated(after, C.ReplyTo(store, key.value, C.Reserve(input.quantity)).Done?, C.Revision(after, key.value))
  }

  /** A remedy carried out without interruption. */
  function Remedied(store: C.Store, key: Option<C.Key>, quantity: int, remedy: P.Remedy): C.Store {
    if key.None? then store
    else match remedy
      case Nothing => store
      case GiveBack => C.Run(store, key.value, C.Release(quantity))
      case Correct(value, anchor, guarded, orGiveBack) =>
        var script := P.CorrectionScript(remedy);
        var written := C.Run(store, key.value, script);
        if !C.ReplyTo(store, key.value, script).Done? && orGiveBack
        then C.Run(written, key.value, C.Release(quantity)) else written
  }

  function Seen(out: TxOutcome, fate: P.Fate): TxOutcome {
    if fate == P.Normal then out else Failed(DatabaseError)
  }

  lemma RemedySteps(s: P.Sys, r: P.Req, remedy: P.Remedy)
    requires s.reqs == map[0 := r] && r.phase == P.Settled(remedy)
    ensures P.Step(P.Step(s, P.Remedy(0)), P.Remedy(0))
         == P.Sys(s.db, Remedied(s.store, P.PlanKey(r.input, r.plan), r.input.quantity, remedy),
                  map[0 := r.(phase := P.Finished)], s.jobs)
  {
    var s1 := P.Step(s, P.Remedy(0));
    assert s1 == P.RemedyStep(s, 0);
    if s1.reqs[0].phase.Settled? {
      assert s1.reqs == map[0 := r.(phase := P.Settled(P.GiveBack))];
      assert P.Step(s1, P.Remedy(0)) == P.RemedyStep(s1, 0);
      assert P.RemedyStep(s1, 0).reqs == map[0 := r.(phase := P.Finished)];
    } else {
      assert s1.reqs == map[0 := r.(phase := P.Finished)];
      assert P.Step(s1, P.Remedy(0)) == s1;
    }
  }

  /** Refused by the gate, a request ends there; otherwise gate, transaction and remedy follow each other. */
  lemma AloneIs(db: Db, store: C.Store, input: Input, plan: P.Plan, newId: nat, stale: bool, fate: P.Fate)
    ensures var end := Alone(db, store, input, plan, newId, stale, fate);
      && end.reqs == map[0 := P.Req(input, plan, P.Finished)]
      && if Refused(store, input, plan) then end.db == db && end.store == store
         else
           var g := Gate(store, input, plan);
           var (db', out) := PurchaseSpec(db, input, newId, stale);
           && end.db == (if fate == P.Throws then db else db')
           && end.store == Remedied(g.store, P.PlanKey(input, plan), input.quantity,
                                    P.RemedyFor(plan, g.reserved, g.anchor, Seen(out, fate)))
  {
    var s0 := P.Sys(db, store, map[0 := P.Req(input, plan, P.Ready)], map[]);
    var s2 := P.Step(P.Step(s0, P.Gate(0)), P.ReadAnchor(0));
    GateSteps(db, store, input, plan);
    if !Refused(store, input, plan) {
      var g := Gate(store, input, plan);
      TransactAlone(s2, input, plan, g, newId, stale, fate);
      var s3 := P.Step(s2, P.Transact(0, newId, stale, fate));
      RemedySteps(s3, s3.reqs[0], s3.reqs[0].phase.remedy);
    }
  }

  lemma GateSteps(db: Db, store: C.Store, input: Input, plan: P.Plan)
    ensures var s0 := P.Sys(db, store, map[0 := P.Req(input, plan, P.Ready)], map[]);
      P.Step(P.Step(s0, P.Gate(0)), P.ReadAnchor(0)) ==
        if Refused(store, input, plan) then P.Sys(db, store, map[0 := P.Req(input, plan, P.Finished)], map[])
        else
          var g := Gate(store, input, plan);
          P.Sys(db, g.store, map[0 := P.Req(input, plan, P.Anchored(g.reserved, g.anchor))], map[])
  {
    var s0 := P.Sys(db, store, map[0 := P.Req(input, plan, P.Ready)], map[]);
    var s1 := P.Step(s0, P.Gate(0));
    assert s1 == P.GateStep(s0, 0);
    var s2 := P.Step(s1, P.ReadAnchor(0));
    var g := Gate(store, input, plan);
    assert s2.reqs == map[0 := P.Req(input, plan,
      if Refused(store, input, plan) then P.Finished else P.Anchored(g.reserved, g.anchor))];
  }

  lemma TransactAlone(s: P.Sys, input: Input, plan: P.Plan, g: Gated, newId: nat, stale: bool, fate: P.Fate)
    requires s.reqs == map[0 := P.Req(input, plan, P.Anchored(g.reserved, g.anchor))]
    ensures var (db', out) := PurchaseSpec(s.db, input, newId, stale);
      P.Step(s, P.Transact(0, newId, stale, fate)) ==
        s.(db := if fate == P.Throws then s.db else db',
           reqs := map[0 := P.Req(input, plan, P.Settled(P.RemedyFor(plan, g.reserved, g.anchor, Seen(out, fate))))])
  {
    var s' := P.Step(s, P.Transact(0, newId, stale, fate));
    assert s' == P.TransactStep(s, 0, newId, stale, fate);
    assert s'.reqs == map[0 := s'.reqs[0]];
  }

  class Service {
    const session: Session
    const counters: C.CounterStore
    /** InventoryChanged details handed to the bus, in order. */
    var published: seq<Change>

    constructor (session: Session, counters: C.CounterStore)
      ensures this.session == session && this.counters == counters && published == []
    {
      this.session := session;
      this.counters := counters;
      published := [];
    }

    /** The transaction with its environment: it answers, throws before COMMIT, or loses the COMMIT answer. */
    method Transaction(input: Input, newId: nat, stale: bool, fate: P.Fate) returns (out: TxOutcome)
      requires ValidInput(input)
      modifies session
      ensures session.View() == if fate == P.Throws then old(session.View())
                                else PurchaseSpec(old(session.View()), input, newId, stale).0
      ensures out == if fate == P.Normal then PurchaseSpec(old(session.View()), input, newId, stale).1
                     else Failed(DatabaseError)
    {
      if fate == P.Throws { return Failed(DatabaseError); }
      out := ExecutePurchaseTransaction(session, input, newId, stale);
      if fate == P.CommitLost { out := Failed(DatabaseError); }
    }

    /** createPurchaseLegacy */
    method CreatePurchaseLegacy(input: Input, newId: nat, stale: bool, fate: P.Fate) returns (answer: Answer)
      requires ValidInput(input)
      modifies this`published, session, counters
      ensures var end := Alone(old(session.View()), old(counters.View()), input, P.LegacyPlan, newId, stale, fate);
        session.View() == end.db && counters.View() == end.store
      ensures answer == AnswerOf(old(session.View()), old(counters.View()), input, P.LegacyPlan, newId, stale, fate)
      ensures Bought(answer) ==> Described(input.event, session.View(), answer.outcome.typeId)
      ensures published == old(published) + if Bought(answer) then [RowsOf(input.event, session.View(), answer.outcome.typeId)] else []
    {
      AloneIs(session.View(), counters.View(), input, P.LegacyPlan, newId, stale, fate);
      ghost var db := session.View();
      var key := C.EventCounter(input.event);
      var reply := counters.RunReserve(key, input.quantity);
      if reply.SoldOut? && input.requestId.None? { return SoldOutPrecheck; }
      var reserved := reply.Done?;
      var anchor := counters.GetRevision(key);
      var out := Transaction(input, newId, stale, fate);
      if !out.Created? {
        if reserved { var _ := counters.RunRelease(key, input.quantity); }
      } else if out.result.status == Confirmed {
        if !reserved { var _ := counters.RunSync(key, out.compatRemaining, anchor, false); }
      } else if reserved {
        var synced := counters.RunSync(key, out.compatRemaining, anchor, false);
        if !synced.Done? { var _ := counters.RunRelease(key, input.quantity); }
      }
      answer := Answered(out);
      published := published + PublishedBy(answer);
      assert PublishedWell(input.event, session.View(), answer) by { TransactionPublishes(db, input, newId, stale, fate); }
    }

    /** createPurchaseTicketType, and the path that goes straight to the database when no scope is known. */
    method CreatePurchaseTicketType(input: Input, scope: Option<TypeId>, newId: nat, stale: bool, fate: P.Fate)
      returns (answer: Answer)
      requires ValidInput(input)
      modifies this`published, session, counters
      ensures var end := Alone(old(session.View()), old(counters.View()), input, P.TypePlan(scope), newId, stale, fate);
        session.View() == end.db && counters.View() == end.store
      ensures answer == AnswerOf(old(session.View()), old(counters.View()), input, P.TypePlan(scope), newId, stale, fate)
      ensures Bought(answer) ==> Described(input.event, session.View(), answer.outcome.typeId)
      ensures published == old(published) + if Bought(answer) then [RowsOf(input.event, session.View(), answer.outcome.typeId)] else []
    {
      AloneIs(session.View(), counters.View(), input, P.TypePlan(scope), newId, stale, fate);
      ghost var db := session.View();
      var reserved, anchor := false, 0;
      if scope.Some? {
        var key := C.TypeCounter(input.event, scope.value);
        var reply := counters.RunReserve(key, input.quantity);
        if reply.SoldOut? && input.requestId.None? { return SoldOutPrecheck; }
        reserved := reply.Done?;
        if reserved { anchor := reply.revision; } else { anchor := counters.GetRevision(key); }
      }
      var out := Transaction(input, newId, stale, fate);
      if scope.Some? { ReconcileTicketTypeCounter(input, scope.value, reserved, anchor, out); }
      answer := Answered(out);
      published := published + PublishedBy(answer);
      assert PublishedWell(input.event, session.View(), answer) by { TransactionPublishes(db, input, newId, stale, fate); }
    }

    /** reconcileTicketTypeCounter, and the release of the catch branch. */
    method ReconcileTicketTypeCounter(input: Input, t: TypeId, reserved: bool, anchor: nat, out: TxOutcome)
      modifies counters
      ensures counters.View() ==
        Remedied(old(counters.View()), Some(C.TypeCounter(input.event, t)), input.quantity,
                 P.TypeRemedy(t, reserved, anchor, out))
    {
      var key := C.TypeCounter(input.event, t);
      if !out.Created? || out.typeId != t {
        if reserved { var _ := counters.RunRelease(key, input.quantity); }
        return;
      }
      var usable := out.modeUsed == TicketType && out.typeRemaining.Some?;
      if out.result.status == Confirmed {
        if !reserved && usable { var _ := counters.RunSync(key, out.typeRemaining.value, anchor, true); }
        return;
      }
      if reserved {
        var synced := false;
        if usable {
          var reply := counters.RunSync(key, out.typeRemaining.value, anchor, true);
          synced := reply.Done?;
        }
        if !synced { var _ := counters.RunRelease(key, input.quantity); }
      }
    }
  }

  // --- What a purchase does to a synced counter ---

  /**
   A purchase that runs undisturbed against a counter equal to its stock row leaves it equal to the row again,
   whatever the mode, the plan, the idempotency key or the outcome; only a lost COMMIT answer of a
   confirmed purchase leaves the counter above the row, by exactly the quantity bought. No other counter moves.
   */
  lemma SyncedStaysSynced(db: Db, store: C.Store, input: Input, plan: P.Plan, newId: nat, stale: bool, fate: P.Fate, k: C.Key)
    requires Runs.Inv(db) && ValidInput(input) && P.PlanFits(input, plan) && P.PlanKey(input, plan) == Some(k)
    requires P.StockRow(db, k).Some? && k in store.values && store.values[k] == P.StockRow(db, k).value.remaining
    ensures var end := Alone(db, store, input, plan, newId, stale, fate);
      var out := PurchaseSpec(db, input, newId, stale).1;
      var unseen := fate == P.CommitLost && out.Created? && out.result.status == Confirmed;
      && P.StockRow(end.db, k).Some? && k in end.store.values
      && end.store.values[k] == P.StockRow(end.db, k).value.remaining + (if unseen then input.quantity else 0)
      && forall other | other != k :: C.Value(end.store, other) == C.Value(store, other)
  {
    var (db', out) := PurchaseSpec(db, input, newId, stale);
    AloneIs(db, store, input, plan, newId, stale, fate);
    P.Booked(db, input, newId, stale, k);
    P.StaysAboveZero(db, input, plan, newId, stale, k);
    if !Refused(store, input, plan) {
      var g := Gate(store, input, plan);
      var before, after := P.StockRow(db, k).value.remaining, P.StockRow(db', k).value.remaining;
      SettleSynced(store, input, plan, g, Seen(out, fate), k, before, after);
    }
  }

  lemma SettleSynced(store: C.Store, input: Input, plan: P.Plan, g: Gated, out: TxOutcome, k: C.Key, before: int, after: int)
    requires P.PlanKey(input, plan) == Some(k) && k in store.values && store.values[k] == before
    requires g == Gate(store, input, plan)
    requires out.Created? ==> P.Books(out, k) && P.Accounted(before, after, input.quantity, out, k)
    requires P.Confirms(out, k) ==> before >= input.quantity
    ensures var remedy := P.RemedyFor(plan, g.reserved, g.anchor, out);
      var end := Remedied(g.store, Some(k), input.quantity, remedy);
      && k in end.values && end.values[k] == (if out.Created? then after else before)
      && forall other | other != k :: C.Value(end, other) == C.Value(store, other)
  {
    P.RemedyFacts(plan, g.reserved, g.anchor, out, input, k, before, after);
    UnreservedRemedy(plan, g.anchor, out, input, k);
    StoreAfter(store, k, input.quantity, g, P.RemedyFor(plan, g.reserved, g.anchor, out));
  }

  /** Without a reservation only a confirmed purchase is written to the counter. */
  lemma UnreservedRemedy(plan: P.Plan, anchor: nat, out: TxOutcome, input: Input, k: C.Key)
    requires P.PlanKey(input, plan) == Some(k)
    ensures P.RemedyFor(plan, false, anchor, out) != P.Nothing ==> P.Confirms(out, k)
  {
  }

  /** Carrying out the remedy right after the gate. */
  lemma StoreAfter(store: C.Store, k: C.Key, quantity: int, g: Gated, remedy: P.Remedy)
    requires k in store.values
    requires g.store == C.Run(store, k, C.Reserve(quantity)) && g.reserved == (store.values[k] >= quantity)
    requires g.anchor == C.Revision(g.store, k)
    requires !g.reserved ==> remedy.Nothing?
    requires remedy.Correct? ==> remedy.anchor == g.anchor
    ensures var end := Remedied(g.store, Some(k), quantity, remedy);
      && k in end.values
      && end.values[k] == (if remedy.Correct? then remedy.value
                           else store.values[k] - (if g.reserved && remedy.Nothing? then quantity else 0))
      && forall other | other != k :: C.Value(end, other) == C.Value(store, other)
  {
  }

  // --- Requests with an idempotency key at a sold-out counter ---

  /** The gate refuses without an idempotency key, and only on a counter that exists and is too low. */
  lemma RefusedIff(store: C.Store, input: Input, plan: P.Plan)
    ensures Refused(store, input, plan) <==>
      && input.requestId.None? && P.PlanKey(input, plan).Some?
      && P.PlanKey(input, plan).value in store.values && store.values[P.PlanKey(input, plan).value] < input.quantity
  {
  }

  /** A retry with the key of a committed purchase is answered with its result, whatever any counter shows by then. */
  lemma KeyedRetryIsAnswered(
    db: Db, input: Input, newId: nat, stale: bool, run: seq<Runs.Action>, store: C.Store, plan: P.Plan, retryId: nat)
    requires Runs.Inv(db) && ValidInput(input) && input.requestId.Some? && PurchaseSpec(db, input, newId, stale).1.Created?
    ensures var (db1, first) := PurchaseSpec(db, input, newId, stale);
      var later := Runs.Exec(db1, run);
      AnswerOf(later, store, input, plan, retryId, false, P.Normal) == Answered(Replayed(first.result, first.typeId, later.mode))
  {
    SpecOnTables(db, input, newId, stale);
    CreatedOutcome(db.events[input.event], db.mode, input, newId, stale);
    Runs.RetryAnswersFirstResult(db, input, newId, stale, run, input, retryId, false);
  }

  /**
   A request with a key that a counter holds back, and that the database confirms, leaves the counter equal to the row: the
   counter was too low because others hold reservations, or absent in the event namespace.
   */
  lemma BypassCorrects(db: Db, store: C.Store, input: Input, plan: P.Plan, newId: nat, stale: bool, k: C.Key)
    requires Runs.Inv(db) && ValidInput(input) && P.PlanFits(input, plan) && P.PlanKey(input, plan) == Some(k)
    requires P.StockRow(db, k).Some? && PurchaseSpec(db, input, newId, stale).1.Created?
    requires PurchaseSpec(db, input, newId, stale).1.result.status == Confirmed
    requires if k in store.values then input.requestId.Some? && store.values[k] < input.quantity else k.EventCounter?
    requires k.TypeCounter? ==> db.mode == TicketType
    ensures var end := Alone(db, store, input, plan, newId, stale, P.Normal);
      P.StockRow(end.db, k).Some? && C.Value(end.store, k) == Some(P.StockRow(end.db, k).value.remaining)
  {
    var (db', out) := PurchaseSpec(db, input, newId, stale);
    AloneIs(db, store, input, plan, newId, stale, P.Normal);
    BypassBooks(db, input, plan, newId, stale, k);
    BypassStore(store, input, plan, out, k, P.StockRow(db, k).value.remaining, P.StockRow(db', k).value.remaining);
  }

  lemma BypassBooks(db: Db, input: Input, plan: P.Plan, newId: nat, stale: bool, k: C.Key)
    requires Runs.Inv(db) && ValidInput(input) && P.PlanFits(input, plan) && P.PlanKey(input, plan) == Some(k)
    requires P.StockRow(db, k).Some? && PurchaseSpec(db, input, newId, stale).1.Created?
    requires PurchaseSpec(db, input, newId, stale).1.result.status == Confirmed && (k.TypeCounter? ==> db.mode == TicketType)
    ensures var (db', out) := PurchaseSpec(db, input, newId, stale);
      && P.StockRow(db', k).Some? && P.Confirms(out, k) && P.Usable(out, k)
      && P.Accounted(P.StockRow(db, k).value.remaining, P.StockRow(db', k).value.remaining, input.quantity, out, k)
  {
    P.Booked(db, input, newId, stale, k);
    P.StaysAboveZero(db, input, plan, newId, stale, k);
    SpecOnTables(db, input, newId, stale);
    CreatedOutcome(db.events[input.event], db.mode, input, newId, stale);
  }

  lemma BypassStore(store: C.Store, input: Input, plan: P.Plan, out: TxOutcome, k: C.Key, before: int, after: int)
    requires P.PlanKey(input, plan) == Some(k) && (k in store.values ==> store.values[k] < input.quantity)
    requires k.TypeCounter? ==> k in store.values
    requires P.Accounted(before, after, input.quantity, out, k) && P.Confirms(out, k) && P.Usable(out, k)
    ensures var g := Gate(store, input, plan);
      C.Value(Remedied(g.store, Some(k), input.quantity, P.RemedyFor(plan, g.reserved, g.anchor, out)), k) == Some(after)
  {
    var g := Gate(store, input, plan);
    P.RemedyFacts(plan, g.reserved, g.anchor, out, input, k, before, after);
  }
}
