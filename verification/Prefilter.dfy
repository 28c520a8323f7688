/**
 The purchase prefilter as a protocol: every request is a small program (gate, anchor, transaction, remedy)
 whose steps interleave with those of all other requests, with event creation, with counter seeding and
 reconciling, and with writer switches. Each script and each database transaction is one atomic step.
 Assumed: Valkey answers, keeps its keys, and no process dies between two of its steps.
 */
module Prefilter {
  import opened Common
  import opened Sums
  import opened InventoryTables
  import opened InventoryTriggers
  import opened Purchases
  import opened WriterSwitch
  import Runs = InventoryRuns
  import C = Counters

  /** What the resolver answered, possibly long ago: PrefilterPlan, or the bypass of a failed resolution. */
  datatype Plan = LegacyPlan | TypePlan(prefilter: Option<TypeId>) | DbOnly

  /** An explicitly selected type is always the scope of the type prefilter. */
  predicate PlanFits(input: Input, plan: Plan) {
    plan.TypePlan? && input.typeId.Some? ==> plan.prefilter == input.typeId
  }

  /** The only counter a request ever touches. */
  function PlanKey(input: Input, plan: Plan): Option<C.Key> {
    match plan
    case LegacyPlan => Some(C.EventCounter(input.event))
    case TypePlan(Some(t)) => Some(C.TypeCounter(input.event, t))
    case _ => None
  }

  /** What is left to do on the counter once the transaction is over. */
  datatype Remedy = Nothing | GiveBack | Correct(value: int, anchor: nat, guarded: bool, orGiveBack: bool)

  /** createPurchaseLegacy, after the transaction. */
  function LegacyRemedy(reserved: bool, anchor: nat, out: TxOutcome): Remedy {
    match out
    case Created(result, _, compat, _, _, _) =>
      if result.status == Confirmed then
        if reserved then Nothing else Correct(compat, anchor, false, false)
      else if reserved then Correct(compat, anchor, false, true) else Nothing
    case _ => if reserved then GiveBack else Nothing
  }

  /** reconcileTicketTypeCounter, and the catch branch before it. */
  function TypeRemedy(t: TypeId, reserved: bool, anchor: nat, out: TxOutcome): Remedy {
    match out
    case Created(result, _, _, typeId, typeRemaining, modeUsed) =>
      var usable := modeUsed == TicketType && typeRemaining.Some?;
      if typeId != t then
        if reserved then GiveBack else Nothing
      else if result.status == Confirmed then
        if reserved || !usable then Nothing else Correct(typeRemaining.value, anchor, true, false)
      else if !reserved then Nothing
      else if usable then Correct(typeRemaining.value, anchor, true, true)
      else GiveBack
    case _ => if reserved then GiveBack else Nothing
  }

  function RemedyFor(plan: Plan, reserved: bool, anchor: nat, out: TxOutcome): Remedy {
    match plan
    case LegacyPlan => LegacyRemedy(reserved, anchor, out)
    case TypePlan(Some(t)) => TypeRemedy(t, reserved, anchor, out)
    case _ => Nothing
  }

  // --- The interleaved system ---

  datatype Phase =
    | Ready
    | Gated(reserved: bool)
    | Anchored(reserved: bool, anchor: nat)
    | Settled(remedy: Remedy)
    | Finished

  datatype Req = Req(input: Input, plan: Plan, phase: Phase)

  /** A value read from the database that will be written to a counter later. */
  datatype Job = InitJob(key: C.Key, value: int) | SyncJob(key: C.Key, value: int, expected: nat)

  datatype Sys = Sys(db: Db, store: C.Store, reqs: map<nat, Req>, jobs: map<nat, Job>)

  /** Normal answer, an exception before COMMIT, or a COMMIT whose answer was lost. */
  datatype Fate = Normal | Throws | CommitLost

  datatype Event =
    | Arrive(id: nat, input: Input, plan: Plan)
    | Gate(id: nat)
    | ReadAnchor(id: nat)
    | Transact(id: nat, newId: nat, staleMiss: bool, fate: Fate)
    | Remedy(id: nat)
    /** The creating transaction; its counter initialisation runs later. */
    | CreateEvent(event: EventId, newType: TypeId, total: int, job: nat)
    | SwitchMode(target: Mode, revisionStable: bool)
    | AddType(toEvent: EventId, addedType: TypeId, name: string, added: int)
    /** Seed or reconcile reads one stock row, with whatever revision it noted. */
    | ReadStock(job: nat, key: C.Key, expected: Option<nat>)
    | WriteCounter(job: nat)

  /** The database row a counter stands for. */
  function StockRow(db: Db, k: C.Key): Option<Row> {
    if k.event !in db.events then None
    else match k
      case EventCounter(e) => db.events[e].legacy
      case TypeCounter(e, t) => if t in db.events[e].stock then Some(db.events[e].stock[t]) else None
  }

  function InitialKey(mode: Mode, e: EventId, t: TypeId): C.Key {
    if mode == Legacy then C.EventCounter(e) else C.TypeCounter(e, t)
  }

  ghost function Step(s: Sys, ev: Event): Sys {
    match ev
    case Arrive(id, input, plan) =>
      if id !in s.reqs && ValidInput(input) && PlanFits(input, plan)
      then s.(reqs := s.reqs[id := Req(input, plan, Ready)]) else s
    case Gate(id) => if id in s.reqs && s.reqs[id].phase.Ready? then GateStep(s, id) else s
    case ReadAnchor(id) =>
      if id in s.reqs && s.reqs[id].phase.Gated? && PlanKey(s.reqs[id].input, s.reqs[id].plan).Some? then
        var anchor := C.Revision(s.store, PlanKey(s.reqs[id].input, s.reqs[id].plan).value);
        s.(reqs := s.reqs[id := s.reqs[id].(phase := Anchored(s.reqs[id].phase.reserved, anchor))])
      else s
    case Transact(id, newId, stale, fate) =>
      if id in s.reqs && s.reqs[id].phase.Anchored? then TransactStep(s, id, newId, stale, fate) else s
    case Remedy(id) =>
      if id in s.reqs && s.reqs[id].phase.Settled? then RemedyStep(s, id) else s
    case CreateEvent(e, t, total, job) =>
      if e !in s.db.events && 0 < total <= INT4_MAX && job !in s.jobs
      then s.(db := Runs.Step(s.db, Runs.Create(e, t, total)),
              jobs := s.jobs[job := InitJob(InitialKey(s.db.mode, e, t), total)])
      else s
    case SwitchMode(target, stable) => s.(db := Runs.Step(s.db, Runs.Switch(target, stable)))
    case AddType(e, t, name, total) => s.(db := Runs.Step(s.db, Runs.AddType(e, t, name, total)))
    case ReadStock(job, key, expected) =>
      if job !in s.jobs && StockRow(s.db, key).Some? then
        var value := StockRow(s.db, key).value.remaining;
        s.(jobs := s.jobs[job := if expected.Some? then SyncJob(key, value, expected.value) else InitJob(key, value)])
      else s
    case WriteCounter(job) =>
      if job in s.jobs then
        s.(store := C.Run(s.store, s.jobs[job].key, JobScript(s.jobs[job])),
           jobs := s.jobs - {job})
      else s
  }

  /** reserve: the gate of the two paths; a bypassing request goes straight to its transaction. */
  function GateStep(s: Sys, id: nat): Sys
    requires id in s.reqs
  {
    var r := s.reqs[id];
    var key := PlanKey(r.input, r.plan);
    if key.None? then s.(reqs := s.reqs[id := r.(phase := Anchored(false, 0))])
    else
      var script := C.Reserve(r.input.quantity);
      var reply := C.ReplyTo(s.store, key.value, script);
      var phase :=
        if reply.SoldOut? && r.input.requestId.None? then Finished
        else if reply.Done? && r.plan.TypePlan? then Anchored(true, reply.revision)
        else Gated(reply.Done?);
      s.(store := C.Run(s.store, key.value, script), reqs := s.reqs[id := r.(phase := phase)])
  }

  ghost function TransactStep(s: Sys, id: nat, newId: nat, stale: bool, fate: Fate): Sys
    requires id in s.reqs && s.reqs[id].phase.Anchored?
  {
    var (db', out) := PurchaseSpec(s.db, s.reqs[id].input, newId, stale);
    Settle(s, id, db', out, fate)
  }

  /** The request and the database after a transaction that would leave `after` and answer `out`. */
  function Settle(s: Sys, id: nat, after: Db, out: TxOutcome, fate: Fate): Sys
    requires id in s.reqs && s.reqs[id].phase.Anchored?
  {
    var r := s.reqs[id];
    var seen := if fate == Normal then out else Failed(DatabaseError);
    var remedy := RemedyFor(r.plan, r.phase.reserved, r.phase.anchor, seen);
    s.(db := if fate == Throws then s.db else after, reqs := s.reqs[id := r.(phase := Settled(remedy))])
  }

  function RemedyStep(s: Sys, id: nat): Sys
    requires id in s.reqs && s.reqs[id].phase.Settled?
  {
    var r := s.reqs[id];
    var key := PlanKey(r.input, r.plan);
    if key.None? || r.phase.remedy.Nothing? then s.(reqs := s.reqs[id := r.(phase := Finished)])
    else match r.phase.remedy
      case GiveBack =>
        s.(store := C.Run(s.store, key.value, C.Release(r.input.quantity)),
           reqs := s.reqs[id := r.(phase := Finished)])
      case Correct(value, anchor, guarded, orGiveBack) =>
        var script := CorrectionScript(r.phase.remedy);
        var failed := !C.ReplyTo(s.store, key.value, script).Done?;
        s.(store := C.Run(s.store, key.value, script),
           reqs := s.reqs[id := r.(phase := if failed && orGiveBack then Settled(GiveBack) else Finished)])
  }

  function CorrectionScript(r: Remedy): C.Script
    requires r.Correct?
  {
    if r.guarded then C.GuardedSync(r.value, r.anchor) else C.Sync(r.value, r.anchor)
  }

  function JobScript(j: Job): C.Script {
    if j.InitJob? then C.Init(j.value) else C.GuardedSync(j.value, j.expected)
  }

  ghost function Run(s: Sys, trace: seq<Event>): Sys {
    if trace == [] then s else Step(Run(s, trace[..|trace| - 1]), trace[|trace| - 1])
  }

  // --- Open reservations ---

  /** The request has decremented its counter and has neither consumed stock nor given the quantity back. */
  predicate Holds(r: Req) {
    match r.phase
    case Gated(reserved) => reserved
    case Anchored(reserved, _) => reserved
    case Settled(remedy) => remedy.GiveBack? || (remedy.Correct? && remedy.orGiveBack)
    case _ => false
  }

  function Contribution(r: Req, k: C.Key): int {
    if Holds(r) && PlanKey(r.input, r.plan) == Some(k) then r.input.quantity else 0
  }

  ghost function OpenMap(reqs: map<nat, Req>, k: C.Key): map<nat, int> {
    map id | id in reqs :: Contribution(reqs[id], k)
  }

  ghost function Open(reqs: map<nat, Req>, k: C.Key): int {
    Sum(OpenMap(reqs, k))
  }

  ghost predicate ReqsValid(reqs: map<nat, Req>) {
    forall id | id in reqs :: ValidInput(reqs[id].input)
  }

  lemma OpenUpdate(reqs: map<nat, Req>, id: nat, r: Req, k: C.Key)
    ensures Open(reqs[id := r], k)
         == Open(reqs, k) - (if id in reqs then Contribution(reqs[id], k) else 0) + Contribution(r, k)
  {
    assert OpenMap(reqs[id := r], k) == OpenMap(reqs, k)[id := Contribution(r, k)];
    SumUpdate(OpenMap(reqs, k), id, Contribution(r, k));
  }

  lemma OpenNonNegative(reqs: map<nat, Req>, k: C.Key)
    requires ReqsValid(reqs)
    ensures Open(reqs, k) >= 0
  {
    SumNonNegative(OpenMap(reqs, k));
  }

  // --- The invariant ---

  /** The row of `k` only falls: every type row, and the event row as long as the event has one type. */
  ghost predicate OnlySold(db: Db, k: C.Key) {
    StockRow(db, k).Some? && (k.EventCounter? ==> |db.events[k.event].types| == 1)
  }

  /** `value`, once written to the counter of `k`, is not below the stock. */
  ghost predicate Covers(db: Db, k: C.Key, value: int) {
    StockRow(db, k).Some? && (OnlySold(db, k) ==> value >= StockRow(db, k).value.remaining)
  }

  ghost predicate CounterOk(s: Sys, k: C.Key) {
    k in s.store.values ==> Covers(s.db, k, s.store.values[k] + Open(s.reqs, k))
  }

  ghost predicate ReqOk(db: Db, r: Req) {
    r.phase.Settled? && r.phase.remedy.Correct? ==>
      PlanKey(r.input, r.plan).Some? && Covers(db, PlanKey(r.input, r.plan).value, r.phase.remedy.value)
  }

  ghost predicate JobsOk(db: Db, jobs: map<nat, Job>) {
    forall j | j in jobs :: Covers(db, jobs[j].key, jobs[j].value)
  }

  ghost predicate Inv(s: Sys) {
    && Runs.Inv(s.db)
    && ReqsValid(s.reqs)
    && (forall k :: CounterOk(s, k))
    && (forall id | id in s.reqs :: ReqOk(s.db, s.reqs[id]))
    && JobsOk(s.db, s.jobs)
  }

  /** After a database step, what covered the stock of a key still does. */
  ghost predicate KeepsCovering(db: Db, db': Db) {
    forall k, v | Covers(db, k, v) :: Covers(db', k, v)
  }

  // --- What a database step does to the stock of an event ---

  ghost predicate Falls(d: EventData, d': EventData) {
    && d'.stock.Keys >= d.stock.Keys
    && (forall t | t in d.stock :: d'.stock[t].remaining <= d.stock[t].remaining)
    && d.legacy.Some? && d'.legacy.Some?
    && (|d'.types| == 1 ==> |d.types| == 1 && d'.legacy.value.remaining <= d.legacy.value.remaining)
  }

  /** A purchase that is not confirmed leaves every row; a confirmed one takes the quantity from two of them. */
  lemma PurchaseRows(d: EventData, mode: Mode, input: Input, newId: nat, stale: bool)
    requires Runs.EventInv(mode, d) && ValidInput(input)
    ensures var (d', out) := PurchaseOn(d, mode, input, newId, stale);
      && d'.types == d.types && d'.stock.Keys == d.stock.Keys && d'.legacy.Some?
      && (out.Created? ==>
            && out.typeId in d.stock
            && out.result.quantity == input.quantity && out.modeUsed == mode
            && out.compatRemaining == d'.legacy.value.remaining
            && (out.typeRemaining.Some? ==> out.typeRemaining.value == d'.stock[out.typeId].remaining)
            && (out.result.status == Confirmed ==>
                  && d'.legacy.value.remaining == d.legacy.value.remaining - input.quantity
                  && d'.stock[out.typeId].remaining == d.stock[out.typeId].remaining - input.quantity
                  && forall t | t in d.stock && t != out.typeId :: d'.stock[t] == d.stock[t]))
      && (!(out.Created? && out.result.status == Confirmed) ==> d'.stock == d.stock && d'.legacy == d.legacy)
  {
    var (d', out) := PurchaseOn(d, mode, input, newId, stale);
    if out.Created? {
      var t := ResolveType(d, mode, input.typeId).id;
      if out.result.status == Confirmed { Runs.ConfirmedAttempt(d, mode, t, input.quantity); }
    }
  }

  lemma StepFalls(db: Db, a: Runs.Action, e: EventId)
    requires e in db.events && Runs.EventInv(db.mode, db.events[e])
    ensures e in Runs.Step(db, a).events && Falls(db.events[e], Runs.Step(db, a).events[e])
  {
    var d := db.events[e];
    match a
    case Create(_, _, _) =>
    case Buy(input, newId, stale) =>
      if input.event == e && ValidInput(input) { PurchaseRows(d, db.mode, input, newId, stale); }
    case Switch(_, _) =>
    case AddType(to, t, name, total) =>
      if to == e && db.mode == TicketType && t !in d.types { AddedFalls(d, t, name, Row(total, total, 0)); }
  }

  lemma AddedFalls(d: EventData, t: TypeId, name: string, r: Row)
    requires Runs.EventInv(TicketType, d) && t !in d.types
    ensures Falls(d, TypeWritten(d.(types := d.types[t := name]), t, r))
  {
    assert d.types[t := name].Keys == d.types.Keys + {t};
    assert |d.types[t := name]| == |d.types| + 1;
    assert d.defaultType.value in d.types;
  }

  lemma StepCovers(db: Db, a: Runs.Action)
    requires Runs.Inv(db)
    ensures Runs.Inv(Runs.Step(db, a)) && KeepsCovering(db, Runs.Step(db, a))
  {
    Runs.StepKeepsInv(db, a);
    forall k, v | Covers(db, k, v) ensures Covers(Runs.Step(db, a), k, v) {
      StepFalls(db, a, k.event);
    }
  }

  // --- Every event keeps the invariant ---

  /** Requests, jobs and counters other than what a step rewrites stay covered when the database only loses stock. */
  lemma DbStepKeepsInv(s: Sys, a: Runs.Action)
    requires Inv(s)
    ensures Inv(s.(db := Runs.Step(s.db, a)))
  {
    StepCovers(s.db, a);
    var s' := s.(db := Runs.Step(s.db, a));
    forall k ensures CounterOk(s', k) {
      assert CounterOk(s, k);
    }
    forall id | id in s.reqs ensures ReqOk(s'.db, s.reqs[id]) {
      assert ReqOk(s.db, s.reqs[id]);
    }
  }

  /** Replacing one request by another with the same contribution to its counter. */
  lemma PhaseKeepsInv(s: Sys, id: nat, r: Req)
    requires Inv(s) && ValidInput(r.input) && ReqOk(s.db, r)
    requires Holds(r) ==> id in s.reqs && r.input == s.reqs[id].input && r.plan == s.reqs[id].plan
    requires id in s.reqs ==> Holds(r) == Holds(s.reqs[id])
    ensures Inv(s.(reqs := s.reqs[id := r]))
  {
    var s' := s.(reqs := s.reqs[id := r]);
    forall k ensures CounterOk(s', k) {
      assert CounterOk(s, k);
      OpenUpdate(s.reqs, id, r, k);
    }
  }

  /** A script and a phase change in one step: only the counter of `key` and its open reservations move. */
  lemma ScriptKeepsInv(s: Sys, key: C.Key, script: C.Script, id: nat, r: Req)
    requires Inv(s) && id in s.reqs && ReqOk(s.db, r)
    requires r.input == s.reqs[id].input && r.plan == s.reqs[id].plan && PlanKey(r.input, r.plan) == Some(key)
    requires var s' := s.(store := C.Run(s.store, key, script), reqs := s.reqs[id := r]);
      key in s'.store.values ==>
        Covers(s.db, key, s'.store.values[key] + Open(s.reqs, key) - Contribution(s.reqs[id], key) + Contribution(r, key))
    ensures Inv(s.(store := C.Run(s.store, key, script), reqs := s.reqs[id := r]))
  {
    var s' := s.(store := C.Run(s.store, key, script), reqs := s.reqs[id := r]);
    forall k ensures CounterOk(s', k) {
      assert CounterOk(s, k);
      ScriptCounter(s, key, script, id, r, k);
    }
  }

  lemma ScriptCounter(s: Sys, key: C.Key, script: C.Script, id: nat, r: Req, k: C.Key)
    requires CounterOk(s, k) && id in s.reqs && r.input == s.reqs[id].input && r.plan == s.reqs[id].plan
    requires PlanKey(r.input, r.plan) == Some(key)
    requires var s' := s.(store := C.Run(s.store, key, script), reqs := s.reqs[id := r]);
      key in s'.store.values ==>
        Covers(s.db, key, s'.store.values[key] + Open(s.reqs, key) - Contribution(s.reqs[id], key) + Contribution(r, key))
    ensures CounterOk(s.(store := C.Run(s.store, key, script), reqs := s.reqs[id := r]), k)
  {
    OpenUpdate(s.reqs, id, r, k);
    C.ScriptEffect(s.store, key, script, k);
  }

  lemma AnchorKeepsInv(s: Sys, id: nat)
    requires Inv(s) && id in s.reqs && s.reqs[id].phase.Gated?
    ensures Inv(Step(s, ReadAnchor(id)))
  {
    var r := s.reqs[id];
    if PlanKey(r.input, r.plan).Some? {
      PhaseKeepsInv(s, id, r.(phase := Anchored(r.phase.reserved, C.Revision(s.store, PlanKey(r.input, r.plan).value))));
    }
  }

  lemma GateKeepsInv(s: Sys, id: nat)
    requires Inv(s) && id in s.reqs && s.reqs[id].phase.Ready?
    ensures Inv(GateStep(s, id))
  {
    var r := s.reqs[id];
    var key := PlanKey(r.input, r.plan);
    if key.None? {
      PhaseKeepsInv(s, id, r.(phase := Anchored(false, 0)));
    } else {
      assert CounterOk(s, key.value);
      ScriptKeepsInv(s, key.value, C.Reserve(r.input.quantity), id, GateStep(s, id).reqs[id]);
    }
  }

  lemma RemedyKeepsInv(s: Sys, id: nat)
    requires Inv(s) && id in s.reqs && s.reqs[id].phase.Settled?
    ensures Inv(RemedyStep(s, id))
  {
    var r := s.reqs[id];
    var key := PlanKey(r.input, r.plan);
    if key.None? {
      LoneRequest(s, id, r.(phase := Finished));
    } else if r.phase.remedy.Nothing? {
      PhaseKeepsInv(s, id, r.(phase := Finished));
    } else if r.phase.remedy.GiveBack? {
      assert CounterOk(s, key.value);
      ScriptKeepsInv(s, key.value, C.Release(r.input.quantity), id, r.(phase := Finished));
    } else {
      CorrectionKeepsInv(s, id, key.value);
    }
  }

  /** A sync that wrote covers the stock by itself, and may drop the hold; one that did not leaves a hold to give back. */
  lemma CorrectionKeepsInv(s: Sys, id: nat, key: C.Key)
    requires Inv(s) && id in s.reqs && s.reqs[id].phase.Settled? && s.reqs[id].phase.remedy.Correct?
    requires PlanKey(s.reqs[id].input, s.reqs[id].plan) == Some(key)
    ensures Inv(RemedyStep(s, id))
  {
    var r := s.reqs[id];
    var remedy := r.phase.remedy;
    var script := if remedy.guarded then C.GuardedSync(remedy.value, remedy.anchor) else C.Sync(remedy.value, remedy.anchor);
    var r' := r.(phase := if !C.ReplyTo(s.store, key, script).Done? && remedy.orGiveBack then Settled(GiveBack) else Finished);
    CorrectionStep(s, id, key, script, r');
    if C.ReplyTo(s.store, key, script).Done? {
      CorrectionCovers(s, id, key);
      WrittenCorrection(s, id, key, script, r');
    } else {
      SkippedCorrection(s, id, key, script, r');
    }
  }

  lemma CorrectionCovers(s: Sys, id: nat, key: C.Key)
    requires Inv(s) && id in s.reqs && s.reqs[id].phase.Settled? && s.reqs[id].phase.remedy.Correct?
    requires PlanKey(s.reqs[id].input, s.reqs[id].plan) == Some(key)
    ensures Covers(s.db, key, s.reqs[id].phase.remedy.value)
  {
    assert ReqOk(s.db, s.reqs[id]);
  }

  lemma CorrectionStep(s: Sys, id: nat, key: C.Key, script: C.Script, r: Req)
    requires id in s.reqs && s.reqs[id].phase.Settled? && s.reqs[id].phase.remedy.Correct?
    requires PlanKey(s.reqs[id].input, s.reqs[id].plan) == Some(key)
    requires var remedy := s.reqs[id].phase.remedy;
      && script == (if remedy.guarded then C.GuardedSync(remedy.value, remedy.anchor) else C.Sync(remedy.value, remedy.anchor))
      && r == s.reqs[id].(phase := if !C.ReplyTo(s.store, key, script).Done? && remedy.orGiveBack then Settled(GiveBack) else Finished)
    ensures RemedyStep(s, id) == s.(store := C.Run(s.store, key, script), reqs := s.reqs[id := r])
  {
  }

  lemma WrittenCorrection(s: Sys, id: nat, key: C.Key, script: C.Script, r: Req)
    requires Inv(s) && id in s.reqs && r.input == s.reqs[id].input && r.plan == s.reqs[id].plan && r.phase.Finished?
    requires PlanKey(r.input, r.plan) == Some(key)
    requires script.Sync? || script.GuardedSync?
    requires Covers(s.db, key, script.value) && C.ReplyTo(s.store, key, script).Done?
    ensures Inv(s.(store := C.Run(s.store, key, script), reqs := s.reqs[id := r]))
  {
    OthersNonNegative(s.reqs, id, key);
    ScriptKeepsInv(s, key, script, id, r);
  }

  lemma SkippedCorrection(s: Sys, id: nat, key: C.Key, script: C.Script, r: Req)
    requires Inv(s) && id in s.reqs && r.input == s.reqs[id].input && r.plan == s.reqs[id].plan
    requires PlanKey(r.input, r.plan) == Some(key) && ReqOk(s.db, r) && Holds(r) == Holds(s.reqs[id])
    requires !C.ReplyTo(s.store, key, script).Done?
    ensures Inv(s.(store := C.Run(s.store, key, script), reqs := s.reqs[id := r]))
  {
    assert CounterOk(s, key);
    ScriptKeepsInv(s, key, script, id, r);
  }

  lemma OthersNonNegative(reqs: map<nat, Req>, id: nat, k: C.Key)
    requires ReqsValid(reqs) && id in reqs
    ensures Open(reqs, k) - Contribution(reqs[id], k) >= 0
  {
    SumAtLeast(OpenMap(reqs, k), id);
  }

  /** A request without a counter contributes to none. */
  lemma LoneRequest(s: Sys, id: nat, r: Req)
    requires Inv(s) && id in s.reqs && r.input == s.reqs[id].input && r.plan == s.reqs[id].plan
    requires PlanKey(r.input, r.plan).None? && ReqOk(s.db, r)
    ensures Inv(s.(reqs := s.reqs[id := r]))
  {
    var s' := s.(reqs := s.reqs[id := r]);
    forall k ensures CounterOk(s', k) {
      assert CounterOk(s, k);
      OpenUpdate(s.reqs, id, r, k);
    }
  }

  /** The purchase concerns the row of `k`. */
  predicate Books(out: TxOutcome, k: C.Key) {
    out.Created? && (k.EventCounter? || out.typeId == k.typeId)
  }

  predicate Confirms(out: TxOutcome, k: C.Key) {
    Books(out, k) && out.result.status == Confirmed
  }

  /** What a transaction outcome says about the stock row of `k` before and after. */
  predicate Accounted(before: int, after: int, quantity: int, out: TxOutcome, k: C.Key) {
    && after == before - (if Confirms(out, k) then quantity else 0)
    && (Books(out, k) && k.EventCounter? ==> out.compatRemaining == after)
    && (Books(out, k) && k.TypeCounter? && out.typeRemaining.Some? ==> out.typeRemaining.value == after)
  }

  lemma Booked(db: Db, input: Input, newId: nat, stale: bool, k: C.Key)
    requires Runs.Inv(db) && ValidInput(input) && k.event == input.event
    ensures var (db', out) := PurchaseSpec(db, input, newId, stale);
      && (StockRow(db', k).Some? <==> StockRow(db, k).Some?)
      && (Books(out, k) ==> StockRow(db, k).Some?)
      && (StockRow(db, k).Some? ==>
            Accounted(StockRow(db, k).value.remaining, StockRow(db', k).value.remaining, input.quantity, out, k))
  {
    if input.event in db.events { PurchaseRows(db.events[input.event], db.mode, input, newId, stale); }
  }

  /** What is left to do after each outcome: a hold is kept, given back, or has become a purchase. */
  lemma RemedyFacts(plan: Plan, reserved: bool, anchor: nat, out: TxOutcome, input: Input, k: C.Key, before: int, after: int)
    requires PlanKey(input, plan) == Some(k)
    requires Books(out, k) ==> Accounted(before, after, input.quantity, out, k)
    ensures var remedy := RemedyFor(plan, reserved, anchor, out);
      && (remedy.GiveBack? ==> reserved)
      && (remedy.Correct? ==> Books(out, k) && remedy.value == after && remedy.anchor == anchor && remedy.orGiveBack == reserved)
      && (reserved ==> (remedy.Nothing? <==> Confirms(out, k)))
      && (!reserved ==> (remedy.Correct? <==> Confirms(out, k) && Usable(out, k)))
      && (reserved ==> (remedy.Correct? <==> Books(out, k) && out.result.status == Rejected && Usable(out, k)))
      && (remedy.Correct? ==> (remedy.guarded <==> k.TypeCounter?))
  {
  }

  /** The outcome carries the remainder of the counted row: a type counter needs the type writer to have run. */
  predicate Usable(out: TxOutcome, k: C.Key) {
    out.Created? && (k.TypeCounter? ==> out.modeUsed == TicketType && out.typeRemaining.Some?)
  }

  /**
   A remedy that corrects leaves the counter at the remainder the transaction saw, if nobody wrote the counter since the
   anchor was read; a type counter must exist for that, an event counter is created. In particular a request
   without a reservation whose purchase was confirmed makes the counter equal to the row.
   */
  lemma CorrectionWrites(s: Sys, id: nat, reserved: bool, anchor: nat, out: TxOutcome, k: C.Key, before: int, after: int)
    requires id in s.reqs && PlanKey(s.reqs[id].input, s.reqs[id].plan) == Some(k)
    requires s.reqs[id].phase == Settled(RemedyFor(s.reqs[id].plan, reserved, anchor, out))
    requires Accounted(before, after, s.reqs[id].input.quantity, out, k) && Books(out, k) && Usable(out, k)
    requires out.result.status == if reserved then Rejected else Confirmed
    requires anchor == C.Revision(s.store, k) && (k.TypeCounter? ==> k in s.store.values)
    ensures C.Value(RemedyStep(s, id).store, k) == Some(after) && RemedyStep(s, id).reqs[id].phase.Finished?
  {
    RemedyFacts(s.reqs[id].plan, reserved, anchor, out, s.reqs[id].input, k, before, after);
  }

  /** Requests arrive while others are under way, and disturb nothing. */
  lemma ArrivalIs(s: Sys, id: nat, input: Input, plan: Plan)
    requires id !in s.reqs && ValidInput(input) && PlanFits(input, plan)
    ensures Step(s, Arrive(id, input, plan)) == Sys(s.db, s.store, s.reqs[id := Req(input, plan, Ready)], s.jobs)
  {
  }

  /** Operations on the tables leave requests and counters alone; creation also leaves a counter to initialise. */
  lemma OperationsReachTables(s: Sys, target: Mode, stable: bool, e: EventId, t: TypeId, name: string, total: int, job: nat)
    ensures Step(s, SwitchMode(target, stable)) == Sys(Runs.Step(s.db, Runs.Switch(target, stable)), s.store, s.reqs, s.jobs)
    ensures Step(s, AddType(e, t, name, total)) == Sys(Runs.Step(s.db, Runs.AddType(e, t, name, total)), s.store, s.reqs, s.jobs)
    ensures e !in s.db.events && 0 < total <= INT4_MAX && job !in s.jobs ==>
      Step(s, CreateEvent(e, t, total, job)) ==
        Sys(Runs.Step(s.db, Runs.Create(e, t, total)), s.store, s.reqs, s.jobs[job := InitJob(InitialKey(s.db.mode, e, t), total)])
  {
  }

  /** A seed or reconcile reads a row into its job, and later writes what it read and forgets the job. */
  lemma JobsReadAndWrite(s: Sys, job: nat, k: C.Key, expected: Option<nat>)
    requires job !in s.jobs && StockRow(s.db, k).Some?
    ensures var s' := Step(s, ReadStock(job, k, expected));
      && s' == s.(jobs := s'.jobs) && s'.jobs - {job} == s.jobs - {job}
      && var end := Step(s', WriteCounter(job));
      && end == s.(store := end.store, jobs := s.jobs - {job})
      && (forall j | j != k :: C.Value(end.store, j) == C.Value(s.store, j))
      && C.Value(end.store, k) ==
         if expected.None? || (k in s.store.values && C.Revision(s.store, k) == expected.value) then Some(StockRow(s.db, k).value.remaining)
         else C.Value(s.store, k)
  {
  }

  /** Only a request without an idempotency key is ever turned away by the gate, and only by a counter that exists and is too low. */
  lemma GateRefusesIff(s: Sys, id: nat)
    requires id in s.reqs && s.reqs[id].phase.Ready?
    ensures var r := s.reqs[id];
      var key := PlanKey(r.input, r.plan);
      GateStep(s, id).reqs[id].phase.Finished? <==>
        r.input.requestId.None? && key.Some? && key.value in s.store.values && s.store.values[key.value] < r.input.quantity
    ensures var r := s.reqs[id];
      var key := PlanKey(r.input, r.plan);
      Holds(GateStep(s, id).reqs[id]) <==>
        key.Some? && key.value in s.store.values && r.input.quantity <= s.store.values[key.value]
  {
  }

  /** What the transaction leaves for a request to do keeps its hold, unless exactly its quantity left the row. */
  lemma RemedyAccounts(db: Db, after: Db, out: TxOutcome, input: Input, plan: Plan, reserved: bool, anchor: nat, k: C.Key)
    requires PlanKey(input, plan) == Some(k)
    requires StockRow(after, k).Some? <==> StockRow(db, k).Some?
    requires Books(out, k) ==> StockRow(db, k).Some?
    requires StockRow(db, k).Some? ==>
      Accounted(StockRow(db, k).value.remaining, StockRow(after, k).value.remaining, input.quantity, out, k)
    ensures var r := Req(input, plan, Settled(RemedyFor(plan, reserved, anchor, out)));
      && ReqOk(after, r)
      && (Holds(r) ==> reserved)
      && (reserved && !Holds(r) ==> StockRow(db, k).Some? && Confirms(out, k))
  {
    if StockRow(db, k).Some? {
      RemedyFacts(plan, reserved, anchor, out, input, k, StockRow(db, k).value.remaining, StockRow(after, k).value.remaining);
    } else {
      RemedyFacts(plan, reserved, anchor, out, input, k, 0, 0);
    }
  }

  lemma TransactKeepsInv(s: Sys, id: nat, newId: nat, stale: bool, fate: Fate)
    requires Inv(s) && id in s.reqs && s.reqs[id].phase.Anchored?
    ensures Inv(TransactStep(s, id, newId, stale, fate))
  {
    var r := s.reqs[id];
    var s' := TransactStep(s, id, newId, stale, fate);
    var key := PlanKey(r.input, r.plan);
    TransactDb(s, id, newId, stale, fate);
    TransactFalls(s, id, newId, stale, fate);
    var mid := s.(db := s'.db);
    if key.None? {
      LoneRequest(mid, id, s'.reqs[id]);
    } else {
      TransactRequest(s, id, newId, stale, fate, key.value);
      SettledKeepsInv(s, mid, id, s'.reqs[id], key.value);
    }
  }

  lemma TransactDb(s: Sys, id: nat, newId: nat, stale: bool, fate: Fate)
    requires Inv(s) && id in s.reqs && s.reqs[id].phase.Anchored?
    ensures Inv(s.(db := TransactStep(s, id, newId, stale, fate).db))
  {
    var buy := Runs.Buy(s.reqs[id].input, newId, stale);
    assert Runs.Step(s.db, buy) == PurchaseSpec(s.db, s.reqs[id].input, newId, stale).0;
    DbStepKeepsInv(s, buy);
    assert s.(db := s.db) == s;
  }

  /** The request after its transaction: covered, and holding unless the row lost its quantity. */
  lemma TransactRequest(s: Sys, id: nat, newId: nat, stale: bool, fate: Fate, k: C.Key)
    requires Inv(s) && id in s.reqs && s.reqs[id].phase.Anchored? && PlanKey(s.reqs[id].input, s.reqs[id].plan) == Some(k)
    ensures var s' := TransactStep(s, id, newId, stale, fate);
      && ReqOk(s'.db, s'.reqs[id])
      && s'.reqs[id].input == s.reqs[id].input && s'.reqs[id].plan == s.reqs[id].plan
      && (Holds(s'.reqs[id]) ==> Holds(s.reqs[id]))
      && (Holds(s.reqs[id]) && !Holds(s'.reqs[id]) ==>
            StockRow(s.db, k).Some? && StockRow(s'.db, k).Some?
            && StockRow(s'.db, k).value.remaining == StockRow(s.db, k).value.remaining - s.reqs[id].input.quantity)
  {
    var (db', out) := PurchaseSpec(s.db, s.reqs[id].input, newId, stale);
    Booked(s.db, s.reqs[id].input, newId, stale, k);
    SettledRequest(s, id, db', out, fate, k);
  }

  lemma SettledRequest(s: Sys, id: nat, after: Db, out: TxOutcome, fate: Fate, k: C.Key)
    requires id in s.reqs && s.reqs[id].phase.Anchored? && PlanKey(s.reqs[id].input, s.reqs[id].plan) == Some(k)
    requires StockRow(after, k).Some? <==> StockRow(s.db, k).Some?
    requires Books(out, k) ==> StockRow(s.db, k).Some?
    requires StockRow(s.db, k).Some? ==>
      Accounted(StockRow(s.db, k).value.remaining, StockRow(after, k).value.remaining, s.reqs[id].input.quantity, out, k)
    ensures var s' := Settle(s, id, after, out, fate);
      && ReqOk(s'.db, s'.reqs[id])
      && s'.reqs[id].input == s.reqs[id].input && s'.reqs[id].plan == s.reqs[id].plan
      && (Holds(s'.reqs[id]) ==> Holds(s.reqs[id]))
      && (Holds(s.reqs[id]) && !Holds(s'.reqs[id]) ==>
            StockRow(s.db, k).Some? && StockRow(s'.db, k).Some?
            && StockRow(s'.db, k).value.remaining == StockRow(s.db, k).value.remaining - s.reqs[id].input.quantity)
  {
    var r := s.reqs[id];
    if fate == Normal { RemedyAccounts(s.db, after, out, r.input, r.plan, r.phase.reserved, r.phase.anchor, k); }
  }

  /** What only sells afterwards did so before. */
  ghost predicate KeysOnlyFall(db: Db, db': Db) {
    forall k | StockRow(db, k).Some? && OnlySold(db', k) :: OnlySold(db, k)
  }

  lemma TransactFalls(s: Sys, id: nat, newId: nat, stale: bool, fate: Fate)
    requires Inv(s) && id in s.reqs && s.reqs[id].phase.Anchored?
    ensures KeysOnlyFall(s.db, TransactStep(s, id, newId, stale, fate).db)
  {
    PurchaseFalls(s.db, s.reqs[id].input, newId, stale);
  }

  lemma PurchaseFalls(db: Db, input: Input, newId: nat, stale: bool)
    requires Runs.Inv(db) && ValidInput(input)
    ensures KeysOnlyFall(db, PurchaseSpec(db, input, newId, stale).0)
  {
    if input.event in db.events { PurchaseRows(db.events[input.event], db.mode, input, newId, stale); }
  }

  /** A hold that ended together with the same quantity of stock. */
  lemma SettledKeepsInv(s: Sys, mid: Sys, id: nat, r: Req, k: C.Key)
    requires Inv(s) && Inv(mid) && mid == s.(db := mid.db) && id in s.reqs && ReqOk(mid.db, r)
    requires r.input == s.reqs[id].input && r.plan == s.reqs[id].plan && PlanKey(r.input, r.plan) == Some(k)
    requires KeysOnlyFall(s.db, mid.db)
    requires Holds(r) ==> Holds(s.reqs[id])
    requires Holds(s.reqs[id]) && !Holds(r) ==> StockRow(s.db, k).Some? && StockRow(mid.db, k).Some?
    requires Holds(s.reqs[id]) && !Holds(r) ==>
      StockRow(mid.db, k).value.remaining == StockRow(s.db, k).value.remaining - r.input.quantity
    ensures Inv(mid.(reqs := s.reqs[id := r]))
  {
    var s' := mid.(reqs := s.reqs[id := r]);
    forall x ensures CounterOk(s', x) {
      assert CounterOk(s, x) && CounterOk(mid, x);
      OpenUpdate(s.reqs, id, r, x);
    }
  }

  /** Writing a value that covers the stock, whatever is open. */
  lemma WriteKeepsInv(s: Sys, key: C.Key, script: C.Script)
    requires Inv(s)
    requires script.Init? || script.GuardedSync?
    requires Covers(s.db, key, script.value)
    ensures Inv(s.(store := C.Run(s.store, key, script)))
  {
    var s' := s.(store := C.Run(s.store, key, script));
    OpenNonNegative(s.reqs, key);
    forall k ensures CounterOk(s', k) {
      assert CounterOk(s, k);
    }
  }

  lemma JobsKeepInv(s: Sys, jobs: map<nat, Job>)
    requires Inv(s) && JobsOk(s.db, jobs)
    ensures Inv(s.(jobs := jobs))
  {
    var s' := s.(jobs := jobs);
    forall k ensures CounterOk(s', k) {
      assert CounterOk(s, k);
    }
  }

  lemma CreateKeepsInv(s: Sys, e: EventId, t: TypeId, total: int, job: nat)
    requires Inv(s) && e !in s.db.events && 0 < total <= INT4_MAX && job !in s.jobs
    ensures Inv(Step(s, CreateEvent(e, t, total, job)))
  {
    var create := Runs.Create(e, t, total);
    DbStepKeepsInv(s, create);
    FreshEventCovers(s.db, e, t, total);
    CreateStep(s, e, t, total, job);
    JobAdded(s.(db := Runs.Step(s.db, create)), job, InitJob(InitialKey(s.db.mode, e, t), total));
  }

  lemma CreateStep(s: Sys, e: EventId, t: TypeId, total: int, job: nat)
    requires e !in s.db.events && 0 < total <= INT4_MAX && job !in s.jobs
    ensures var mid := s.(db := Runs.Step(s.db, Runs.Create(e, t, total)));
      Step(s, CreateEvent(e, t, total, job)) == mid.(jobs := mid.jobs[job := InitJob(InitialKey(s.db.mode, e, t), total)])
  {
  }

  lemma JobAdded(s: Sys, job: nat, j: Job)
    requires Inv(s) && Covers(s.db, j.key, j.value)
    ensures Inv(s.(jobs := s.jobs[job := j]))
  {
    JobsKeepInv(s, s.jobs[job := j]);
  }

  lemma FreshEventCovers(db: Db, e: EventId, t: TypeId, total: int)
    requires e !in db.events && 0 < total <= INT4_MAX
    ensures Covers(Runs.Step(db, Runs.Create(e, t, total)), InitialKey(db.mode, e, t), total)
  {
    assert map[][t := Row(total, total, 0)] == map[t := Row(total, total, 0)];
    TotalsSingleton(t, Row(total, total, 0));
  }

  lemma StepKeepsInv(s: Sys, ev: Event)
    requires Inv(s)
    ensures Inv(Step(s, ev))
  {
    match ev
    case CreateEvent(e, t, total, job) =>
      if e !in s.db.events && 0 < total <= INT4_MAX && job !in s.jobs { CreateKeepsInv(s, e, t, total, job); }
    case SwitchMode(target, stable) => DbStepKeepsInv(s, Runs.Switch(target, stable));
    case AddType(e, t, name, total) => DbStepKeepsInv(s, Runs.AddType(e, t, name, total));
    case ReadStock(_, _, _) => JobsKeepInv(s, Step(s, ev).jobs);
    case WriteCounter(job) =>
      if job in s.jobs { WriterKeepsInv(s, job); }
    case _ => RequestStepKeepsInv(s, ev);
  }

  lemma RequestStepKeepsInv(s: Sys, ev: Event)
    requires Inv(s)
    requires ev.Arrive? || ev.Gate? || ev.ReadAnchor? || ev.Transact? || ev.Remedy?
    ensures Inv(Step(s, ev))
  {
    match ev
    case Arrive(id, input, plan) =>
      if id !in s.reqs && ValidInput(input) { PhaseKeepsInv(s, id, Req(input, plan, Ready)); }
    case Gate(id) =>
      if id in s.reqs && s.reqs[id].phase.Ready? { GateKeepsInv(s, id); }
    case ReadAnchor(id) =>
      if id in s.reqs && s.reqs[id].phase.Gated? { AnchorKeepsInv(s, id); }
    case Transact(id, newId, stale, fate) =>
      if id in s.reqs && s.reqs[id].phase.Anchored? { TransactKeepsInv(s, id, newId, stale, fate); }
    case Remedy(id) =>
      if id in s.reqs && s.reqs[id].phase.Settled? { RemedyKeepsInv(s, id); }
  }

  lemma WriterKeepsInv(s: Sys, job: nat)
    requires Inv(s) && job in s.jobs
    ensures Inv(Step(s, WriteCounter(job)))
  {
    var j := s.jobs[job];
    var script := if j.InitJob? then C.Init(j.value) else C.GuardedSync(j.value, j.expected);
    WriteStep(s, job, script);
    WriteKeepsInv(s, j.key, script);
    JobDone(s.(store := C.Run(s.store, j.key, script)), job);
  }

  lemma WriteStep(s: Sys, job: nat, script: C.Script)
    requires job in s.jobs
    requires var j := s.jobs[job]; script == if j.InitJob? then C.Init(j.value) else C.GuardedSync(j.value, j.expected)
    ensures Step(s, WriteCounter(job)) == s.(store := C.Run(s.store, s.jobs[job].key, script), jobs := s.jobs - {job})
  {
  }

  lemma JobDone(s: Sys, job: nat)
    requires Inv(s)
    ensures Inv(s.(jobs := s.jobs - {job}))
  {
    JobsKeepInv(s, s.jobs - {job});
  }

  const START: Sys := Sys(Runs.EMPTY, C.Store(map[], map[]), map[], map[])

  lemma {:induction false} RunKeepsInv(trace: seq<Event>)
    ensures Inv(Run(START, trace))
  {
    if trace == [] {
      forall k ensures CounterOk(START, k) {}
    } else {
      RunKeepsInv(trace[..|trace| - 1]);
      StepKeepsInv(Run(START, trace[..|trace| - 1]), trace[|trace| - 1]);
    }
  }

  /**
   In every interleaving of requests, retries of the prefilter, event creation, seeding, reconciling, writer
   switches and added types, a counter is below the stock of its row by at most what is still held open:
   the prefilter never forgets stock.
   */
  lemma CounterNeverForgetsStock(trace: seq<Event>, k: C.Key)
    requires var s := Run(START, trace); k in s.store.values && OnlySold(s.db, k)
    ensures var s := Run(START, trace);
      && Open(s.reqs, k) >= 0
      && s.store.values[k] + Open(s.reqs, k) >= StockRow(s.db, k).value.remaining >= 0
  {
    RunKeepsInv(trace);
    var s := Run(START, trace);
    assert CounterOk(s, k);
    OpenNonNegative(s.reqs, k);
    assert Runs.EventInv(s.db.mode, s.db.events[k.event]);
  }

  /** With nothing held open, a request answered "sold out" by the gate could not have been confirmed by the database. */
  lemma SoldOutIsTrue(trace: seq<Event>, id: nat, newId: nat, stale: bool)
    requires var s := Run(START, trace);
      && id in s.reqs && s.reqs[id].phase.Ready? && GateStep(s, id).reqs[id].phase.Finished?
      && var key := PlanKey(s.reqs[id].input, s.reqs[id].plan).value;
      OnlySold(s.db, key) && Open(s.reqs, key) == 0
    ensures var s := Run(START, trace);
      var out := PurchaseSpec(s.db, s.reqs[id].input, newId, stale).1;
      !(out.Created? && out.result.status == Confirmed)
  {
    var s := Run(START, trace);
    var r := s.reqs[id];
    var key := PlanKey(r.input, r.plan).value;
    RunKeepsInv(trace);
    CounterNeverForgetsStock(trace, key);
    PlanFitsAlways(trace, id);
    StaysAboveZero(s.db, r.input, r.plan, newId, stale, key);
  }

  /** A request whose quantity exceeds the stock of its row is not confirmed. */
  lemma StaysAboveZero(db: Db, input: Input, plan: Plan, newId: nat, stale: bool, k: C.Key)
    requires Runs.Inv(db) && ValidInput(input) && PlanFits(input, plan) && PlanKey(input, plan) == Some(k)
    requires StockRow(db, k).Some?
    ensures var (db', out) := PurchaseSpec(db, input, newId, stale);
      && (out.Created? ==> Books(out, k))
      && StockRow(db', k).Some? && StockRow(db', k).value.remaining >= 0
      && (StockRow(db, k).value.remaining < input.quantity ==> !(out.Created? && out.result.status == Confirmed))
  {
    var out := PurchaseSpec(db, input, newId, stale).1;
    Booked(db, input, newId, stale, k);
    if k.TypeCounter? && out.Created? { ChosenType(db.events[k.event], db.mode, input, newId, stale, k.typeId); }
    Runs.PurchaseSpecKeepsInv(db, input, newId, stale);
    StockNonNegative(PurchaseSpec(db, input, newId, stale).0, k);
  }

  /** The database books a purchase on the type the plan names: without a choice there must be only one. */
  lemma ChosenType(d: EventData, mode: Mode, input: Input, newId: nat, stale: bool, t: TypeId)
    requires Runs.EventInv(mode, d) && t in d.types
    requires input.typeId.Some? ==> input.typeId == Some(t)
    ensures var out := PurchaseOn(d, mode, input, newId, stale).1; out.Created? ==> out.typeId == t
  {
    if |d.types| == 1 { OneType(d.types, t); }
  }

  lemma OneType(types: map<TypeId, string>, t: TypeId)
    requires |types| == 1 && t in types
    ensures types.Keys == {t}
  {
    assert |types.Keys| == 1;
    assert types.Keys == {t} + (types.Keys - {t});
    assert |types.Keys - {t}| == 0;
  }

  lemma {:induction false} PlanFitsAlways(trace: seq<Event>, id: nat)
    requires id in Run(START, trace).reqs
    ensures PlanFits(Run(START, trace).reqs[id].input, Run(START, trace).reqs[id].plan)
  {
    if trace != [] && id in Run(START, trace[..|trace| - 1]).reqs { PlanFitsAlways(trace[..|trace| - 1], id); }
  }

  // --- When the counter is exact ---

  ghost predicate ReqExact(r: Req, k: C.Key) {
    r.input.event == k.event ==>
      && r.input.requestId.None? && PlanKey(r.input, r.plan) == Some(k)
      && match r.phase
         case Gated(reserved) => reserved
         case Anchored(reserved, _) => reserved
         case Settled(remedy) => remedy.Nothing? || remedy.GiveBack?
         case _ => true
  }

  /** A synced counter of a single-type event: what it shows and what is held open is the stock. */
  ghost predicate Exact(s: Sys, k: C.Key) {
    Inv(s) && Balanced(s, k)
  }

  ghost predicate Balanced(s: Sys, k: C.Key) {
    && k.event in s.db.events && |s.db.events[k.event].types| == 1
    && StockRow(s.db, k).Some?
    && Value(s, k) >= 0
    && k in s.store.values && Value(s, k) + Open(s.reqs, k) == StockRow(s.db, k).value.remaining
    && (forall id | id in s.reqs :: ReqExact(s.reqs[id], k))
    && (forall j | j in s.jobs && s.jobs[j].key == k :: Harmless(s.store, s.jobs[j], k))
  }

  /** A pending write of this counter that is outdated, or would write what the counter shows. */
  predicate Harmless(store: C.Store, j: Job, k: C.Key) {
    && j.SyncJob? && j.expected <= C.Revision(store, k)
    && (j.expected == C.Revision(store, k) ==> k in store.values && j.value == store.values[k])
  }

  function Value(s: Sys, k: C.Key): int {
    if k in s.store.values then s.store.values[k] else 0
  }

  /**
   Nobody retries with a key or through another counter, no COMMIT answer is lost, no type is added, no seed reads this
   row, and a reconcile that reads it while reservations are open has noted an older revision. Everything else
   may happen, reconciles and writer switches included.
   */
  ghost predicate Calm(s: Sys, ev: Event, k: C.Key) {
    match ev
    case Arrive(_, input, plan) => input.event == k.event ==> input.requestId.None? && PlanKey(input, plan) == Some(k)
    case Transact(_, _, _, fate) => fate != CommitLost
    case AddType(e, _, _, _) => e != k.event
    case ReadStock(_, key, noted) => key == k ==>
      noted.Some? && noted.value <= C.Revision(s.store, k) && (noted.value == C.Revision(s.store, k) ==> Open(s.reqs, k) == 0)
    case _ => true
  }

  ghost predicate CalmRun(s: Sys, trace: seq<Event>, k: C.Key) {
    trace == [] || (CalmRun(s, trace[..|trace| - 1], k) && Calm(Run(s, trace[..|trace| - 1]), trace[|trace| - 1], k))
  }

  lemma FitsIsConfirmed(d: EventData, mode: Mode, input: Input, newId: nat, stale: bool)
    requires Runs.EventInv(mode, d) && |d.types| == 1 && ValidInput(input) && input.requestId.None?
    requires d.legacy.value.remaining >= input.quantity
    ensures var (d', out) := PurchaseOn(d, mode, input, newId, stale);
      !out.Replayed? && (out.Created? ==> out.result.status == Confirmed) && d'.types == d.types
  {
    var resolved := ResolveType(d, mode, input.typeId);
    if resolved.Type? { SingleTypeRows(d, mode, resolved.id); }
  }

  /** A request that fits the stock of a single-type event is confirmed, or fails; it is never answered "sold out". */
  lemma FittingRequest(db: Db, input: Input, plan: Plan, k: C.Key, newId: nat, stale: bool)
    requires Runs.Inv(db) && ValidInput(input) && input.requestId.None? && PlanKey(input, plan) == Some(k)
    requires k.event in db.events && |db.events[k.event].types| == 1
    requires StockRow(db, k).Some? && StockRow(db, k).value.remaining >= input.quantity
    ensures var (db', out) := PurchaseSpec(db, input, newId, stale);
      && !out.Replayed? && (out.Created? ==> Confirms(out, k))
      && k.event in db'.events && db'.events[k.event].types == db.events[k.event].types && StockRow(db', k).Some?
      && StockRow(db', k).value.remaining == StockRow(db, k).value.remaining - (if out.Created? then input.quantity else 0)
  {
    var d := db.events[k.event];
    if k.TypeCounter? { SingleTypeRows(d, db.mode, k.typeId); }
    FitsIsConfirmed(d, db.mode, input, newId, stale);
    Booked(db, input, newId, stale, k);
    SingleTypeBooks(d, db.mode, input, newId, stale, k);
  }

  lemma SingleTypeBooks(d: EventData, mode: Mode, input: Input, newId: nat, stale: bool, k: C.Key)
    requires Runs.EventInv(mode, d) && |d.types| == 1 && ValidInput(input) && (k.TypeCounter? ==> k.typeId in d.types)
    ensures var out := PurchaseOn(d, mode, input, newId, stale).1; out.Created? ==> Books(out, k)
  {
    PurchaseRows(d, mode, input, newId, stale);
    if k.TypeCounter? { OneType(d.types, k.typeId); }
  }

  /** After such a request nothing is left to do, or the hold is to be given back. */
  lemma FittingRemedy(plan: Plan, anchor: nat, out: TxOutcome, input: Input, k: C.Key)
    requires PlanKey(input, plan) == Some(k) && (out.Created? ==> Confirms(out, k))
    ensures RemedyFor(plan, true, anchor, out) == if out.Created? then Nothing else GiveBack
  {
  }

  /** A held request fits the stock. */
  lemma HeldFits(s: Sys, id: nat, k: C.Key)
    requires Balanced(s, k) && ReqsValid(s.reqs)
    requires id in s.reqs && s.reqs[id].input.event == k.event && Holds(s.reqs[id])
    ensures StockRow(s.db, k).value.remaining >= s.reqs[id].input.quantity
  {
    assert ReqExact(s.reqs[id], k);
    OthersNonNegative(s.reqs, id, k);
  }

  /** So no request that got a reservation is ever rejected by the database. */
  lemma HeldIsNeverRejected(s: Sys, id: nat, k: C.Key, newId: nat, stale: bool)
    requires Exact(s, k) && id in s.reqs && s.reqs[id].input.event == k.event && s.reqs[id].phase.Anchored?
    ensures var out := PurchaseSpec(s.db, s.reqs[id].input, newId, stale).1;
      !out.Replayed? && (out.Created? ==> out.result.status == Confirmed)
  {
    var r := s.reqs[id];
    assert ReqExact(r, k);
    HeldFits(s, id, k);
    FittingRequest(s.db, r.input, r.plan, k, newId, stale);
  }

  lemma SingleTypeRows(d: EventData, mode: Mode, t: TypeId)
    requires Runs.EventInv(mode, d) && |d.types| == 1 && t in d.types
    ensures t in d.stock && d.legacy.Some? && d.stock[t].remaining == d.legacy.value.remaining
  {
    OneType(d.types, t);
    assert d.stock == map[t := d.stock[t]];
    TotalsSingleton(t, d.stock[t]);
  }

  lemma TransactKeepsBalance(s: Sys, id: nat, k: C.Key, newId: nat, stale: bool, fate: Fate)
    requires Exact(s, k) && id in s.reqs && s.reqs[id].phase.Anchored? && fate != CommitLost
    ensures Balanced(TransactStep(s, id, newId, stale, fate), k)
  {
    var r := s.reqs[id];
    var s' := TransactStep(s, id, newId, stale, fate);
    assert ReqExact(r, k);
    if r.input.event == k.event {
      HeldFits(s, id, k);
      HeldTransact(s, id, k, newId, stale, fate);
      HeldBalance(s, s', id, s'.reqs[id], k);
    } else {
      ElsewhereTransact(s, id, k, newId, stale, fate);
      RequestBalance(s, s', id, s'.reqs[id], k);
    }
  }

  lemma HeldTransact(s: Sys, id: nat, k: C.Key, newId: nat, stale: bool, fate: Fate)
    requires Runs.Inv(s.db) && id in s.reqs && s.reqs[id].phase.Anchored? && s.reqs[id].phase.reserved && fate != CommitLost
    requires ValidInput(s.reqs[id].input) && s.reqs[id].input.requestId.None? && PlanKey(s.reqs[id].input, s.reqs[id].plan) == Some(k)
    requires k.event in s.db.events && |s.db.events[k.event].types| == 1
    requires StockRow(s.db, k).Some? && StockRow(s.db, k).value.remaining >= s.reqs[id].input.quantity
    ensures var s' := TransactStep(s, id, newId, stale, fate);
      var r := s'.reqs[id];
      && s'.reqs == s.reqs[id := r] && r.input == s.reqs[id].input && r.plan == s.reqs[id].plan
      && r.phase.Settled? && (r.phase.remedy.Nothing? || r.phase.remedy.GiveBack?)
      && k.event in s'.db.events && s'.db.events[k.event].types == s.db.events[k.event].types
      && StockRow(s'.db, k).Some?
      && StockRow(s'.db, k).value.remaining
         == StockRow(s.db, k).value.remaining - (if r.phase.remedy.Nothing? then r.input.quantity else 0)
  {
    var (db', out) := PurchaseSpec(s.db, s.reqs[id].input, newId, stale);
    FittingRequest(s.db, s.reqs[id].input, s.reqs[id].plan, k, newId, stale);
    HeldSettles(s, id, db', out, fate, k);
  }

  lemma HeldSettles(s: Sys, id: nat, after: Db, out: TxOutcome, fate: Fate, k: C.Key)
    requires id in s.reqs && s.reqs[id].phase.Anchored? && s.reqs[id].phase.reserved && fate != CommitLost
    requires PlanKey(s.reqs[id].input, s.reqs[id].plan) == Some(k) && (out.Created? ==> Confirms(out, k))
    requires k.event in s.db.events && k.event in after.events && after.events[k.event].types == s.db.events[k.event].types
    requires StockRow(s.db, k).Some? && StockRow(after, k).Some?
    requires StockRow(after, k).value.remaining
          == StockRow(s.db, k).value.remaining - (if out.Created? then s.reqs[id].input.quantity else 0)
    ensures var s' := Settle(s, id, after, out, fate);
      var r := s'.reqs[id];
      && r.phase.Settled? && (r.phase.remedy.Nothing? || r.phase.remedy.GiveBack?)
      && k.event in s'.db.events && s'.db.events[k.event].types == s.db.events[k.event].types
      && StockRow(s'.db, k).Some?
      && StockRow(s'.db, k).value.remaining
         == StockRow(s.db, k).value.remaining - (if r.phase.remedy.Nothing? then r.input.quantity else 0)
  {
    var r := s.reqs[id];
    FittingRemedy(r.plan, r.phase.anchor, if fate == Normal then out else Failed(DatabaseError), r.input, k);
  }

  /** A transaction on another event. */
  lemma ElsewhereTransact(s: Sys, id: nat, k: C.Key, newId: nat, stale: bool, fate: Fate)
    requires id in s.reqs && s.reqs[id].phase.Anchored? && s.reqs[id].input.event != k.event && k.event in s.db.events
    ensures var s' := TransactStep(s, id, newId, stale, fate);
      && k.event in s'.db.events && s'.db.events[k.event] == s.db.events[k.event]
      && s'.reqs == s.reqs[id := s'.reqs[id]] && s'.reqs[id].input == s.reqs[id].input && s'.reqs[id].plan == s.reqs[id].plan
      && s'.store == s.store && s'.jobs == s.jobs
  {
  }

  /** The hold became a purchase of the same quantity, or is still to be given back. */
  lemma HeldBalance(s: Sys, s': Sys, id: nat, r: Req, k: C.Key)
    requires Balanced(s, k) && id in s.reqs && s.reqs[id].input.event == k.event && Holds(s.reqs[id])
    requires s'.store == s.store && s'.jobs == s.jobs && s'.reqs == s.reqs[id := r]
    requires r.input == s.reqs[id].input && r.plan == s.reqs[id].plan && r.phase.Settled?
    requires r.phase.remedy.Nothing? || r.phase.remedy.GiveBack?
    requires k.event in s'.db.events && s'.db.events[k.event].types == s.db.events[k.event].types
    requires StockRow(s'.db, k).Some?
    requires StockRow(s'.db, k).value.remaining
          == StockRow(s.db, k).value.remaining - (if r.phase.remedy.Nothing? then r.input.quantity else 0)
    ensures Balanced(s', k)
  {
    assert ReqExact(s.reqs[id], k);
    RequestBalance(s, s', id, r, k);
  }

  /** The counter is as it was, or its revision rose. */
  predicate Touched(store: C.Store, store': C.Store, k: C.Key) {
    (C.Value(store', k) == C.Value(store, k) && C.Revision(store', k) == C.Revision(store, k))
    || C.Revision(store', k) > C.Revision(store, k)
  }

  lemma ScriptTouches(store: C.Store, key: C.Key, script: C.Script, k: C.Key)
    ensures Touched(store, C.Run(store, key, script), k)
  {
  }

  /** One request moves on and the counter and the row of `k` with it. */
  lemma RequestBalance(s: Sys, s': Sys, id: nat, r: Req, k: C.Key)
    requires Balanced(s, k) && s'.reqs == s.reqs[id := r] && s'.jobs == s.jobs
    requires k.event in s'.db.events && |s'.db.events[k.event].types| == 1
    requires StockRow(s'.db, k).Some? && k in s'.store.values && s'.store.values[k] >= 0
    requires ReqExact(r, k) && Touched(s.store, s'.store, k)
    requires Value(s', k) + Contribution(r, k) - StockRow(s'.db, k).value.remaining
          == Value(s, k) + (if id in s.reqs then Contribution(s.reqs[id], k) else 0) - StockRow(s.db, k).value.remaining
    ensures Balanced(s', k)
  {
    OpenUpdate(s.reqs, id, r, k);
  }

  lemma StepKeepsBalance(s: Sys, ev: Event, k: C.Key)
    requires Exact(s, k) && Calm(s, ev, k)
    ensures Balanced(Step(s, ev), k)
  {
    match ev
    case Arrive(id, input, plan) =>
      if id !in s.reqs { ArriveKeepsBalance(s, id, input, plan, k); }
    case Gate(id) =>
      if id in s.reqs && s.reqs[id].phase.Ready? { GateKeepsBalance(s, id, k); }
    case ReadAnchor(id) =>
      if id in s.reqs && s.reqs[id].phase.Gated? { AnchorKeepsBalance(s, id, k); }
    case Transact(id, newId, stale, fate) =>
      if id in s.reqs && s.reqs[id].phase.Anchored? { TransactKeepsBalance(s, id, k, newId, stale, fate); }
    case Remedy(id) =>
      if id in s.reqs && s.reqs[id].phase.Settled? { RemedyKeepsBalance(s, id, k); }
    case _ => OtherKeepsBalance(s, ev, k);
  }

  lemma ArriveKeepsBalance(s: Sys, id: nat, input: Input, plan: Plan, k: C.Key)
    requires Balanced(s, k) && Calm(s, Arrive(id, input, plan), k) && id !in s.reqs
    ensures Balanced(Step(s, Arrive(id, input, plan)), k)
  {
    var r := Req(input, plan, Ready);
    RequestBalance(s, s.(reqs := s.reqs[id := r]), id, r, k);
  }

  lemma AnchorKeepsBalance(s: Sys, id: nat, k: C.Key)
    requires Balanced(s, k) && id in s.reqs && s.reqs[id].phase.Gated?
    ensures Balanced(Step(s, ReadAnchor(id)), k)
  {
    var r := s.reqs[id];
    assert ReqExact(r, k);
    if PlanKey(r.input, r.plan).Some? {
      var r' := r.(phase := Anchored(r.phase.reserved, C.Revision(s.store, PlanKey(r.input, r.plan).value)));
      RequestBalance(s, s.(reqs := s.reqs[id := r']), id, r', k);
    }
  }

  lemma GateKeepsBalance(s: Sys, id: nat, k: C.Key)
    requires Balanced(s, k) && id in s.reqs && s.reqs[id].phase.Ready?
    ensures Balanced(GateStep(s, id), k)
  {
    assert ReqExact(s.reqs[id], k);
    RequestBalance(s, GateStep(s, id), id, GateStep(s, id).reqs[id], k);
  }

  lemma RemedyKeepsBalance(s: Sys, id: nat, k: C.Key)
    requires Balanced(s, k) && ReqsValid(s.reqs) && id in s.reqs && s.reqs[id].phase.Settled?
    ensures Balanced(RemedyStep(s, id), k)
  {
    assert ReqExact(s.reqs[id], k);
    RequestBalance(s, RemedyStep(s, id), id, RemedyStep(s, id).reqs[id], k);
  }

  /** Steps that belong to no request. */
  lemma OtherKeepsBalance(s: Sys, ev: Event, k: C.Key)
    requires Balanced(s, k) && Calm(s, ev, k)
    requires ev.CreateEvent? || ev.SwitchMode? || ev.AddType? || ev.ReadStock? || ev.WriteCounter?
    ensures Balanced(Step(s, ev), k)
  {
    if ev.WriteCounter? && ev.job in s.jobs { WriteKeepsBalance(s, ev.job, k); }
  }

  /** A harmless write of the counter changes nothing it shows. */
  lemma WriteKeepsBalance(s: Sys, job: nat, k: C.Key)
    requires Balanced(s, k) && job in s.jobs
    ensures Balanced(Step(s, WriteCounter(job)), k)
  {
    var j := s.jobs[job];
    var script := if j.InitJob? then C.Init(j.value) else C.GuardedSync(j.value, j.expected);
    WriteStep(s, job, script);
    ScriptTouches(s.store, j.key, script, k);
    if j.key == k { assert Harmless(s.store, j, k); }
  }

  lemma StepKeepsExact(s: Sys, ev: Event, k: C.Key)
    requires Exact(s, k) && Calm(s, ev, k)
    ensures Exact(Step(s, ev), k)
  {
    StepKeepsInv(s, ev);
    StepKeepsBalance(s, ev, k);
  }

  /**
   From a synced counter on, every interleaving of calm events keeps the counter exact: stock equals counter
   plus open reservations, so in each state a request that got a reservation fits the stock.
   */
  lemma {:induction false} ExactAlways(s: Sys, trace: seq<Event>, k: C.Key)
    requires Exact(s, k) && CalmRun(s, trace, k)
    ensures Exact(Run(s, trace), k)
  {
    if trace != [] {
      ExactAlways(s, trace[..|trace| - 1], k);
      StepKeepsExact(Run(s, trace[..|trace| - 1]), trace[|trace| - 1], k);
    }
  }

  /** A new event whose counter initialisation ran first starts exact. */
  lemma FreshCounterIsExact(s: Sys, e: EventId, t: TypeId, total: int, job: nat)
    requires Inv(s) && e !in s.db.events && 0 < total <= INT4_MAX && job !in s.jobs
    requires forall id | id in s.reqs :: s.reqs[id].input.event != e
    requires forall j | j in s.jobs :: s.jobs[j].key.event != e
    ensures var k := InitialKey(s.db.mode, e, t);
      Exact(Step(Step(s, CreateEvent(e, t, total, job)), WriteCounter(job)), k)
  {
    StepKeepsInv(s, CreateEvent(e, t, total, job));
    StepKeepsInv(Step(s, CreateEvent(e, t, total, job)), WriteCounter(job));
    FreshBalance(s, e, t, total, job);
  }

  lemma FreshRow(db: Db, e: EventId, t: TypeId, total: int)
    requires e !in db.events && 0 < total <= INT4_MAX
    ensures var db' := Runs.Step(db, Runs.Create(e, t, total));
      var k := InitialKey(db.mode, e, t);
      && e in db'.events && |db'.events[e].types| == 1
      && StockRow(db', k).Some? && StockRow(db', k).value.remaining == total
  {
    assert map[][t := Row(total, total, 0)] == map[t := Row(total, total, 0)];
    TotalsSingleton(t, Row(total, total, 0));
  }

  lemma FreshBalance(s: Sys, e: EventId, t: TypeId, total: int, job: nat)
    requires e !in s.db.events && 0 < total <= INT4_MAX && job !in s.jobs
    requires forall id | id in s.reqs :: s.reqs[id].input.event != e
    requires forall j | j in s.jobs :: s.jobs[j].key.event != e
    ensures Balanced(Step(Step(s, CreateEvent(e, t, total, job)), WriteCounter(job)), InitialKey(s.db.mode, e, t))
  {
    FreshRow(s.db, e, t, total);
    FreshSteps(s, e, t, total, job);
    SumZero(OpenMap(s.reqs, InitialKey(s.db.mode, e, t)));
  }

  lemma FreshSteps(s: Sys, e: EventId, t: TypeId, total: int, job: nat)
    requires e !in s.db.events && 0 < total <= INT4_MAX && job !in s.jobs
    ensures var k := InitialKey(s.db.mode, e, t);
      Step(Step(s, CreateEvent(e, t, total, job)), WriteCounter(job))
      == Sys(Runs.Step(s.db, Runs.Create(e, t, total)), C.Run(s.store, k, C.Init(total)), s.reqs, s.jobs)
  {
    CreateStep(s, e, t, total, job);
    var k := InitialKey(s.db.mode, e, t);
    WriteStep(Step(s, CreateEvent(e, t, total, job)), job, C.Init(total));
    assert s.jobs[job := InitJob(k, total)] - {job} == s.jobs;
  }

  lemma StockNonNegative(db: Db, k: C.Key)
    requires Runs.Inv(db) && StockRow(db, k).Some?
    ensures StockRow(db, k).value.remaining >= 0
  {
    assert Runs.EventInv(db.mode, db.events[k.event]);
  }

  // --- A reconcile among the requests ---

  /** The event neither starts nor finishes the job. */
  predicate Spares(ev: Event, job: nat) {
    match ev
    case CreateEvent(_, _, _, other) => other != job
    case ReadStock(other, _, _) => other != job
    case WriteCounter(other) => other != job
    case _ => true
  }

  ghost function WithJob(s: Sys, job: nat, j: Job): Sys {
    s.(jobs := s.jobs[job := j])
  }

  /** A pending job is invisible to every step that spares it. */
  lemma StepCommutes(s: Sys, ev: Event, job: nat, j: Job)
    requires job !in s.jobs && Spares(ev, job)
    ensures Step(WithJob(s, job, j), ev) == WithJob(Step(s, ev), job, j) && job !in Step(s, ev).jobs
  {
    var jobs := s.jobs;
    match ev
    case CreateEvent(e, t, total, other) =>
      var x := InitJob(InitialKey(s.db.mode, e, t), total);
      JobsCommute(jobs, job, j, other, x);
    case ReadStock(other, key, noted) =>
      if StockRow(s.db, key).Some? {
        var value := StockRow(s.db, key).value.remaining;
        var x := if noted.Some? then SyncJob(key, value, noted.value) else InitJob(key, value);
        JobsCommute(jobs, job, j, other, x);
      }
    case WriteCounter(other) =>
      assert jobs[job := j] - {other} == (jobs - {other})[job := j];
    case _ =>
  }

  lemma JobsCommute(jobs: map<nat, Job>, a: nat, x: Job, b: nat, y: Job)
    requires a != b
    ensures jobs[a := x][b := y] == jobs[b := y][a := x]
  {
  }

  lemma {:induction false} RunCommutes(s: Sys, trace: seq<Event>, job: nat, j: Job)
    requires job !in s.jobs && forall ev | ev in trace :: Spares(ev, job)
    ensures Run(WithJob(s, job, j), trace) == WithJob(Run(s, trace), job, j) && job !in Run(s, trace).jobs
  {
    if trace != [] {
      RunCommutes(s, trace[..|trace| - 1], job, j);
      StepCommutes(Run(s, trace[..|trace| - 1]), trace[|trace| - 1], job, j);
    }
  }

  lemma StepTouches(s: Sys, ev: Event, k: C.Key)
    ensures Touched(s.store, Step(s, ev).store, k)
  {
  }

  /** Over any run a counter whose revision stands where it stood shows what it showed. */
  lemma {:induction false} RunTouches(s: Sys, trace: seq<Event>, k: C.Key)
    ensures Touched(s.store, Run(s, trace).store, k)
  {
    if trace != [] {
      RunTouches(s, trace[..|trace| - 1], k);
      StepTouches(Run(s, trace[..|trace| - 1]), trace[|trace| - 1], k);
    }
  }

  /**
   A reconcile notes the revision and reads the stock of an exact counter, any calm run goes by, and it writes. The
   counter is exact afterwards if and only if somebody wrote it in between, so that the write is
   skipped, or no reservation was open when the stock was read.
   */
  lemma ReconcileIsExactIff(s: Sys, k: C.Key, job: nat, meanwhile: seq<Event>)
    requires Exact(s, k) && job !in s.jobs
    requires CalmRun(s, meanwhile, k) && forall ev | ev in meanwhile :: Spares(ev, job)
    ensures var s2 := Run(Step(s, ReadStock(job, k, Some(C.Revision(s.store, k)))), meanwhile);
      Exact(Step(s2, WriteCounter(job)), k) <==>
        C.Revision(s2.store, k) != C.Revision(s.store, k) || Open(s.reqs, k) == 0
  {
    var noted := C.Revision(s.store, k);
    var j := SyncJob(k, StockRow(s.db, k).value.remaining, noted);
    var end := Run(s, meanwhile);
    ReadStep(s, job, k, noted);
    RunCommutes(s, meanwhile, job, j);
    ExactAlways(s, meanwhile, k);
    RunTouches(s, meanwhile, k);
    StockNonNegative(s.db, k);
    LateWrite(end, job, j, k);
    if C.Revision(end.store, k) == noted { ShownIffNoneOpen(s, end, k); }
    LateInv(s, job, k, noted, meanwhile);
  }

  /** While nobody writes it, a balanced counter shows the stock as it was exactly if nothing was open then. */
  lemma ShownIffNoneOpen(s: Sys, end: Sys, k: C.Key)
    requires Balanced(s, k) && Balanced(end, k) && Touched(s.store, end.store, k)
    requires C.Revision(end.store, k) == C.Revision(s.store, k)
    ensures StockRow(s.db, k).value.remaining == end.store.values[k] <==> Open(s.reqs, k) == 0
  {
  }

  lemma ReadStep(s: Sys, job: nat, k: C.Key, noted: nat)
    requires job !in s.jobs && StockRow(s.db, k).Some?
    ensures Step(s, ReadStock(job, k, Some(noted))) == WithJob(s, job, SyncJob(k, StockRow(s.db, k).value.remaining, noted))
  {
  }

  lemma LateInv(s: Sys, job: nat, k: C.Key, noted: nat, meanwhile: seq<Event>)
    requires Inv(s)
    ensures Inv(Step(Run(Step(s, ReadStock(job, k, Some(noted))), meanwhile), WriteCounter(job)))
  {
    StepKeepsInv(s, ReadStock(job, k, Some(noted)));
    RunKeepsInvFrom(Step(s, ReadStock(job, k, Some(noted))), meanwhile);
    StepKeepsInv(Run(Step(s, ReadStock(job, k, Some(noted))), meanwhile), WriteCounter(job));
  }

  lemma {:induction false} RunKeepsInvFrom(s: Sys, trace: seq<Event>)
    requires Inv(s)
    ensures Inv(Run(s, trace))
  {
    if trace != [] {
      RunKeepsInvFrom(s, trace[..|trace| - 1]);
      StepKeepsInv(Run(s, trace[..|trace| - 1]), trace[|trace| - 1]);
    }
  }

  /** The write of one pending job against a balanced counter: skipped, or balanced exactly if it writes what is shown. */
  lemma LateWrite(s: Sys, job: nat, j: Job, k: C.Key)
    requires Balanced(s, k) && job !in s.jobs && j.SyncJob? && j.key == k && j.value >= 0
    ensures Balanced(Step(WithJob(s, job, j), WriteCounter(job)), k) <==>
      j.expected != C.Revision(s.store, k) || j.value == s.store.values[k]
  {
    var s' := Step(WithJob(s, job, j), WriteCounter(job));
    WriteStep(WithJob(s, job, j), job, C.GuardedSync(j.value, j.expected));
    assert s.jobs[job := j] - {job} == s.jobs;
    ScriptTouches(s.store, k, C.GuardedSync(j.value, j.expected), k);
    if j.expected != C.Revision(s.store, k) { assert s' == s; }
  }
}
