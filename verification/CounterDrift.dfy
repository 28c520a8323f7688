/**
 Why a counter leaves its stock: between two overwrites, counter plus open reservations moves against the stock by exactly
 the quantities confirmed without a reservation whose outcome the request saw.
 */
module CounterDrift {
  import opened Common
  import opened InventoryTables
  import opened Purchases
  import Runs = InventoryRuns
  import C = Counters
  import opened P = Prefilter

  predicate Counted(s: Sys, k: C.Key) {
    k in s.store.values && StockRow(s.db, k).Some?
  }

  /** How far counter and open reservations are above the stock. */
  ghost function Drift(s: Sys, k: C.Key): int
    requires Counted(s, k)
  {
    s.store.values[k] + Open(s.reqs, k) - StockRow(s.db, k).value.remaining
  }

  /** The event writes the counter by an init or a sync that is not skipped. */
  predicate Overwrites(s: Sys, ev: Event, k: C.Key) {
    match ev
    case Remedy(id) =>
      id in s.reqs && s.reqs[id].phase.Settled? && s.reqs[id].phase.remedy.Correct?
      && PlanKey(s.reqs[id].input, s.reqs[id].plan) == Some(k)
      && C.ReplyTo(s.store, k, CorrectionScript(s.reqs[id].phase.remedy)).Done?
    case WriteCounter(job) =>
      job in s.jobs && s.jobs[job].key == k && C.ReplyTo(s.store, k, JobScript(s.jobs[job])).Done?
    case _ => false
  }

  /** No overwrite, and no type added to the event while its event row is the one counted. */
  predicate Quiet(s: Sys, ev: Event, k: C.Key) {
    !Overwrites(s, ev, k) && (ev.AddType? && k.EventCounter? ==> ev.toEvent != k.event)
  }

  /** The request holds a reservation on this counter and sees what its transaction did. */
  predicate Backed(r: Req, k: C.Key, fate: Fate) {
    fate == Normal && r.phase.Anchored? && r.phase.reserved && PlanKey(r.input, r.plan) == Some(k)
  }

  /** Quantity the step takes from the row without such a reservation: a lost COMMIT answer, a bypass, another counter. */
  ghost function Unbacked(s: Sys, ev: Event, k: C.Key): int {
    if ev.Transact? && ev.id in s.reqs && s.reqs[ev.id].phase.Anchored? && ev.fate != Throws
       && s.reqs[ev.id].input.event == k.event
       && Confirms(PurchaseSpec(s.db, s.reqs[ev.id].input, ev.newId, ev.staleMiss).1, k)
       && !Backed(s.reqs[ev.id], k, ev.fate)
    then s.reqs[ev.id].input.quantity
    else 0
  }

  ghost predicate QuietRun(s: Sys, trace: seq<Event>, k: C.Key) {
    trace == [] || (QuietRun(s, trace[..|trace| - 1], k) && Quiet(Run(s, trace[..|trace| - 1]), trace[|trace| - 1], k))
  }

  ghost function UnbackedIn(s: Sys, trace: seq<Event>, k: C.Key): int {
    if trace == [] then 0
    else UnbackedIn(s, trace[..|trace| - 1], k) + Unbacked(Run(s, trace[..|trace| - 1]), trace[|trace| - 1], k)
  }

  /** One request moves on: what it does to counter, hold and row adds up. */
  lemma RequestDrift(s: Sys, s': Sys, id: nat, r: Req, k: C.Key)
    requires Counted(s, k) && Counted(s', k) && s'.reqs == s.reqs[id := r]
    ensures Drift(s', k) - Drift(s, k) ==
      (s'.store.values[k] - s.store.values[k])
      + Contribution(r, k) - (if id in s.reqs then Contribution(s.reqs[id], k) else 0)
      - (StockRow(s'.db, k).value.remaining - StockRow(s.db, k).value.remaining)
  {
    OpenUpdate(s.reqs, id, r, k);
  }

  lemma GateDrift(s: Sys, id: nat, k: C.Key)
    requires Counted(s, k) && id in s.reqs && s.reqs[id].phase.Ready?
    ensures Counted(GateStep(s, id), k) && Drift(GateStep(s, id), k) == Drift(s, k)
  {
    RequestDrift(s, GateStep(s, id), id, GateStep(s, id).reqs[id], k);
  }

  lemma RemedyDrift(s: Sys, id: nat, k: C.Key)
    requires Counted(s, k) && id in s.reqs && s.reqs[id].phase.Settled? && !Overwrites(s, P.Event.Remedy(id), k)
    ensures Counted(RemedyStep(s, id), k) && Drift(RemedyStep(s, id), k) == Drift(s, k)
  {
    RequestDrift(s, RemedyStep(s, id), id, RemedyStep(s, id).reqs[id], k);
  }

  /** The hold after the transaction, against the row before and after it. */
  lemma TransactDrift(s: Sys, id: nat, k: C.Key, newId: nat, stale: bool, fate: Fate)
    requires Inv(s) && Counted(s, k) && id in s.reqs && s.reqs[id].phase.Anchored?
    ensures var s' := TransactStep(s, id, newId, stale, fate);
      Counted(s', k) && Drift(s', k) == Drift(s, k) + Unbacked(s, Transact(id, newId, stale, fate), k)
  {
    var s' := TransactStep(s, id, newId, stale, fate);
    if s.reqs[id].input.event == k.event {
      HereTransact(s, id, k, newId, stale, fate);
    } else {
      ElsewhereTransact(s, id, k, newId, stale, fate);
    }
    RequestDrift(s, s', id, s'.reqs[id], k);
  }

  /** A transaction on the event of the counter. */
  lemma HereTransact(s: Sys, id: nat, k: C.Key, newId: nat, stale: bool, fate: Fate)
    requires Inv(s) && Counted(s, k) && id in s.reqs && s.reqs[id].phase.Anchored? && s.reqs[id].input.event == k.event
    ensures var s' := TransactStep(s, id, newId, stale, fate);
      && Counted(s', k) && s'.store == s.store && s'.reqs == s.reqs[id := s'.reqs[id]]
      && Contribution(s'.reqs[id], k) - Contribution(s.reqs[id], k)
         - (StockRow(s'.db, k).value.remaining - StockRow(s.db, k).value.remaining)
         == Unbacked(s, Transact(id, newId, stale, fate), k)
  {
    var r := s.reqs[id];
    var (db', out) := PurchaseSpec(s.db, r.input, newId, stale);
    Booked(s.db, r.input, newId, stale, k);
    HoldAfter(r, out, fate, k, StockRow(s.db, k).value.remaining, StockRow(db', k).value.remaining);
  }

  lemma HoldAfter(r: Req, out: TxOutcome, fate: Fate, k: C.Key, before: int, after: int)
    requires r.phase.Anchored? && Accounted(before, after, r.input.quantity, out, k)
    ensures var seen := if fate == Normal then out else Failed(DatabaseError);
      var r' := r.(phase := Settled(RemedyFor(r.plan, r.phase.reserved, r.phase.anchor, seen)));
      Contribution(r', k) == Contribution(r, k) - (if Backed(r, k, fate) && Confirms(out, k) then r.input.quantity else 0)
  {
    if PlanKey(r.input, r.plan) == Some(k) {
      var seen := if fate == Normal then out else Failed(DatabaseError);
      RemedyFacts(r.plan, r.phase.reserved, r.phase.anchor, seen, r.input, k, before, after);
    }
  }

  lemma SameRow(db: Db, a: Runs.Action, k: C.Key)
    requires Runs.Inv(db) && StockRow(db, k).Some? && !a.Buy?
    requires a.AddType? && k.EventCounter? ==> a.toEvent != k.event
    ensures StockRow(Runs.Step(db, a), k) == StockRow(db, k)
  {
    assert Runs.EventInv(db.mode, db.events[k.event]);
  }

  lemma DbDrift(s: Sys, s': Sys, a: Runs.Action, k: C.Key)
    requires Inv(s) && Counted(s, k) && !a.Buy?
    requires a.AddType? && k.EventCounter? ==> a.toEvent != k.event
    requires s'.db == Runs.Step(s.db, a) && s'.store == s.store && s'.reqs == s.reqs
    ensures Counted(s', k) && Drift(s', k) == Drift(s, k)
  {
    SameRow(s.db, a, k);
  }

  lemma WriteDrift(s: Sys, job: nat, k: C.Key)
    requires Counted(s, k) && job in s.jobs && !Overwrites(s, WriteCounter(job), k)
    ensures Counted(Step(s, WriteCounter(job)), k) && Drift(Step(s, WriteCounter(job)), k) == Drift(s, k)
  {
    WriteStep(s, job, JobScript(s.jobs[job]));
    C.ScriptEffect(s.store, s.jobs[job].key, JobScript(s.jobs[job]), k);
  }

  lemma EnvDrift(s: Sys, a: Runs.Action, k: C.Key)
    requires Inv(s) && Counted(s, k) && !a.Buy?
    requires a.AddType? && k.EventCounter? ==> a.toEvent != k.event
    ensures var s' := s.(db := Runs.Step(s.db, a)); Counted(s', k) && Drift(s', k) == Drift(s, k)
  {
    DbDrift(s, s.(db := Runs.Step(s.db, a)), a, k);
  }

  lemma CreateDrift(s: Sys, e: EventId, t: TypeId, total: int, job: nat, k: C.Key)
    requires Inv(s) && Counted(s, k) && e !in s.db.events && 0 < total <= INT4_MAX && job !in s.jobs
    ensures var s' := Step(s, CreateEvent(e, t, total, job)); Counted(s', k) && Drift(s', k) == Drift(s, k)
  {
    CreateStep(s, e, t, total, job);
    DbDrift(s, Step(s, CreateEvent(e, t, total, job)), Runs.Create(e, t, total), k);
  }

  lemma ArriveDrift(s: Sys, id: nat, input: Input, plan: Plan, k: C.Key)
    requires Counted(s, k) && id !in s.reqs
    ensures Counted(Step(s, Arrive(id, input, plan)), k) && Drift(Step(s, Arrive(id, input, plan)), k) == Drift(s, k)
  {
    var r := Req(input, plan, Ready);
    RequestDrift(s, s.(reqs := s.reqs[id := r]), id, r, k);
  }

  lemma AnchorDrift(s: Sys, id: nat, k: C.Key)
    requires Counted(s, k) && id in s.reqs && s.reqs[id].phase.Gated?
    ensures Counted(Step(s, ReadAnchor(id)), k) && Drift(Step(s, ReadAnchor(id)), k) == Drift(s, k)
  {
    var r := s.reqs[id];
    if PlanKey(r.input, r.plan).Some? {
      var r' := r.(phase := Anchored(r.phase.reserved, C.Revision(s.store, PlanKey(r.input, r.plan).value)));
      RequestDrift(s, s.(reqs := s.reqs[id := r']), id, r', k);
    }
  }

  /** Before its transaction a request only moves stock between counter and hold. */
  lemma EarlyDrift(s: Sys, ev: Event, k: C.Key)
    requires Counted(s, k) && (ev.Arrive? || ev.Gate? || ev.ReadAnchor?)
    ensures Counted(Step(s, ev), k) && Drift(Step(s, ev), k) == Drift(s, k)
  {
    match ev
    case Arrive(id, input, plan) => if id !in s.reqs { ArriveDrift(s, id, input, plan, k); }
    case Gate(id) => if id in s.reqs && s.reqs[id].phase.Ready? { GateDrift(s, id, k); }
    case ReadAnchor(id) => if id in s.reqs && s.reqs[id].phase.Gated? { AnchorDrift(s, id, k); }
  }

  lemma ReadDrift(s: Sys, job: nat, key: C.Key, noted: Option<nat>, k: C.Key)
    requires Counted(s, k)
    ensures var s' := Step(s, ReadStock(job, key, noted)); Counted(s', k) && Drift(s', k) == Drift(s, k)
  {
  }

  lemma CreateDriftAny(s: Sys, e: EventId, t: TypeId, total: int, job: nat, k: C.Key)
    requires Inv(s) && Counted(s, k)
    ensures var s' := Step(s, CreateEvent(e, t, total, job)); Counted(s', k) && Drift(s', k) == Drift(s, k)
  {
    if e !in s.db.events && 0 < total <= INT4_MAX && job !in s.jobs { CreateDrift(s, e, t, total, job, k); }
  }

  /** Steps of the environment that do not write the counter leave its row alone. */
  lemma EnvironmentDrift(s: Sys, ev: Event, k: C.Key)
    requires Inv(s) && Counted(s, k) && (ev.CreateEvent? || ev.SwitchMode? || ev.AddType? || ev.ReadStock?)
    requires ev.AddType? && k.EventCounter? ==> ev.toEvent != k.event
    ensures Counted(Step(s, ev), k) && Drift(Step(s, ev), k) == Drift(s, k)
  {
    match ev
    case CreateEvent(e, t, total, job) => CreateDriftAny(s, e, t, total, job, k);
    case SwitchMode(target, stable) => EnvDrift(s, Runs.Switch(target, stable), k);
    case AddType(e, t, name, total) => EnvDrift(s, Runs.AddType(e, t, name, total), k);
    case ReadStock(job, key, noted) => ReadDrift(s, job, key, noted, k);
  }

  lemma DriftStep(s: Sys, ev: Event, k: C.Key)
    requires Inv(s) && Counted(s, k) && Quiet(s, ev, k)
    ensures Counted(Step(s, ev), k) && Drift(Step(s, ev), k) == Drift(s, k) + Unbacked(s, ev, k)
  {
    if ev.Transact? {
      if ev.id in s.reqs && s.reqs[ev.id].phase.Anchored? { TransactDrift(s, ev.id, k, ev.newId, ev.staleMiss, ev.fate); }
    } else {
      UndecidedStep(s, ev, k);
    }
  }

  lemma UndecidedStep(s: Sys, ev: Event, k: C.Key)
    requires Inv(s) && Counted(s, k) && Quiet(s, ev, k) && !ev.Transact?
    ensures Counted(Step(s, ev), k) && Drift(Step(s, ev), k) == Drift(s, k)
  {
    if ev.Arrive? || ev.Gate? || ev.ReadAnchor? {
      EarlyDrift(s, ev, k);
    } else if ev.Remedy? {
      if ev.id in s.reqs && s.reqs[ev.id].phase.Settled? { RemedyDrift(s, ev.id, k); }
    } else if ev.WriteCounter? {
      if ev.job in s.jobs { WriteDrift(s, ev.job, k); }
    } else {
      EnvironmentDrift(s, ev, k);
    }
  }

  /**
   Over any interleaving in which nothing overwrites the counter, with idempotency keys, lost COMMIT answers, bypassing
   requests and purchases through other counters: counter plus open reservations minus stock grows by exactly
   the quantity confirmed without a reservation on this counter whose outcome was seen.
   */
  lemma {:induction false} DriftAccounts(s: Sys, trace: seq<Event>, k: C.Key)
    requires Inv(s) && Counted(s, k) && QuietRun(s, trace, k)
    ensures Counted(Run(s, trace), k) && Drift(Run(s, trace), k) == Drift(s, k) + UnbackedIn(s, trace, k)
  {
    if trace != [] {
      var front := trace[..|trace| - 1];
      DriftAccounts(s, front, k);
      RunKeepsInvFrom(s, front);
      DriftStep(Run(s, front), trace[|trace| - 1], k);
    }
  }
}
