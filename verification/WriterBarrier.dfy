/**
 The advisory-lock barrier between inventory writers (shared) and mode switches (exclusive), with COMMITs whose
 answer the client may never see, and the verification that follows such a loss. Server-side transactions
 interleave in any order; a lock is held from its acquisition until its transaction ends.
 */
module WriterBarrier {
  import opened Common
  import Triggers = InventoryTriggers

  type TxId = nat

  datatype Kind =
    | Writer                      // purchase, event creation, counter seeding: shared barrier
    | Switcher(target: Mode)      // executeWriterModeSwitch: exclusive barrier
    | Verifier(subject: TxId)     // verifyWriterModeAfterAmbiguousCommit: exclusive barrier

  datatype Phase = Waiting | Holding | Decided | CommitSent | Committed | Aborted

  /** `seen` is the mode the transaction read, `base` how many switches had committed at that moment. */
  datatype Tx = Tx(kind: Kind, phase: Phase, seen: Option<Mode>, base: nat)

  datatype State = State(control: Mode, switches: nat, txs: map<TxId, Tx>)

  datatype Event =
    | Begin(id: TxId, kind: Kind)
    | Acquire(id: TxId)
    | ReadMode(id: TxId)
    /** Parity checks passed and the UPDATE (a switcher's only) was executed. */
    | Prepare(id: TxId, parityOk: bool)
    | SendCommit(id: TxId)
    /** The server makes the transaction durable; no client observation is implied. */
    | ServerCommit(id: TxId)
    /** ROLLBACK, timeout or a dead connection, possibly after COMMIT was sent but not processed. */
    | ServerAbort(id: TxId)

  predicate Holds(t: Tx) {
    t.phase == Holding || t.phase == Decided || t.phase == CommitSent
  }

  predicate Ended(t: Tx) {
    t.phase == Committed || t.phase == Aborted
  }

  ghost predicate CanAcquire(s: State, id: TxId)
    requires id in s.txs
  {
    forall other | other in s.txs && Holds(s.txs[other]) :: s.txs[id].kind.Writer? && s.txs[other].kind.Writer?
  }

  /** A verification starts once the COMMIT of its subject has been sent. */
  predicate MayBegin(s: State, kind: Kind) {
    kind.Verifier? ==> kind.subject in s.txs && s.txs[kind.subject].kind.Switcher?
                       && s.txs[kind.subject].seen == Some(s.txs[kind.subject].kind.target.Opposite())
                       && s.txs[kind.subject].phase in {CommitSent, Committed, Aborted}
  }

  ghost function Step(s: State, ev: Event): State {
    match ev
    case Begin(id, kind) =>
      if id !in s.txs && MayBegin(s, kind) then s.(txs := s.txs[id := Tx(kind, Waiting, None, 0)]) else s
    case Acquire(id) =>
      if id in s.txs && s.txs[id].phase == Waiting && CanAcquire(s, id)
      then s.(txs := s.txs[id := s.txs[id].(phase := Holding)]) else s
    case ReadMode(id) =>
      if id in s.txs && s.txs[id].phase == Holding && s.txs[id].seen.None?
      then s.(txs := s.txs[id := s.txs[id].(seen := Some(s.control), base := s.switches)]) else s
    case Prepare(id, parityOk) =>
      if id in s.txs && s.txs[id].phase == Holding && s.txs[id].seen.Some? then
        var refused := s.txs[id].kind.Switcher?
                       && (!parityOk || s.txs[id].seen.value != s.txs[id].kind.target.Opposite());
        s.(txs := s.txs[id := s.txs[id].(phase := if refused then Aborted else Decided)])
      else s
    case SendCommit(id) =>
      if id in s.txs && s.txs[id].phase == Decided
      then s.(txs := s.txs[id := s.txs[id].(phase := CommitSent)]) else s
    case ServerCommit(id) =>
      if id in s.txs && s.txs[id].phase == CommitSent then
        var txs' := s.txs[id := s.txs[id].(phase := Committed)];
        if s.txs[id].kind.Switcher? then State(s.txs[id].kind.target, s.switches + 1, txs') else s.(txs := txs')
      else s
    case ServerAbort(id) =>
      if id in s.txs && !Ended(s.txs[id]) then s.(txs := s.txs[id := s.txs[id].(phase := Aborted)]) else s
  }

  ghost function Run(init: Mode, trace: seq<Event>): State {
    if trace == [] then State(init, 0, map[])
    else Step(Run(init, trace[..|trace| - 1]), trace[|trace| - 1])
  }

  /** Every committed switch toggles the mode. */
  function ModeAt(init: Mode, switches: nat): Mode {
    if switches % 2 == 0 then init else init.Opposite()
  }

  // --- Invariant ---

  ghost predicate TxOk(init: Mode, s: State, t: Tx) {
    && (t.phase == Waiting ==> t.seen.None?)
    && (t.phase in {Decided, CommitSent, Committed} ==> t.seen.Some?)
    && (t.seen.Some? ==> t.base <= s.switches && t.seen.value == ModeAt(init, t.base))
    && (Holds(t) && t.seen.Some? ==> t.base == s.switches)
    && (t.kind.Switcher? && t.phase in {Decided, CommitSent, Committed} ==> t.seen.value == t.kind.target.Opposite())
    && (t.kind.Switcher? && t.phase == Committed ==> t.base < s.switches)
    && (t.kind.Verifier? ==> SubjectOk(s, t))
  }

  ghost predicate SubjectOk(s: State, v: Tx)
    requires v.kind.Verifier?
  {
    v.kind.subject in s.txs
    && var subject := s.txs[v.kind.subject];
    && subject.kind.Switcher? && subject.seen == Some(subject.kind.target.Opposite())
    && subject.phase in {CommitSent, Committed, Aborted}
    && (v.seen.Some? ==> Ended(subject) && v.base >= subject.base + (if subject.phase == Committed then 1 else 0))
  }

  ghost predicate Exclusion(s: State) {
    forall a, b | a in s.txs && b in s.txs && a != b && Holds(s.txs[a]) && Holds(s.txs[b]) ::
      s.txs[a].kind.Writer? && s.txs[b].kind.Writer?
  }

  ghost predicate Inv(init: Mode, s: State) {
    && s.control == ModeAt(init, s.switches)
    && Exclusion(s)
    && forall id | id in s.txs :: TxOk(init, s, s.txs[id])
  }

  /** Replacing one transaction record by an admissible successor keeps the invariant of all the others. */
  lemma ReplaceKeepsInv(init: Mode, s: State, s': State, id: TxId, t': Tx)
    requires Inv(init, s)
    requires s'.txs == s.txs[id := t'] && s'.control == ModeAt(init, s'.switches)
    requires s'.switches == s.switches || (s'.switches == s.switches + 1 && id in s.txs && s.txs[id].phase == CommitSent
                                           && s.txs[id].kind.Switcher? && t'.phase == Committed)
    requires TxOk(init, s', t')
    requires Holds(t') ==> id in s.txs && (Holds(s.txs[id]) || CanAcquire(s, id))
    requires id in s.txs ==>
      t'.kind == s.txs[id].kind
      && (s.txs[id].phase in {CommitSent, Committed, Aborted} ==>
            t'.seen == s.txs[id].seen && t'.base == s.txs[id].base && t'.phase in {CommitSent, Committed, Aborted})
      && (Ended(s.txs[id]) ==> t' == s.txs[id])
    ensures Inv(init, s')
  {
    forall x | x in s'.txs ensures TxOk(init, s', s'.txs[x]) {
      if x != id {
        assert TxOk(init, s, s.txs[x]);
        if s.txs[x].kind.Verifier? { assert SubjectOk(s, s.txs[x]); }
        if s'.switches != s.switches && Holds(s.txs[x]) {
          assert Holds(s.txs[id]);
        }
      }
    }
  }

  lemma StepKeepsInv(init: Mode, s: State, ev: Event)
    requires Inv(init, s)
    ensures Inv(init, Step(s, ev))
  {
    var s' := Step(s, ev);
    if s' != s {
      assert ev.id in s'.txs;
      if ev.id in s.txs {
        assert TxOk(init, s, s.txs[ev.id]);
        if s.txs[ev.id].kind.Verifier? {
          assert TxOk(init, s, s.txs[s.txs[ev.id].kind.subject]);
        }
      }
      ReplaceKeepsInv(init, s, s', ev.id, s'.txs[ev.id]);
    }
  }

  lemma {:induction false} RunKeepsInv(init: Mode, trace: seq<Event>)
    ensures Inv(init, Run(init, trace))
  {
    if trace != [] {
      RunKeepsInv(init, trace[..|trace| - 1]);
      StepKeepsInv(init, Run(init, trace[..|trace| - 1]), trace[|trace| - 1]);
    }
  }

  // --- What the barrier gives ---

  /**
   Whatever interleaves, the mode a barrier-holding transaction has read is still the control value at each of
   its later statements, so the fence never rejects the active writer it chose.
   */
  lemma ReadModeStaysValid(init: Mode, trace: seq<Event>, id: TxId)
    requires id in Run(init, trace).txs
    requires Holds(Run(init, trace).txs[id]) && Run(init, trace).txs[id].seen.Some?
    ensures Run(init, trace).txs[id].seen.value == Run(init, trace).control
  {
    RunKeepsInv(init, trace);
    assert TxOk(init, Run(init, trace), Run(init, trace).txs[id]);
  }

  /** How far a transaction has come. */
  function Progress(p: Phase): nat {
    match p
    case Waiting => 0
    case Holding => 1
    case Decided => 2
    case CommitSent => 3
    case Committed => 4
    case Aborted => 4
  }

  /** A transaction only goes forward, keeps what it is and what it has read, and once ended never changes. */
  lemma StepGoesForward(s: State, ev: Event, id: TxId)
    requires id in s.txs
    ensures id in Step(s, ev).txs
    ensures var t, t' := s.txs[id], Step(s, ev).txs[id];
      && t'.kind == t.kind && Progress(t.phase) <= Progress(t'.phase) && (t.seen.Some? ==> t'.seen == t.seen)
      && (Ended(t) ==> t' == t)
  {
  }

  /** Nothing blocks for good: whatever is in flight, the server can end it, and then every lock is free. */
  lemma {:induction false} CanDrain(init: Mode, trace: seq<Event>) returns (more: seq<Event>)
    ensures |trace| <= |more| && more[..|trace|] == trace
    ensures Run(init, more).control == Run(init, trace).control
    ensures forall id | id in Run(init, more).txs :: Ended(Run(init, more).txs[id])
    decreases |InFlight(Run(init, trace))|
  {
    var s := Run(init, trace);
    if InFlight(s) == {} {
      more := trace;
      forall id | id in s.txs ensures Ended(s.txs[id]) { assert id !in InFlight(s); }
    } else {
      var id :| id in InFlight(s);
      var s' := Step(s, ServerAbort(id));
      Reach(init, trace, s, ServerAbort(id), s');
      assert InFlight(s') == InFlight(s) - {id};
      more := CanDrain(init, trace + [ServerAbort(id)]);
    }
  }

  /** And with nothing in flight a writer gets through, and a switch from the mode of its source moves the control row. */
  lemma GetsThrough(s: State, id: TxId, kind: Kind)
    requires InFlight(s) == {} && id !in s.txs
    requires kind.Writer? || (kind.Switcher? && kind.target == s.control.Opposite())
    ensures var s1 := Step(Step(Step(s, Begin(id, kind)), Acquire(id)), ReadMode(id));
      var s2 := Step(Step(Step(s1, Prepare(id, true)), SendCommit(id)), ServerCommit(id));
      s2 == State(if kind.Writer? then s.control else kind.target, s.switches + (if kind.Writer? then 0 else 1),
                  s.txs[id := Tx(kind, Committed, Some(s.control), s.switches)])
  {
    forall other | other in s.txs ensures Ended(s.txs[other]) { assert other !in InFlight(s); }
    var begun := Step(s, Begin(id, kind));
    assert begun.txs == s.txs[id := Tx(kind, Waiting, None, 0)];
    var s1 := Step(Step(begun, Acquire(id)), ReadMode(id));
    assert s1.txs == s.txs[id := Tx(kind, Holding, Some(s.control), s.switches)];
    var sent := Step(Step(s1, Prepare(id, true)), SendCommit(id));
    assert sent.txs == s.txs[id := Tx(kind, CommitSent, Some(s.control), s.switches)];
  }

  function InFlight(s: State): set<TxId> {
    set id | id in s.txs && !Ended(s.txs[id])
  }

  /** The table updateActiveInventory writes in a mode. */
  function ActiveTable(mode: Mode): Triggers.Table {
    if mode == Legacy then Triggers.LegacyTable else Triggers.TypeTable
  }

  /**
   Whatever interleaves, a writer that holds the barrier and writes the table of the mode it read passes the fence at each
   of its statements, and would be refused on the other table.
   */
  lemma NeverRejectedAsInactive(init: Mode, trace: seq<Event>, id: TxId, table: Triggers.Table)
    requires id in Run(init, trace).txs
    requires Holds(Run(init, trace).txs[id]) && Run(init, trace).txs[id].seen.Some?
    ensures Triggers.FenceAccepts(table, Run(init, trace).control) <==> table == ActiveTable(Run(init, trace).txs[id].seen.value)
  {
    ReadModeStaysValid(init, trace, id);
  }

  /** No writer is in flight while a switch decides, and no switch while a writer is. */
  lemma SwitchRunsAlone(init: Mode, trace: seq<Event>, switcher: TxId, other: TxId)
    requires var s := Run(init, trace); switcher in s.txs && other in s.txs && switcher != other
    requires Run(init, trace).txs[switcher].kind.Switcher?
    ensures !(Holds(Run(init, trace).txs[switcher]) && Holds(Run(init, trace).txs[other]))
  {
    RunKeepsInv(init, trace);
  }

  /** Switches other than the subject that committed between the subject's read and the verifier's. */
  function ThirdSwitches(v: Tx, subject: Tx): int {
    v.base - subject.base - (if subject.phase == Committed then 1 else 0)
  }

  /**
   When the verification of a lost COMMIT answers, the original transaction has ended, and the answer tells
   whether it committed exactly when an even number of other switches committed in between: always right when
   there was none.
   */
  lemma VerificationIsConclusive(init: Mode, trace: seq<Event>, v: TxId)
    requires v in Run(init, trace).txs
    requires Run(init, trace).txs[v].kind.Verifier? && Run(init, trace).txs[v].seen.Some?
    ensures var s := Run(init, trace);
      var verifier := s.txs[v];
      verifier.kind.subject in s.txs
      && var subject := s.txs[verifier.kind.subject];
      && subject.kind.Switcher? && Ended(subject)
      && 0 <= ThirdSwitches(verifier, subject)
      && ((verifier.seen.value == subject.kind.target <==> subject.phase == Committed)
          <==> ThirdSwitches(verifier, subject) % 2 == 0)
  {
    RunKeepsInv(init, trace);
    VerdictInState(init, Run(init, trace), v);
  }

  lemma VerdictInState(init: Mode, s: State, v: TxId)
    requires Inv(init, s) && v in s.txs && s.txs[v].kind.Verifier? && s.txs[v].seen.Some?
    ensures s.txs[v].kind.subject in s.txs
    ensures var subject := s.txs[s.txs[v].kind.subject];
      && subject.kind.Switcher? && Ended(subject)
      && 0 <= ThirdSwitches(s.txs[v], subject)
      && ((s.txs[v].seen.value == subject.kind.target <==> subject.phase == Committed)
          <==> ThirdSwitches(s.txs[v], subject) % 2 == 0)
  {
    assert TxOk(init, s, s.txs[v]);
    var subject := s.txs[s.txs[v].kind.subject];
    assert TxOk(init, s, subject);
    Toggles(init, subject.base, s.txs[v].base);
    var gap := s.txs[v].base - subject.base;
    var third := ThirdSwitches(s.txs[v], subject);
    assert s.txs[v].seen.value == subject.kind.target <==> gap % 2 == 1;
    if subject.phase == Committed { assert gap == third + 1; } else { assert gap == third; }
  }

  lemma Toggles(init: Mode, from: nat, to: nat)
    requires from <= to
    ensures ModeAt(init, to) == ModeAt(init, from) <==> (to - from) % 2 == 0
  {
  }

  /** A third switch slips in: the verification reports the source mode although the switch committed. */
  lemma ThirdSwitchMisleads(s: State)
    requires s.control == TicketType
    requires s.txs == map[0 := Tx(Switcher(TicketType), Committed, Some(Legacy), 0), 1 := Tx(Verifier(0), Waiting, None, 0)]
    ensures var s1 := Step(Step(Step(s, Begin(2, Switcher(Legacy))), Acquire(2)), ReadMode(2));
      var s2 := Step(Step(Step(s1, Prepare(2, true)), SendCommit(2)), ServerCommit(2));
      var s3 := Step(Step(s2, Acquire(1)), ReadMode(1));
      1 in s3.txs && s3.txs[1].seen == Some(Legacy)
  {
    var s1 := Step(Step(Step(s, Begin(2, Switcher(Legacy))), Acquire(2)), ReadMode(2));
    assert s1.txs[2] == Tx(Switcher(Legacy), Holding, Some(TicketType), s.switches);
    var s2 := Step(Step(Step(s1, Prepare(2, true)), SendCommit(2)), ServerCommit(2));
    assert s2.control == Legacy && s2.txs[2].phase == Committed && s2.txs[1].phase == Waiting;
    assert s2.txs[0].phase == Committed && s2.txs.Keys == {0, 1, 2};
    assert CanAcquire(s2, 1);
  }

  lemma Reach(init: Mode, trace: seq<Event>, s: State, ev: Event, s': State)
    requires Run(init, trace) == s && Step(s, ev) == s'
    ensures Run(init, trace + [ev]) == s'
  {
    assert (trace + [ev])[..|trace|] == trace;
  }

  /** The state that lemma starts from is reached: a switch commits while its verification waits for the barrier. */
  lemma VerificationCanWait()
    ensures exists trace :: Run(Legacy, trace) == State(TicketType, 1,
      map[0 := Tx(Switcher(TicketType), Committed, Some(Legacy), 0), 1 := Tx(Verifier(0), Waiting, None, 0)])
  {
    var waiting, holding := Tx(Switcher(TicketType), Waiting, None, 0), Tx(Switcher(TicketType), Holding, None, 0);
    var s1, s2 := State(Legacy, 0, map[0 := waiting]), State(Legacy, 0, map[0 := holding]);
    Reach(Legacy, [], State(Legacy, 0, map[]), Begin(0, Switcher(TicketType)), s1);
    var t1 := [] + [Begin(0, Switcher(TicketType))];
    Reach(Legacy, t1, s1, Acquire(0), s2);
    var read := holding.(seen := Some(Legacy));
    var t2 := t1 + [Acquire(0)];
    var s3 := State(Legacy, 0, map[0 := read]);
    Reach(Legacy, t2, s2, ReadMode(0), s3);
    SwitchThenWait(t2 + [ReadMode(0)], read);
  }

  lemma SwitchThenWait(trace: seq<Event>, read: Tx)
    requires read == Tx(Switcher(TicketType), Holding, Some(Legacy), 0)
    requires Run(Legacy, trace) == State(Legacy, 0, map[0 := read])
    ensures exists longer :: Run(Legacy, longer) == State(TicketType, 1,
      map[0 := read.(phase := Committed), 1 := Tx(Verifier(0), Waiting, None, 0)])
  {
    var decided, sent := read.(phase := Decided), read.(phase := CommitSent);
    var verifier := Tx(Verifier(0), Waiting, None, 0);
    var s3, s4, s5 := State(Legacy, 0, map[0 := read]), State(Legacy, 0, map[0 := decided]), State(Legacy, 0, map[0 := sent]);
    var s6 := State(Legacy, 0, map[0 := sent, 1 := verifier]);
    var s7 := State(TicketType, 1, map[0 := read.(phase := Committed), 1 := verifier]);
    Reach(Legacy, trace, s3, Prepare(0, true), s4);
    var t4 := trace + [Prepare(0, true)];
    Reach(Legacy, t4, s4, SendCommit(0), s5);
    var t5 := t4 + [SendCommit(0)];
    Reach(Legacy, t5, s5, Begin(1, Verifier(0)), s6);
    var t6 := t5 + [Begin(1, Verifier(0))];
    Reach(Legacy, t6, s6, ServerCommit(0), s7);
    assert Run(Legacy, t6 + [ServerCommit(0)]) == s7;
  }
}
