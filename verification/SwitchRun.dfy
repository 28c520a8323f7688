/** The whole cutover command: preflight, the switch transaction, and the verification of a COMMIT without an answer. */
module SwitchRun {
  import opened Common
  import opened InventoryTables
  import opened InventoryTriggers
  import opened WriterSwitch
  import Seed = CounterSeed
  import C = Counters

  /** What the preflight read earlier: a database snapshot, the counters, and the differences of a reconciliation. */
  datatype Preflight = Preflight(db: Db, counters: C.Store, projectionDiffs: nat)

  datatype Outcome =
    | AlreadyTarget
    | PreflightViolations
    | Switched
    | PhaseTwoFailed
    | CommitAmbiguous(verified: Mode)
    | Unverified

  /** No category of the three stores counts a violation when the source mode is expected. */
  ghost predicate Green(p: Preflight, source: Mode) {
    && Clean(p.db, source)
    && p.projectionDiffs == 0
    && NoCounterViolation(p, source)
  }

  ghost predicate NoCounterViolation(p: Preflight, source: Mode) {
    && RowsClean(p.counters, Seed.TypeNamespace, Seed.Rows(p.db, Seed.TypeNamespace), source)
    && RowsClean(p.counters, Seed.EventNamespace, Seed.Rows(p.db, Seed.EventNamespace), source)
    && Seed.Orphans(p.counters, Seed.Rows(p.db, Seed.TypeNamespace)) == {}
  }

  ghost predicate RowsClean(s: C.Store, ns: Seed.Namespace, rows: map<Seed.K.RowKey, Row>, source: Mode) {
    forall k | k in rows :: Seed.RowViolations(s, ns, k, rows[k], source, Seed.Phase.Preflight) == {}
  }

  /**
   Green, in terms of the three stores: the tables pass every parity check, the projection differs nowhere, every type
   counter exists with its row's remainder and a safe revision, every event counter shows its row (it may be
   absent only while legacy is the source), and no type counter lacks a row.
   */
  lemma GreenIff(p: Preflight, source: Mode)
    requires forall e | e in p.db.events :: TablesInRange(p.db.events[e])
    ensures Green(p, source) <==>
      && Clean(p.db, source) && p.projectionDiffs == 0
      && (forall e, t | e in p.db.events && t in p.db.events[e].stock ::
            Seed.ReadyTypeCounter(p.counters, C.TypeCounter(e, t), p.db.events[e].stock[t]))
      && (forall e | e in p.db.events && p.db.events[e].legacy.Some? ::
            Seed.ReadyEventCounter(p.counters, C.EventCounter(e), p.db.events[e].legacy.value, source == Legacy))
      && (forall k | k in p.counters.values && k.TypeCounter? :: k.event in p.db.events && k.typeId in p.db.events[k.event].stock)
  {
    forall k ensures k in Seed.Rows(p.db, Seed.TypeNamespace) ==> RowOk(Seed.Rows(p.db, Seed.TypeNamespace)[k])
      ensures k in Seed.Rows(p.db, Seed.EventNamespace) ==> RowOk(Seed.Rows(p.db, Seed.EventNamespace)[k])
    {
      Seed.RowsAre(p.db, k);
    }
    Seed.PreflightRowsIff(p.db, p.counters, source);
    ReadyTypes(p);
    ReadyEvents(p, source == Legacy);
    NoOrphan(p);
  }

  /** CHECK constraints and ranges of the rows of an event. */
  predicate TablesInRange(d: EventData) {
    (d.legacy.Some? ==> RowOk(d.legacy.value)) && forall t | t in d.stock :: RowOk(d.stock[t])
  }

  lemma ReadyTypes(p: Preflight)
    ensures (forall k | k in Seed.Rows(p.db, Seed.TypeNamespace) ::
               Seed.ReadyTypeCounter(p.counters, C.TypeCounter(k.0, k.1), Seed.Rows(p.db, Seed.TypeNamespace)[k])) <==>
            (forall e, t | e in p.db.events && t in p.db.events[e].stock ::
               Seed.ReadyTypeCounter(p.counters, C.TypeCounter(e, t), p.db.events[e].stock[t]))
  {
    var rows := Seed.Rows(p.db, Seed.TypeNamespace);
    if forall k | k in rows :: Seed.ReadyTypeCounter(p.counters, C.TypeCounter(k.0, k.1), rows[k]) {
      forall e, t | e in p.db.events && t in p.db.events[e].stock
        ensures Seed.ReadyTypeCounter(p.counters, C.TypeCounter(e, t), p.db.events[e].stock[t])
      {
        Seed.RowsAre(p.db, (e, t));
        assert (e, t) in rows;
      }
    }
    forall k | k in rows ensures k.0 in p.db.events && k.1 in p.db.events[k.0].stock && rows[k] == p.db.events[k.0].stock[k.1] {
      Seed.RowsAre(p.db, k);
    }
  }

  lemma ReadyEvents(p: Preflight, mayBeAbsent: bool)
    ensures (forall k | k in Seed.Rows(p.db, Seed.EventNamespace) ::
               Seed.ReadyEventCounter(p.counters, C.EventCounter(k.0), Seed.Rows(p.db, Seed.EventNamespace)[k], mayBeAbsent)) <==>
            (forall e | e in p.db.events && p.db.events[e].legacy.Some? ::
               Seed.ReadyEventCounter(p.counters, C.EventCounter(e), p.db.events[e].legacy.value, mayBeAbsent))
  {
    var rows := Seed.Rows(p.db, Seed.EventNamespace);
    if forall k | k in rows :: Seed.ReadyEventCounter(p.counters, C.EventCounter(k.0), rows[k], mayBeAbsent) {
      forall e | e in p.db.events && p.db.events[e].legacy.Some?
        ensures Seed.ReadyEventCounter(p.counters, C.EventCounter(e), p.db.events[e].legacy.value, mayBeAbsent)
      {
        Seed.RowsAre(p.db, (e, 0));
        assert (e, 0) in rows;
      }
    }
    forall k | k in rows ensures k.0 in p.db.events && Some(rows[k]) == p.db.events[k.0].legacy {
      Seed.RowsAre(p.db, k);
    }
  }

  lemma NoOrphan(p: Preflight)
    ensures Seed.Orphans(p.counters, Seed.Rows(p.db, Seed.TypeNamespace)) == {} <==>
      forall k | k in p.counters.values && k.TypeCounter? :: k.event in p.db.events && k.typeId in p.db.events[k.event].stock
  {
    forall k ensures k in Seed.Orphans(p.counters, Seed.Rows(p.db, Seed.TypeNamespace)) <==>
      k in p.counters.values && k.TypeCounter? && !(k.event in p.db.events && k.typeId in p.db.events[k.event].stock)
    {
      Seed.OrphanIff(p.counters, p.db, k);
    }
  }

  method CheckPreflight(p: Preflight, source: Mode, pageSize: int) returns (green: bool)
    ensures green == Green(p, source)
  {
    var databaseClean := CheckDatabase(p.db, source);
    var typeRows, eventRows := Seed.Rows(p.db, Seed.TypeNamespace), Seed.Rows(p.db, Seed.EventNamespace);
    var counts, types, events := Seed.CheckCutoverValkey(p.db, p.counters, source, Seed.Phase.Preflight, pageSize);
    EmptyIff(p.counters, Seed.TypeNamespace, typeRows, types, source);
    EmptyIff(p.counters, Seed.EventNamespace, eventRows, events, source);
    ThreeEmpty(
      counts,
      Seed.Counts(p.counters, Seed.TypeNamespace, typeRows, types, source, Seed.Phase.Preflight),
      Seed.Orphans(p.counters, typeRows),
      Seed.Counts(p.counters, Seed.EventNamespace, eventRows, events, source, Seed.Phase.Preflight));
    green := databaseClean && p.projectionDiffs == 0 && counts == multiset{};
  }

  lemma ThreeEmpty(all: multiset<Seed.Category>, a: multiset<Seed.Category>, orphans: set<C.Key>, c: multiset<Seed.Category>)
    requires all == a + multiset{}[Seed.CounterWithoutRow := |orphans|] + c
    ensures all == multiset{} <==> a == multiset{} && orphans == {} && c == multiset{}
  {
    var b := multiset{}[Seed.CounterWithoutRow := |orphans|];
    assert b == multiset{} <==> |orphans| == 0 by { assert b[Seed.CounterWithoutRow] == |orphans|; }
    assert |a + b + c| == |a| + |b| + |c|;
  }

  lemma EmptyIff(s: C.Store, ns: Seed.Namespace, rows: map<Seed.K.RowKey, Row>, keys: seq<Seed.K.RowKey>, source: Mode)
    requires Seed.K.Lists(keys, rows.Keys, None) && forall k | k in keys :: k in rows
    ensures Seed.Counts(s, ns, rows, keys, source, Seed.Phase.Preflight) == multiset{} <==> RowsClean(s, ns, rows, source)
  {
    var counts := Seed.Counts(s, ns, rows, keys, source, Seed.Phase.Preflight);
    forall c ensures counts[c] == 0 <==> forall k | k in keys :: c !in Seed.RowViolations(s, ns, k, rows[k], source, Seed.Phase.Preflight) {
      Seed.CountZeroIff(s, ns, rows, keys, source, Seed.Phase.Preflight, c);
    }
    forall k | k in rows ensures k in keys { assert Seed.K.Above(k, None); }
    if counts == multiset{} {
      forall k | k in rows ensures Seed.RowViolations(s, ns, k, rows[k], source, Seed.Phase.Preflight) == {} {
        forall c ensures c !in Seed.RowViolations(s, ns, k, rows[k], source, Seed.Phase.Preflight) { assert counts[c] == 0; }
      }
    } else {
      var c :| c in counts;
      assert counts[c] != 0;
    }
  }

  /**
   runWriterModeSwitch, with no other switch in flight. The mode changes only behind a green preflight and a passed
   switch transaction; and whatever happened to COMMIT, an answer that names a mode names the mode that is in force.
   */
  method RunWriterModeSwitch(
    p: Preflight, pageSize: int, s: Session, target: Mode, revision: string, revisionBefore: string, revisionAfter: string,
    fate: CommitFate, verificationAnswers: bool) returns (r: Outcome)
    modifies s
    ensures var source := target.Opposite();
      var stable := revisionBefore == revisionAfter == revision;
      var (db', passed) := SwitchSpec(old(s.View()), target, stable);
      var attempted := p.db.mode == source && Green(p, source);
      && (s.View() == if attempted && fate != LostBeforeCommit then db' else old(s.View()))
      && (r == AlreadyTarget <==> p.db.mode == target)
      && (r == PreflightViolations <==> p.db.mode == source && !Green(p, source))
      && (r == PhaseTwoFailed <==> attempted && !passed)
      && (r == Outcome.Switched <==> attempted && passed && fate == Acknowledged)
      && (r == Unverified <==> attempted && passed && fate != Acknowledged && !verificationAnswers)
      && (r.CommitAmbiguous? ==> r.verified == s.mode && (r.verified == target <==> fate == LostAfterCommit))
  {
    if p.db.mode == target { return AlreadyTarget; }
    var source := target.Opposite();
    var green := CheckPreflight(p, source, pageSize);
    if !green { return PreflightViolations; }
    var result := ExecuteWriterModeSwitch(s, target, Some(revision), revisionBefore, revisionAfter, fate);
    match result
    case Switched => return Outcome.Switched;
    case RolledBack => return PhaseTwoFailed;
    case OutcomeUnknown =>
      if !verificationAnswers { return Unverified; }
      // The exclusive barrier is free only after the original transaction has ended.
      return CommitAmbiguous(s.mode);
  }
}
