/** Seeding and reconciling a counter namespace, and the cutover checks that read it. */
module CounterSeed {
  import opened Common
  import opened InventoryTables
  import C = Counters
  import K = Keyset

  datatype Namespace = TypeNamespace | EventNamespace

  /** Primary key of a counted row: (event_id, ticket_type_id), or (event_id, 0) in the event namespace. */
  function KeyOf(ns: Namespace, k: K.RowKey): C.Key {
    if ns == TypeNamespace then C.TypeCounter(k.0, k.1) else C.EventCounter(k.0)
  }

  /** The stock rows of a namespace by primary key. */
  function Rows(db: Db, ns: Namespace): map<K.RowKey, Row> {
    if ns == TypeNamespace then
      map e, t | e in db.events && t in db.events[e].stock :: (e, t) := db.events[e].stock[t]
    else
      map e | e in db.events && db.events[e].legacy.Some? :: (e, 0) := db.events[e].legacy.value
  }

  /** The rows are those of the tables, one for each type or event that has stock. */
  lemma RowsAre(db: Db, k: K.RowKey)
    ensures k in Rows(db, TypeNamespace) <==> k.0 in db.events && k.1 in db.events[k.0].stock
    ensures k in Rows(db, TypeNamespace) ==> Rows(db, TypeNamespace)[k] == db.events[k.0].stock[k.1]
    ensures k in Rows(db, EventNamespace) <==> k.0 in db.events && db.events[k.0].legacy.Some? && k.1 == 0
    ensures k in Rows(db, EventNamespace) ==> Some(Rows(db, EventNamespace)[k]) == db.events[k.0].legacy
  {
  }

  /** assertSeedNamespaceInactive: only the side the active writer does not use may be seeded. */
  predicate Inactive(ns: Namespace, mode: Mode) {
    mode == if ns == TypeNamespace then Legacy else TicketType
  }

  function SeedAll(s: C.Store, ns: Namespace, rows: map<K.RowKey, Row>, keys: seq<K.RowKey>): C.Store
    requires forall k | k in keys :: k in rows
  {
    if keys == [] then s
    else
      var k := keys[|keys| - 1];
      C.Run(SeedAll(s, ns, rows, keys[..|keys| - 1]), KeyOf(ns, k), C.Init(rows[k].remaining))
  }

  datatype SeedOutcome = Refused | Seeded(processed: nat, initialized: nat)

  /** runInventoryCounterReconcile in seed mode: the barrier keeps mode and rows as read until the last write. */
  method RunSeed(db: Db, store: C.CounterStore, ns: Namespace, pageSize: int) returns (r: SeedOutcome, ghost visited: seq<K.RowKey>)
    modifies store
    ensures r.Refused? <==> (ns == TypeNamespace && db.mode == TicketType) || (ns == EventNamespace && db.mode == Legacy)
    ensures r.Refused? ==> store.View() == old(store.View())
    ensures forall k | k in visited :: k in Rows(db, ns)
    ensures r.Seeded? ==> K.Lists(visited, Rows(db, ns).Keys, None)
    ensures r.Seeded? ==> store.View() == SeedAll(old(store.View()), ns, Rows(db, ns), visited)
    ensures r.Seeded? ==> r.processed == r.initialized == |visited|
  {
    visited := [];
    if !Inactive(ns, db.mode) { return Refused, visited; }
    var rows := Rows(db, ns);
    var limit := K.BoundedPageSize(pageSize);
    var last: Option<K.RowKey> := None;
    var processed, initialized := 0, 0;
    ghost var todo := rows.Keys;
    ghost var start := store.View();
    while true
      invariant K.Visited(visited, rows.Keys, last)
      invariant todo == set k | k in rows && K.Above(k, last)
      invariant forall k | k in visited :: k in rows
      invariant store.View() == SeedAll(start, ns, rows, visited)
      invariant processed == initialized == |visited|
      decreases |todo|
    {
      var page := K.QueryPage(rows.Keys, last, limit);
      if page == [] {
        assert forall k | k in rows :: !K.Above(k, last);
        break;
      }
      K.AppendPage(visited, page, rows.Keys, last, limit);
      SeedPage(store, ns, rows, page);
      SeedJoin(start, ns, rows, visited, page);
      visited := visited + page;
      processed, initialized := processed + |page|, initialized + |page|;
      assert page[|page| - 1] in page;
      last := Some(page[|page| - 1]);
      ghost var rest := set k | k in rows && K.Above(k, last);
      assert rest < todo by { assert page[|page| - 1] in todo && page[|page| - 1] !in rest; }
      K.StrictlyFewer(rest, todo);
      todo := rest;
      if |page| < limit { break; }
    }
    r := Seeded(processed, initialized);
  }

  method SeedPage(store: C.CounterStore, ns: Namespace, rows: map<K.RowKey, Row>, page: seq<K.RowKey>)
    requires forall k | k in page :: k in rows
    modifies store
    ensures store.View() == SeedAll(old(store.View()), ns, rows, page)
  {
    for i := 0 to |page|
      invariant store.View() == SeedAll(old(store.View()), ns, rows, page[..i])
    {
      assert page[..i + 1][..i] == page[..i];
      var reply := store.RunInit(KeyOf(ns, page[i]), rows[page[i]].remaining);
    }
    assert page[..|page|] == page;
  }

  lemma {:induction false} SeedJoin(s: C.Store, ns: Namespace, rows: map<K.RowKey, Row>, a: seq<K.RowKey>, b: seq<K.RowKey>)
    requires forall k | k in a + b :: k in rows
    ensures SeedAll(s, ns, rows, a + b) == SeedAll(SeedAll(s, ns, rows, a), ns, rows, b)
  {
    if b == [] {
      assert a + b == a;
    } else {
      assert (a + b)[..|a + b| - 1] == a + b[..|b| - 1];
      SeedJoin(s, ns, rows, a, b[..|b| - 1]);
    }
  }

  /** A seed writes each listed counter once, with its row, and touches nothing else of either namespace. */
  lemma {:induction false} SeededStore(s: C.Store, ns: Namespace, rows: map<K.RowKey, Row>, keys: seq<K.RowKey>, k: C.Key)
    requires K.Ascending(keys) && forall x | x in keys :: x in rows
    requires ns == EventNamespace ==> forall x | x in keys :: x.1 == 0
    ensures var s' := SeedAll(s, ns, rows, keys);
      && (forall x | x in keys && KeyOf(ns, x) == k ::
            C.Value(s', k) == Some(rows[x].remaining) && k in s'.revisions && C.Revision(s', k) == C.Revision(s, k) + 1)
      && ((forall x | x in keys :: KeyOf(ns, x) != k) ==>
            C.Value(s', k) == C.Value(s, k) && C.Revision(s', k) == C.Revision(s, k) && (k in s'.revisions <==> k in s.revisions))
  {
    if keys != [] {
      var front, last := keys[..|keys| - 1], keys[|keys| - 1];
      assert keys == front + [last];
      SeededStore(s, ns, rows, front, k);
      DistinctCounters(ns, front, last);
      InitEffect(SeedAll(s, ns, rows, front), KeyOf(ns, last), rows[last].remaining, k);
    }
  }

  lemma DistinctCounters(ns: Namespace, front: seq<K.RowKey>, last: K.RowKey)
    requires K.Ascending(front + [last])
    requires ns == EventNamespace ==> last.1 == 0 && forall x | x in front :: x.1 == 0
    ensures forall x | x in front :: KeyOf(ns, x) != KeyOf(ns, last)
  {
    var keys := front + [last];
    forall x | x in front ensures KeyOf(ns, x) != KeyOf(ns, last) {
      var i :| 0 <= i < |front| && front[i] == x;
      assert K.Less(keys[i], keys[|front|]);
    }
  }

  lemma InitEffect(s: C.Store, key: C.Key, value: int, k: C.Key)
    ensures var s' := C.Run(s, key, C.Init(value));
      && (k == key ==> C.Value(s', k) == Some(value) && k in s'.revisions && C.Revision(s', k) == C.Revision(s, k) + 1)
      && (k != key ==> C.Value(s', k) == C.Value(s, k) && C.Revision(s', k) == C.Revision(s, k) && (k in s'.revisions <==> k in s.revisions))
  {
  }

  // --- checkCutoverValkey ---

  datatype Phase = Preflight | Postflight

  datatype Category =
    | CounterMissing | CounterValueInvalid | CounterRemainingMismatch | RevisionMissingOrInvalid | CounterWithoutRow
    | LegacyCounterMissing | LegacyCounterValueInvalid | LegacyCounterRemainingMismatch | LegacyVersionInvalid

  /** A namespace is lax only in the postflight of the mode that does not write it. */
  predicate Strict(ns: Namespace, expected: Mode, phase: Phase) {
    !(phase == Postflight && Inactive(ns, expected))
  }

  predicate ImpossibleValue(v: int, row: Row) {
    v < 0 || v > INT4_MAX || v > row.total
  }

  /** What pass 1 counts for one ticket type row. */
  function TypeRowViolations(s: C.Store, k: C.Key, row: Row, strict: bool): set<Category> {
    if k !in s.values then (if strict then {CounterMissing} else {})
    else
      (if ImpossibleValue(s.values[k], row) then {CounterValueInvalid}
       else if strict && s.values[k] != row.remaining then {CounterRemainingMismatch} else {})
      + (if strict && (k !in s.revisions || s.revisions[k] > MAX_SAFE_INTEGER) then {RevisionMissingOrInvalid} else {})
  }

  /** What pass 3 counts for one event row; the version is checked even where the counter is absent. */
  function EventRowViolations(s: C.Store, k: C.Key, row: Row, strict: bool, becomingActive: bool): set<Category> {
    (if k in s.revisions && s.revisions[k] > MAX_SAFE_INTEGER then {LegacyVersionInvalid} else {})
    + (if k !in s.values then (if becomingActive then {LegacyCounterMissing} else {})
       else if ImpossibleValue(s.values[k], row) then {LegacyCounterValueInvalid}
       else if strict && s.values[k] != row.remaining then {LegacyCounterRemainingMismatch} else {})
  }

  function RowViolations(s: C.Store, ns: Namespace, k: K.RowKey, row: Row, expected: Mode, phase: Phase): set<Category> {
    if ns == TypeNamespace then TypeRowViolations(s, KeyOf(ns, k), row, Strict(ns, expected, phase))
    else EventRowViolations(s, KeyOf(ns, k), row, Strict(ns, expected, phase), expected == TicketType && phase == Preflight)
  }

  /** The counts of a pass over the rows, by category. */
  function Counts(s: C.Store, ns: Namespace, rows: map<K.RowKey, Row>, keys: seq<K.RowKey>, expected: Mode, phase: Phase): multiset<Category>
    requires forall k | k in keys :: k in rows
  {
    if keys == [] then multiset{}
    else
      var k := keys[|keys| - 1];
      Counts(s, ns, rows, keys[..|keys| - 1], expected, phase) + multiset(RowViolations(s, ns, k, rows[k], expected, phase))
  }

  /** Type counters no stock row stands for; a SCAN is taken to return each key once. */
  function Orphans(s: C.Store, rows: map<K.RowKey, Row>): set<C.Key> {
    set k | k in s.values && k.TypeCounter? && (k.event, k.typeId) !in rows
  }

  method CountRows(s: C.Store, ns: Namespace, rows: map<K.RowKey, Row>, expected: Mode, phase: Phase, pageSize: int)
    returns (counts: multiset<Category>, visited: seq<K.RowKey>)
    ensures K.Lists(visited, rows.Keys, None) && (forall k | k in visited :: k in rows)
    ensures counts == Counts(s, ns, rows, visited, expected, phase)
  {
    counts := multiset{};
    var keys := K.VisitAll(rows.Keys, pageSize);
    visited := keys;
    for i := 0 to |keys|
      invariant forall k | k in keys :: k in rows
      invariant counts == Counts(s, ns, rows, keys[..i], expected, phase)
    {
      assert keys[..i + 1][..i] == keys[..i];
      counts := counts + multiset(RowViolations(s, ns, keys[i], rows[keys[i]], expected, phase));
    }
    assert keys[..|keys|] == keys;
  }

  /** checkCutoverValkey: the three passes. */
  method CheckCutoverValkey(db: Db, s: C.Store, expected: Mode, phase: Phase, pageSize: int)
    returns (counts: multiset<Category>, types: seq<K.RowKey>, events: seq<K.RowKey>)
    ensures K.Lists(types, Rows(db, TypeNamespace).Keys, None) && (forall k | k in types :: k in Rows(db, TypeNamespace))
    ensures K.Lists(events, Rows(db, EventNamespace).Keys, None) && (forall k | k in events :: k in Rows(db, EventNamespace))
    ensures counts == Counts(s, TypeNamespace, Rows(db, TypeNamespace), types, expected, phase)
                      + multiset{}[CounterWithoutRow := |Orphans(s, Rows(db, TypeNamespace))|]
                      + Counts(s, EventNamespace, Rows(db, EventNamespace), events, expected, phase)
  {
    counts, types := CountRows(s, TypeNamespace, Rows(db, TypeNamespace), expected, phase, pageSize);
    var orphans := Orphans(s, Rows(db, TypeNamespace));
    counts := counts + multiset{}[CounterWithoutRow := |orphans|];
    var legacy;
    legacy, events := CountRows(s, EventNamespace, Rows(db, EventNamespace), expected, phase, pageSize);
    counts := counts + legacy;
  }

  // --- What the counts say about the counters themselves ---

  /** A counter that cannot stand for the row, whatever was sold. */
  predicate OutOfRange(s: C.Store, k: C.Key, row: Row) {
    k in s.values && !(0 <= s.values[k] <= row.total && s.values[k] <= INT4_MAX)
  }

  predicate DiffersFrom(s: C.Store, k: C.Key, row: Row) {
    k in s.values && 0 <= s.values[k] <= row.total && s.values[k] <= INT4_MAX && s.values[k] != row.remaining
  }

  predicate UnsafeRevision(s: C.Store, k: C.Key) {
    k in s.revisions && s.revisions[k] > MAX_SAFE_INTEGER
  }

  /** Category by category, when a ticket type row is counted: everything but an impossible value is let pass in the legacy postflight. */
  lemma TypeRowCounts(s: C.Store, k: K.RowKey, row: Row, expected: Mode, phase: Phase)
    ensures var found := RowViolations(s, TypeNamespace, k, row, expected, phase);
      var c := C.TypeCounter(k.0, k.1);
      var lax := expected == Legacy && phase == Postflight;
      && (CounterMissing in found <==> !lax && c !in s.values)
      && (CounterValueInvalid in found <==> OutOfRange(s, c, row))
      && (CounterRemainingMismatch in found <==> !lax && DiffersFrom(s, c, row))
      && (RevisionMissingOrInvalid in found <==> !lax && c in s.values && (c !in s.revisions || UnsafeRevision(s, c)))
      && (forall x | x in found :: x in {CounterMissing, CounterValueInvalid, CounterRemainingMismatch, RevisionMissingOrInvalid})
  {
  }

  /** The same for an event row: absence counts only before a switch back to legacy, a mismatch everywhere but in the ticket_type postflight. */
  lemma EventRowCounts(s: C.Store, k: K.RowKey, row: Row, expected: Mode, phase: Phase)
    ensures var found := RowViolations(s, EventNamespace, k, row, expected, phase);
      var c := C.EventCounter(k.0);
      && (LegacyCounterMissing in found <==> expected == TicketType && phase == Preflight && c !in s.values)
      && (LegacyCounterValueInvalid in found <==> OutOfRange(s, c, row))
      && (LegacyCounterRemainingMismatch in found <==> !(expected == TicketType && phase == Postflight) && DiffersFrom(s, c, row))
      && (LegacyVersionInvalid in found <==> UnsafeRevision(s, c))
      && (forall x | x in found :: x in {LegacyCounterMissing, LegacyCounterValueInvalid, LegacyCounterRemainingMismatch, LegacyVersionInvalid})
  {
  }

  /** A category is counted as often as there are rows in that state, so in particular if and only if there is one. */
  lemma CountedIff(s: C.Store, ns: Namespace, rows: map<K.RowKey, Row>, keys: seq<K.RowKey>, expected: Mode, phase: Phase, c: Category)
    requires K.Lists(keys, rows.Keys, None) && forall k | k in keys :: k in rows
    ensures Counts(s, ns, rows, keys, expected, phase)[c] > 0 <==>
            exists k :: k in rows && c in RowViolations(s, ns, k, rows[k], expected, phase)
  {
    CountZeroIff(s, ns, rows, keys, expected, phase, c);
    forall k | k in rows ensures k in keys { assert K.Above(k, None); }
  }

  /** A type counter without a row is an orphan, and nothing else is. */
  lemma OrphanIff(s: C.Store, db: Db, k: C.Key)
    ensures k in Orphans(s, Rows(db, TypeNamespace)) <==>
      k in s.values && k.TypeCounter? && !(k.event in db.events && k.typeId in db.events[k.event].stock)
  {
  }

  /** The counter exists, shows the row, and its revision can be compared and raised. */
  predicate ReadyTypeCounter(s: C.Store, c: C.Key, row: Row) {
    c in s.values && s.values[c] == row.remaining && c in s.revisions && s.revisions[c] <= MAX_SAFE_INTEGER
  }

  /** Where it may be absent the counter is absent, otherwise it shows the row; and its version, if any, is safe. */
  predicate ReadyEventCounter(s: C.Store, c: C.Key, row: Row, mayBeAbsent: bool) {
    && (if c in s.values then s.values[c] == row.remaining else mayBeAbsent)
    && !UnsafeRevision(s, c)
  }

  /** Before a switch the checks of both namespaces find nothing exactly when every counter is ready in these terms. */
  lemma PreflightRowsIff(db: Db, s: C.Store, source: Mode)
    requires forall k | k in Rows(db, TypeNamespace) :: RowOk(Rows(db, TypeNamespace)[k])
    requires forall k | k in Rows(db, EventNamespace) :: RowOk(Rows(db, EventNamespace)[k])
    ensures (forall k | k in Rows(db, TypeNamespace) ::
               RowViolations(s, TypeNamespace, k, Rows(db, TypeNamespace)[k], source, Preflight) == {}) <==>
            (forall k | k in Rows(db, TypeNamespace) :: ReadyTypeCounter(s, C.TypeCounter(k.0, k.1), Rows(db, TypeNamespace)[k]))
    ensures (forall k | k in Rows(db, EventNamespace) ::
               RowViolations(s, EventNamespace, k, Rows(db, EventNamespace)[k], source, Preflight) == {}) <==>
            (forall k | k in Rows(db, EventNamespace) ::
               ReadyEventCounter(s, C.EventCounter(k.0), Rows(db, EventNamespace)[k], source == Legacy))
  {
    forall k | k in Rows(db, TypeNamespace)
      ensures RowViolations(s, TypeNamespace, k, Rows(db, TypeNamespace)[k], source, Preflight) == {} <==>
              ReadyTypeCounter(s, C.TypeCounter(k.0, k.1), Rows(db, TypeNamespace)[k])
    {
      TypeRowReady(s, k, Rows(db, TypeNamespace)[k], source);
    }
    forall k | k in Rows(db, EventNamespace)
      ensures RowViolations(s, EventNamespace, k, Rows(db, EventNamespace)[k], source, Preflight) == {} <==>
              ReadyEventCounter(s, C.EventCounter(k.0), Rows(db, EventNamespace)[k], source == Legacy)
    {
      EventRowReady(s, k, Rows(db, EventNamespace)[k], source);
    }
  }

  lemma TypeRowReady(s: C.Store, k: K.RowKey, row: Row, source: Mode)
    requires RowOk(row)
    ensures RowViolations(s, TypeNamespace, k, row, source, Preflight) == {} <==> ReadyTypeCounter(s, C.TypeCounter(k.0, k.1), row)
  {
    TypeRowCounts(s, k, row, source, Preflight);
    var found := RowViolations(s, TypeNamespace, k, row, source, Preflight);
    assert found == {} <==> CounterMissing !in found && CounterValueInvalid !in found
                            && CounterRemainingMismatch !in found && RevisionMissingOrInvalid !in found;
  }

  lemma EventRowReady(s: C.Store, k: K.RowKey, row: Row, source: Mode)
    requires RowOk(row)
    ensures RowViolations(s, EventNamespace, k, row, source, Preflight) == {} <==>
            ReadyEventCounter(s, C.EventCounter(k.0), row, source == Legacy)
  {
    EventRowCounts(s, k, row, source, Preflight);
    var found := RowViolations(s, EventNamespace, k, row, source, Preflight);
    assert found == {} <==> LegacyCounterMissing !in found && LegacyCounterValueInvalid !in found
                            && LegacyCounterRemainingMismatch !in found && LegacyVersionInvalid !in found;
  }

  // --- Seed, then check ---

  lemma {:induction false} CountZeroIff(s: C.Store, ns: Namespace, rows: map<K.RowKey, Row>, keys: seq<K.RowKey>, expected: Mode, phase: Phase, c: Category)
    requires forall k | k in keys :: k in rows
    ensures Counts(s, ns, rows, keys, expected, phase)[c] == 0 <==>
            forall k | k in keys :: c !in RowViolations(s, ns, k, rows[k], expected, phase)
  {
    if keys != [] {
      var front, last := keys[..|keys| - 1], keys[|keys| - 1];
      assert keys == front + [last];
      CountZeroIff(s, ns, rows, front, expected, phase, c);
      var found := RowViolations(s, ns, last, rows[last], expected, phase);
      assert Counts(s, ns, rows, keys, expected, phase)[c] == Counts(s, ns, rows, front, expected, phase)[c] + multiset(found)[c];
      assert multiset(found)[c] == 0 <==> c !in found;
      assert forall k :: k in keys <==> k in front || k == last;
    }
  }

  /** What is counted for a row right after its seed. */
  lemma SeededRow(s: C.Store, ns: Namespace, rows: map<K.RowKey, Row>, keys: seq<K.RowKey>, k: K.RowKey, expected: Mode, phase: Phase, c: Category)
    requires K.Ascending(keys) && (forall x | x in keys :: x in rows) && k in keys && RowOk(rows[k])
    requires ns == EventNamespace ==> forall x | x in keys :: x.1 == 0
    ensures c in RowViolations(SeedAll(s, ns, rows, keys), ns, k, rows[k], expected, phase) <==>
      && C.Revision(s, KeyOf(ns, k)) + 1 > MAX_SAFE_INTEGER
      && ((ns == TypeNamespace && c == RevisionMissingOrInvalid && Strict(ns, expected, phase))
          || (ns == EventNamespace && c == LegacyVersionInvalid))
  {
    SeededStore(s, ns, rows, keys, KeyOf(ns, k));
  }

  lemma SeededCount(db: Db, s: C.Store, ns: Namespace, seeded: seq<K.RowKey>, checked: seq<K.RowKey>, expected: Mode, phase: Phase, c: Category)
    requires K.Lists(seeded, Rows(db, ns).Keys, None) && K.Lists(checked, Rows(db, ns).Keys, None)
    requires (forall k | k in seeded :: k in Rows(db, ns)) && forall k | k in checked :: k in Rows(db, ns)
    requires forall k | k in Rows(db, ns) :: RowOk(Rows(db, ns)[k])
    ensures Counts(SeedAll(s, ns, Rows(db, ns), seeded), ns, Rows(db, ns), checked, expected, phase)[c] == 0 <==>
      ((c == if ns == TypeNamespace then RevisionMissingOrInvalid else LegacyVersionInvalid)
       && (ns == TypeNamespace ==> Strict(ns, expected, phase))
       ==> SafeRevisions(db, s, ns))
  {
    var rows := Rows(db, ns);
    var s' := SeedAll(s, ns, rows, seeded);
    CountZeroIff(s', ns, rows, checked, expected, phase, c);
    forall k | k in rows ensures k in seeded && k in checked {
      assert K.Above(k, None);
    }
    forall k | k in checked
      ensures c in RowViolations(s', ns, k, rows[k], expected, phase) <==>
        && C.Revision(s, KeyOf(ns, k)) + 1 > MAX_SAFE_INTEGER
        && ((ns == TypeNamespace && c == RevisionMissingOrInvalid && Strict(ns, expected, phase))
            || (ns == EventNamespace && c == LegacyVersionInvalid))
    {
      SeededRow(s, ns, rows, seeded, k, expected, phase, c);
    }
  }

  /** No counter of the namespace had reached the largest safe integer before. */
  ghost predicate SafeRevisions(db: Db, s: C.Store, ns: Namespace) {
    forall k | k in Rows(db, ns) :: C.Revision(s, KeyOf(ns, k)) + 1 <= MAX_SAFE_INTEGER
  }

  ghost predicate NothingCounted(s: C.Store, db: Db, ns: Namespace, checked: seq<K.RowKey>, expected: Mode, phase: Phase)
    requires forall k | k in checked :: k in Rows(db, ns)
  {
    forall c :: Counts(s, ns, Rows(db, ns), checked, expected, phase)[c] == 0
  }

  /**
   After seeding a namespace, a check of the same database state in any mode and phase counts nothing missing, invalid or
   mismatched in that namespace; and, where it is strict, nothing at all exactly when the revisions were safe.
   */
  lemma SeedThenCheckClean(db: Db, s: C.Store, ns: Namespace, seeded: seq<K.RowKey>, checked: seq<K.RowKey>, expected: Mode, phase: Phase)
    requires K.Lists(seeded, Rows(db, ns).Keys, None) && K.Lists(checked, Rows(db, ns).Keys, None)
    requires (forall k | k in seeded :: k in Rows(db, ns)) && forall k | k in checked :: k in Rows(db, ns)
    requires forall k | k in Rows(db, ns) :: RowOk(Rows(db, ns)[k])
    ensures var s' := SeedAll(s, ns, Rows(db, ns), seeded);
      && (forall c | c != RevisionMissingOrInvalid && c != LegacyVersionInvalid :: Counts(s', ns, Rows(db, ns), checked, expected, phase)[c] == 0)
      && (Strict(ns, expected, phase) ==> (NothingCounted(s', db, ns, checked, expected, phase) <==> SafeRevisions(db, s, ns)))
  {
    var s' := SeedAll(s, ns, Rows(db, ns), seeded);
    forall c
      ensures Counts(s', ns, Rows(db, ns), checked, expected, phase)[c] == 0 <==>
        ((c == if ns == TypeNamespace then RevisionMissingOrInvalid else LegacyVersionInvalid)
         && (ns == TypeNamespace ==> Strict(ns, expected, phase))
         ==> SafeRevisions(db, s, ns))
    {
      SeededCount(db, s, ns, seeded, checked, expected, phase, c);
    }
    var bad := if ns == TypeNamespace then RevisionMissingOrInvalid else LegacyVersionInvalid;
    assert Counts(s', ns, Rows(db, ns), checked, expected, phase)[bad] == 0 <==>
           ((ns == TypeNamespace ==> Strict(ns, expected, phase)) ==> SafeRevisions(db, s, ns));
  }

  /** Seeding the inactive namespace leaves every counter of the active one alone. */
  lemma SeedSparesTheActive(db: Db, s: C.Store, ns: Namespace, seeded: seq<K.RowKey>, k: C.Key)
    requires K.Lists(seeded, Rows(db, ns).Keys, None) && forall x | x in seeded :: x in Rows(db, ns)
    requires k.EventCounter? <==> ns == TypeNamespace
    ensures C.Value(SeedAll(s, ns, Rows(db, ns), seeded), k) == C.Value(s, k)
    ensures C.Revision(SeedAll(s, ns, Rows(db, ns), seeded), k) == C.Revision(s, k)
  {
    SeededStore(s, ns, Rows(db, ns), seeded, k);
  }

  // --- Reconcile ---

  /** One target: what others do to the counters while the row is read afresh, and the row, if it still exists. */
  datatype Target = Target(key: C.Key, reread: Option<int>, meanwhile: seq<C.Call>)

  datatype Reconciled = Reconciled(store: C.Store, synced: nat, skipped: nat)

  function ReconcileOne(s: C.Store, t: Target): (C.Store, bool) {
    var later := C.RunAll(s, t.meanwhile);
    if t.reread.None? then (later, false)
    else
      var script := C.GuardedSync(t.reread.value, C.Revision(s, t.key));
      (C.Run(later, t.key, script), C.ReplyTo(later, t.key, script).Done?)
  }

  function ReconcileAll(s: C.Store, targets: seq<Target>): Reconciled {
    if targets == [] then Reconciled(s, 0, 0)
    else
      var before := ReconcileAll(s, targets[..|targets| - 1]);
      var (after, done) := ReconcileOne(before.store, targets[|targets| - 1]);
      Reconciled(after, before.synced + (if done then 1 else 0), before.skipped + (if done then 0 else 1))
  }

  /** The remaining quantity of a row, if it is still there. */
  function RemainingIn(db: Db, ns: Namespace, k: K.RowKey): Option<int> {
    if k in Rows(db, ns) then Some(Rows(db, ns)[k].remaining) else None
  }

  /** The i-th row listed is reread from the state `world(i)`, while others run the scripts `between(i)`. */
  function TargetsOf(ns: Namespace, keys: seq<K.RowKey>, world: nat -> Db, between: nat -> seq<C.Call>): (ts: seq<Target>)
    ensures |ts| == |keys|
  {
    seq(|keys|, i requires 0 <= i < |keys| => Target(KeyOf(ns, keys[i]), RemainingIn(world(i), ns, keys[i]), between(i)))
  }

  /**
   runInventoryCounterReconcile in reconcile mode: the rows of the namespace are listed from one snapshot, each once and in
   key order, and then corrected one by one against the tables and counters as they are by then.
   */
  method RunReconcile(
    snapshot: Db, store: C.CounterStore, ns: Namespace, pageSize: int, world: nat -> Db, between: nat -> seq<C.Call>)
    returns (processed: nat, synced: nat, skipped: nat, visited: seq<K.RowKey>)
    modifies store
    ensures K.Lists(visited, Rows(snapshot, ns).Keys, None)
    ensures Reconciled(store.View(), synced, skipped) == ReconcileAll(old(store.View()), TargetsOf(ns, visited, world, between))
    ensures processed == |visited| == synced + skipped
  {
    visited := K.VisitAll(Rows(snapshot, ns).Keys, pageSize);
    processed := |visited|;
    ghost var start := store.View();
    synced, skipped := ReconcileTargets(store, TargetsOf(ns, visited, world, between));
    ReconcileCounts(start, TargetsOf(ns, visited, world, between));
  }

  method ReconcileTargets(store: C.CounterStore, targets: seq<Target>) returns (synced: nat, skipped: nat)
    modifies store
    ensures Reconciled(store.View(), synced, skipped) == ReconcileAll(old(store.View()), targets)
  {
    synced, skipped := 0, 0;
    for i := 0 to |targets|
      invariant Reconciled(store.View(), synced, skipped) == ReconcileAll(old(store.View()), targets[..i])
    {
      assert targets[..i + 1][..i] == targets[..i];
      var t := targets[i];
      var expected := store.GetRevision(t.key);
      Interfere(store, t.meanwhile);
      if t.reread.None? {
        skipped := skipped + 1;
      } else {
        var reply := store.RunSync(t.key, t.reread.value, expected, true);
        if reply.Done? { synced := synced + 1; } else { skipped := skipped + 1; }
      }
    }
    assert targets[..|targets|] == targets;
  }

  /** The scripts of other clients. */
  method Interfere(store: C.CounterStore, calls: seq<C.Call>)
    modifies store
    ensures store.View() == C.RunAll(old(store.View()), calls)
  {
    var s := C.RunAll(C.Store(store.values, store.revisions), calls);
    store.values, store.revisions := s.values, s.revisions;
  }

  /** The row is still there, and its counter exists and was written by nobody since its revision was noted. */
  ghost predicate InSync(s: C.Store, t: Target) {
    t.reread.Some? && t.key in s.values && C.Untouched(s, t.meanwhile, t.key)
  }

  /** Every target is synced, and its counter then shows the row, or it is skipped, and reconciling does nothing. */
  lemma {:induction false} ReconcileCounts(s: C.Store, targets: seq<Target>)
    ensures var r := ReconcileAll(s, targets); r.synced + r.skipped == |targets|
    ensures targets != [] ==>
      var r, front, t := ReconcileAll(s, targets), ReconcileAll(s, targets[..|targets| - 1]), targets[|targets| - 1];
      if InSync(front.store, t) then r.synced == front.synced + 1 && C.Value(r.store, t.key) == t.reread
      else r.skipped == front.skipped + 1 && r.store == C.RunAll(front.store, t.meanwhile)
  {
    if targets != [] {
      var front, t := ReconcileAll(s, targets[..|targets| - 1]), targets[|targets| - 1];
      ReconcileCounts(s, targets[..|targets| - 1]);
      if t.reread.Some? { C.SyncWritesIff(front.store, t.meanwhile, t.key, t.reread.value); }
    }
  }

  /** Reconciling by itself creates no counter: a key present afterwards was there, or another client wrote it. */
  lemma {:induction false} ReconcileCreatesNoKey(s: C.Store, targets: seq<Target>, k: C.Key)
    requires k in ReconcileAll(s, targets).store.values && k !in s.values
    ensures exists i, j :: 0 <= i < |targets| && 0 <= j < |targets[i].meanwhile| && targets[i].meanwhile[j].key == k
  {
    if targets != [] {
      var front, t := targets[..|targets| - 1], targets[|targets| - 1];
      var before := ReconcileAll(s, front).store;
      if k in before.values {
        ReconcileCreatesNoKey(s, front, k);
        var i, j :| 0 <= i < |front| && 0 <= j < |front[i].meanwhile| && front[i].meanwhile[j].key == k;
        assert targets[i].meanwhile[j].key == k;
      } else {
        assert k in C.RunAll(before, t.meanwhile).values;
        var j := CallsCreate(before, t.meanwhile, k);
        assert targets[|front|].meanwhile[j].key == k;
      }
    }
  }

  lemma {:induction false} CallsCreate(s: C.Store, calls: seq<C.Call>, k: C.Key) returns (j: nat)
    requires k !in s.values && k in C.RunAll(s, calls).values
    ensures j < |calls| && calls[j].key == k
    decreases |calls|
  {
    if calls[0].key == k {
      j := 0;
    } else {
      j := CallsCreate(C.Run(s, calls[0].key, calls[0].script), calls[1..], k);
      j := j + 1;
    }
  }

  // --- What an undisturbed reconcile leaves ---

  /** Nobody else runs a script, and the tables stand still. */
  function Undisturbed(ns: Namespace, keys: seq<K.RowKey>, db: Db): seq<Target> {
    TargetsOf(ns, keys, (_: nat) => db, (_: nat) => [])
  }

  lemma UndisturbedNext(ns: Namespace, front: seq<K.RowKey>, last: K.RowKey, db: Db)
    ensures Undisturbed(ns, front + [last], db) == Undisturbed(ns, front, db) + [Target(KeyOf(ns, last), RemainingIn(db, ns, last), [])]
  {
  }

  lemma SyncEffect(s: C.Store, key: C.Key, reread: Option<int>, k: C.Key)
    ensures var s' := ReconcileOne(s, Target(key, reread, [])).0;
      && (k in s'.values <==> k in s.values)
      && C.Value(s', k) == (if k == key && k in s.values && reread.Some? then reread else C.Value(s, k))
  {
    assert C.RunAll(s, []) == s;
  }

  lemma {:induction false} UndisturbedReconcile(s: C.Store, ns: Namespace, keys: seq<K.RowKey>, db: Db, k: C.Key)
    requires K.Ascending(keys) && forall x | x in keys :: x in Rows(db, ns)
    requires ns == EventNamespace ==> forall x | x in keys :: x.1 == 0
    ensures var s' := ReconcileAll(s, Undisturbed(ns, keys, db)).store;
      && (k in s'.values <==> k in s.values)
      && (forall x | x in keys && KeyOf(ns, x) == k && k in s.values :: C.Value(s', k) == Some(Rows(db, ns)[x].remaining))
      && ((forall x | x in keys :: KeyOf(ns, x) != k) ==> C.Value(s', k) == C.Value(s, k))
  {
    if keys != [] {
      var front, last := keys[..|keys| - 1], keys[|keys| - 1];
      assert keys == front + [last];
      UndisturbedReconcile(s, ns, front, db, k);
      UndisturbedLast(s, ns, front, last, db);
      DistinctCounters(ns, front, last);
      SyncEffect(ReconcileAll(s, Undisturbed(ns, front, db)).store, KeyOf(ns, last), RemainingIn(db, ns, last), k);
    }
  }

  lemma UndisturbedLast(s: C.Store, ns: Namespace, front: seq<K.RowKey>, last: K.RowKey, db: Db)
    ensures ReconcileAll(s, Undisturbed(ns, front + [last], db)).store ==
      ReconcileOne(ReconcileAll(s, Undisturbed(ns, front, db)).store, Target(KeyOf(ns, last), RemainingIn(db, ns, last), [])).0
  {
    UndisturbedNext(ns, front, last, db);
    var ts := Undisturbed(ns, front + [last], db);
    assert ts[..|ts| - 1] == Undisturbed(ns, front, db);
  }

  /**
   An undisturbed reconcile makes every counter of the namespace that exists equal to its row, creates none, and leaves
   every counter of the other namespace alone.
   */
  lemma ReconcileCorrects(db: Db, s: C.Store, ns: Namespace, visited: seq<K.RowKey>)
    requires K.Lists(visited, Rows(db, ns).Keys, None)
    ensures var s' := ReconcileAll(s, Undisturbed(ns, visited, db)).store;
      && s'.values.Keys == s.values.Keys
      && (forall x | x in Rows(db, ns) && KeyOf(ns, x) in s.values :: C.Value(s', KeyOf(ns, x)) == Some(Rows(db, ns)[x].remaining))
      && (forall k: C.Key | k.EventCounter? <==> ns == TypeNamespace :: C.Value(s', k) == C.Value(s, k))
  {
    var s' := ReconcileAll(s, Undisturbed(ns, visited, db)).store;
    forall k ensures k in s'.values <==> k in s.values {
      UndisturbedReconcile(s, ns, visited, db, k);
    }
    forall x | x in Rows(db, ns) && KeyOf(ns, x) in s.values ensures C.Value(s', KeyOf(ns, x)) == Some(Rows(db, ns)[x].remaining) {
      assert K.Above(x, None);
      UndisturbedReconcile(s, ns, visited, db, KeyOf(ns, x));
    }
    forall k: C.Key | k.EventCounter? <==> ns == TypeNamespace ensures C.Value(s', k) == C.Value(s, k) {
      UndisturbedReconcile(s, ns, visited, db, k);
    }
  }
}
