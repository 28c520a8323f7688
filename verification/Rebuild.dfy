/** Rebuilding the projection from a snapshot, and what a reconciliation finds afterwards. */
module Rebuild {
  import opened Common
  import opened InventoryMessages
  import opened Projection
  import opened Confluence
  import opened Reconciliation

  function PayloadOf(s: Snapshot, r: TypeRow): Change {
    Change(s.event, r.id, r.name, r.total, r.remaining, r.version, s.total, s.remaining, s.version)
  }

  function CoordinateOf(x: Option<real>): Coordinate {
    if x.Some? then Finite(x.value) else Null
  }

  function MetadataOf(s: Snapshot): Metadata {
    Metadata(s.event, Some(s.title), Some(s.kind), Instant(s.startsAt), CoordinateOf(s.lat), CoordinateOf(s.lon),
             Some(s.total), Some(s.remaining))
  }

  function Payloads(s: Snapshot, rows: seq<TypeRow>): (ops: seq<Op>)
    ensures |ops| == |rows|
  {
    seq(|rows|, i requires 0 <= i < |rows| => Inventory(PayloadOf(s, rows[i])))
  }

  /** The updates a rebuild sends for one event: metadata, then one guarded update per type. */
  function RebuildOps(s: Snapshot): seq<Op> {
    [Describe(MetadataOf(s))] + Payloads(s, s.types)
  }

  // --- One event ---

  /** The entry of a type after a guarded update that did not throw. */
  function Merged(stored: Option<Entry>, c: Change): Option<Entry> {
    if stored.Some? && stored.value.version.Some? && stored.value.version.value > c.typeVersion then stored
    else Some(EntryOf(c))
  }

  function MergedEvent(doc: Doc, s: Snapshot): (Option<int>, Option<int>, Option<int>) {
    if doc.eventVersion.Some? && doc.eventVersion.value > s.version
    then (doc.eventVersion, doc.eventTotal, doc.eventRemaining)
    else (Some(s.version), Some(s.total), Some(s.remaining))
  }

  /** `end` is `doc` after the guarded updates of `rows`. */
  ghost predicate Received(doc: Doc, end: Doc, s: Snapshot, rows: seq<TypeRow>) {
    && WellFormedTypes(TypesOf(end))
    && SameMetadata(doc, end)
    && (forall r | r in rows :: Lookup(end, r.id) == Merged(Lookup(doc, r.id), PayloadOf(s, r)))
    && (forall t | t !in RowIds(rows) :: Lookup(end, t) == Lookup(doc, t))
    && (rows == [] ==> end == doc)
    && (rows != [] ==> end.types.Some? && (end.eventVersion, end.eventTotal, end.eventRemaining) == MergedEvent(doc, s))
  }

  lemma GuardReceives(doc: Doc, s: Snapshot, r: TypeRow)
    requires WellFormedTypes(TypesOf(doc)) && !Guard(doc, PayloadOf(s, r)).Threw?
    ensures var end := After(doc, Guard(doc, PayloadOf(s, r)));
      && WellFormedTypes(TypesOf(end)) && SameMetadata(doc, end) && end.types.Some?
      && Lookup(end, r.id) == Merged(Lookup(doc, r.id), PayloadOf(s, r))
      && (forall t | t != r.id :: Lookup(end, t) == Lookup(doc, t))
      && (end.eventVersion, end.eventTotal, end.eventRemaining) == MergedEvent(doc, s)
  {
    var c := PayloadOf(s, r);
    var effect := GuardTypes(TypesOf(doc), c);
    GuardTypesReceive(TypesOf(doc), c);
    var end := After(doc, Guard(doc, c));
    assert TypesOf(end) == if effect.TypesWritten? then effect.types else TypesOf(doc);
  }

  lemma GuardTypesReceive(types: seq<Entry>, c: Change)
    requires WellFormedTypes(types) && !GuardTypes(types, c).TypesThrew?
    ensures var r := GuardTypes(types, c);
      var types' := if r.TypesWritten? then r.types else types;
      && WellFormedTypes(types')
      && (r.TypesKept? ==> types != [])
      && Find(types', c.typeId) == Merged(Find(types, c.typeId), c)
      && forall t | t != c.typeId :: Find(types', t) == Find(types, t)
  {
    var r := GuardTypes(types, c);
    var types' := if r.TypesWritten? then r.types else types;
    var i := IndexOf(types, c.typeId);
    assert WellFormedTypes(types');
    IndexUnique(types', i, c.typeId);
    forall t | t != c.typeId ensures Find(types', t) == Find(types, t) {
      var j := IndexOf(types, t);
      if j < |types| { IndexUnique(types', j, t); }
    }
  }

  lemma {:induction false} PayloadsReceived(doc: Doc, s: Snapshot, rows: seq<TypeRow>)
    requires WellFormedTypes(TypesOf(doc)) && DistinctIds(rows)
    requires NeverCorrupt(doc, s.event, Payloads(s, rows))
    ensures Received(doc, Deliver(doc, s.event, Payloads(s, rows)), s, rows)
  {
    if rows != [] {
      var front, last := rows[..|rows| - 1], rows[|rows| - 1];
      var ops := Payloads(s, rows);
      assert rows == front + [last];
      assert ops[..|front|] == Payloads(s, front);
      PrefixNeverCorrupt(doc, s.event, ops, |front|);
      PayloadsReceived(doc, s, front);
      var mid := Deliver(doc, s.event, Payloads(s, front));
      assert ops[|front|].Inventory? && ops[|front|].change == PayloadOf(s, last);
      assert !Guard(mid, PayloadOf(s, last)).Threw?;
      GuardReceives(mid, s, last);
      ReceivedOneMore(doc, mid, Deliver(doc, s.event, ops), s, front, last);
    }
  }

  predicate DistinctIds(rows: seq<TypeRow>) {
    forall i, j | 0 <= i < j < |rows| :: rows[i].id != rows[j].id
  }

  lemma PrefixNeverCorrupt(doc: Doc, event: EventId, ops: seq<Op>, n: nat)
    requires n <= |ops| && NeverCorrupt(doc, event, ops)
    ensures NeverCorrupt(doc, event, ops[..n])
  {
    forall k | 0 <= k < n && ops[..n][k].Inventory?
      ensures !Guard(Deliver(doc, event, ops[..n][..k]), ops[..n][k].change).Threw?
    {
      assert ops[..n][..k] == ops[..k] && ops[..n][k] == ops[k];
    }
  }

  lemma ReceivedOneMore(doc: Doc, mid: Doc, end: Doc, s: Snapshot, front: seq<TypeRow>, last: TypeRow)
    requires Received(doc, mid, s, front) && DistinctIds(front + [last])
    requires WellFormedTypes(TypesOf(end)) && SameMetadata(mid, end) && end.types.Some?
    requires Lookup(end, last.id) == Merged(Lookup(mid, last.id), PayloadOf(s, last))
    requires forall t | t != last.id :: Lookup(end, t) == Lookup(mid, t)
    requires (end.eventVersion, end.eventTotal, end.eventRemaining) == MergedEvent(mid, s)
    ensures Received(doc, end, s, front + [last])
  {
    LastIsNew(front, last);
    assert RowIds(front + [last]) == RowIds(front) + {last.id};
  }

  lemma LastIsNew(front: seq<TypeRow>, last: TypeRow)
    requires DistinctIds(front + [last])
    ensures last.id !in RowIds(front)
  {
    forall r | r in front ensures r.id != last.id {
      var i :| 0 <= i < |front| && front[i] == r;
      assert (front + [last])[i].id != (front + [last])[|front|].id;
    }
  }

  // --- When a rebuild converges ---

  /** What is stored is older than the snapshot, or says the same. */
  predicate RowFits(doc: Doc, r: TypeRow) {
    var e := Lookup(doc, r.id);
    e.None? || (e.value.version.Some? && (e.value.version.value < r.version || EntryShows(e.value, r)))
  }

  predicate EventFits(doc: Doc, s: Snapshot) {
    doc.eventVersion.None? || doc.eventVersion.value < s.version
    || (doc.eventVersion, doc.eventTotal, doc.eventRemaining) == (Some(s.version), Some(s.total), Some(s.remaining))
  }

  /** Weaker: stored and snapshot do not contradict each other at an equal version; the stored side may be newer. */
  predicate RowCompatible(doc: Doc, r: TypeRow) {
    var e := Lookup(doc, r.id);
    e.None? || (e.value.version.Some? && (e.value.version != Some(r.version) || EntryShows(e.value, r)))
  }

  predicate EventCompatible(doc: Doc, s: Snapshot) {
    doc.eventVersion != Some(s.version) || (doc.eventTotal, doc.eventRemaining) == (Some(s.total), Some(s.remaining))
  }

  ghost predicate Compatible(s: Snapshot, doc: Doc) {
    EventCompatible(doc, s) && forall r | r in s.types :: RowCompatible(doc, r)
  }

  ghost predicate Rebuildable(s: Snapshot, doc: Doc) {
    && (s.lat.Some? <==> s.lon.Some?)
    && EventFits(doc, s)
    && (forall r | r in s.types :: RowFits(doc, r))
    && (forall t | Lookup(doc, t).Some? :: t in RowIds(s.types))
  }

  /** A compatible document is not corrupted by any payload, in the order the rebuild sends them. */
  lemma {:induction false} CompatibleNeverCorrupt(doc: Doc, s: Snapshot, rows: seq<TypeRow>)
    requires WellFormedTypes(TypesOf(doc)) && DistinctIds(rows)
    requires EventCompatible(doc, s) && forall r | r in rows :: RowCompatible(doc, r)
    ensures NeverCorrupt(doc, s.event, Payloads(s, rows))
  {
    if rows != [] {
      var front, last := rows[..|rows| - 1], rows[|rows| - 1];
      assert rows == front + [last];
      CompatibleNeverCorrupt(doc, s, front);
      assert last in rows;
      OneMorePayload(doc, s, front, last);
    }
  }

  lemma OneMorePayload(doc: Doc, s: Snapshot, front: seq<TypeRow>, last: TypeRow)
    requires WellFormedTypes(TypesOf(doc)) && DistinctIds(front + [last]) && DistinctIds(front)
    requires EventCompatible(doc, s) && RowCompatible(doc, last)
    requires NeverCorrupt(doc, s.event, Payloads(s, front))
    ensures NeverCorrupt(doc, s.event, Payloads(s, front + [last]))
  {
    PayloadsReceived(doc, s, front);
    LastIsNew(front, last);
    CompatiblePayload(doc, Deliver(doc, s.event, Payloads(s, front)), s, front, last);
    assert Payloads(s, front + [last]) == Payloads(s, front) + [Inventory(PayloadOf(s, last))];
    NeverCorruptExtends(doc, s.event, Payloads(s, front), Inventory(PayloadOf(s, last)));
  }

  lemma CompatiblePayload(doc: Doc, mid: Doc, s: Snapshot, front: seq<TypeRow>, last: TypeRow)
    requires Received(doc, mid, s, front) && last.id !in RowIds(front)
    requires EventCompatible(doc, s) && RowCompatible(doc, last)
    ensures !Guard(mid, PayloadOf(s, last)).Threw?
  {
    CorruptionIff(mid, PayloadOf(s, last));
  }

  /** Conversely, payloads that raised no corruption met a compatible document. */
  lemma NeverCorruptCompatible(doc: Doc, s: Snapshot)
    requires WellFormedTypes(TypesOf(doc)) && DistinctIds(s.types) && s.types != []
    requires NeverCorrupt(doc, s.event, Payloads(s, s.types))
    ensures Compatible(s, doc)
  {
    var ops := Payloads(s, s.types);
    forall r | r in s.types ensures RowCompatible(doc, r) {
      var k :| 0 <= k < |s.types| && s.types[k] == r;
      RowCompatibleAt(doc, s, k);
    }
    assert ops[..0] == [] && ops[0].Inventory?;
    CorruptionIff(doc, ops[0].change);
  }

  lemma RowCompatibleAt(doc: Doc, s: Snapshot, k: nat)
    requires WellFormedTypes(TypesOf(doc)) && DistinctIds(s.types) && k < |s.types|
    requires NeverCorrupt(doc, s.event, Payloads(s, s.types))
    ensures RowCompatible(doc, s.types[k])
  {
    var ops := Payloads(s, s.types);
    var mid := Deliver(doc, s.event, ops[..k]);
    BeforeRow(doc, s, k);
    assert ops[k].Inventory?;
    assert !Guard(mid, ops[k].change).Threw?;
    NotThrownCompatible(doc, mid, s, s.types[k]);
  }

  /** The payloads before a row leave its entry alone. */
  lemma BeforeRow(doc: Doc, s: Snapshot, k: nat)
    requires WellFormedTypes(TypesOf(doc)) && DistinctIds(s.types) && k < |s.types|
    requires NeverCorrupt(doc, s.event, Payloads(s, s.types))
    ensures var mid := Deliver(doc, s.event, Payloads(s, s.types)[..k]);
      WellFormedTypes(TypesOf(mid)) && Lookup(mid, s.types[k].id) == Lookup(doc, s.types[k].id)
  {
    var front := s.types[..k];
    PayloadsPrefix(doc, s, k);
    FrontIsDistinct(s.types, k);
    PayloadsReceived(doc, s, front);
    OthersUntouched(doc, Deliver(doc, s.event, Payloads(s, front)), s, front, s.types[k].id);
  }

  lemma FrontIsDistinct(rows: seq<TypeRow>, k: nat)
    requires DistinctIds(rows) && k < |rows|
    ensures DistinctIds(rows[..k]) && rows[k].id !in RowIds(rows[..k])
  {
    assert rows[..k] + [rows[k]] == rows[..k + 1];
    LastIsNew(rows[..k], rows[k]);
  }

  lemma PayloadsPrefix(doc: Doc, s: Snapshot, k: nat)
    requires k <= |s.types| && NeverCorrupt(doc, s.event, Payloads(s, s.types))
    ensures Payloads(s, s.types)[..k] == Payloads(s, s.types[..k])
    ensures NeverCorrupt(doc, s.event, Payloads(s, s.types[..k]))
  {
    assert Payloads(s, s.types)[..k] == Payloads(s, s.types[..k]);
    PrefixNeverCorrupt(doc, s.event, Payloads(s, s.types), k);
  }

  lemma OthersUntouched(doc: Doc, end: Doc, s: Snapshot, rows: seq<TypeRow>, t: TypeId)
    requires Received(doc, end, s, rows) && t !in RowIds(rows)
    ensures WellFormedTypes(TypesOf(end)) && Lookup(end, t) == Lookup(doc, t)
  {
  }

  lemma NotThrownCompatible(doc: Doc, mid: Doc, s: Snapshot, r: TypeRow)
    requires WellFormedTypes(TypesOf(doc)) && WellFormedTypes(TypesOf(mid))
    requires Lookup(mid, r.id) == Lookup(doc, r.id) && !Guard(mid, PayloadOf(s, r)).Threw?
    ensures RowCompatible(doc, r)
  {
    CorruptionIff(mid, PayloadOf(s, r));
  }

  /** Payloads that left every row and the event as the snapshot has them met nothing newer and nothing unexpected. */
  lemma ReceivedFits(doc: Doc, s: Snapshot)
    requires WellFormedTypes(TypesOf(doc)) && DistinctIds(s.types) && s.types != []
    requires NeverCorrupt(doc, s.event, Payloads(s, s.types))
    requires Agrees(s, Deliver(doc, s.event, Payloads(s, s.types)))
    ensures EventFits(doc, s) && forall r | r in s.types :: RowFits(doc, r)
    ensures forall t | Lookup(doc, t).Some? :: t in RowIds(s.types)
  {
    PayloadsReceived(doc, s, s.types);
    NeverCorruptCompatible(doc, s);
    AgreedFits(doc, Deliver(doc, s.event, Payloads(s, s.types)), s);
  }

  lemma AgreedFits(doc: Doc, end: Doc, s: Snapshot)
    requires Received(doc, end, s, s.types) && Compatible(s, doc) && Agrees(s, end) && s.types != []
    ensures EventFits(doc, s) && forall r | r in s.types :: RowFits(doc, r)
    ensures forall t | Lookup(doc, t).Some? :: t in RowIds(s.types)
  {
    TypeMapIsLookup(TypesOf(end));
    forall r | r in s.types ensures RowFits(doc, r) {
      assert RowCompatible(doc, r);
      MergedFits(doc, end, s, r);
    }
    forall t | Lookup(doc, t).Some? ensures t in RowIds(s.types) {
      assert t !in RowIds(s.types) ==> Lookup(end, t) == Lookup(doc, t);
    }
  }

  lemma MergedFits(doc: Doc, end: Doc, s: Snapshot, r: TypeRow)
    requires RowCompatible(doc, r) && Lookup(end, r.id) == Merged(Lookup(doc, r.id), PayloadOf(s, r))
    requires EntryShows(Lookup(end, r.id).value, r)
    ensures RowFits(doc, r)
  {
  }

  /** The metadata update alone. */
  function Described(s: Snapshot, doc: Doc): Doc {
    After(doc, ApplyMetadata(doc, MetadataOf(s)))
  }

  lemma DescribedMatches(s: Snapshot, doc: Doc)
    ensures ApplyMetadata(doc, MetadataOf(s)).Threw? <==> s.lat.Some? != s.lon.Some?
    ensures !ApplyMetadata(doc, MetadataOf(s)).Threw? ==> MetadataMatches(s, Described(s, doc))
    ensures Described(s, doc).types == doc.types && Described(s, doc).eventVersion == doc.eventVersion
    ensures Described(s, doc).eventTotal == doc.eventTotal && Described(s, doc).eventRemaining == doc.eventRemaining
    ensures forall t :: Lookup(Described(s, doc), t) == Lookup(doc, t)
  {
  }

  lemma {:induction false} DeliverJoin(doc: Doc, event: EventId, a: seq<Op>, b: seq<Op>)
    ensures Deliver(doc, event, a + b) == Deliver(Deliver(doc, event, a), event, b)
  {
    if b == [] {
      assert a + b == a;
    } else {
      assert (a + b)[..|a + b| - 1] == a + b[..|b| - 1];
      DeliverJoin(doc, event, a, b[..|b| - 1]);
    }
  }

  /** No update of a rebuild of the event threw. */
  ghost predicate RebuildSucceeds(s: Snapshot, doc: Doc) {
    !ApplyMetadata(doc, MetadataOf(s)).Threw? && NeverCorrupt(Described(s, doc), s.event, Payloads(s, s.types))
  }

  lemma RebuildDelivers(s: Snapshot, doc: Doc)
    ensures Deliver(doc, s.event, RebuildOps(s)) == Deliver(Described(s, doc), s.event, Payloads(s, s.types))
  {
    var m := [Describe(MetadataOf(s))];
    DeliverJoin(doc, s.event, m, Payloads(s, s.types));
    assert m[..0] == [];
    assert Deliver(doc, s.event, m) == Described(s, doc);
  }

  /**
   Rebuild, then reconcile: the rebuild succeeds and the comparison is clean exactly when the document held no
   unexpected type, nothing newer than the snapshot, nothing different at an equal version, and the event has
   both coordinates or none.
   */
  lemma RebuildThenCompareClean(s: Snapshot, doc: Doc)
    requires SnapshotOk(s) && s.types != [] && WellFormedTypes(TypesOf(doc))
    ensures RebuildSucceeds(s, doc) && Compare(s, Deliver(doc, s.event, RebuildOps(s))) == multiset{}
            <==> Rebuildable(s, doc)
  {
    RebuildDelivers(s, doc);
    CleanIff(s, Deliver(doc, s.event, RebuildOps(s)));
    if RebuildSucceeds(s, doc) && Agrees(s, Deliver(doc, s.event, RebuildOps(s))) { CleanWasRebuildable(s, doc); }
    if Rebuildable(s, doc) { RebuildableEndsClean(s, doc); }
  }

  lemma CleanWasRebuildable(s: Snapshot, doc: Doc)
    requires SnapshotOk(s) && s.types != [] && WellFormedTypes(TypesOf(doc)) && RebuildSucceeds(s, doc)
    requires Agrees(s, Deliver(Described(s, doc), s.event, Payloads(s, s.types)))
    ensures Rebuildable(s, doc)
  {
    var start := Described(s, doc);
    DescribedMatches(s, doc);
    ReceivedFits(start, s);
    SameFit(start, doc, s);
  }

  lemma RebuildableEndsClean(s: Snapshot, doc: Doc)
    requires SnapshotOk(s) && s.types != [] && WellFormedTypes(TypesOf(doc)) && Rebuildable(s, doc)
    ensures RebuildSucceeds(s, doc) && Agrees(s, Deliver(Described(s, doc), s.event, Payloads(s, s.types)))
  {
    var start := Described(s, doc);
    DescribedMatches(s, doc);
    SameFit(doc, start, s);
    forall r | r in s.types ensures RowCompatible(start, r) { assert RowFits(start, r); }
    CompatibleNeverCorrupt(start, s, s.types);
    FittingAgrees(start, Deliver(start, s.event, Payloads(s, s.types)), s);
  }

  /** Fitting is a matter of the versioned part alone. */
  lemma SameFit(a: Doc, b: Doc, s: Snapshot)
    requires a.eventVersion == b.eventVersion && a.eventTotal == b.eventTotal && a.eventRemaining == b.eventRemaining
    requires forall t :: Lookup(a, t) == Lookup(b, t)
    requires EventFits(a, s) && (forall r | r in s.types :: RowFits(a, r)) && forall t | Lookup(a, t).Some? :: t in RowIds(s.types)
    ensures EventFits(b, s) && (forall r | r in s.types :: RowFits(b, r)) && forall t | Lookup(b, t).Some? :: t in RowIds(s.types)
  {
    forall r | r in s.types ensures RowFits(b, r) { assert RowFits(a, r); }
  }

  lemma FittingAgrees(start: Doc, end: Doc, s: Snapshot)
    requires SnapshotOk(s) && s.types != [] && WellFormedTypes(TypesOf(start))
    requires NeverCorrupt(start, s.event, Payloads(s, s.types)) && end == Deliver(start, s.event, Payloads(s, s.types))
    requires MetadataMatches(s, start) && Rebuildable(s, start)
    ensures Agrees(s, end)
  {
    PayloadsReceived(start, s, s.types);
    forall r | r in s.types ensures Lookup(end, r.id).Some? && EntryShows(Lookup(end, r.id).value, r) {
      assert RowFits(start, r);
    }
    forall t ensures Lookup(end, t).Some? <==> t in RowIds(s.types) {
      if t !in RowIds(s.types) { assert Lookup(end, t) == Lookup(start, t); }
    }
    LookupAgrees(s, end);
  }

  /** Agreement in terms of searches, for a list without repeated ids. */
  lemma LookupAgrees(s: Snapshot, end: Doc)
    requires end.types.Some? && WellFormedTypes(TypesOf(end)) && MetadataMatches(s, end)
    requires (end.eventVersion, end.eventTotal, end.eventRemaining) == (Some(s.version), Some(s.total), Some(s.remaining))
    requires forall r | r in s.types :: Lookup(end, r.id).Some? && EntryShows(Lookup(end, r.id).value, r)
    requires forall t :: Lookup(end, t).Some? <==> t in RowIds(s.types)
    ensures Agrees(s, end)
  {
    TypeMapIsLookup(TypesOf(end));
    forall t ensures t in TypeMap(end.types.value) <==> t in RowIds(s.types) {
      assert Lookup(end, t).Some? <==> t in RowIds(s.types);
    }
  }

  /** A rebuild of the event succeeds exactly when nothing contradicts the snapshot at an equal version. */
  lemma RebuildSucceedsIff(s: Snapshot, doc: Doc)
    requires SnapshotOk(s) && s.types != [] && WellFormedTypes(TypesOf(doc))
    ensures RebuildSucceeds(s, doc) <==> (s.lat.Some? <==> s.lon.Some?) && Compatible(s, doc)
  {
    var start := Described(s, doc);
    DescribedMatches(s, doc);
    if RebuildSucceeds(s, doc) {
      NeverCorruptCompatible(start, s);
      forall r | r in s.types ensures RowCompatible(doc, r) { assert RowCompatible(start, r); }
    }
    if Compatible(s, doc) {
      forall r | r in s.types ensures RowCompatible(start, r) { assert RowCompatible(doc, r); }
      CompatibleNeverCorrupt(start, s, s.types);
    }
  }

  /** An event without types is never versioned by a rebuild, so the comparison keeps reporting it. */
  lemma TypelessStaysUnversioned(s: Snapshot, doc: Doc)
    requires s.types == [] && NothingVersioned(doc) && (s.lat.Some? <==> s.lon.Some?)
    ensures Compare(s, Deliver(doc, s.event, RebuildOps(s))) == multiset{Finding(UnversionedProjection, None)}
    ensures var end := Deliver(doc, s.event, RebuildOps(s));
      && end.total == (if doc.total.None? then Some(s.total) else doc.total)
      && end.remaining == (if doc.remaining.None? then Some(s.remaining) else doc.remaining)
  {
    RebuildDelivers(s, doc);
    DescribedMatches(s, doc);
  }
}
