/** Snapshots of reachable database states: what a projection fed by the run shows, and how a rebuild completes it. */
module Recovery {
  import opened Common
  import opened InventoryTables
  import opened InventoryMessages
  import opened Purchases
  import opened InventoryRuns
  import opened Projection
  import opened Confluence
  import opened EndToEnd
  import opened Reconciliation
  import opened Rebuild
  import opened IndexRuns
  import K = Keyset

  /** `s` is the row set iterateAuthoritativeInventory reads for event `e`; metadata is whatever the events row holds. */
  ghost predicate Describes(s: Snapshot, e: EventId, d: EventData) {
    && s.event == e
    && d.legacy == Some(Row(s.total, s.remaining, s.version))
    && DistinctIds(s.types)
    && RowIds(s.types) == d.stock.Keys
    && forall r | r in s.types :: RowOf(r, d)
  }

  predicate RowOf(r: TypeRow, d: EventData) {
    r.id in d.types && r.id in d.stock && r.name == d.types[r.id] && d.stock[r.id] == Row(r.total, r.remaining, r.version)
  }

  lemma SnapshotIsOk(s: Snapshot, e: EventId, mode: Mode, d: EventData)
    requires EventInv(mode, d) && Describes(s, e, d)
    ensures SnapshotOk(s) && s.types != []
  {
    assert d.defaultType.value in RowIds(s.types);
    forall i | 0 <= i < |s.types| ensures RowInRange(s.types[i]) {
      assert RowOf(s.types[i], d);
    }
  }

  /** Rebuild payloads are messages of the state. */
  lemma PayloadIsMessage(s: Snapshot, run: seq<Action>, e: EventId, r: TypeRow)
    requires e in Exec(EMPTY, run).events && Describes(s, e, Exec(EMPTY, run).events[e]) && r in s.types
    ensures PayloadOf(s, r) in StateMessages(Exec(EMPTY, run), e)
  {
    var d := Exec(EMPTY, run).events[e];
    assert RowOf(r, d);
    assert PayloadOf(s, r) == ChangeOf(e, d, r.id);
  }

  /** A document fed by the run is never ahead of the tables, nor different at an equal version. */
  lemma FedDocumentFits(run: seq<Action>, e: EventId, doc: Doc, msgs: set<Change>, s: Snapshot)
    requires e in Exec(EMPTY, run).events && Describes(s, e, Exec(EMPTY, run).events[e]) && s.types != []
    requires msgs <= Sayable(run, e) && Mirrors(doc, msgs)
    ensures EventFits(doc, s)
    ensures forall r | r in s.types :: RowFits(doc, r)
    ensures forall t | Lookup(doc, t).Some? :: t in RowIds(s.types)
  {
    var d := Exec(EMPTY, run).events[e];
    var types := TypesOf(doc);
    forall r | r in s.types ensures RowFits(doc, r) {
      var i := IndexOf(types, r.id);
      if i < |types| {
        assert FromMessage(types[i], msgs);
        var c :| c in msgs && EntryOf(c) == types[i];
        PayloadIsMessage(s, run, e, r);
        NewestMessage(run, e, PayloadOf(s, r), c);
      }
    }
    forall t | Lookup(doc, t).Some? ensures t in RowIds(s.types) {
      assert FromMessage(types[IndexOf(types, t)], msgs);
      var c :| c in msgs && EntryOf(c).id == Some(t);
      SayableIsPast(run, e, c);
    }
    if doc.eventVersion.Some? {
      var c :| c in msgs && EventOf(c) == (doc.eventVersion, doc.eventTotal, doc.eventRemaining);
      PayloadIsMessage(s, run, e, s.types[0]);
      NewestMessage(run, e, PayloadOf(s, s.types[0]), c);
    }
  }

  lemma FittingShowsNoCorruption(s: Snapshot, doc: Doc, t: Option<TypeId>)
    requires WellFormedTypes(TypesOf(doc)) && EventFits(doc, s) && forall r | r in s.types :: RowFits(doc, r)
    ensures Finding(ContractCorruption, t) !in Compare(s, doc)
  {
    if !NothingVersioned(doc) && HeaderReadable(doc) {
      FittingRows(s, doc, t);
      FittingEvent(s, doc, t);
      CompareParts(s, doc, Finding(ContractCorruption, t));
    } else {
      UnreadableCompare(s, doc, t);
    }
  }

  lemma UnreadableCompare(s: Snapshot, doc: Doc, t: Option<TypeId>)
    requires NothingVersioned(doc) || !HeaderReadable(doc)
    ensures Finding(ContractCorruption, t) !in Compare(s, doc)
  {
  }

  lemma FittingEvent(s: Snapshot, doc: Doc, t: Option<TypeId>)
    requires EventFits(doc, s)
    ensures Finding(ContractCorruption, t) !in EventFindings(s, doc)
  {
  }

  lemma FittingRows(s: Snapshot, doc: Doc, t: Option<TypeId>)
    requires doc.types.Some? && WellFormedTypes(doc.types.value) && forall r | r in s.types :: RowFits(doc, r)
    ensures Finding(ContractCorruption, t) !in RowsFindings(s.types, TypeMap(doc.types.value))
  {
    var docTypes := TypeMap(doc.types.value);
    forall r | r in s.types ensures r.id in docTypes && docTypes[r.id].version == Some(r.version) ==> EntryShows(docTypes[r.id], r) {
      FittingRow(doc, r);
    }
    RowsShowNoCorruption(s.types, docTypes, t);
  }

  lemma FittingRow(doc: Doc, r: TypeRow)
    requires doc.types.Some? && WellFormedTypes(doc.types.value) && RowFits(doc, r)
    ensures var docTypes := TypeMap(doc.types.value);
      r.id in docTypes && docTypes[r.id].version == Some(r.version) ==> EntryShows(docTypes[r.id], r)
  {
    TypeMapIsLookup(doc.types.value);
  }

  /** A corruption finding of a readable document comes from the event or from a row. */
  lemma CompareParts(s: Snapshot, doc: Doc, f: Finding)
    requires !NothingVersioned(doc) && HeaderReadable(doc) && f.category == ContractCorruption
    ensures f in Compare(s, doc) ==> f in EventFindings(s, doc) || f in RowsFindings(s.types, TypeMap(doc.types.value))
  {
    var unexpected := UnexpectedFindings(TypeMap(doc.types.value).Keys - RowIds(s.types));
    assert f !in unexpected;
    assert f !in multiset(unexpected);
  }

  lemma {:induction false} RowsShowNoCorruption(rows: seq<TypeRow>, docTypes: map<TypeId, Entry>, t: Option<TypeId>)
    requires forall r | r in rows :: r.id in docTypes && docTypes[r.id].version == Some(r.version) ==> EntryShows(docTypes[r.id], r)
    ensures Finding(ContractCorruption, t) !in RowsFindings(rows, docTypes)
  {
    if rows != [] {
      var front, last := rows[..|rows| - 1], rows[|rows| - 1];
      assert rows == front + [last];
      RowsShowNoCorruption(front, docTypes, t);
      assert last in rows;
      RowShowsNoCorruption(last, docTypes, t);
      assert RowsFindings(rows, docTypes)[Finding(ContractCorruption, t)] == 0;
    }
  }

  lemma RowShowsNoCorruption(r: TypeRow, docTypes: map<TypeId, Entry>, t: Option<TypeId>)
    requires r.id in docTypes && docTypes[r.id].version == Some(r.version) ==> EntryShows(docTypes[r.id], r)
    ensures Finding(ContractCorruption, t) !in RowFindings(r, docTypes)
  {
  }

  /**
   For every run of the database and every delivery of any of its messages and rebuild payloads, in any order and with
   any repetition, loss, legacy update or metadata update: a reconciliation against the current tables never
   reports contract corruption, and one rebuild from the current tables makes it report nothing at all.
   */
  lemma AnyDeliveryRecovers(run: seq<Action>, e: EventId, ops: seq<Op>, s: Snapshot)
    requires e in Exec(EMPTY, run).events && Describes(s, e, Exec(EMPTY, run).events[e])
    requires MessagesOf(ops) <= Sayable(run, e)
    ensures var doc := Deliver(UPSERT, e, ops);
      && (forall t :: Finding(ContractCorruption, t) !in Compare(s, doc))
      && (RebuildSucceeds(s, doc) && Compare(s, Deliver(doc, e, RebuildOps(s))) == multiset{} <==> (s.lat.Some? <==> s.lon.Some?))
  {
    var d := Exec(EMPTY, run).events[e];
    var doc := Deliver(UPSERT, e, ops);
    RunKeepsInv(EMPTY, run);
    SnapshotIsOk(s, e, Exec(EMPTY, run).mode, d);
    FedMirrors(run, e, ops);
    FedDocumentFits(run, e, doc, MessagesOf(ops), s);
    forall t ensures Finding(ContractCorruption, t) !in Compare(s, doc) {
      FittingShowsNoCorruption(s, doc, t);
    }
    RebuildThenCompareClean(s, doc);
  }

  // --- A whole index fed by one run ---

  /** Every update concerns an event of the tables, and every message is one the run can have produced. */
  ghost predicate FedBy(run: seq<Action>, items: seq<Item>) {
    forall i | 0 <= i < |items| ::
      && items[i].event in Exec(EMPTY, run).events
      && (items[i].op.Inventory? ==> items[i].op.change in Sayable(run, items[i].event))
  }

  /** Whatever was published may be fed, in any order, with any other updates of known events between. */
  lemma PublishedMayBeFed(run: seq<Action>, items: seq<Item>)
    requires forall i | 0 <= i < |items| :: items[i].event in Exec(EMPTY, run).events
    requires forall i | 0 <= i < |items| && items[i].op.Inventory? :: items[i].op.change in Published(run, items[i].event)
    ensures FedBy(run, items)
  {
    forall i | 0 <= i < |items| && items[i].op.Inventory? ensures items[i].op.change in Sayable(run, items[i].event) {
      PublishedIsSayable(run, items[i].event);
    }
  }

  lemma {:induction false} FedMessages(run: seq<Action>, items: seq<Item>, e: EventId)
    requires FedBy(run, items)
    ensures MessagesOf(OpsFor(items, e)) <= Sayable(run, e)
  {
    if items != [] {
      var front, last := items[..|items| - 1], items[|items| - 1];
      FedMessages(run, front, e);
      if last.event == e { MessagesExtend(OpsFor(front, e), last.op); }
    }
  }

  /** The snapshots a rebuild reads: one for each event of the tables. */
  ghost predicate DescribesAll(snapshots: seq<Snapshot>, db: Db) {
    && DistinctEvents(snapshots) && EventIds(snapshots) == db.events.Keys
    && forall s | s in snapshots :: s.event in db.events && Describes(s, s.event, db.events[s.event])
  }

  lemma FedDocumentRebuildable(run: seq<Action>, items: seq<Item>, s: Snapshot)
    requires FedBy(run, items) && s.event in Exec(EMPTY, run).events
    requires Describes(s, s.event, Exec(EMPTY, run).events[s.event])
    ensures var doc := Stored(ApplyAll(map[], items), s.event);
      && SnapshotOk(s) && s.types != [] && WellFormedTypes(TypesOf(doc))
      && (Rebuildable(s, doc) <==> (s.lat.Some? <==> s.lon.Some?))
  {
    var e := s.event;
    var ops := OpsFor(items, e);
    ApplyAllAt(map[], items, e);
    FedMessages(run, items, e);
    RunKeepsInv(EMPTY, run);
    SnapshotIsOk(s, e, Exec(EMPTY, run).mode, Exec(EMPTY, run).events[e]);
    FedMirrors(run, e, ops);
    FedDocumentFits(run, e, Deliver(UPSERT, e, ops), MessagesOf(ops), s);
  }

  /**
   For every run of the database and every partial, repeated, reordered feed of a whole index from it, one rebuild from the
   current tables succeeds and leaves nothing for a reconciliation of the whole index to report, if and only if
   every event has both coordinates or none.
   */
  lemma WholeIndexRecovers(run: seq<Action>, items: seq<Item>, snapshots: seq<Snapshot>)
    requires FedBy(run, items) && DescribesAll(snapshots, Exec(EMPTY, run))
    ensures CleanAfterRebuild(ApplyAll(map[], items), snapshots) <==>
      forall s | s in snapshots :: s.lat.Some? <==> s.lon.Some?
  {
    var docs := ApplyAll(map[], items);
    FedIndexRebuildable(run, items, snapshots);
    NoStrangers(run, items, snapshots);
    RebuildThenReconcileClean(docs, snapshots);
  }

  lemma FedIndexRebuildable(run: seq<Action>, items: seq<Item>, snapshots: seq<Snapshot>)
    requires FedBy(run, items) && DescribesAll(snapshots, Exec(EMPTY, run))
    ensures AllWellFormed(ApplyAll(map[], items), snapshots)
    ensures AllRebuildable(ApplyAll(map[], items), snapshots) <==> forall s | s in snapshots :: s.lat.Some? <==> s.lon.Some?
  {
    var docs := ApplyAll(map[], items);
    forall s | s in snapshots
      ensures SnapshotOk(s) && s.types != [] && WellFormedTypes(TypesOf(Stored(docs, s.event)))
      ensures Rebuildable(s, Stored(docs, s.event)) <==> (s.lat.Some? <==> s.lon.Some?)
    {
      FedDocumentRebuildable(run, items, s);
    }
  }

  /** A feed creates documents of its own events only. */
  lemma NoStrangers(run: seq<Action>, items: seq<Item>, snapshots: seq<Snapshot>)
    requires FedBy(run, items) && DescribesAll(snapshots, Exec(EMPTY, run))
    ensures NothingOrphaned(ApplyAll(map[], items), EventIds(snapshots))
  {
    var docs := ApplyAll(map[], items);
    RebuiltKeys(map[], items);
    assert forall k | k in docs :: k in EventIds(snapshots);
  }

  // --- Starting from the tables ---

  /** The joined rows of ticket_inventory, events and ticket_type_inventory, by event. */
  ghost predicate IsTable(table: map<EventId, Snapshot>, db: Db) {
    table.Keys == db.events.Keys && forall e | e in table :: Describes(table[e], e, db.events[e])
  }

  ghost predicate Paired(table: map<EventId, Snapshot>) {
    forall e | e in table :: table[e].lat.Some? <==> table[e].lon.Some?
  }

  /** What the paging reader lists are the snapshots of all events. */
  lemma ListedDescribesAll(table: map<EventId, Snapshot>, db: Db, snapshots: seq<Snapshot>)
    requires IsTable(table, db) && DistinctEvents(snapshots) && (forall e :: e in EventIds(snapshots) <==> e in table)
    requires forall s | s in snapshots :: s.event in table && table[s.event] == s
    ensures DescribesAll(snapshots, db)
    ensures Paired(table) <==> forall s | s in snapshots :: s.lat.Some? <==> s.lon.Some?
  {
    forall e | e in table ensures exists s :: s in snapshots && s == table[e] {
      assert e in EventIds(snapshots);
      var s :| s in snapshots && s.event == e;
    }
  }

  /** No difference of either pass. */
  lemma ReportIsClean(docs: map<EventId, Doc>, snapshots: seq<Snapshot>, known: set<EventId>)
    ensures Diffs(snapshots, docs) + |UnexpectedDocs(docs, known)| == 0
            <==> Diffs(snapshots, docs) == 0 && UnexpectedDocs(docs, known) == {}
  {
  }

  /**
   The whole procedure: page through the tables, rebuild in bulk, page through them again and reconcile. Whatever the page
   and bulk sizes, and whatever part of a run's messages had reached the index, in whatever order, it reports a
   rebuild without error and no difference if and only if every event has both coordinates or none.
   */
  method RebuildAndReconcile(
    index: Index, table: map<EventId, Snapshot>, pageSize: int, bulkSize: int, findingsPage: nat,
    ghost run: seq<Action>, ghost items: seq<Item>) returns (rebuilt: bool, report: Option<Reconciled>)
    requires IsTable(table, Exec(EMPTY, run)) && FedBy(run, items) && index.docs == ApplyAll(map[], items)
    modifies index
    ensures rebuilt && report.Some? && report.value.totalDiffs == 0 <==> Paired(table)
    ensures rebuilt <==> report.Some?
  {
    report := None;
    var snapshots, keys := IterateAuthoritative(table, pageSize);
    ListedDescribesAll(table, Exec(EMPTY, run), snapshots);
    WholeIndexRecovers(run, items, snapshots);
    var result := RebuildInventoryProjection(index, snapshots, bulkSize);
    rebuilt := result.Some?;
    if rebuilt {
      var again, againKeys := IterateAuthoritative(table, pageSize);
      SameListing(table, snapshots, keys, again, againKeys);
      var r := ReconcileInventoryProjection(again, index.docs, findingsPage);
      ReportIsClean(index.docs, snapshots, EventIds(snapshots));
      report := Some(r);
    }
  }

  /** Two listings of one table are equal. */
  lemma SameListing(table: map<EventId, Snapshot>, a: seq<Snapshot>, aKeys: seq<K.RowKey>, b: seq<Snapshot>, bKeys: seq<K.RowKey>)
    requires ListedBy(table, a, aKeys) && ListedBy(table, b, bKeys)
    ensures a == b
  {
    K.ListsUnique(aKeys, bKeys, EventKeys(table), None);
    assert |a| == |b| && forall i | 0 <= i < |a| :: a[i] == b[i];
  }
}
