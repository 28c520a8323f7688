/** A whole rebuild of the index in bounded bulk requests, and a whole reconciliation in bounded pages. */
module IndexRuns {
  import opened Common
  import opened Arithmetic
  import opened InventoryMessages
  import opened Projection
  import opened Confluence
  import opened Reconciliation
  import opened Rebuild
  import K = Keyset

  /** One update of a bulk request. */
  datatype Item = Item(event: EventId, op: Op)

  function Apply(docs: map<EventId, Doc>, item: Item): map<EventId, Doc> {
    var effect := Effects(Stored(docs, item.event), item.event, item.op);
    if effect.Wrote? then docs[item.event := effect.doc] else docs
  }

  function ApplyAll(docs: map<EventId, Doc>, items: seq<Item>): map<EventId, Doc> {
    if items == [] then docs else Apply(ApplyAll(docs, items[..|items| - 1]), items[|items| - 1])
  }

  predicate NoneThrew(docs: map<EventId, Doc>, items: seq<Item>) {
    items == [] ||
    (NoneThrew(docs, items[..|items| - 1])
     && var last := items[|items| - 1];
        !Effects(Stored(ApplyAll(docs, items[..|items| - 1]), last.event), last.event, last.op).Threw?)
  }

  lemma {:induction false} ApplyJoin(docs: map<EventId, Doc>, a: seq<Item>, b: seq<Item>)
    ensures ApplyAll(docs, a + b) == ApplyAll(ApplyAll(docs, a), b)
    ensures NoneThrew(docs, a + b) <==> NoneThrew(docs, a) && NoneThrew(ApplyAll(docs, a), b)
  {
    if b == [] {
      assert a + b == a;
    } else {
      assert (a + b)[..|a + b| - 1] == a + b[..|b| - 1];
      ApplyJoin(docs, a, b[..|b| - 1]);
    }
  }

  function ItemsOf(s: Snapshot): seq<Item> {
    var ops := RebuildOps(s);
    seq(|ops|, i requires 0 <= i < |ops| => Item(s.event, ops[i]))
  }

  function AllItems(snapshots: seq<Snapshot>): seq<Item> {
    if snapshots == [] then [] else AllItems(snapshots[..|snapshots| - 1]) + ItemsOf(snapshots[|snapshots| - 1])
  }

  function CeilDiv(n: nat, d: nat): nat
    requires d > 0
  {
    (n + d - 1) / d
  }

  function TypeCount(snapshots: seq<Snapshot>): nat {
    if snapshots == [] then 0
    else TypeCount(snapshots[..|snapshots| - 1]) + |snapshots[|snapshots| - 1].types|
  }

  /** The types of a list of snapshots are those of its parts. */
  lemma {:induction false} TypeCountJoin(a: seq<Snapshot>, b: seq<Snapshot>)
    ensures TypeCount(a + b) == TypeCount(a) + TypeCount(b)
    ensures |a| == 1 ==> TypeCount(a) == |a[0].types|
  {
    if |a| == 1 { assert TypeCount(a[..0]) == 0; }
    if b == [] {
      assert a + b == a;
    } else {
      assert (a + b)[..|a + b| - 1] == a + b[..|b| - 1];
      TypeCountJoin(a, b[..|b| - 1]);
    }
  }

  /** Bulk size as the rebuild bounds it. */
  function BoundedBulkSize(bulkSize: int): (n: nat)
    ensures 1 <= n <= 1000
  {
    Max(1, Min(bulkSize, 1000))
  }

  datatype Report = Report(processedEvents: nat, processedTypes: nat, bulkRequests: nat)

  /** The bulk buffer of a running rebuild. */
  class Bulk {
    const index: Index
    const size: nat
    var ops: seq<Item>
    var requests: nat
    /** The updates already sent, and the documents at the start. */
    ghost var sent: seq<Item>
    ghost const start: map<EventId, Doc>

    ghost function Handed(): seq<Item>
      reads this
    {
      sent + ops
    }

    /** What was sent is a whole number of full requests, until the last flush. */
    ghost predicate Valid()
      reads this, index
    {
      && 0 < size && |ops| < size
      && |sent| == requests * size
      && index.docs == ApplyAll(start, sent)
      && NoneThrew(start, sent)
    }

    constructor (index: Index, bulkSize: int)
      ensures Valid() && this.index == index && size == BoundedBulkSize(bulkSize)
      ensures Handed() == [] && start == index.docs
    {
      this.index := index;
      size := BoundedBulkSize(bulkSize);
      ops, requests, sent := [], 0, [];
      start := index.docs;
    }

    /** sendBulk: every item is applied; a failed one fails the request. */
    method SendBulk() returns (ok: bool)
      modifies index
      ensures index.docs == ApplyAll(old(index.docs), ops)
      ensures ok == NoneThrew(old(index.docs), ops)
    {
      ok := true;
      var i := 0;
      while i < |ops|
        invariant i <= |ops|
        invariant index.docs == ApplyAll(old(index.docs), ops[..i])
        invariant ok == NoneThrew(old(index.docs), ops[..i])
      {
        assert ops[..i + 1][..i] == ops[..i];
        var effect := index.Update(ops[i].event, ops[i].op);
        if effect.Threw? { ok := false; }
        i := i + 1;
      }
      assert ops[..i] == ops;
    }

    /** pushOps: buffers one update, and sends the buffer when it is full. */
    method Push(item: Item) returns (ok: bool)
      requires Valid()
      modifies this`ops, this`requests, this`sent, index
      ensures Handed() == old(Handed()) + [item]
      ensures ok ==> Valid()
      ensures !ok ==> !NoneThrew(start, Handed())
    {
      ops := ops + [item];
      assert Handed() == old(Handed()) + [item];
      if |ops| < size { return true; }
      NextMultiple(requests, size);
      ok := Flush();
      assert Handed() == sent;
    }

    method Flush() returns (ok: bool)
      requires 0 < |ops| <= size && |sent| == requests * size
      requires index.docs == ApplyAll(start, sent) && NoneThrew(start, sent)
      modifies this`ops, this`requests, this`sent, index
      ensures ops == [] && sent == old(sent + ops) && requests == old(requests) + 1
      ensures index.docs == ApplyAll(start, sent)
      ensures ok == NoneThrew(start, sent)
    {
      ok := SendBulk();
      ApplyJoin(start, sent, ops);
      requests := requests + 1;
      sent := sent + ops;
      ops := [];
    }

    /** The flush after the last event. */
    method Finish() returns (ok: bool)
      requires Valid()
      modifies this`ops, this`requests, this`sent, index
      ensures Handed() == old(Handed()) && ok == NoneThrew(start, Handed())
      ensures index.docs == ApplyAll(start, Handed())
      ensures requests == CeilDiv(|Handed()|, size)
    {
      CeilExact(requests, size, |ops|);
      ok := true;
      if ops == [] {
        assert sent + ops == sent;
      } else {
        ok := Flush();
        assert sent + ops == sent;
      }
    }
  }

  /** As few requests as the size allows. */
  lemma CeilIsLeast(n: nat, d: nat)
    requires d > 0
    ensures CeilDiv(n, d) * d >= n && (n > 0 ==> (CeilDiv(n, d) - 1) * d < n)
  {
    var q := CeilDiv(n, d);
    assert n + d - 1 == d * q + (n + d - 1) % d;
    assert (q - 1) * d == q * d - d;
  }

  lemma CeilExact(q: nat, d: nat, r: nat)
    requires r < d
    ensures CeilDiv(q * d + r, d) == q + (if r == 0 then 0 else 1)
  {
    if r == 0 {
      assert q * d + d - 1 == d * q + (d - 1);
      DivUnique(q * d + d - 1, d, q, d - 1);
    } else {
      assert q * d + r + d - 1 == d * (q + 1) + (r - 1);
      DivUnique(q * d + r + d - 1, d, q + 1, r - 1);
    }
  }

  /**
   rebuildInventoryProjection. Whatever the bulk size, the index ends as if every update had been sent by itself in
   order, and the number of requests is as small as the size allows; a rebuild fails exactly when an update threw.
   */
  method RebuildInventoryProjection(index: Index, snapshots: seq<Snapshot>, bulkSize: int) returns (r: Option<Report>)
    modifies index
    ensures r.Some? <==> NoneThrew(old(index.docs), AllItems(snapshots))
    ensures r.Some? ==> index.docs == ApplyAll(old(index.docs), AllItems(snapshots))
    ensures r.Some? ==> r.value.processedEvents == |snapshots| && r.value.processedTypes == TypeCount(snapshots)
    ensures r.Some? ==> r.value.bulkRequests == CeilDiv(|AllItems(snapshots)|, BoundedBulkSize(bulkSize))
  {
    var bulk: Bulk := new Bulk(index, bulkSize);
    var events, types := 0, 0;
    while events < |snapshots|
      invariant events <= |snapshots|
      invariant bulk.Valid() && bulk.Handed() == AllItems(snapshots[..events]) && types == TypeCount(snapshots[..events])
    {
      var s := snapshots[events];
      assert snapshots[..events + 1][..events] == snapshots[..events];
      events := events + 1;
      assert AllItems(snapshots[..events]) == bulk.Handed() + ItemsOf(s);
      var ok := PushEvent(bulk, s);
      if !ok {
        PrefixThrew(bulk.start, snapshots, events, bulk.Handed());
        return None;
      }
      types := types + |s.types|;
    }
    assert snapshots[..events] == snapshots;
    var done := bulk.Finish();
    if !done { return None; }
    r := Some(Report(events, types, bulk.requests));
  }

  method PushEvent(bulk: Bulk, s: Snapshot) returns (ok: bool)
    requires bulk.Valid()
    modifies bulk`ops, bulk`requests, bulk`sent, bulk.index
    ensures ok ==> bulk.Valid() && bulk.Handed() == old(bulk.Handed()) + ItemsOf(s)
    ensures !ok ==> bulk.Handed() <= old(bulk.Handed()) + ItemsOf(s) && !NoneThrew(bulk.start, bulk.Handed())
  {
    ghost var items := ItemsOf(s);
    ItemAt(s, 0);
    ok := bulk.Push(Item(s.event, Describe(MetadataOf(s))));
    assert bulk.Handed() == old(bulk.Handed()) + items[..1];
    if !ok { return; }
    var i := 0;
    while i < |s.types|
      invariant i <= |s.types|
      invariant bulk.Valid() && bulk.Handed() == old(bulk.Handed()) + items[..1 + i]
      modifies bulk`ops, bulk`requests, bulk`sent, bulk.index
    {
      ItemAt(s, i + 1);
      ok := bulk.Push(Item(s.event, Inventory(PayloadOf(s, s.types[i]))));
      i := i + 1;
      assert bulk.Handed() == old(bulk.Handed()) + items[..1 + i];
      if !ok { return; }
    }
    assert items[..1 + i] == items;
  }

  lemma ItemAt(s: Snapshot, i: nat)
    requires i < |ItemsOf(s)|
    ensures |ItemsOf(s)| == 1 + |s.types|
    ensures ItemsOf(s)[..i + 1] == ItemsOf(s)[..i] + [ItemsOf(s)[i]]
    ensures ItemsOf(s)[i] == if i == 0 then Item(s.event, Describe(MetadataOf(s)))
                             else Item(s.event, Inventory(PayloadOf(s, s.types[i - 1])))
  {
  }

  /** If a prefix threw, so did the whole. */
  lemma PrefixThrew(start: map<EventId, Doc>, snapshots: seq<Snapshot>, n: nat, handed: seq<Item>)
    requires n <= |snapshots| && handed <= AllItems(snapshots[..n]) && !NoneThrew(start, handed)
    ensures !NoneThrew(start, AllItems(snapshots))
  {
    AllItemsPrefix(snapshots, n);
    PrefixFails(start, handed, AllItems(snapshots[..n]));
    PrefixFails(start, AllItems(snapshots[..n]), AllItems(snapshots));
  }

  lemma PrefixFails(start: map<EventId, Doc>, part: seq<Item>, whole: seq<Item>)
    requires part <= whole && !NoneThrew(start, part)
    ensures !NoneThrew(start, whole)
  {
    assert whole == part + whole[|part|..];
    ApplyJoin(start, part, whole[|part|..]);
  }

  lemma {:induction false} AllItemsPrefix(snapshots: seq<Snapshot>, n: nat)
    requires n <= |snapshots|
    ensures AllItems(snapshots[..n]) <= AllItems(snapshots)
  {
    if n < |snapshots| {
      var front := snapshots[..|snapshots| - 1];
      assert front[..n] == snapshots[..n];
      AllItemsPrefix(front, n);
    } else {
      assert snapshots[..n] == snapshots;
    }
  }

  function EventKeys(table: map<EventId, Snapshot>): set<K.RowKey> {
    set e | e in table :: (e, 0)
  }

  /** The snapshots of the keys, one by one. */
  ghost predicate ListedBy(table: map<EventId, Snapshot>, snapshots: seq<Snapshot>, keys: seq<K.RowKey>) {
    && K.Lists(keys, EventKeys(table), None) && |keys| == |snapshots|
    && forall i | 0 <= i < |keys| :: keys[i].0 in table && snapshots[i] == table[keys[i].0]
  }

  /** iterateAuthoritativeInventory: every event once, by id, whatever the page size. */
  method IterateAuthoritative(table: map<EventId, Snapshot>, pageSize: int) returns (snapshots: seq<Snapshot>, ghost visited: seq<K.RowKey>)
    requires forall e | e in table :: table[e].event == e
    ensures ListedBy(table, snapshots, visited)
    ensures DistinctEvents(snapshots) && (forall e :: e in EventIds(snapshots) <==> e in table)
    ensures forall s | s in snapshots :: s.event in table && table[s.event] == s
    ensures forall i, j | 0 <= i < j < |snapshots| :: snapshots[i].event < snapshots[j].event
  {
    var keys := EventKeys(table);
    var rows := K.VisitAll(keys, pageSize);
    visited := rows;
    forall i | 0 <= i < |rows| ensures rows[i].0 in table && rows[i].1 == 0 {
      assert rows[i] in rows;
      assert K.Above(rows[i], None);
    }
    snapshots := seq(|rows|, i requires 0 <= i < |rows| => table[rows[i].0]);
    forall e | e in table ensures e in EventIds(snapshots) {
      assert (e, 0) in keys && K.Above((e, 0), None);
      assert (e, 0) in visited;
      var i :| 0 <= i < |visited| && visited[i] == (e, 0);
      assert snapshots[i] == table[e] && snapshots[i] in snapshots;
    }
  }

  // --- Per event ---

  function OpsFor(items: seq<Item>, e: EventId): seq<Op> {
    if items == [] then []
    else OpsFor(items[..|items| - 1], e) + (if items[|items| - 1].event == e then [items[|items| - 1].op] else [])
  }

  /** The document of an event sees only the updates of that event, in order. */
  lemma {:induction false} ApplyAllAt(docs: map<EventId, Doc>, items: seq<Item>, e: EventId)
    ensures Stored(ApplyAll(docs, items), e) == Deliver(Stored(docs, e), e, OpsFor(items, e))
  {
    if items != [] {
      var front, last := items[..|items| - 1], items[|items| - 1];
      ApplyAllAt(docs, front, e);
      ApplyAt(ApplyAll(docs, front), last, e);
      assert items == front + [last];
      OpsForLast(front, last, e);
      if last.event == e { DeliverLast(Stored(docs, e), e, OpsFor(front, e), last.op); }
    }
  }

  lemma OpsForLast(front: seq<Item>, last: Item, e: EventId)
    ensures OpsFor(front + [last], e) == if last.event == e then OpsFor(front, e) + [last.op] else OpsFor(front, e)
  {
    assert (front + [last])[..|front|] == front;
  }

  lemma ApplyAt(docs: map<EventId, Doc>, item: Item, e: EventId)
    ensures Stored(Apply(docs, item), e) ==
      if item.event == e then After(Stored(docs, e), Effects(Stored(docs, e), e, item.op)) else Stored(docs, e)
  {
  }

  lemma DeliverLast(doc: Doc, e: EventId, front: seq<Op>, op: Op)
    ensures Deliver(doc, e, front + [op]) == After(Deliver(doc, e, front), Effects(Deliver(doc, e, front), e, op))
    ensures OpsOk(doc, e, front + [op]) <==> OpsOk(doc, e, front) && !Effects(Deliver(doc, e, front), e, op).Threw?
  {
    assert (front + [op])[..|front|] == front;
  }

  lemma {:induction false} OpsForJoin(a: seq<Item>, b: seq<Item>, e: EventId)
    ensures OpsFor(a + b, e) == OpsFor(a, e) + OpsFor(b, e)
  {
    if b == [] {
      assert a + b == a;
    } else {
      assert (a + b)[..|a + b| - 1] == a + b[..|b| - 1];
      OpsForJoin(a, b[..|b| - 1], e);
    }
  }

  lemma {:induction false} OpsForOne(event: EventId, ops: seq<Op>, items: seq<Item>, e: EventId)
    requires |items| == |ops| && forall i | 0 <= i < |ops| :: items[i] == Item(event, ops[i])
    ensures OpsFor(items, e) == if e == event then ops else []
  {
    if ops != [] {
      OpsForOne(event, ops[..|ops| - 1], items[..|ops| - 1], e);
    }
  }

  predicate DistinctEvents(snapshots: seq<Snapshot>) {
    forall i, j | 0 <= i < j < |snapshots| :: snapshots[i].event != snapshots[j].event
  }

  lemma {:induction false} OpsForEvent(snapshots: seq<Snapshot>, e: EventId)
    requires DistinctEvents(snapshots)
    ensures (forall s | s in snapshots :: s.event != e) ==> OpsFor(AllItems(snapshots), e) == []
    ensures forall s | s in snapshots && s.event == e :: OpsFor(AllItems(snapshots), e) == RebuildOps(s)
  {
    if snapshots != [] {
      var front, last := snapshots[..|snapshots| - 1], snapshots[|snapshots| - 1];
      assert snapshots == front + [last];
      OpsForEvent(front, e);
      OpsForLastEvent(front, last, e);
      if last.event == e { OthersDiffer(front, last); }
    }
  }

  lemma OpsForLastEvent(front: seq<Snapshot>, last: Snapshot, e: EventId)
    ensures OpsFor(AllItems(front + [last]), e)
         == if last.event == e then OpsFor(AllItems(front), e) + RebuildOps(last) else OpsFor(AllItems(front), e)
  {
    assert (front + [last])[..|front|] == front;
    OpsForJoin(AllItems(front), ItemsOf(last), e);
    OpsForOne(last.event, RebuildOps(last), ItemsOf(last), e);
  }

  lemma OthersDiffer(front: seq<Snapshot>, last: Snapshot)
    requires DistinctEvents(front + [last])
    ensures forall s | s in front :: s.event != last.event
  {
    forall s | s in front ensures s.event != last.event {
      var i :| 0 <= i < |front| && front[i] == s;
      assert (front + [last])[i].event != (front + [last])[|front|].event;
    }
  }

  /** What a rebuild of the whole index leaves in the document of each event, whatever its bulk size. */
  lemma RebuiltDocument(docs: map<EventId, Doc>, snapshots: seq<Snapshot>, s: Snapshot)
    requires DistinctEvents(snapshots) && s in snapshots
    ensures Stored(ApplyAll(docs, AllItems(snapshots)), s.event) == Deliver(Stored(docs, s.event), s.event, RebuildOps(s))
  {
    ApplyAllAt(docs, AllItems(snapshots), s.event);
    OpsForEvent(snapshots, s.event);
  }

  // --- Reconciliation of the whole index ---

  /** Differences pass 1 records: a missing document, or what the comparison finds. */
  function DiffsOf(s: Snapshot, docs: map<EventId, Doc>): nat {
    if s.event in docs then |Compare(s, docs[s.event])| else 1
  }

  function Diffs(snapshots: seq<Snapshot>, docs: map<EventId, Doc>): nat {
    if snapshots == [] then 0
    else Diffs(snapshots[..|snapshots| - 1], docs) + DiffsOf(snapshots[|snapshots| - 1], docs)
  }

  /** detectUnexpected goes by the event_id of the source, and by _id only where that is missing. */
  function UnexpectedDocs(docs: map<EventId, Doc>, known: set<EventId>): set<EventId> {
    set k | k in docs && (if docs[k].eventId.Some? then docs[k].eventId.value else k) !in known
  }

  function EventIds(snapshots: seq<Snapshot>): set<EventId> {
    set s | s in snapshots :: s.event
  }

  datatype Reconciled = Reconciled(checkedEvents: nat, checkedDocuments: nat, totalDiffs: nat)

  function Present(snapshots: seq<Snapshot>, docs: map<EventId, Doc>): nat {
    if snapshots == [] then 0
    else Present(snapshots[..|snapshots| - 1], docs) + (if snapshots[|snapshots| - 1].event in docs then 1 else 0)
  }

  /** reconcileInventoryProjection: the page size cannot be seen in the report. */
  method ReconcileInventoryProjection(snapshots: seq<Snapshot>, docs: map<EventId, Doc>, pageSize: nat) returns (r: Reconciled)
    ensures r.checkedEvents == |snapshots| && r.checkedDocuments == Present(snapshots, docs)
    ensures r.totalDiffs == Diffs(snapshots, docs) + |UnexpectedDocs(docs, EventIds(snapshots))|
  {
    var events: nat, documents: nat, diffs: nat := 0, 0, 0;
    var page: seq<Snapshot> := [];
    var i := 0;
    while i < |snapshots|
      invariant i <= |snapshots| && events + |page| == i && snapshots[events..i] == page
      invariant documents == Present(snapshots[..events], docs) && diffs == Diffs(snapshots[..events], docs)
    {
      page := page + [snapshots[i]];
      i := i + 1;
      if |page| >= pageSize {
        var d, n := ComparePage(page, docs);
        assert snapshots[events..i] == page;
        PageAdds(snapshots, events, i, docs);
        events, documents, diffs := i, documents + d, diffs + n;
        page := [];
      }
    }
    var d, n := ComparePage(page, docs);
    assert snapshots[events..|snapshots|] == page;
    PageAdds(snapshots, events, |snapshots|, docs);
    assert snapshots[..|snapshots|] == snapshots;
    var unexpected := UnexpectedDocs(docs, EventIds(snapshots));
    r := Reconciled(|snapshots|, documents + d, diffs + n + |unexpected|);
  }

  lemma PageAdds(snapshots: seq<Snapshot>, from: nat, to: nat, docs: map<EventId, Doc>)
    requires from <= to <= |snapshots|
    ensures Diffs(snapshots[..to], docs) == Diffs(snapshots[..from], docs) + Diffs(snapshots[from..to], docs)
    ensures Present(snapshots[..to], docs) == Present(snapshots[..from], docs) + Present(snapshots[from..to], docs)
  {
    assert snapshots[..to] == snapshots[..from] + snapshots[from..to];
    PageSums(snapshots[..from], snapshots[from..to], docs);
  }

  method ComparePage(page: seq<Snapshot>, docs: map<EventId, Doc>) returns (documents: nat, diffs: nat)
    ensures documents == Present(page, docs) && diffs == Diffs(page, docs)
  {
    documents, diffs := 0, 0;
    for i := 0 to |page|
      invariant documents == Present(page[..i], docs) && diffs == Diffs(page[..i], docs)
    {
      assert page[..i + 1][..i] == page[..i];
      if page[i].event !in docs {
        diffs := diffs + 1;
      } else {
        documents := documents + 1;
        var findings := CompareEvent(page[i], docs[page[i].event]);
        diffs := diffs + |findings|;
      }
    }
    assert page[..|page|] == page;
  }

  lemma LastAdds(front: seq<Snapshot>, last: Snapshot, docs: map<EventId, Doc>)
    ensures Diffs(front + [last], docs) == Diffs(front, docs) + DiffsOf(last, docs)
    ensures Present(front + [last], docs) == Present(front, docs) + (if last.event in docs then 1 else 0)
  {
    assert (front + [last])[..|front|] == front;
  }

  lemma {:induction false} PageSums(a: seq<Snapshot>, b: seq<Snapshot>, docs: map<EventId, Doc>)
    ensures Diffs(a + b, docs) == Diffs(a, docs) + Diffs(b, docs)
    ensures Present(a + b, docs) == Present(a, docs) + Present(b, docs)
  {
    if b == [] {
      assert a + b == a;
    } else {
      var front, last := b[..|b| - 1], b[|b| - 1];
      assert a + b == (a + front) + [last];
      assert b == front + [last];
      PageSums(a, front, docs);
      LastAdds(a + front, last, docs);
      LastAdds(front, last, docs);
    }
  }

  /** The event has a document, and the document agrees. */
  predicate Shown(s: Snapshot, docs: map<EventId, Doc>) {
    s.event in docs && Agrees(s, docs[s.event])
  }

  lemma OneZeroIff(s: Snapshot, docs: map<EventId, Doc>)
    requires SnapshotOk(s)
    ensures DiffsOf(s, docs) == 0 <==> Shown(s, docs)
  {
    if s.event in docs {
      CleanIff(s, docs[s.event]);
      assert |Compare(s, docs[s.event])| == 0 <==> Compare(s, docs[s.event]) == multiset{};
    }
  }

  /** Pass 1 counts nothing exactly when every event has an agreeing document. */
  lemma {:induction false} DiffsZeroIff(snapshots: seq<Snapshot>, docs: map<EventId, Doc>)
    requires forall s | s in snapshots :: SnapshotOk(s)
    ensures Diffs(snapshots, docs) == 0 <==> forall s | s in snapshots :: Shown(s, docs)
  {
    if snapshots != [] {
      var front, last := snapshots[..|snapshots| - 1], snapshots[|snapshots| - 1];
      assert snapshots == front + [last];
      DiffsZeroIff(front, docs);
      LastAdds(front, last, docs);
      OneZeroIff(last, docs);
    }
  }

  // --- Rebuild, then reconcile ---

  predicate OpsOk(doc: Doc, e: EventId, ops: seq<Op>) {
    ops == [] || (OpsOk(doc, e, ops[..|ops| - 1])
                  && !Effects(Deliver(doc, e, ops[..|ops| - 1]), e, ops[|ops| - 1]).Threw?)
  }

  lemma OpsOkStep(docs: map<EventId, Doc>, front: seq<Item>, last: Item, e: EventId)
    ensures OpsOk(Stored(docs, e), e, OpsFor(front + [last], e)) <==>
      && OpsOk(Stored(docs, e), e, OpsFor(front, e))
      && (last.event == e ==> !Effects(Stored(ApplyAll(docs, front), e), e, last.op).Threw?)
  {
    OpsForLast(front, last, e);
    ApplyAllAt(docs, front, e);
    if last.event == e { DeliverLast(Stored(docs, e), e, OpsFor(front, e), last.op); }
  }

  /** A rebuild succeeds as a whole exactly when it does for every event. */
  lemma {:induction false} NoneThrewPerEvent(docs: map<EventId, Doc>, items: seq<Item>)
    ensures NoneThrew(docs, items) <==> forall e :: OpsOk(Stored(docs, e), e, OpsFor(items, e))
  {
    if items != [] {
      var front, last := items[..|items| - 1], items[|items| - 1];
      assert items == front + [last];
      NoneThrewPerEvent(docs, front);
      forall e ensures OpsOk(Stored(docs, e), e, OpsFor(items, e)) <==>
          && OpsOk(Stored(docs, e), e, OpsFor(front, e))
          && (last.event == e ==> !Effects(Stored(ApplyAll(docs, front), e), e, last.op).Threw?)
      {
        OpsOkStep(docs, front, last, e);
      }
    }
  }

  predicate Passed(doc: Doc, e: EventId, ops: seq<Op>, k: nat)
    requires k < |ops|
  {
    !Effects(Deliver(doc, e, ops[..k]), e, ops[k]).Threw?
  }

  lemma {:induction false} OpsOkIff(doc: Doc, e: EventId, ops: seq<Op>)
    ensures OpsOk(doc, e, ops) <==> forall k | 0 <= k < |ops| :: Passed(doc, e, ops, k)
  {
    if ops != [] {
      var front := ops[..|ops| - 1];
      OpsOkIff(doc, e, front);
      forall k | 0 <= k < |front| ensures Passed(doc, e, front, k) <==> Passed(doc, e, ops, k) {
        assert front[..k] == ops[..k] && front[k] == ops[k];
      }
      assert Passed(doc, e, ops, |front|) <==> !Effects(Deliver(doc, e, front), e, ops[|front|]).Threw?;
    }
  }

  lemma PayloadsOk(doc: Doc, s: Snapshot)
    requires RebuildSucceeds(s, doc)
    ensures OpsOk(doc, s.event, RebuildOps(s))
  {
    var ops := RebuildOps(s);
    OpsOkIff(doc, s.event, ops);
    forall k | 0 <= k < |ops| ensures Passed(doc, s.event, ops, k) {
      if k == 0 { assert ops[..0] == []; } else { PayloadNotThrown(doc, s, k - 1); }
    }
  }

  lemma PayloadNotThrown(doc: Doc, s: Snapshot, k: nat)
    requires k < |s.types| && RebuildSucceeds(s, doc)
    ensures !Effects(Deliver(doc, s.event, RebuildOps(s)[..k + 1]), s.event, RebuildOps(s)[k + 1]).Threw?
  {
    OpsSplit(s, doc, k);
    assert Payloads(s, s.types)[k].Inventory?;
  }

  /** Documents outside the snapshot claim, by their event_id, to belong to an event of it. */
  predicate NothingOrphaned(docs: map<EventId, Doc>, known: set<EventId>) {
    forall k | k in docs && k !in known :: docs[k].eventId.Some? && docs[k].eventId.value in known
  }

  ghost predicate CleanAfterRebuild(docs: map<EventId, Doc>, snapshots: seq<Snapshot>) {
    && NoneThrew(docs, AllItems(snapshots))
    && Diffs(snapshots, ApplyAll(docs, AllItems(snapshots))) == 0
    && UnexpectedDocs(ApplyAll(docs, AllItems(snapshots)), EventIds(snapshots)) == {}
  }

  ghost predicate AllRebuildable(docs: map<EventId, Doc>, snapshots: seq<Snapshot>) {
    forall s | s in snapshots :: Rebuildable(s, Stored(docs, s.event))
  }

  ghost predicate AllWellFormed(docs: map<EventId, Doc>, snapshots: seq<Snapshot>) {
    forall s | s in snapshots :: SnapshotOk(s) && s.types != [] && WellFormedTypes(TypesOf(Stored(docs, s.event)))
  }

  /**
   The rebuild of the whole index succeeds and the reconciliation after it finds nothing if and only if no document holds an
   unexpected type, anything newer than the snapshot or anything contradicting it, coordinates come in pairs, and
   no document belongs to an unknown event.
   */
  lemma RebuildThenReconcileClean(docs: map<EventId, Doc>, snapshots: seq<Snapshot>)
    requires DistinctEvents(snapshots) && AllWellFormed(docs, snapshots)
    ensures CleanAfterRebuild(docs, snapshots) <==>
      AllRebuildable(docs, snapshots) && NothingOrphaned(docs, EventIds(snapshots))
  {
    if AllRebuildable(docs, snapshots) { RebuildableIndex(docs, snapshots); }
    if CleanAfterRebuild(docs, snapshots) {
      CleanIndexWasRebuildable(docs, snapshots);
    }
    if NoneThrew(docs, AllItems(snapshots)) { OrphansStay(docs, snapshots); }
  }

  lemma RebuildableIndex(docs: map<EventId, Doc>, snapshots: seq<Snapshot>)
    requires DistinctEvents(snapshots) && AllWellFormed(docs, snapshots) && AllRebuildable(docs, snapshots)
    ensures NoneThrew(docs, AllItems(snapshots)) && Diffs(snapshots, ApplyAll(docs, AllItems(snapshots))) == 0
  {
    var items := AllItems(snapshots);
    var rebuilt := ApplyAll(docs, items);
    forall e ensures OpsOk(Stored(docs, e), e, OpsFor(items, e)) {
      OpsForEvent(snapshots, e);
      if s :| s in snapshots && s.event == e { EventRebuilt(docs, snapshots, s); }
    }
    NoneThrewPerEvent(docs, items);
    forall s | s in snapshots ensures Shown(s, rebuilt) {
      EventRebuilt(docs, snapshots, s);
    }
    DiffsZeroIff(snapshots, rebuilt);
  }

  lemma CleanIndexWasRebuildable(docs: map<EventId, Doc>, snapshots: seq<Snapshot>)
    requires DistinctEvents(snapshots) && AllWellFormed(docs, snapshots) && CleanAfterRebuild(docs, snapshots)
    ensures AllRebuildable(docs, snapshots)
  {
    var rebuilt := ApplyAll(docs, AllItems(snapshots));
    DiffsZeroIff(snapshots, rebuilt);
    forall s | s in snapshots ensures Rebuildable(s, Stored(docs, s.event)) {
      assert Shown(s, rebuilt);
      SucceededAt(docs, snapshots, s);
      RebuiltDocument(docs, snapshots, s);
      CleanIff(s, Stored(rebuilt, s.event));
      RebuildThenCompareClean(s, Stored(docs, s.event));
    }
  }

  /** A rebuild that threw nowhere succeeded for each event. */
  lemma SucceededAt(docs: map<EventId, Doc>, snapshots: seq<Snapshot>, s: Snapshot)
    requires DistinctEvents(snapshots) && s in snapshots && NoneThrew(docs, AllItems(snapshots))
    ensures RebuildSucceeds(s, Stored(docs, s.event))
  {
    NoneThrewPerEvent(docs, AllItems(snapshots));
    OpsForEvent(snapshots, s.event);
    assert OpsOk(Stored(docs, s.event), s.event, OpsFor(AllItems(snapshots), s.event));
    OpsOkSucceeds(s, Stored(docs, s.event));
  }

  lemma OpsOkSucceeds(s: Snapshot, doc: Doc)
    requires OpsOk(doc, s.event, RebuildOps(s))
    ensures RebuildSucceeds(s, doc)
  {
    var ops, payloads := RebuildOps(s), Payloads(s, s.types);
    OpsOkIff(doc, s.event, ops);
    assert Passed(doc, s.event, ops, 0);
    assert ops[..0] == [];
    forall k | 0 <= k < |payloads| && payloads[k].Inventory?
      ensures !Guard(Deliver(Described(s, doc), s.event, payloads[..k]), payloads[k].change).Threw?
    {
      assert Passed(doc, s.event, ops, k + 1);
      OpsSplit(s, doc, k);
    }
  }

  /** The updates before payload `k` are the metadata update and the payloads before it. */
  lemma OpsSplit(s: Snapshot, doc: Doc, k: nat)
    requires k < |s.types|
    ensures RebuildOps(s)[k + 1] == Payloads(s, s.types)[k]
    ensures Deliver(doc, s.event, RebuildOps(s)[..k + 1]) == Deliver(Described(s, doc), s.event, Payloads(s, s.types)[..k])
  {
    var ops, payloads := RebuildOps(s), Payloads(s, s.types);
    assert ops[..k + 1] == [ops[0]] + payloads[..k];
    DeliverJoin(doc, s.event, [ops[0]], payloads[..k]);
    assert [ops[0]][..0] == [];
  }

  lemma {:induction false} ApplyElsewhere(docs: map<EventId, Doc>, items: seq<Item>, k: EventId)
    requires forall i | 0 <= i < |items| :: items[i].event != k
    ensures k in ApplyAll(docs, items) <==> k in docs
    ensures k in docs ==> ApplyAll(docs, items)[k] == docs[k]
  {
    if items != [] { ApplyElsewhere(docs, items[..|items| - 1], k); }
  }

  /** A rebuild names the documents of its events, and touches no other. */
  lemma OrphansStay(docs: map<EventId, Doc>, snapshots: seq<Snapshot>)
    requires DistinctEvents(snapshots) && NoneThrew(docs, AllItems(snapshots))
    ensures UnexpectedDocs(ApplyAll(docs, AllItems(snapshots)), EventIds(snapshots)) == {}
            <==> NothingOrphaned(docs, EventIds(snapshots))
  {
    var items, known := AllItems(snapshots), EventIds(snapshots);
    var rebuilt := ApplyAll(docs, items);
    ItemsHaveEvents(snapshots);
    forall k ensures k in UnexpectedDocs(rebuilt, known) <==>
                     k in docs && k !in known && !(docs[k].eventId.Some? && docs[k].eventId.value in known)
    {
      if k in known {
        var s :| s in snapshots && s.event == k;
        SucceededAt(docs, snapshots, s);
        RebuiltDocument(docs, snapshots, s);
        RebuildNamesDocument(s, Stored(docs, k));
        assert k in rebuilt ==> rebuilt[k].eventId == Some(k);
      } else {
        ApplyElsewhere(docs, items, k);
      }
    }
  }

  lemma EventRebuilt(docs: map<EventId, Doc>, snapshots: seq<Snapshot>, s: Snapshot)
    requires DistinctEvents(snapshots) && s in snapshots && SnapshotOk(s) && s.types != []
    requires WellFormedTypes(TypesOf(Stored(docs, s.event))) && Rebuildable(s, Stored(docs, s.event))
    ensures OpsOk(Stored(docs, s.event), s.event, RebuildOps(s))
    ensures var rebuilt := ApplyAll(docs, AllItems(snapshots));
      s.event in rebuilt && Agrees(s, rebuilt[s.event]) && rebuilt[s.event].eventId == Some(s.event)
  {
    var doc := Stored(docs, s.event);
    RebuildThenCompareClean(s, doc);
    RebuiltDocument(docs, snapshots, s);
    CleanIff(s, Deliver(doc, s.event, RebuildOps(s)));
    PayloadsOk(doc, s);
    RebuildNamesDocument(s, doc);
    assert UPSERT.eventId.None?;
  }

  lemma {:induction false} RebuiltKeys(docs: map<EventId, Doc>, items: seq<Item>)
    ensures forall k | k in ApplyAll(docs, items) :: k in docs || exists i :: 0 <= i < |items| && items[i].event == k
  {
    if items != [] {
      RebuiltKeys(docs, items[..|items| - 1]);
      forall k | k in ApplyAll(docs, items[..|items| - 1]) && k !in docs
        ensures exists i :: 0 <= i < |items| && items[i].event == k
      {
        var i :| 0 <= i < |items| - 1 && items[..|items| - 1][i].event == k;
        assert items[i].event == k;
      }
    }
  }

  lemma {:induction false} ItemsHaveEvents(snapshots: seq<Snapshot>)
    ensures forall i | 0 <= i < |AllItems(snapshots)| :: AllItems(snapshots)[i].event in EventIds(snapshots)
  {
    if snapshots != [] {
      var front, last := snapshots[..|snapshots| - 1], snapshots[|snapshots| - 1];
      assert snapshots == front + [last];
      ItemsHaveEvents(front);
      assert EventIds(snapshots) == EventIds(front) + {last.event};
    }
  }

  /** The metadata update names the document, and no later update renames it. */
  lemma RebuildNamesDocument(s: Snapshot, doc: Doc)
    requires RebuildSucceeds(s, doc)
    ensures Deliver(doc, s.event, RebuildOps(s)).eventId == Some(s.event)
  {
    RebuildDelivers(s, doc);
    PayloadsKeepName(Described(s, doc), s, s.types);
  }

  lemma {:induction false} PayloadsKeepName(doc: Doc, s: Snapshot, rows: seq<TypeRow>)
    requires doc.eventId == Some(s.event)
    ensures Deliver(doc, s.event, Payloads(s, rows)).eventId == Some(s.event)
  {
    if rows != [] {
      assert Payloads(s, rows)[..|rows| - 1] == Payloads(s, rows[..|rows| - 1]);
      PayloadsKeepName(doc, s, rows[..|rows| - 1]);
    }
  }
}
