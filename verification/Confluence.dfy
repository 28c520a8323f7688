/** Versioned messages converge: order, duplication and interleaved legacy or metadata updates do not matter. */
module Confluence {
  import opened Common
  import opened InventoryMessages
  import opened Projection

  /** Two messages of one event say the same wherever they carry the same version. */
  predicate Agree(a: Change, b: Change) {
    && (a.typeId == b.typeId && a.typeVersion == b.typeVersion ==> EntryOf(a) == EntryOf(b))
    && (a.eventVersion == b.eventVersion ==> a.eventTotal == b.eventTotal && a.eventRemaining == b.eventRemaining)
  }

  ghost predicate AllAgree(msgs: set<Change>) {
    forall a, b | a in msgs && b in msgs :: Agree(a, b)
  }

  /** Every element has an id and all values, and no id occurs twice. */
  predicate WellFormedTypes(types: seq<Entry>) {
    && (forall i | 0 <= i < |types| :: types[i].id.Some? && types[i].version.Some?)
    && (forall i, j | 0 <= i < j < |types| :: types[i].id != types[j].id)
  }

  /** The list holds, for each type some message named, the values of one of its messages of maximal version. */
  ghost predicate TypesMirror(types: seq<Entry>, msgs: set<Change>) {
    && WellFormedTypes(types)
    && (forall i | 0 <= i < |types| :: FromMessage(types[i], msgs))
    && (forall c | c in msgs :: Dominated(types, c))
  }

  ghost predicate FromMessage(e: Entry, msgs: set<Change>) {
    exists c :: c in msgs && EntryOf(c) == e
  }

  predicate Dominated(types: seq<Entry>, c: Change) {
    var i := IndexOf(types, c.typeId);
    i < |types| && types[i].version.Some? && types[i].version.value >= c.typeVersion
  }

  ghost predicate EventMirror(doc: Doc, msgs: set<Change>) {
    && (doc.eventVersion.None? <==> msgs == {})
    && (doc.eventVersion.Some? ==>
          && (exists c :: c in msgs && EventOf(c) == (doc.eventVersion, doc.eventTotal, doc.eventRemaining))
          && doc.total == doc.eventTotal && doc.remaining == doc.eventRemaining)
    && (forall c | c in msgs :: doc.eventVersion.Some? && doc.eventVersion.value >= c.eventVersion)
  }

  function EventOf(c: Change): (Option<int>, Option<int>, Option<int>) {
    (Some(c.eventVersion), Some(c.eventTotal), Some(c.eventRemaining))
  }

  /** The document shows exactly what the messages in `msgs` amount to. */
  ghost predicate Mirrors(doc: Doc, msgs: set<Change>) {
    TypesMirror(TypesOf(doc), msgs) && EventMirror(doc, msgs)
  }

  /** In a list without repeated ids, any position with the id is the one a search finds. */
  lemma IndexUnique(types: seq<Entry>, i: nat, t: TypeId)
    requires WellFormedTypes(types) && i < |types| && types[i].id == Some(t)
    ensures IndexOf(types, t) == i
  {
  }

  /** The type half of the guard never throws on an agreeing message, and keeps the list a mirror. */
  lemma GuardKeepsTypes(types: seq<Entry>, msgs: set<Change>, c: Change)
    requires TypesMirror(types, msgs) && AllAgree(msgs + {c})
    ensures var r := GuardTypes(types, c);
      !r.TypesThrew? && TypesMirror(if r.TypesWritten? then r.types else types, msgs + {c})
  {
    var i := IndexOf(types, c.typeId);
    if i < |types| {
      assert FromMessage(types[i], msgs);
      var m :| m in msgs && EntryOf(m) == types[i];
      assert Agree(c, m);
    }
    var r := GuardTypes(types, c);
    if r.TypesWritten? {
      EntryWritten(types, r.types, msgs, c, i);
    } else {
      KeptMirrors(types, msgs, c);
    }
  }

  /** The entry of the message appended, or put in the place of an older one. */
  lemma EntryWritten(types: seq<Entry>, types': seq<Entry>, msgs: set<Change>, c: Change, i: nat)
    requires TypesMirror(types, msgs) && i == IndexOf(types, c.typeId)
    requires if i == |types| then types' == types + [EntryOf(c)] else
               types' == types[i := EntryOf(c)] && types[i].version.value < c.typeVersion
    ensures TypesMirror(types', msgs + {c})
  {
    assert WellFormedTypes(types');
    forall j | 0 <= j < |types'| ensures FromMessage(types'[j], msgs + {c}) {
      if j == i {
        assert types'[j] == EntryOf(c);
      } else {
        assert types'[j] == types[j];
        assert FromMessage(types[j], msgs);
      }
    }
    forall m | m in msgs + {c} ensures Dominated(types', m) {
      if m != c {
        assert Dominated(types, m);
        IndexUnique(types', IndexOf(types, m.typeId), m.typeId);
      } else {
        IndexUnique(types', i, c.typeId);
      }
    }
  }

  lemma KeptMirrors(types: seq<Entry>, msgs: set<Change>, c: Change)
    requires TypesMirror(types, msgs) && Dominated(types, c)
    ensures TypesMirror(types, msgs + {c})
  {
    forall j | 0 <= j < |types| ensures FromMessage(types[j], msgs + {c}) {
      assert FromMessage(types[j], msgs);
    }
  }

  /** An agreeing message never raises corruption, and after it the document mirrors one message more. */
  lemma GuardKeepsMirror(doc: Doc, msgs: set<Change>, c: Change)
    requires Mirrors(doc, msgs) && AllAgree(msgs + {c})
    ensures !Guard(doc, c).Threw? && Mirrors(After(doc, Guard(doc, c)), msgs + {c})
  {
    GuardKeepsTypes(TypesOf(doc), msgs, c);
    GuardKeepsEvent(doc, msgs, c);
  }

  lemma GuardKeepsEvent(doc: Doc, msgs: set<Change>, c: Change)
    requires EventMirror(doc, msgs) && AllAgree(msgs + {c})
    ensures !GuardThrowsOnEvent(doc, c)
    ensures EventMirror(if GuardWritesEvent(doc, c) then EventWritten(doc, c) else doc, msgs + {c})
  {
    if doc.eventVersion.Some? {
      var m :| m in msgs && EventOf(m) == (doc.eventVersion, doc.eventTotal, doc.eventRemaining);
      assert Agree(m, c);
      assert m in msgs + {c};
    }
    var doc' := if GuardWritesEvent(doc, c) then EventWritten(doc, c) else doc;
    assert c in msgs + {c} && doc'.eventVersion.Some?;
    if GuardWritesEvent(doc, c) {
      assert EventOf(c) == (doc'.eventVersion, doc'.eventTotal, doc'.eventRemaining);
    }
  }

  /** Legacy inventory and metadata updates never touch what the versioned messages own. */
  lemma OtherKeepsMirror(doc: Doc, msgs: set<Change>, event: EventId, op: Op)
    requires Mirrors(doc, msgs) && !op.Inventory?
    ensures Mirrors(After(doc, Effects(doc, event, op)), msgs)
  {
  }

  // --- Runs ---

  function Deliver(doc: Doc, event: EventId, ops: seq<Op>): Doc {
    if ops == [] then doc
    else
      var before := Deliver(doc, event, ops[..|ops| - 1]);
      After(before, Effects(before, event, ops[|ops| - 1]))
  }

  /** Once any update of an event has been written, its document carries the id of the event. */
  lemma {:induction false} DeliveryNames(doc: Doc, event: EventId, ops: seq<Op>, k: nat)
    requires k < |ops| && forall op | op in ops :: Concerns(op, event)
    requires Effects(Deliver(doc, event, ops[..k]), event, ops[k]).Wrote?
    ensures Deliver(doc, event, ops).eventId == Some(event)
    decreases |ops|
  {
    var front, last := ops[..|ops| - 1], ops[|ops| - 1];
    assert last in ops;
    if k < |front| {
      assert front[..k] == ops[..k] && front[k] == ops[k];
      assert forall op | op in front :: op in ops;
      DeliveryNames(doc, event, front, k);
    }
    if Effects(Deliver(doc, event, front), event, last).Wrote? { WriteNames(Deliver(doc, event, front), event, last); }
  }

  ghost function MessagesOf(ops: seq<Op>): set<Change> {
    set op | op in ops && op.Inventory? :: op.change
  }

  /** No update of the sequence raised contract corruption. */
  ghost predicate NeverCorrupt(doc: Doc, event: EventId, ops: seq<Op>) {
    forall k | 0 <= k < |ops| && ops[k].Inventory? :: !Guard(Deliver(doc, event, ops[..k]), ops[k].change).Threw?
  }

  lemma NeverCorruptExtends(doc: Doc, event: EventId, front: seq<Op>, op: Op)
    requires NeverCorrupt(doc, event, front)
    requires op.Inventory? ==> !Guard(Deliver(doc, event, front), op.change).Threw?
    ensures NeverCorrupt(doc, event, front + [op])
  {
    var ops := front + [op];
    forall k | 0 <= k < |ops| && ops[k].Inventory?
      ensures !Guard(Deliver(doc, event, ops[..k]), ops[k].change).Threw?
    {
      if k < |front| { assert ops[..k] == front[..k] && ops[k] == front[k]; } else { assert ops[..k] == front; }
    }
  }

  /** One more update: the messages and the absence of corruption extend. */
  lemma DeliverOneMore(doc: Doc, msgs: set<Change>, event: EventId, front: seq<Op>, op: Op)
    requires var before := Deliver(doc, event, front);
      Mirrors(before, msgs) && NeverCorrupt(doc, event, front)
    requires op.Inventory? ==> AllAgree(msgs + {op.change})
    ensures NeverCorrupt(doc, event, front + [op])
    ensures Mirrors(Deliver(doc, event, front + [op]), if op.Inventory? then msgs + {op.change} else msgs)
  {
    var before := Deliver(doc, event, front);
    assert (front + [op])[..|front|] == front;
    if op.Inventory? { GuardKeepsMirror(before, msgs, op.change); } else { OtherKeepsMirror(before, msgs, event, op); }
    NeverCorruptExtends(doc, event, front, op);
  }

  lemma MessagesExtend(front: seq<Op>, op: Op)
    ensures MessagesOf(front + [op]) == MessagesOf(front) + (if op.Inventory? then {op.change} else {})
  {
    assert op in front + [op];
    forall o | o in front ensures o in front + [op] {}
  }

  lemma {:induction false} DeliveryMirrors(doc: Doc, msgs: set<Change>, event: EventId, ops: seq<Op>)
    requires Mirrors(doc, msgs) && AllAgree(msgs + MessagesOf(ops))
    ensures NeverCorrupt(doc, event, ops)
    ensures Mirrors(Deliver(doc, event, ops), msgs + MessagesOf(ops))
  {
    if ops == [] {
      assert msgs + MessagesOf(ops) == msgs;
    } else {
      var front, op := ops[..|ops| - 1], ops[|ops| - 1];
      var seen := msgs + MessagesOf(front);
      MessagesExtend(front, op);
      assert ops == front + [op];
      assert msgs + MessagesOf(ops) == if op.Inventory? then seen + {op.change} else seen;
      AgreeSubset(seen, msgs + MessagesOf(ops));
      DeliveryMirrors(doc, msgs, event, front);
      DeliverOneMore(doc, seen, event, front, op);
    }
  }

  lemma AgreeSubset(some: set<Change>, all: set<Change>)
    requires some <= all && AllAgree(all)
    ensures AllAgree(some)
  {
  }

  /** The versioned part of a document: a map by type id, since the list keeps arrival order, and the event fields. */
  ghost predicate SameView(a: Doc, b: Doc) {
    && (forall t: TypeId :: Lookup(a, t) == Lookup(b, t))
    && a.eventVersion == b.eventVersion
    && (a.eventVersion.Some? ==> a.eventTotal == b.eventTotal && a.eventRemaining == b.eventRemaining)
    && (a.eventVersion.Some? ==> a.total == b.total && a.remaining == b.remaining)
  }

  /** What a document mirrors determines its versioned part. */
  lemma MirrorsDetermine(a: Doc, b: Doc, msgs: set<Change>)
    requires Mirrors(a, msgs) && Mirrors(b, msgs) && AllAgree(msgs)
    ensures SameView(a, b)
  {
    forall t: TypeId ensures Lookup(a, t) == Lookup(b, t) {
      EntryDetermined(TypesOf(a), TypesOf(b), msgs, t);
      EntryDetermined(TypesOf(b), TypesOf(a), msgs, t);
    }
    EventDetermined(a, b, msgs);
  }

  lemma EventDetermined(a: Doc, b: Doc, msgs: set<Change>)
    requires EventMirror(a, msgs) && EventMirror(b, msgs) && AllAgree(msgs)
    ensures a.eventVersion == b.eventVersion
    ensures a.eventVersion.Some? ==> a.eventTotal == b.eventTotal && a.eventRemaining == b.eventRemaining
    ensures a.eventVersion.Some? ==> a.total == b.total && a.remaining == b.remaining
  {
    if a.eventVersion.Some? {
      var ca :| ca in msgs && EventOf(ca) == (a.eventVersion, a.eventTotal, a.eventRemaining);
      var cb :| cb in msgs && EventOf(cb) == (b.eventVersion, b.eventTotal, b.eventRemaining);
      assert Agree(ca, cb);
    }
  }

  lemma EntryDetermined(a: seq<Entry>, b: seq<Entry>, msgs: set<Change>, t: TypeId)
    requires TypesMirror(a, msgs) && TypesMirror(b, msgs) && AllAgree(msgs)
    ensures var i, j := IndexOf(a, t), IndexOf(b, t); i < |a| ==> j < |b| && b[j] == a[i]
  {
    var i := IndexOf(a, t);
    if i < |a| {
      assert FromMessage(a[i], msgs);
      var ca :| ca in msgs && EntryOf(ca) == a[i];
      assert Dominated(b, ca);
      var j := IndexOf(b, t);
      assert FromMessage(b[j], msgs);
      var cb :| cb in msgs && EntryOf(cb) == b[j];
      assert Dominated(a, cb);
      assert Agree(ca, cb);
    }
  }

  /**
   From a document without versioned state, any two deliveries of the same set of agreeing messages, in any order,
   with any duplication, each interleaved with its own legacy and metadata updates, raise no corruption and
   end in the same view.
   */
  lemma OrderDoesNotMatter(docA: Doc, docB: Doc, event: EventId, opsA: seq<Op>, opsB: seq<Op>)
    requires docA.eventVersion.None? && TypesOf(docA) == [] && docB.eventVersion.None? && TypesOf(docB) == []
    requires MessagesOf(opsA) == MessagesOf(opsB) && AllAgree(MessagesOf(opsA))
    ensures NeverCorrupt(docA, event, opsA) && NeverCorrupt(docB, event, opsB)
    ensures SameView(Deliver(docA, event, opsA), Deliver(docB, event, opsB))
  {
    assert {} + MessagesOf(opsA) == MessagesOf(opsA);
    DeliveryMirrors(docA, {}, event, opsA);
    DeliveryMirrors(docB, {}, event, opsB);
    MirrorsDetermine(Deliver(docA, event, opsA), Deliver(docB, event, opsB), MessagesOf(opsA));
  }

  /** The view is, per type and for the event, the values of a message no other message of the set outranks. */
  lemma NewestWins(doc: Doc, event: EventId, ops: seq<Op>, c: Change)
    requires doc.eventVersion.None? && TypesOf(doc) == []
    requires AllAgree(MessagesOf(ops)) && c in MessagesOf(ops)
    ensures var end := Deliver(doc, event, ops);
      && ((forall m | m in MessagesOf(ops) && m.typeId == c.typeId :: m.typeVersion <= c.typeVersion)
            <==> Lookup(end, c.typeId) == Some(EntryOf(c)))
      && ((forall m | m in MessagesOf(ops) :: m.eventVersion <= c.eventVersion)
            <==> (end.eventVersion, end.eventTotal, end.eventRemaining) == EventOf(c))
      && end.total == end.eventTotal && end.remaining == end.eventRemaining
  {
    var msgs := MessagesOf(ops);
    assert {} + msgs == msgs;
    DeliveryMirrors(doc, {}, event, ops);
    NewestTypeWins(TypesOf(Deliver(doc, event, ops)), msgs, c);
    NewestEventWins(Deliver(doc, event, ops), msgs, c);
  }

  lemma NewestTypeWins(types: seq<Entry>, msgs: set<Change>, c: Change)
    requires TypesMirror(types, msgs) && AllAgree(msgs) && c in msgs
    ensures var i := IndexOf(types, c.typeId);
      i < |types| && (types[i] == EntryOf(c) <==> forall m | m in msgs && m.typeId == c.typeId :: m.typeVersion <= c.typeVersion)
  {
    var i := IndexOf(types, c.typeId);
    assert Dominated(types, c);
    assert FromMessage(types[i], msgs);
    var m :| m in msgs && EntryOf(m) == types[i];
    assert Agree(m, c);
    if types[i] == EntryOf(c) {
      forall n | n in msgs && n.typeId == c.typeId ensures n.typeVersion <= c.typeVersion {
        assert Dominated(types, n);
      }
    }
  }

  lemma NewestEventWins(doc: Doc, msgs: set<Change>, c: Change)
    requires EventMirror(doc, msgs) && AllAgree(msgs) && c in msgs
    ensures (doc.eventVersion, doc.eventTotal, doc.eventRemaining) == EventOf(c)
            <==> forall m | m in msgs :: m.eventVersion <= c.eventVersion
    ensures doc.total == doc.eventTotal && doc.remaining == doc.eventRemaining
  {
    var e :| e in msgs && EventOf(e) == (doc.eventVersion, doc.eventTotal, doc.eventRemaining);
    assert Agree(e, c);
  }

  /** On any well-formed list the guard throws exactly on an equal version with different values. */
  lemma CorruptionIff(doc: Doc, c: Change)
    requires WellFormedTypes(TypesOf(doc))
    ensures Guard(doc, c).Threw? <==>
      || (Lookup(doc, c.typeId).Some? && Lookup(doc, c.typeId).value.version == Some(c.typeVersion)
          && Lookup(doc, c.typeId).value != EntryOf(c))
      || (doc.eventVersion == Some(c.eventVersion)
          && (doc.eventTotal != Some(c.eventTotal) || doc.eventRemaining != Some(c.eventRemaining)))
    ensures Guard(doc, c).Wrote? ==> Guard(Guard(doc, c).doc, c).Noop?
  {
    if Guard(doc, c).Wrote? { WrittenOnce(doc, c); }
  }

  lemma WrittenOnce(doc: Doc, c: Change)
    requires Guard(doc, c).Wrote?
    ensures Guard(Guard(doc, c).doc, c).Noop?
  {
    var i := IndexOf(TypesOf(doc), c.typeId);
    var types' := TypesOf(Guard(doc, c).doc);
    assert forall j | 0 <= j < i :: types'[j].id != Some(c.typeId);
    IndexIs(types', i, c.typeId);
  }

  lemma IndexIs(types: seq<Entry>, i: nat, t: TypeId)
    requires i < |types| && types[i].id == Some(t)
    requires forall j | 0 <= j < i :: types[j].id != Some(t)
    ensures IndexOf(types, t) == i
  {
  }
}
