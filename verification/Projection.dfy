/**
 The search document of an event and the scripts that update it. A null field and an absent one are both None;
 a script that throws, or sets ctx.op to 'noop', leaves the stored document as it was.
 */
module Projection {
  import opened Common
  import opened InventoryMessages

  /** One element of the nested ticket_types list. */
  datatype Entry = Entry(id: Option<TypeId>, name: Option<string>, total: Option<int>, remaining: Option<int>, version: Option<int>)

  datatype Location = Location(lat: real, lon: real)

  /** A starts_at field as far as a comparison can read it. */
  datatype Timestamp = Missing | Unparseable | Instant(ms: int)

  datatype Doc = Doc(
    eventId: Option<EventId>,
    title: Option<string>, kind: Option<string>, startsAt: Timestamp, location: Option<Location>,
    total: Option<int>, remaining: Option<int>,
    eventTotal: Option<int>, eventRemaining: Option<int>, eventVersion: Option<int>,
    types: Option<seq<Entry>>)

  /** The document a scripted upsert starts from. */
  const UPSERT: Doc := Doc(None, None, None, Missing, None, None, None, None, None, None, None)

  datatype Effect = Wrote(doc: Doc) | Noop | Threw

  /** The stored document after an update. */
  function After(doc: Doc, effect: Effect): Doc {
    if effect.Wrote? then effect.doc else doc
  }

  function EntryOf(c: Change): Entry {
    Entry(Some(c.typeId), Some(c.typeName), Some(c.typeTotal), Some(c.typeRemaining), Some(c.typeVersion))
  }

  function TypesOf(doc: Doc): seq<Entry> {
    if doc.types.Some? then doc.types.value else []
  }

  // --- Searching the nested list ---

  /** Index of the first element with the id, or the length of the list. */
  function IndexOf(types: seq<Entry>, t: TypeId): (i: nat)
    ensures i <= |types|
    ensures i < |types| ==> types[i].id == Some(t)
    ensures forall j | 0 <= j < i :: types[j].id != Some(t)
  {
    if types == [] || types[0].id == Some(t) then 0
    else
      assert forall j | 1 <= j < |types| :: types[j] == types[1..][j - 1];
      1 + IndexOf(types[1..], t)
  }

  function Find(types: seq<Entry>, t: TypeId): Option<Entry> {
    var i := IndexOf(types, t);
    if i < |types| then Some(types[i]) else None
  }

  function Lookup(doc: Doc, t: TypeId): Option<Entry> {
    Find(TypesOf(doc), t)
  }

  // --- INVENTORY_VERSION_GUARD_SCRIPT ---

  /** What a version guard decides, given the stored version. */
  datatype Decision = Apply | Same | Stale

  function Decide(incoming: int, stored: int): Decision {
    if incoming > stored then Apply else if incoming == stored then Same else Stale
  }

  datatype TypesEffect = TypesWritten(types: seq<Entry>) | TypesKept | TypesThrew

  /** The ticket type half of the script. */
  function GuardTypes(types: seq<Entry>, c: Change): TypesEffect {
    var i := IndexOf(types, c.typeId);
    if i == |types| then TypesWritten(types + [EntryOf(c)])
    else if types[i].version.None? then TypesThrew
    else match Decide(c.typeVersion, types[i].version.value)
      case Apply => TypesWritten(types[i := EntryOf(c)])
      case Same => if types[i] == EntryOf(c) then TypesKept else TypesThrew
      case Stale => TypesKept
  }

  /** The event half: None keeps, and a throw is told apart by GuardThrowsOnEvent. */
  predicate GuardWritesEvent(doc: Doc, c: Change) {
    doc.eventVersion.None? || c.eventVersion > doc.eventVersion.value
  }

  predicate GuardThrowsOnEvent(doc: Doc, c: Change) {
    doc.eventVersion == Some(c.eventVersion)
    && (doc.eventTotal != Some(c.eventTotal) || doc.eventRemaining != Some(c.eventRemaining))
  }

  function EventWritten(doc: Doc, c: Change): Doc {
    doc.(eventVersion := Some(c.eventVersion), eventTotal := Some(c.eventTotal), eventRemaining := Some(c.eventRemaining),
         total := Some(c.eventTotal), remaining := Some(c.eventRemaining))
  }

  function Guard(doc: Doc, c: Change): Effect {
    var typed := GuardTypes(TypesOf(doc), c);
    if typed.TypesThrew? || GuardThrowsOnEvent(doc, c) then Threw
    else if typed.TypesKept? && !GuardWritesEvent(doc, c) then Noop
    else
      var doc1 := doc.(types := Some(if typed.TypesWritten? then typed.types else TypesOf(doc)), eventId := Some(c.event));
      Wrote(if GuardWritesEvent(doc, c) then EventWritten(doc1, c) else doc1)
  }

  method GuardScript(source: Doc, params: Change) returns (r: Effect)
    ensures r == Guard(source, params)
  {
    var doc := source;
    var changed := false;
    if doc.types.None? { doc := doc.(types := Some([])); }
    var types := doc.types.value;
    var i := 0;
    while i < |types| && types[i].id != Some(params.typeId)
      invariant i <= |types|
      invariant forall j | 0 <= j < i :: types[j].id != Some(params.typeId)
    {
      i := i + 1;
    }
    assert i == IndexOf(types, params.typeId);
    if i == |types| {
      types := types + [EntryOf(params)];
      changed := true;
    } else {
      if types[i].version.None? { return Threw; }
      var stored := types[i].version.value;
      if params.typeVersion > stored {
        types := types[i := types[i].(name := Some(params.typeName), total := Some(params.typeTotal),
                                      remaining := Some(params.typeRemaining), version := Some(params.typeVersion))];
        changed := true;
      } else if params.typeVersion == stored {
        if types[i].total != Some(params.typeTotal) || types[i].remaining != Some(params.typeRemaining)
           || types[i].name != Some(params.typeName) {
          return Threw;
        }
      }
    }
    doc := doc.(types := Some(types));
    if doc.eventVersion.None? || params.eventVersion > doc.eventVersion.value {
      doc := doc.(eventVersion := Some(params.eventVersion));
      doc := doc.(eventTotal := Some(params.eventTotal), eventRemaining := Some(params.eventRemaining));
      doc := doc.(total := Some(params.eventTotal), remaining := Some(params.eventRemaining));
      changed := true;
    } else if params.eventVersion == doc.eventVersion.value {
      if doc.eventTotal != Some(params.eventTotal) || doc.eventRemaining != Some(params.eventRemaining) { return Threw; }
    }
    if !changed { return Noop; }
    r := Wrote(doc.(eventId := Some(params.event)));
  }

  // --- LEGACY_INVENTORY_SCRIPT and EVENT_METADATA_SCRIPT ---

  function LegacyInventory(doc: Doc, event: EventId, remaining: int): Effect {
    if doc.eventVersion.None? then Wrote(doc.(remaining := Some(remaining), eventId := Some(event))) else Noop
  }

  /** A coordinate of a payload: absent, an explicit null, a finite number, NaN or an infinity. */
  datatype Coordinate = Absent | Null | Finite(x: real) | NotFinite

  datatype Directive = Set(location: Location) | Clear | Preserve | Invalid

  /** resolveLocationDirective */
  function ResolveLocation(lat: Coordinate, lon: Coordinate): (d: Directive)
    ensures d.Preserve? <==> lat.Absent? && lon.Absent?
    ensures d.Invalid? <==> lat.NotFinite? || lon.NotFinite? || lat.Absent? != lon.Absent? || lat.Null? != lon.Null?
  {
    if lat.Absent? && lon.Absent? then Preserve
    else if lat.Null? && lon.Null? then Clear
    else if lat.Finite? && lon.Finite? then Set(Location(lat.x, lon.x))
    else Invalid
  }

  datatype Metadata = Metadata(
    event: EventId, title: Option<string>, kind: Option<string>, startsAt: Timestamp,
    lat: Coordinate, lon: Coordinate, total: Option<int>, remaining: Option<int>)

  /** The script after its parameters were built; an invalid location throws before any request is sent. */
  function ApplyMetadata(doc: Doc, m: Metadata): Effect {
    var directive := ResolveLocation(m.lat, m.lon);
    if directive.Invalid? then Threw
    else
      var seeds := doc.eventVersion.None?;
      Wrote(doc.(eventId := Some(m.event), title := m.title, kind := m.kind, startsAt := m.startsAt,
                 location := match directive
                             case Set(location) => Some(location)
                             case Clear => None
                             case _ => doc.location,
                 total := if seeds && doc.total.None? then m.total else doc.total,
                 remaining := if seeds && doc.remaining.None? then m.remaining else doc.remaining))
  }

  method LegacyScript(source: Doc, event: EventId, remaining: int) returns (r: Effect)
    ensures r == LegacyInventory(source, event, remaining)
  {
    var doc := source;
    if doc.eventVersion.Some? { return Noop; }
    doc := doc.(remaining := Some(remaining));
    doc := doc.(eventId := Some(event));
    r := Wrote(doc);
  }

  method MetadataScript(source: Doc, m: Metadata) returns (r: Effect)
    ensures r == ApplyMetadata(source, m)
  {
    var directive := ResolveLocation(m.lat, m.lon);
    if directive.Invalid? { return Threw; }
    var doc := source.(eventId := Some(m.event), title := m.title, kind := m.kind, startsAt := m.startsAt);
    if directive.Set? {
      doc := doc.(location := Some(directive.location));
    } else if directive.Clear? {
      doc := doc.(location := None);
    }
    if doc.eventVersion.None? {
      if doc.total.None? { doc := doc.(total := m.total); }
      if doc.remaining.None? { doc := doc.(remaining := m.remaining); }
    }
    r := Wrote(doc);
  }

  // --- The index ---

  /** The operations a worker or a rebuild sends to the document of one event. */
  datatype Op = Inventory(change: Change) | Remaining(remaining: int) | Describe(metadata: Metadata)

  function Effects(doc: Doc, event: EventId, op: Op): Effect {
    match op
    case Inventory(c) => Guard(doc, c)
    case Remaining(n) => LegacyInventory(doc, event, n)
    case Describe(m) => ApplyMetadata(doc, m)
  }

  // --- What each update does to the fields ---

  /** Everything but the nested list, the event fields, the top-level quantities and the event id. */
  predicate SameMetadata(a: Doc, b: Doc) {
    a.title == b.title && a.kind == b.kind && a.startsAt == b.startsAt && a.location == b.location
  }

  /**
   When the guard writes, the document carries the id of its event, whatever it carried before; the event fields and the
   top-level quantities become those of the message together or stay together, and descriptions stay.
   */
  lemma GuardWrites(doc: Doc, c: Change)
    requires Guard(doc, c).Wrote?
    ensures var end := Guard(doc, c).doc;
      && end.eventId == Some(c.event) && SameMetadata(doc, end) && end.types.Some?
      && (if doc.eventVersion.Some? && c.eventVersion <= doc.eventVersion.value then
            (end.eventVersion, end.eventTotal, end.eventRemaining, end.total, end.remaining)
            == (doc.eventVersion, doc.eventTotal, doc.eventRemaining, doc.total, doc.remaining)
          else
            (end.eventVersion, end.eventTotal, end.eventRemaining, end.total, end.remaining)
            == (Some(c.eventVersion), Some(c.eventTotal), Some(c.eventRemaining), Some(c.eventTotal), Some(c.eventRemaining)))
  {
  }

  /** An unversioned quantity: written with the id of the event exactly while no versioned state exists, and nothing else moves. */
  lemma LegacyWrites(doc: Doc, event: EventId, remaining: int)
    ensures var effect := LegacyInventory(doc, event, remaining);
      && !effect.Threw? && (effect.Wrote? <==> doc.eventVersion.None?)
      && (effect.Wrote? ==>
            var end := effect.doc;
            && end.eventId == Some(event) && end.remaining == Some(remaining) && SameMetadata(doc, end)
            && end.total == doc.total && end.types == doc.types
            && end.eventVersion == doc.eventVersion && end.eventTotal == doc.eventTotal && end.eventRemaining == doc.eventRemaining)
  {
  }

  /**
   Metadata: refused only for an invalid location; otherwise the descriptions are replaced, the location is the new one, gone
   or kept, quantities are seeded only where missing and only while unversioned, and versioned state stays.
   */
  lemma MetadataWrites(doc: Doc, m: Metadata)
    ensures ApplyMetadata(doc, m).Threw? <==>
      !(m.lat.Absent? && m.lon.Absent?) && !(m.lat.Null? && m.lon.Null?) && !(m.lat.Finite? && m.lon.Finite?)
    ensures !ApplyMetadata(doc, m).Threw? ==>
      ApplyMetadata(doc, m).Wrote?
      && var end := ApplyMetadata(doc, m).doc;
      && end.eventId == Some(m.event) && end.title == m.title && end.kind == m.kind && end.startsAt == m.startsAt
      && (m.lat.Absent? ==> end.location == doc.location) && (m.lat.Null? ==> end.location == None)
      && (m.lat.Finite? ==> end.location == Some(Location(m.lat.x, m.lon.x)))
      && end.types == doc.types
      && end.eventVersion == doc.eventVersion && end.eventTotal == doc.eventTotal && end.eventRemaining == doc.eventRemaining
      && end.total == (if doc.total.None? && doc.eventVersion.None? then m.total else doc.total)
      && end.remaining == (if doc.remaining.None? && doc.eventVersion.None? then m.remaining else doc.remaining)
  {
  }

  /** The update is one of this event. */
  predicate Concerns(op: Op, event: EventId) {
    match op
    case Inventory(c) => c.event == event
    case Remaining(_) => true
    case Describe(m) => m.event == event
  }

  lemma WriteNames(doc: Doc, event: EventId, op: Op)
    requires Concerns(op, event) && Effects(doc, event, op).Wrote?
    ensures Effects(doc, event, op).doc.eventId == Some(event)
  {
    match op
    case Inventory(c) => GuardWrites(doc, c);
    case Remaining(n) => LegacyWrites(doc, event, n);
    case Describe(m) => MetadataWrites(doc, m);
  }

  /** The events index; scripted updates upsert. */
  class Index {
    var docs: map<EventId, Doc>

    constructor ()
      ensures docs == map[]
    {
      docs := map[];
    }

    /** applyParsedInventoryChanged and applyEventMetadata: one atomic scripted update. */
    method Update(event: EventId, op: Op) returns (effect: Effect)
      modifies this
      ensures var before := Stored(old(docs), event);
        && effect == Effects(before, event, op)
        && docs == if effect.Wrote? then old(docs)[event := effect.doc] else old(docs)
    {
      var source := if event in docs then docs[event] else UPSERT;
      match op {
        case Inventory(c) => effect := GuardScript(source, c);
        case Remaining(n) => effect := LegacyScript(source, event, n);
        case Describe(m) => effect := MetadataScript(source, m);
      }
      if effect.Wrote? { docs := docs[event := effect.doc]; }
    }
  }

  function Stored(docs: map<EventId, Doc>, event: EventId): Doc {
    if event in docs then docs[event] else UPSERT
  }
}
