/** The comparison of the search projection with an authoritative snapshot. */
module Reconciliation {
  import opened Common
  import opened InventoryMessages
  import opened Projection
  import opened Confluence

  datatype TypeRow = TypeRow(id: TypeId, name: string, total: int, remaining: int, version: int)

  /** AuthoritativeEventInventory; coordinates are NUMERIC(9,6) or null. */
  datatype Snapshot = Snapshot(
    event: EventId, total: int, remaining: int, version: int,
    title: string, kind: string, startsAt: int, lat: Option<real>, lon: Option<real>,
    types: seq<TypeRow>)

  datatype Category =
    | MissingEventDocument | UnexpectedEventDocument | MissingTicketType | UnexpectedTicketType
    | TicketTypeTotalMismatch | TicketTypeRemainingMismatch | TicketTypeVersionMismatch
    | EventTotalMismatch | EventRemainingMismatch | EventVersionMismatch
    | MetadataMismatch | ContractCorruption | UnversionedProjection | MalformedProjection

  datatype Finding = Finding(category: Category, typeId: Option<TypeId>)

  /** Database ranges and the primary key on ticket types. */
  predicate SnapshotOk(s: Snapshot) {
    && 0 <= s.total <= INT4_MAX && 0 <= s.remaining <= INT4_MAX && 0 <= s.version <= INT4_MAX
    && (forall i | 0 <= i < |s.types| :: RowInRange(s.types[i]))
    && (forall i, j | 0 <= i < j < |s.types| :: s.types[i].id != s.types[j].id)
  }

  predicate RowInRange(r: TypeRow) {
    0 <= r.total <= INT4_MAX && 0 <= r.remaining <= INT4_MAX && 0 <= r.version <= INT4_MAX
  }

  /** asQuantityOrNull */
  function AsQuantity(v: Option<int>): Option<int> {
    if v.Some? && 0 <= v.value <= INT4_MAX then v else None
  }

  /** asVersionOrNull */
  function AsVersion(v: Option<int>): Option<int> {
    if v.Some? && 0 <= v.value <= MAX_SAFE_INTEGER then v else None
  }

  const COORDINATE_TOLERANCE: real := 0.000001

  predicate Near(a: real, b: real) {
    -COORDINATE_TOLERANCE < a - b < COORDINATE_TOLERANCE
  }

  /** metadataMatches */
  predicate MetadataMatches(s: Snapshot, doc: Doc) {
    && doc.title == Some(s.title) && doc.kind == Some(s.kind) && doc.startsAt == Instant(s.startsAt)
    && if s.lat.None? || s.lon.None? then doc.location.None?
       else doc.location.Some? && Near(doc.location.value.lat, s.lat.value) && Near(doc.location.value.lon, s.lon.value)
  }

  // --- compareEvent ---

  predicate NothingVersioned(doc: Doc) {
    doc.eventVersion.None? && doc.eventTotal.None? && doc.eventRemaining.None? && TypesOf(doc) == []
  }

  function UnversionedFinding(doc: Doc): Finding {
    if AsQuantity(doc.remaining).Some? || doc.title.Some? || doc.kind.Some? || !doc.startsAt.Missing?
    then Finding(UnversionedProjection, None) else Finding(MalformedProjection, None)
  }

  predicate HeaderReadable(doc: Doc) {
    AsVersion(doc.eventVersion).Some? && AsQuantity(doc.eventTotal).Some? && AsQuantity(doc.eventRemaining).Some?
    && doc.types.Some?
  }

  function When(b: bool, category: Category, t: Option<TypeId>): multiset<Finding> {
    if b then multiset{Finding(category, t)} else multiset{}
  }

  function EventFindings(s: Snapshot, doc: Doc): multiset<Finding> {
    var totalDiffers := doc.eventTotal != Some(s.total);
    var remainingDiffers := doc.eventRemaining != Some(s.remaining);
    if doc.eventVersion == Some(s.version) then When(totalDiffers || remainingDiffers, ContractCorruption, None)
    else multiset{Finding(EventVersionMismatch, None)}
         + When(totalDiffers, EventTotalMismatch, None) + When(remainingDiffers, EventRemainingMismatch, None)
  }

  /** The Map the comparison builds: the last element with an id wins. */
  function TypeMap(types: seq<Entry>): map<TypeId, Entry> {
    if types == [] then map[]
    else
      var last := types[|types| - 1];
      var before := TypeMap(types[..|types| - 1]);
      if last.id.Some? then before[last.id.value := last] else before
  }

  function Nameless(types: seq<Entry>): nat {
    if types == [] then 0
    else Nameless(types[..|types| - 1]) + (if types[|types| - 1].id.None? then 1 else 0)
  }

  function RowFindings(r: TypeRow, docTypes: map<TypeId, Entry>): multiset<Finding> {
    var t := Some(r.id);
    if r.id !in docTypes then multiset{Finding(MissingTicketType, t)}
    else
      var dt := docTypes[r.id];
      var total, remaining, version := AsQuantity(dt.total), AsQuantity(dt.remaining), AsVersion(dt.version);
      if total.None? || remaining.None? || version.None? then multiset{Finding(MalformedProjection, t)}
      else if version.value == r.version then
        When(total.value != r.total || remaining.value != r.remaining || dt.name != Some(r.name), ContractCorruption, t)
      else multiset{Finding(TicketTypeVersionMismatch, t)}
           + When(total.value != r.total, TicketTypeTotalMismatch, t)
           + When(remaining.value != r.remaining, TicketTypeRemainingMismatch, t)
  }

  function RowsFindings(rows: seq<TypeRow>, docTypes: map<TypeId, Entry>): multiset<Finding> {
    if rows == [] then multiset{}
    else RowsFindings(rows[..|rows| - 1], docTypes) + RowFindings(rows[|rows| - 1], docTypes)
  }

  function RowIds(rows: seq<TypeRow>): set<TypeId> {
    set r | r in rows :: r.id
  }

  function UnexpectedFindings(ids: set<TypeId>): set<Finding> {
    set t | t in ids :: Finding(UnexpectedTicketType, Some(t))
  }

  function Compare(s: Snapshot, doc: Doc): multiset<Finding> {
    if NothingVersioned(doc) then multiset{UnversionedFinding(doc)}
    else if !HeaderReadable(doc) then multiset{Finding(MalformedProjection, None)}
    else
      var types := doc.types.value;
      EventFindings(s, doc)
      + When(!MetadataMatches(s, doc), MetadataMismatch, None)
      + multiset{}[Finding(MalformedProjection, None) := Nameless(types)]
      + RowsFindings(s.types, TypeMap(types))
      + multiset(UnexpectedFindings(TypeMap(types).Keys - RowIds(s.types)))
  }

  method CompareEvent(s: Snapshot, doc: Doc) returns (findings: multiset<Finding>)
    ensures findings == Compare(s, doc)
  {
    if doc.eventVersion.None? && doc.eventTotal.None? && doc.eventRemaining.None?
       && (doc.types.None? || |doc.types.value| == 0) {
      return multiset{UnversionedFinding(doc)};
    }
    if AsVersion(doc.eventVersion).None? || AsQuantity(doc.eventTotal).None? || AsQuantity(doc.eventRemaining).None?
       || doc.types.None? {
      return multiset{Finding(MalformedProjection, None)};
    }
    assert TypesOf(doc) == doc.types.value;
    findings := CompareReadable(s, doc);
  }

  /** The comparison of a readable versioned document. */
  method CompareReadable(s: Snapshot, doc: Doc) returns (findings: multiset<Finding>)
    requires !NothingVersioned(doc) && HeaderReadable(doc)
    ensures findings == Compare(s, doc)
  {
    findings := EventFindings(s, doc);
    if !MetadataMatches(s, doc) { findings := findings + multiset{Finding(MetadataMismatch, None)}; }
    var docTypes, nameless := CollectTypes(doc.types.value);
    findings := findings + nameless;
    var rows, seen := CompareRows(s.types, docTypes);
    findings := findings + rows;
    var unexpected := ReportUnexpected(docTypes.Keys, seen);
    findings := findings + unexpected;
  }

  method CollectTypes(types: seq<Entry>) returns (docTypes: map<TypeId, Entry>, findings: multiset<Finding>)
    ensures docTypes == TypeMap(types)
    ensures findings == multiset{}[Finding(MalformedProjection, None) := Nameless(types)]
  {
    docTypes, findings := map[], multiset{};
    var i := 0;
    while i < |types|
      invariant i <= |types|
      invariant docTypes == TypeMap(types[..i])
      invariant findings == multiset{}[Finding(MalformedProjection, None) := Nameless(types[..i])]
    {
      assert types[..i + 1][..i] == types[..i];
      if types[i].id.Some? {
        docTypes := docTypes[types[i].id.value := types[i]];
      } else {
        findings := findings + multiset{Finding(MalformedProjection, None)};
      }
      i := i + 1;
    }
    assert types[..i] == types;
  }

  method CompareRows(rows: seq<TypeRow>, docTypes: map<TypeId, Entry>) returns (findings: multiset<Finding>, seen: set<TypeId>)
    ensures findings == RowsFindings(rows, docTypes) && seen == RowIds(rows)
  {
    findings, seen := multiset{}, {};
    var i := 0;
    while i < |rows|
      invariant i <= |rows|
      invariant seen == RowIds(rows[..i])
      invariant findings == RowsFindings(rows[..i], docTypes)
    {
      RowsNext(rows, docTypes, i);
      seen := seen + {rows[i].id};
      findings := findings + RowFindings(rows[i], docTypes);
      i := i + 1;
    }
    assert rows[..i] == rows;
  }

  lemma RowsNext(rows: seq<TypeRow>, docTypes: map<TypeId, Entry>, i: nat)
    requires i < |rows|
    ensures RowsFindings(rows[..i + 1], docTypes) == RowsFindings(rows[..i], docTypes) + RowFindings(rows[i], docTypes)
    ensures RowIds(rows[..i + 1]) == RowIds(rows[..i]) + {rows[i].id}
  {
    assert rows[..i + 1][..i] == rows[..i];
    assert rows[..i + 1] == rows[..i] + [rows[i]];
  }

  method ReportUnexpected(ids: set<TypeId>, known: set<TypeId>) returns (findings: multiset<Finding>)
    ensures findings == multiset(UnexpectedFindings(ids - known))
  {
    findings := multiset{};
    var todo := ids;
    while todo != {}
      invariant todo <= ids
      invariant findings == multiset(UnexpectedFindings(ids - todo - known))
      decreases |todo|
    {
      var t :| t in todo;
      ghost var done := UnexpectedFindings(ids - todo - known);
      todo := todo - {t};
      if t !in known {
        findings := findings + multiset{Finding(UnexpectedTicketType, Some(t))};
        assert UnexpectedFindings(ids - todo - known) == done + {Finding(UnexpectedTicketType, Some(t))};
      } else {
        assert ids - todo - known == ids - (todo + {t}) - known;
      }
    }
    assert ids - todo == ids;
  }

  // --- What a clean comparison means ---

  predicate EntryShows(e: Entry, r: TypeRow) {
    e.name == Some(r.name) && e.total == Some(r.total) && e.remaining == Some(r.remaining) && e.version == Some(r.version)
  }

  /** Document and database agree on versions, quantities, names, the set of types, and metadata. */
  predicate Agrees(s: Snapshot, doc: Doc) {
    && (doc.eventVersion, doc.eventTotal, doc.eventRemaining) == (Some(s.version), Some(s.total), Some(s.remaining))
    && MetadataMatches(s, doc)
    && doc.types.Some?
    && (forall i | 0 <= i < |doc.types.value| :: doc.types.value[i].id.Some?)
    && TypeMap(doc.types.value).Keys == RowIds(s.types)
    && (forall r | r in s.types :: r.id in TypeMap(doc.types.value) && EntryShows(TypeMap(doc.types.value)[r.id], r))
  }

  lemma {:induction false} RowsCleanIff(rows: seq<TypeRow>, docTypes: map<TypeId, Entry>)
    requires forall r | r in rows :: RowInRange(r)
    ensures RowsFindings(rows, docTypes) == multiset{} <==>
            forall r | r in rows :: r.id in docTypes && EntryShows(docTypes[r.id], r)
  {
    if rows != [] {
      var front, last := rows[..|rows| - 1], rows[|rows| - 1];
      assert rows == front + [last];
      RowsCleanIff(front, docTypes);
      RowCleanIff(last, docTypes);
      BothEmpty(RowsFindings(front, docTypes), RowFindings(last, docTypes));
    }
  }

  lemma RowCleanIff(r: TypeRow, docTypes: map<TypeId, Entry>)
    requires RowInRange(r)
    ensures RowFindings(r, docTypes) == multiset{} <==> r.id in docTypes && EntryShows(docTypes[r.id], r)
  {
    if r.id in docTypes {
      var dt := docTypes[r.id];
      if AsQuantity(dt.total).Some? && AsQuantity(dt.remaining).Some? && AsVersion(dt.version).Some?
         && dt.version != Some(r.version) {
        assert Finding(TicketTypeVersionMismatch, Some(r.id)) in RowFindings(r, docTypes);
      }
    }
  }

  lemma BothEmpty<T>(a: multiset<T>, b: multiset<T>)
    ensures a + b == multiset{} <==> a == multiset{} && b == multiset{}
  {
    if a + b == multiset{} {
      assert |a + b| == |a| + |b|;
    }
  }

  lemma {:induction false} NamelessIff(types: seq<Entry>)
    ensures Nameless(types) == 0 <==> forall i | 0 <= i < |types| :: types[i].id.Some?
  {
    if types != [] { NamelessIff(types[..|types| - 1]); }
  }

  lemma EventCleanIff(s: Snapshot, doc: Doc)
    ensures EventFindings(s, doc) == multiset{} <==>
      (doc.eventVersion, doc.eventTotal, doc.eventRemaining) == (Some(s.version), Some(s.total), Some(s.remaining))
  {
    if doc.eventVersion != Some(s.version) {
      assert Finding(EventVersionMismatch, None) in EventFindings(s, doc);
    }
  }

  /** A comparison records nothing exactly when document and database agree. */
  lemma CleanIff(s: Snapshot, doc: Doc)
    requires SnapshotOk(s)
    ensures Compare(s, doc) == multiset{} <==> Agrees(s, doc)
  {
    if !NothingVersioned(doc) && HeaderReadable(doc) {
      var types := doc.types.value;
      var unexpected := TypeMap(types).Keys - RowIds(s.types);
      var a, b := EventFindings(s, doc), When(!MetadataMatches(s, doc), MetadataMismatch, None);
      var c := multiset{}[Finding(MalformedProjection, None) := Nameless(types)];
      var d, e := RowsFindings(s.types, TypeMap(types)), multiset(UnexpectedFindings(unexpected));
      BothEmpty(a, b);
      BothEmpty(a + b, c);
      BothEmpty(a + b + c, d);
      BothEmpty(a + b + c + d, e);
      EventCleanIff(s, doc);
      NamelessIff(types);
      assert c == multiset{} <==> Nameless(types) == 0 by {
        assert c[Finding(MalformedProjection, None)] == Nameless(types);
      }
      RowsCleanIff(s.types, TypeMap(types));
      UnexpectedEmptyIff(unexpected);
      KeysMatch(s.types, TypeMap(types));
    }
  }

  lemma UnexpectedEmptyIff(ids: set<TypeId>)
    ensures multiset(UnexpectedFindings(ids)) == multiset{} <==> ids == {}
  {
    if ids != {} {
      var t :| t in ids;
      assert Finding(UnexpectedTicketType, Some(t)) in UnexpectedFindings(ids);
      assert Finding(UnexpectedTicketType, Some(t)) in multiset(UnexpectedFindings(ids));
    }
  }

  lemma KeysMatch(rows: seq<TypeRow>, docTypes: map<TypeId, Entry>)
    ensures (docTypes.Keys - RowIds(rows) == {} && forall r | r in rows :: r.id in docTypes)
            <==> docTypes.Keys == RowIds(rows)
  {
    if docTypes.Keys == RowIds(rows) {
      forall r | r in rows ensures r.id in docTypes { assert r.id in RowIds(rows); }
    }
    if docTypes.Keys - RowIds(rows) == {} {
      forall t | t in docTypes.Keys ensures t in RowIds(rows) { assert t !in docTypes.Keys - RowIds(rows); }
    }
  }

  /** On a list without repeated ids the Map is what a search in the list finds. */
  lemma {:induction false} TypeMapIsLookup(types: seq<Entry>)
    requires WellFormedTypes(types)
    ensures forall t :: t in TypeMap(types) <==> IndexOf(types, t) < |types|
    ensures forall t | t in TypeMap(types) :: TypeMap(types)[t] == types[IndexOf(types, t)]
  {
    if types != [] {
      var front, last := types[..|types| - 1], types[|types| - 1];
      TypeMapIsLookup(front);
      forall t ensures t in TypeMap(types) <==> IndexOf(types, t) < |types|
        ensures t in TypeMap(types) ==> TypeMap(types)[t] == types[IndexOf(types, t)]
      {
        var i := IndexOf(front, t);
        if i < |front| {
          IndexIs(types, i, t);
        } else if last.id == Some(t) {
          IndexIs(types, |front|, t);
        } else {
          assert forall j | 0 <= j < |front| :: types[j] == front[j];
        }
      }
    }
  }

  // --- What each finding means ---

  predicate QuantityIn(v: Option<int>) {
    v.Some? && 0 <= v.value <= 2147483647
  }

  predicate VersionIn(v: Option<int>) {
    v.Some? && 0 <= v.value <= 9007199254740991
  }

  predicate EntryReadable(e: Entry) {
    QuantityIn(e.total) && QuantityIn(e.remaining) && VersionIn(e.version)
  }

  /** What is wrong with the element the document has for a row, if it has one. */
  predicate RowShows(c: Category, r: TypeRow, e: Option<Entry>) {
    if e.None? then c.MissingTicketType?
    else if !EntryReadable(e.value) then c.MalformedProjection?
    else
      || (c.TicketTypeVersionMismatch? && e.value.version.value != r.version)
      || (c.TicketTypeTotalMismatch? && e.value.version.value != r.version && e.value.total.value != r.total)
      || (c.TicketTypeRemainingMismatch? && e.value.version.value != r.version && e.value.remaining.value != r.remaining)
      || (c.ContractCorruption? && e.value.version.value == r.version && !EntryShows(e.value, r))
  }

  function Listed(docTypes: map<TypeId, Entry>, t: TypeId): Option<Entry> {
    if t in docTypes then Some(docTypes[t]) else None
  }

  lemma RowFindingsAre(r: TypeRow, docTypes: map<TypeId, Entry>, f: Finding)
    ensures RowFindings(r, docTypes)[f] ==
            if f.typeId == Some(r.id) && RowShows(f.category, r, Listed(docTypes, r.id)) then 1 else 0
  {
    if r.id in docTypes && EntryReadable(docTypes[r.id]) {
      if docTypes[r.id].version == Some(r.version) {
        SameVersionFindings(r, docTypes, f);
      } else {
        OtherVersionFindings(r, docTypes, f);
      }
    }
  }

  lemma SameVersionFindings(r: TypeRow, docTypes: map<TypeId, Entry>, f: Finding)
    requires r.id in docTypes && EntryReadable(docTypes[r.id]) && docTypes[r.id].version == Some(r.version)
    ensures RowFindings(r, docTypes)[f] ==
            if f == Finding(ContractCorruption, Some(r.id)) && !EntryShows(docTypes[r.id], r) then 1 else 0
  {
  }

  lemma OtherVersionFindings(r: TypeRow, docTypes: map<TypeId, Entry>, f: Finding)
    requires r.id in docTypes && EntryReadable(docTypes[r.id]) && docTypes[r.id].version != Some(r.version)
    ensures var e := docTypes[r.id];
      RowFindings(r, docTypes)[f] ==
        if f.typeId == Some(r.id)
           && (f.category.TicketTypeVersionMismatch?
               || (f.category.TicketTypeTotalMismatch? && e.total.value != r.total)
               || (f.category.TicketTypeRemainingMismatch? && e.remaining.value != r.remaining))
        then 1 else 0
  {
    var e, t := docTypes[r.id], Some(r.id);
    var total, remaining := e.total.value != r.total, e.remaining.value != r.remaining;
    var a, b, c := multiset{Finding(TicketTypeVersionMismatch, t)}, When(total, TicketTypeTotalMismatch, t), When(remaining, TicketTypeRemainingMismatch, t);
    assert RowFindings(r, docTypes) == a + b + c;
    ThreeParts(a, b, c, f);
    WhenCount(total, TicketTypeTotalMismatch, t, f);
    WhenCount(remaining, TicketTypeRemainingMismatch, t, f);
  }

  lemma WhenCount(b: bool, category: Category, t: Option<TypeId>, f: Finding)
    ensures When(b, category, t)[f] == if b && f == Finding(category, t) then 1 else 0
  {
  }

  lemma ThreeParts<T>(a: multiset<T>, b: multiset<T>, c: multiset<T>, x: T)
    ensures (a + b + c)[x] == a[x] + b[x] + c[x]
  {
  }

  lemma EventFindingsAre(s: Snapshot, doc: Doc, f: Finding)
    ensures EventFindings(s, doc)[f] == if f.typeId.None? && !f.category.MetadataMismatch? && EventShows(f.category, s, doc) then 1 else 0
  {
    var total, remaining := doc.eventTotal != Some(s.total), doc.eventRemaining != Some(s.remaining);
    if doc.eventVersion == Some(s.version) {
      WhenCount(total || remaining, ContractCorruption, None, f);
    } else {
      WhenCount(total, EventTotalMismatch, None, f);
      WhenCount(remaining, EventRemainingMismatch, None, f);
      ThreeParts(multiset{Finding(EventVersionMismatch, None)}, When(total, EventTotalMismatch, None),
                 When(remaining, EventRemainingMismatch, None), f);
    }
  }

  lemma {:induction false} RowsFindingsAre(rows: seq<TypeRow>, docTypes: map<TypeId, Entry>, f: Finding)
    requires forall i, j | 0 <= i < j < |rows| :: rows[i].id != rows[j].id
    ensures f.typeId.None? || f.typeId.value !in RowIds(rows) ==> RowsFindings(rows, docTypes)[f] == 0
    ensures forall r | r in rows && f.typeId == Some(r.id) :: RowsFindings(rows, docTypes)[f] == RowFindings(r, docTypes)[f]
  {
    if rows != [] {
      var front, last := rows[..|rows| - 1], rows[|rows| - 1];
      assert rows == front + [last];
      RowsFindingsAre(front, docTypes, f);
      RowFindingsAre(last, docTypes, f);
      assert RowIds(rows) == RowIds(front) + {last.id};
      if f.typeId == Some(last.id) {
        assert forall i | 0 <= i < |front| :: rows[i].id != rows[|front|].id;
      } else {
        assert RowsFindings(rows, docTypes)[f] == RowsFindings(front, docTypes)[f];
      }
    }
  }

  /** A document of which neither header nor types say anything: an unversioned one when anything else can be read, else a broken one. */
  predicate Bare(doc: Doc) {
    doc.eventVersion.None? && doc.eventTotal.None? && doc.eventRemaining.None? && (doc.types.None? || doc.types.value == [])
  }

  predicate Headed(doc: Doc) {
    VersionIn(doc.eventVersion) && QuantityIn(doc.eventTotal) && QuantityIn(doc.eventRemaining) && doc.types.Some?
  }

  /** Documents without a versioned header get exactly one finding. */
  lemma HeadlessFindings(s: Snapshot, doc: Doc)
    requires Bare(doc) || !Headed(doc)
    ensures Compare(s, doc) == multiset{Finding(
                if Bare(doc) && (QuantityIn(doc.remaining) || doc.title.Some? || doc.kind.Some? || !doc.startsAt.Missing?)
                then UnversionedProjection else MalformedProjection, None)}
  {
    assert NothingVersioned(doc) <==> Bare(doc);
  }

  /** One finding about a row of the snapshot: reported once, exactly when the last element with its id shows it. */
  lemma RowReportedIff(s: Snapshot, doc: Doc, r: TypeRow, c: Category)
    requires SnapshotOk(s) && !Bare(doc) && Headed(doc) && r in s.types
    ensures Compare(s, doc)[Finding(c, Some(r.id))] == if RowShows(c, r, Listed(TypeMap(doc.types.value), r.id)) then 1 else 0
  {
    var f := Finding(c, Some(r.id));
    RowsFindingsAre(s.types, TypeMap(doc.types.value), f);
    RowFindingsAre(r, TypeMap(doc.types.value), f);
    assert r.id in RowIds(s.types);
    PartsOf(s, doc, f);
    assert f !in UnexpectedFindings(TypeMap(doc.types.value).Keys - RowIds(s.types));
  }

  /** And about any other type: unexpected, exactly when some element has its id. */
  lemma StrangerReportedIff(s: Snapshot, doc: Doc, t: TypeId, c: Category)
    requires SnapshotOk(s) && !Bare(doc) && Headed(doc) && t !in RowIds(s.types)
    ensures Compare(s, doc)[Finding(c, Some(t))] ==
            if c.UnexpectedTicketType? && t in TypeMap(doc.types.value) then 1 else 0
  {
    var f := Finding(c, Some(t));
    RowsFindingsAre(s.types, TypeMap(doc.types.value), f);
    PartsOf(s, doc, f);
    var ids := TypeMap(doc.types.value).Keys - RowIds(s.types);
    assert f in UnexpectedFindings(ids) <==> c.UnexpectedTicketType? && t in ids;
  }

  lemma PartsOf(s: Snapshot, doc: Doc, f: Finding)
    requires !Bare(doc) && Headed(doc)
    ensures var types := doc.types.value;
      Compare(s, doc)[f] == EventFindings(s, doc)[f]
        + (if f == Finding(MetadataMismatch, None) && !MetadataMatches(s, doc) then 1 else 0)
        + (if f == Finding(MalformedProjection, None) then Nameless(types) else 0)
        + RowsFindings(s.types, TypeMap(types))[f]
        + (if f in UnexpectedFindings(TypeMap(types).Keys - RowIds(s.types)) then 1 else 0)
  {
    assert !NothingVersioned(doc) && HeaderReadable(doc);
  }

  /** Something about the metadata differs; a pair of coordinates differs from 0.000001 degrees on. */
  predicate MetadataDiffers(s: Snapshot, doc: Doc) {
    || doc.title != Some(s.title) || doc.kind != Some(s.kind) || doc.startsAt != Instant(s.startsAt)
    || (doc.location.Some? <==> s.lat.None? || s.lon.None?)
    || (doc.location.Some? && s.lat.Some? && Apart(doc.location.value.lat, s.lat.value))
    || (doc.location.Some? && s.lon.Some? && Apart(doc.location.value.lon, s.lon.value))
  }

  lemma MetadataDiffersIff(s: Snapshot, doc: Doc)
    ensures MetadataDiffers(s, doc) <==> !MetadataMatches(s, doc)
  {
  }

  predicate Apart(a: real, b: real) {
    a - b >= 0.000001 || b - a >= 0.000001
  }

  /** Findings about the event as a whole. Elements without an id are counted one by one. */
  predicate EventShows(c: Category, s: Snapshot, doc: Doc) {
    match c
    case EventVersionMismatch => doc.eventVersion != Some(s.version)
    case EventTotalMismatch => doc.eventVersion != Some(s.version) && doc.eventTotal != Some(s.total)
    case EventRemainingMismatch => doc.eventVersion != Some(s.version) && doc.eventRemaining != Some(s.remaining)
    case ContractCorruption =>
      doc.eventVersion == Some(s.version) && (doc.eventTotal != Some(s.total) || doc.eventRemaining != Some(s.remaining))
    case MetadataMismatch => MetadataDiffers(s, doc)
    case _ => false
  }

  lemma EventReportedIff(s: Snapshot, doc: Doc, c: Category)
    requires SnapshotOk(s) && !Bare(doc) && Headed(doc)
    ensures Compare(s, doc)[Finding(c, None)] ==
            if c.MalformedProjection? then Nameless(doc.types.value) else if EventShows(c, s, doc) then 1 else 0
  {
    var f := Finding(c, None);
    RowsFindingsAre(s.types, TypeMap(doc.types.value), f);
    PartsOf(s, doc, f);
    EventFindingsAre(s, doc, f);
    assert f !in UnexpectedFindings(TypeMap(doc.types.value).Keys - RowIds(s.types));
    MetadataDiffersIff(s, doc);
  }

  /** The Map of the elements: for each id the last element that has it. */
  lemma {:induction false} TypeMapIsLast(types: seq<Entry>, t: TypeId)
    ensures t in TypeMap(types) <==> exists i :: 0 <= i < |types| && types[i].id == Some(t)
    ensures t in TypeMap(types) ==> exists i :: 0 <= i < |types| && types[i] == TypeMap(types)[t] && IsLast(types, i, t)
  {
    if types != [] {
      var front, last := types[..|types| - 1], types[|types| - 1];
      assert types == front + [last];
      TypeMapIsLast(front, t);
      if last.id == Some(t) {
        assert IsLast(types, |front|, t) && types[|front|] == TypeMap(types)[t];
      } else if t in TypeMap(front) {
        var i :| 0 <= i < |front| && front[i] == TypeMap(front)[t] && IsLast(front, i, t);
        assert types[i] == TypeMap(types)[t] && IsLast(types, i, t);
      } else {
        assert forall i | 0 <= i < |front| :: types[i] == front[i];
      }
    }
  }

  predicate IsLast(types: seq<Entry>, i: nat, t: TypeId)
    requires i < |types|
  {
    types[i].id == Some(t) && forall j | i < j < |types| :: types[j].id != Some(t)
  }
}
