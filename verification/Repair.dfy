/** The operator's repair scripts: overwriting contract corruption and removing orphaned types. */
module Repair {
  import opened Common
  import opened Projection
  import opened Confluence
  import opened Reconciliation
  import opened Rebuild

  // --- REPAIR_CONTRACT_CORRUPTION_SCRIPT ---

  /** Reading a null quantity as a number throws; || stops reading at the first difference. */
  datatype Check = Differs | Equal | Unreadable

  function CheckQuantities(total: Option<int>, remaining: Option<int>, wantTotal: int, wantRemaining: int): Check {
    if total.None? then Unreadable
    else if total.value != wantTotal then Differs
    else if remaining.None? then Unreadable
    else if remaining.value != wantRemaining then Differs
    else Equal
  }

  function CheckEntry(e: Entry, r: TypeRow): Check {
    if e.id != Some(r.id) || e.version != Some(r.version) then Equal
    else
      var c := CheckQuantities(e.total, e.remaining, r.total, r.remaining);
      if c.Equal? && e.name != Some(r.name) then Differs else c
  }

  function FixedEntry(e: Entry, r: TypeRow): Entry {
    if CheckEntry(e, r).Differs? then e.(name := Some(r.name), total := Some(r.total), remaining := Some(r.remaining)) else e
  }

  function FixRow(types: seq<Entry>, r: TypeRow): seq<Entry> {
    seq(|types|, i requires 0 <= i < |types| => FixedEntry(types[i], r))
  }

  predicate RowReadable(types: seq<Entry>, r: TypeRow) {
    forall i | 0 <= i < |types| :: !CheckEntry(types[i], r).Unreadable?
  }

  /** The rows are applied one after the other; None is a throw. */
  function FixRows(types: seq<Entry>, rows: seq<TypeRow>): (fixed: Option<seq<Entry>>)
    ensures fixed.Some? ==> |fixed.value| == |types|
  {
    if rows == [] then Some(types)
    else
      var before := FixRows(types, rows[..|rows| - 1]);
      if before.None? || !RowReadable(before.value, rows[|rows| - 1]) then None
      else Some(FixRow(before.value, rows[|rows| - 1]))
  }

  function CheckEvent(doc: Doc, s: Snapshot): Check {
    if doc.eventVersion != Some(s.version) then Equal
    else CheckQuantities(doc.eventTotal, doc.eventRemaining, s.total, s.remaining)
  }

  function FixEvent(doc: Doc, s: Snapshot): Doc {
    if CheckEvent(doc, s).Differs?
    then doc.(eventTotal := Some(s.total), eventRemaining := Some(s.remaining), total := Some(s.total), remaining := Some(s.remaining))
    else doc
  }

  function Repaired(doc: Doc, s: Snapshot): Effect {
    var fixed := FixRows(TypesOf(doc), s.types);
    if fixed.None? || CheckEvent(doc, s).Unreadable? then Threw
    else
      var doc' := FixEvent(if doc.types.Some? then doc.(types := fixed) else doc, s);
      if doc' == doc then Noop else Wrote(doc')
  }

  method FixRowInPlace(types: seq<Entry>, r: TypeRow) returns (fixed: seq<Entry>, changed: bool, threw: bool)
    ensures threw == !RowReadable(types, r)
    ensures !threw ==> fixed == FixRow(types, r) && changed == (fixed != types)
  {
    fixed, changed, threw := types, false, false;
    var i := 0;
    while i < |types|
      invariant i <= |types| && |fixed| == |types|
      invariant forall j | 0 <= j < i :: !CheckEntry(types[j], r).Unreadable? && fixed[j] == FixedEntry(types[j], r)
      invariant forall j | i <= j < |types| :: fixed[j] == types[j]
      invariant changed == exists j :: 0 <= j < i && CheckEntry(types[j], r).Differs?
    {
      var t := fixed[i];
      if t.id == Some(r.id) && t.version.Some? && t.version.value == r.version {
        if t.total.None? || (t.total.value == r.total && t.remaining.None?) { threw := true; return; }
        if t.total.value != r.total || t.remaining.value != r.remaining || t.name != Some(r.name) {
          fixed := fixed[i := t.(name := Some(r.name), total := Some(r.total), remaining := Some(r.remaining))];
          changed := true;
        }
      }
      i := i + 1;
    }
    if changed {
      var j :| 0 <= j < |types| && CheckEntry(types[j], r).Differs?;
      assert fixed[j] != types[j];
    } else {
      assert fixed == types;
    }
  }

  method RepairScript(source: Doc, s: Snapshot) returns (r: Effect)
    requires DistinctIds(s.types)
    ensures r == Repaired(source, s)
  {
    var doc := source;
    var changed := false;
    if doc.types.Some? {
      var types := doc.types.value;
      var k := 0;
      while k < |s.types|
        invariant k <= |s.types|
        invariant FixRows(doc.types.value, s.types[..k]) == Some(types)
        invariant changed == (types != doc.types.value)
      {
        assert s.types[..k + 1][..k] == s.types[..k];
        var fixed, changedRow, threw := FixRowInPlace(types, s.types[k]);
        if threw {
          FixRowsFails(doc.types.value, s.types, k + 1);
          return Threw;
        }
        if changedRow { ChangesStay(doc.types.value, types, s.types, k); }
        types := fixed;
        changed := changed || changedRow;
        k := k + 1;
      }
      assert s.types[..k] == s.types;
      doc := doc.(types := Some(types));
    } else {
      EmptyUnchanged(s.types);
    }
    if doc.eventVersion.Some? && doc.eventVersion.value == s.version {
      if doc.eventTotal.None? || (doc.eventTotal.value == s.total && doc.eventRemaining.None?) { return Threw; }
      if doc.eventTotal.value != s.total || doc.eventRemaining.value != s.remaining {
        doc := doc.(eventTotal := Some(s.total), eventRemaining := Some(s.remaining));
        doc := doc.(total := Some(s.total), remaining := Some(s.remaining));
        changed := true;
      }
    }
    r := if changed then Wrote(doc) else Noop;
  }

  lemma {:induction false} EmptyUnchanged(rows: seq<TypeRow>)
    ensures FixRows([], rows) == Some([])
  {
    if rows != [] { EmptyUnchanged(rows[..|rows| - 1]); }
  }

  lemma {:induction false} FixRowsFails(types: seq<Entry>, rows: seq<TypeRow>, n: nat)
    requires n <= |rows| && FixRows(types, rows[..n]).None?
    ensures FixRows(types, rows).None?
    decreases |rows|
  {
    if n < |rows| {
      assert rows[..|rows| - 1][..n] == rows[..n];
      FixRowsFails(types, rows[..|rows| - 1], n);
    } else {
      assert rows[..n] == rows;
    }
  }

  /** With distinct rows an element is fixed by at most one of them, so a later row never undoes a change. */
  lemma ChangesStay(types: seq<Entry>, mid: seq<Entry>, rows: seq<TypeRow>, k: nat)
    requires DistinctIds(rows) && k < |rows| && FixRows(types, rows[..k]) == Some(mid)
    requires RowReadable(mid, rows[k]) && FixRow(mid, rows[k]) != mid
    ensures FixRow(mid, rows[k]) != types
  {
    var i :| 0 <= i < |mid| && FixRow(mid, rows[k])[i] != mid[i];
    FixedAt(types, rows[..k], i);
    assert rows[..k + 1] == rows[..k] + [rows[k]];
    LastIsNew(rows[..k], rows[k]);
  }

  /** What the rows make of one element: nothing but the values of its own row at its own version. */
  lemma {:induction false} FixedAt(types: seq<Entry>, rows: seq<TypeRow>, i: nat)
    requires DistinctIds(rows) && FixRows(types, rows).Some? && i < |types|
    ensures var fixed := FixRows(types, rows).value;
      && |fixed| == |types|
      && ((forall r | r in rows :: types[i].id != Some(r.id)) ==> fixed[i] == types[i])
      && (forall r | r in rows && types[i].id == Some(r.id) :: fixed[i] == FixedEntry(types[i], r) && !CheckEntry(types[i], r).Unreadable?)
      && fixed[i].id == types[i].id && fixed[i].version == types[i].version
  {
    if rows != [] {
      var front, last := rows[..|rows| - 1], rows[|rows| - 1];
      assert rows == front + [last];
      FixedAt(types, front, i);
      LastIsNew(front, last);
      var before := FixRows(types, front).value;
      assert !CheckEntry(before[i], last).Unreadable?;
    }
  }

  // --- What repairing changes, and what not ---

  /** No version moves, no element appears, disappears or moves, and what has another version than the snapshot stays. */
  lemma RepairKeepsVersions(doc: Doc, s: Snapshot)
    requires DistinctIds(s.types)
    ensures var doc' := After(doc, Repaired(doc, s));
      && doc'.eventVersion == doc.eventVersion && SameMetadata(doc, doc') && doc'.eventId == doc.eventId
      && |TypesOf(doc')| == |TypesOf(doc)|
      && (doc.eventVersion != Some(s.version) ==>
            doc'.(types := doc.types) == doc)
      && forall i | 0 <= i < |TypesOf(doc)| ::
           && TypesOf(doc')[i].id == TypesOf(doc)[i].id && TypesOf(doc')[i].version == TypesOf(doc)[i].version
           && (TypesOf(doc')[i] == TypesOf(doc)[i]
               || exists r :: r in s.types && SameVersion(TypesOf(doc)[i], r) && EntryShows(TypesOf(doc')[i], r))
  {
    if !Repaired(doc, s).Threw? {
      forall i | 0 <= i < |TypesOf(doc)|
        ensures var e, e' := TypesOf(doc)[i], FixRows(TypesOf(doc), s.types).value[i];
          && e'.id == e.id && e'.version == e.version
          && (e' == e || exists r :: r in s.types && SameVersion(e, r) && EntryShows(e', r))
      {
        FixedAt(TypesOf(doc), s.types, i);
        if r :| r in s.types && TypesOf(doc)[i].id == Some(r.id) {
          assert SameVersion(TypesOf(doc)[i], r) || CheckEntry(TypesOf(doc)[i], r).Equal?;
        }
      }
    }
  }

  predicate SameVersion(e: Entry, r: TypeRow) {
    e.id == Some(r.id) && e.version == Some(r.version)
  }

  /** Repairing twice is repairing once. */
  lemma RepairIdempotent(doc: Doc, s: Snapshot)
    requires DistinctIds(s.types) && Repaired(doc, s).Wrote?
    ensures Repaired(Repaired(doc, s).doc, s).Noop?
  {
    var fixed := FixRows(TypesOf(doc), s.types).value;
    forall i | 0 <= i < |TypesOf(doc)| ensures i < |fixed| && Settled(fixed[i], s.types) {
      FixedAt(TypesOf(doc), s.types, i);
    }
    SettledStays(fixed, s.types);
  }

  predicate Settled(e: Entry, rows: seq<TypeRow>) {
    forall r | r in rows :: CheckEntry(e, r).Equal?
  }

  lemma {:induction false} SettledStays(types: seq<Entry>, rows: seq<TypeRow>)
    requires forall i | 0 <= i < |types| :: Settled(types[i], rows)
    ensures FixRows(types, rows) == Some(types)
  {
    if rows != [] {
      var front, last := rows[..|rows| - 1], rows[|rows| - 1];
      assert rows == front + [last];
      forall i | 0 <= i < |types| ensures Settled(types[i], front) && CheckEntry(types[i], last).Equal? {
        assert Settled(types[i], rows) && last in rows;
      }
      SettledStays(types, front);
      assert FixRow(types, last) == types;
    }
  }

  /** After a repair that did not throw, no payload of the same snapshot raises corruption any more. */
  lemma RepairedIsCompatible(doc: Doc, s: Snapshot)
    requires DistinctIds(s.types) && WellFormedTypes(TypesOf(doc)) && !Repaired(doc, s).Threw?
    ensures var doc' := After(doc, Repaired(doc, s));
      WellFormedTypes(TypesOf(doc')) && Compatible(s, doc')
  {
    var types := TypesOf(doc);
    var fixed := FixRows(types, s.types).value;
    forall i | 0 <= i < |types|
      ensures |fixed| == |types| && fixed[i].id == types[i].id && fixed[i].version == types[i].version
      ensures Settled(fixed[i], s.types)
    {
      FixedAt(types, s.types, i);
    }
    var doc' := After(doc, Repaired(doc, s));
    assert TypesOf(doc') == fixed;
    forall r | r in s.types ensures RowCompatible(doc', r) {
      var i := IndexOf(fixed, r.id);
      if i < |fixed| { assert CheckEntry(fixed[i], r).Equal?; }
    }
  }

  /** So a rebuild from the same snapshot succeeds after the repair, as far as its coordinates allow. */
  lemma RepairThenRebuildSucceeds(doc: Doc, s: Snapshot)
    requires SnapshotOk(s) && s.types != [] && WellFormedTypes(TypesOf(doc)) && !Repaired(doc, s).Threw?
    ensures RebuildSucceeds(s, After(doc, Repaired(doc, s))) <==> (s.lat.Some? <==> s.lon.Some?)
  {
    RepairedIsCompatible(doc, s);
    RebuildSucceedsIff(s, After(doc, Repaired(doc, s)));
  }

  /** Quantities equal at an equal version are kept; a difference is overwritten; null where a number is compared throws. */
  predicate Stuck(total: Option<int>, remaining: Option<int>, wantTotal: int, wantRemaining: int) {
    total.None? || (total == Some(wantTotal) && remaining.None?)
  }

  /** The four totals of the event: at an equal version they are set together, exactly when an aggregate value differs. */
  lemma EventRepair(doc: Doc, s: Snapshot)
    requires !Repaired(doc, s).Threw?
    ensures var doc' := After(doc, Repaired(doc, s));
      if doc.eventVersion == Some(s.version) && (doc.eventTotal != Some(s.total) || doc.eventRemaining != Some(s.remaining))
      then (doc'.eventTotal, doc'.eventRemaining, doc'.total, doc'.remaining)
           == (Some(s.total), Some(s.remaining), Some(s.total), Some(s.remaining))
      else (doc'.eventTotal, doc'.eventRemaining, doc'.total, doc'.remaining)
           == (doc.eventTotal, doc.eventRemaining, doc.total, doc.remaining)
  {
  }

  /** And the elements: whatever has the version of its row shows that row afterwards. */
  lemma EntriesRepair(doc: Doc, s: Snapshot, i: nat, r: TypeRow)
    requires DistinctIds(s.types) && !Repaired(doc, s).Threw? && r in s.types
    requires i < |TypesOf(doc)| && SameVersion(TypesOf(doc)[i], r)
    ensures var types' := TypesOf(After(doc, Repaired(doc, s)));
      |types'| == |TypesOf(doc)| && types'[i] == Entry(Some(r.id), Some(r.name), Some(r.total), Some(r.remaining), Some(r.version))
  {
    FixedAt(TypesOf(doc), s.types, i);
  }

  /** The script throws if and only if it has to compare a quantity that is not there. */
  lemma ThrowsIff(doc: Doc, s: Snapshot)
    requires DistinctIds(s.types)
    ensures Repaired(doc, s).Threw? <==>
            || (doc.eventVersion == Some(s.version) && Stuck(doc.eventTotal, doc.eventRemaining, s.total, s.remaining))
            || (exists i, r :: 0 <= i < |TypesOf(doc)| && r in s.types && StuckEntry(TypesOf(doc)[i], r))
  {
    var types := TypesOf(doc);
    if FixRows(types, s.types).None? {
      var r, i := UnreadableEntry(types, s.types);
      assert StuckEntry(types[i], r);
    } else {
      forall i, r | 0 <= i < |types| && r in s.types ensures !StuckEntry(types[i], r) {
        FixedAt(types, s.types, i);
      }
    }
  }

  predicate StuckEntry(e: Entry, r: TypeRow) {
    SameVersion(e, r) && Stuck(e.total, e.remaining, r.total, r.remaining)
  }

  // --- The dry run ---

  datatype Field = Name | Total | Remaining

  /** One difference at an equal version; no type id is the event aggregate. */
  datatype DiffEntry = DiffEntry(typeId: Option<TypeId>, field: Field, version: int)

  datatype Refusal =
    | EventExists | TypeExists | EventMissing | DocumentNotFound | TypeNotInDocument | NoCorruption | MalformedDocument

  datatype Report = Report(refusals: seq<Refusal>, diff: seq<DiffEntry>, applied: bool)

  function FieldDiff(differs: bool, t: Option<TypeId>, field: Field, version: int): seq<DiffEntry> {
    if differs then [DiffEntry(t, field, version)] else []
  }

  predicate EventMalformed(doc: Doc, s: Snapshot) {
    AsVersion(doc.eventVersion) == Some(s.version) && (AsQuantity(doc.eventTotal).None? || AsQuantity(doc.eventRemaining).None?)
  }

  function EventDiff(doc: Doc, s: Snapshot): seq<DiffEntry> {
    if AsVersion(doc.eventVersion) == Some(s.version) && !EventMalformed(doc, s) then
      FieldDiff(doc.eventTotal.value != s.total, None, Total, s.version)
      + FieldDiff(doc.eventRemaining.value != s.remaining, None, Field.Remaining, s.version)
    else []
  }

  predicate RowMalformed(doc: Doc, r: TypeRow) {
    var e := Lookup(doc, r.id);
    e.Some? && AsVersion(e.value.version) == Some(r.version)
    && (AsQuantity(e.value.total).None? || AsQuantity(e.value.remaining).None?)
  }

  function RowDiff(doc: Doc, r: TypeRow): seq<DiffEntry> {
    var e := Lookup(doc, r.id);
    if e.Some? && AsVersion(e.value.version) == Some(r.version) && !RowMalformed(doc, r) then
      FieldDiff(e.value.total.value != r.total, Some(r.id), Total, r.version)
      + FieldDiff(e.value.remaining.value != r.remaining, Some(r.id), Field.Remaining, r.version)
      + FieldDiff(e.value.name != Some(r.name), Some(r.id), Name, r.version)
    else []
  }

  function RowsDiff(doc: Doc, rows: seq<TypeRow>): seq<DiffEntry> {
    if rows == [] then [] else RowsDiff(doc, rows[..|rows| - 1]) + RowDiff(doc, rows[|rows| - 1])
  }

  function DryRun(doc: Doc, s: Snapshot): seq<DiffEntry> {
    EventDiff(doc, s) + RowsDiff(doc, s.types)
  }

  /** What the dry run lists about the event: quantities that can be read and differ at an equal version. */
  lemma EventDiffIff(doc: Doc, s: Snapshot, f: Field, v: int)
    requires SnapshotOk(s)
    ensures DiffEntry(None, f, v) in DryRun(doc, s) <==>
            && doc.eventVersion == Some(s.version) && v == s.version && QuantityIn(doc.eventTotal) && QuantityIn(doc.eventRemaining)
            && ((f.Total? && doc.eventTotal.value != s.total) || (f.Remaining? && doc.eventRemaining.value != s.remaining))
  {
    RowsDiffIff(doc, s.types, None, f, v);
  }

  /** And about a type: the same of the first element with its id, and its name. */
  lemma RowDiffersIff(doc: Doc, s: Snapshot, t: TypeId, f: Field, v: int)
    requires SnapshotOk(s)
    ensures DiffEntry(Some(t), f, v) in DryRun(doc, s) <==>
            exists r :: r in s.types && r.id == t && v == r.version && Differing(Lookup(doc, t), r, f)
  {
    RowsDiffIff(doc, s.types, Some(t), f, v);
  }

  predicate Differing(e: Option<Entry>, r: TypeRow, f: Field) {
    && e.Some? && EntryReadable(e.value) && e.value.version.value == r.version
    && match f
       case Name => e.value.name != Some(r.name)
       case Total => e.value.total.value != r.total
       case Remaining => e.value.remaining.value != r.remaining
  }

  lemma {:induction false} RowsDiffIff(doc: Doc, rows: seq<TypeRow>, t: Option<TypeId>, f: Field, v: int)
    requires forall r | r in rows :: RowInRange(r)
    ensures DiffEntry(t, f, v) in RowsDiff(doc, rows) <==>
            exists r :: r in rows && t == Some(r.id) && v == r.version && Differing(Lookup(doc, r.id), r, f)
  {
    if rows != [] {
      var front, last := rows[..|rows| - 1], rows[|rows| - 1];
      assert rows == front + [last];
      RowsDiffIff(doc, front, t, f, v);
      OneRowDiffIff(doc, last, t, f, v);
    }
  }

  lemma OneRowDiffIff(doc: Doc, r: TypeRow, t: Option<TypeId>, f: Field, v: int)
    requires RowInRange(r)
    ensures DiffEntry(t, f, v) in RowDiff(doc, r) <==> t == Some(r.id) && v == r.version && Differing(Lookup(doc, r.id), r, f)
  {
  }

  /** A repair is refused as malformed exactly when a quantity at an equal version cannot be read. */
  lemma MalformedIff(doc: Doc, s: Snapshot)
    requires SnapshotOk(s)
    ensures MalformedDocument in RepairRefusals(doc, s) <==>
            || (doc.eventVersion == Some(s.version) && !(QuantityIn(doc.eventTotal) && QuantityIn(doc.eventRemaining)))
            || (exists r :: r in s.types && Garbled(Lookup(doc, r.id), r))
    ensures NoCorruption in RepairRefusals(doc, s) <==> DryRun(doc, s) == []
    ensures forall x | x in RepairRefusals(doc, s) :: x == MalformedDocument || x == NoCorruption
  {
    forall r | r in s.types ensures RowMalformed(doc, r) <==> Garbled(Lookup(doc, r.id), r) { assert RowInRange(r); }
  }

  predicate Garbled(e: Option<Entry>, r: TypeRow) {
    e.Some? && e.value.version == Some(r.version) && !(QuantityIn(e.value.total) && QuantityIn(e.value.remaining))
  }

  predicate Malformed(doc: Doc, s: Snapshot) {
    EventMalformed(doc, s) || AnyRowMalformed(doc, s.types)
  }

  predicate AnyRowMalformed(doc: Doc, rows: seq<TypeRow>) {
    exists i :: 0 <= i < |rows| && RowMalformed(doc, rows[i])
  }

  lemma {:induction false} RowsDiffEmptyIff(doc: Doc, rows: seq<TypeRow>)
    ensures RowsDiff(doc, rows) == [] <==> forall r | r in rows :: RowDiff(doc, r) == []
  {
    if rows != [] {
      var front, last := rows[..|rows| - 1], rows[|rows| - 1];
      assert rows == front + [last];
      RowsDiffEmptyIff(doc, front);
    }
  }

  /** On a readable document without repeated ids the script writes exactly when the dry run shows a difference. */
  lemma RepairWritesIff(doc: Doc, s: Snapshot)
    requires SnapshotOk(s) && WellFormedTypes(TypesOf(doc)) && !Malformed(doc, s)
    ensures !Repaired(doc, s).Threw?
    ensures Repaired(doc, s).Wrote? <==> DryRun(doc, s) != []
  {
    ReadableRows(doc, s, |s.types|);
    assert s.types[..|s.types|] == s.types;
    RowsDiffEmptyIff(doc, s.types);
    TypesChangeIff(doc, s);
    assert EventDiff(doc, s) == [] <==> CheckEvent(doc, s).Equal?;
    assert doc.types.None? ==> TypesOf(doc) == [];
  }

  lemma TypesChangeIff(doc: Doc, s: Snapshot)
    requires SnapshotOk(s) && WellFormedTypes(TypesOf(doc)) && !Malformed(doc, s)
    requires FixRows(TypesOf(doc), s.types).Some?
    ensures FixRows(TypesOf(doc), s.types).value == TypesOf(doc) <==> forall r | r in s.types :: RowDiff(doc, r) == []
  {
    var types := TypesOf(doc);
    if forall r | r in s.types :: RowDiff(doc, r) == [] {
      forall i | 0 <= i < |types| ensures Settled(types[i], s.types) {
        forall r | r in s.types ensures CheckEntry(types[i], r).Equal? {
          if types[i].id == Some(r.id) { RowDiffIff(doc, s, r, i); }
        }
      }
      SettledStays(types, s.types);
    } else {
      var r :| r in s.types && RowDiff(doc, r) != [];
      var i := IndexOf(types, r.id);
      RowDiffIff(doc, s, r, i);
      FixedAt(types, s.types, i);
    }
  }

  lemma RowDiffIff(doc: Doc, s: Snapshot, r: TypeRow, i: nat)
    requires SnapshotOk(s) && r in s.types && WellFormedTypes(TypesOf(doc)) && !Malformed(doc, s)
    requires i < |TypesOf(doc)| && TypesOf(doc)[i].id == Some(r.id)
    ensures !CheckEntry(TypesOf(doc)[i], r).Unreadable?
    ensures CheckEntry(TypesOf(doc)[i], r).Differs? <==> RowDiff(doc, r) != []
  {
    IndexUnique(TypesOf(doc), i, r.id);
    assert !RowMalformed(doc, r);
    assert RowInRange(r);
  }

  lemma {:induction false} ReadableRows(doc: Doc, s: Snapshot, n: nat)
    requires SnapshotOk(s) && WellFormedTypes(TypesOf(doc)) && !Malformed(doc, s) && n <= |s.types|
    ensures FixRows(TypesOf(doc), s.types[..n]).Some?
  {
    if n > 0 {
      var front, last := s.types[..n - 1], s.types[n - 1];
      assert s.types[..n] == front + [last] && s.types[..n][..n - 1] == front;
      ReadableRows(doc, s, n - 1);
      var before := FixRows(TypesOf(doc), front).value;
      LastIsNew(front, last);
      forall i | 0 <= i < |TypesOf(doc)| ensures i < |before| == |TypesOf(doc)| && !CheckEntry(before[i], last).Unreadable? {
        FixedAt(TypesOf(doc), front, i);
        if TypesOf(doc)[i].id == Some(last.id) { RowDiffIff(doc, s, last, i); }
      }
      assert RowReadable(before, last);
    }
  }

  // --- The operator commands ---

  function RepairRefusals(doc: Doc, s: Snapshot): seq<Refusal> {
    (if Malformed(doc, s) then [MalformedDocument] else []) + (if DryRun(doc, s) == [] then [NoCorruption] else [])
  }

  method ComputeDiff(doc: Doc, s: Snapshot) returns (diff: seq<DiffEntry>, malformed: bool)
    ensures diff == DryRun(doc, s) && malformed == Malformed(doc, s)
  {
    var rows, bad := ComputeRowsDiff(doc, s.types);
    diff := EventDiff(doc, s) + rows;
    malformed := EventMalformed(doc, s) || bad;
  }

  method ComputeRowsDiff(doc: Doc, rows: seq<TypeRow>) returns (diff: seq<DiffEntry>, malformed: bool)
    ensures diff == RowsDiff(doc, rows) && malformed == AnyRowMalformed(doc, rows)
  {
    diff, malformed := [], false;
    for i := 0 to |rows|
      invariant diff == RowsDiff(doc, rows[..i])
      invariant malformed == AnyRowMalformed(doc, rows[..i])
    {
      var bad, row := ComputeRowDiff(doc, rows[i]);
      malformed := malformed || bad;
      diff := diff + row;
      RowsDiffNext(doc, rows, i);
      AnyRowNext(doc, rows, i);
    }
    assert rows[..|rows|] == rows;
  }

  method ComputeRowDiff(doc: Doc, r: TypeRow) returns (malformed: bool, diff: seq<DiffEntry>)
    ensures malformed == RowMalformed(doc, r) && diff == RowDiff(doc, r)
  {
    malformed, diff := false, [];
    var e := Lookup(doc, r.id);
    if e.None? || AsVersion(e.value.version) != Some(r.version) { return; }
    var total, remaining := AsQuantity(e.value.total), AsQuantity(e.value.remaining);
    if total.None? || remaining.None? { malformed := true; return; }
    if total.value != r.total { diff := diff + [DiffEntry(Some(r.id), Total, r.version)]; }
    if remaining.value != r.remaining { diff := diff + [DiffEntry(Some(r.id), Field.Remaining, r.version)]; }
    if e.value.name != Some(r.name) { diff := diff + [DiffEntry(Some(r.id), Name, r.version)]; }
  }

  lemma AnyRowNext(doc: Doc, rows: seq<TypeRow>, i: nat)
    requires i < |rows|
    ensures AnyRowMalformed(doc, rows[..i + 1]) <==> AnyRowMalformed(doc, rows[..i]) || RowMalformed(doc, rows[i])
  {
    forall j | 0 <= j < i ensures rows[..i + 1][j] == rows[..i][j] {}
    assert rows[..i + 1][i] == rows[i];
  }

  lemma RowsDiffNext(doc: Doc, rows: seq<TypeRow>, i: nat)
    requires i < |rows|
    ensures RowsDiff(doc, rows[..i + 1]) == RowsDiff(doc, rows[..i]) + RowDiff(doc, rows[i])
  {
    assert rows[..i + 1][..i] == rows[..i];
  }

  /** repairContractCorruption: a dry run writes nothing, and a refused repair writes nothing. */
  method RepairContractCorruption(index: Index, e: EventId, authoritative: Option<Snapshot>, apply: bool) returns (r: Report)
    requires authoritative.Some? ==> SnapshotOk(authoritative.value) && authoritative.value.event == e
    modifies index
    ensures authoritative.None? ==> r == Report([EventMissing], [], false)
    ensures authoritative.Some? && e !in old(index.docs) ==> r == Report([DocumentNotFound], [], false)
    ensures e in old(index.docs) && authoritative.Some? ==>
              r.diff == DryRun(old(index.docs)[e], authoritative.value)
    ensures e in old(index.docs) && authoritative.Some? ==>
              r.refusals == RepairRefusals(old(index.docs)[e], authoritative.value)
    ensures r.refusals != [] || !apply ==> !r.applied && index.docs == old(index.docs)
    ensures r.refusals == [] && apply ==>
              index.docs == old(index.docs)[e := After(old(index.docs)[e], Repaired(old(index.docs)[e], authoritative.value))]
    ensures r.applied <==> r.refusals == [] && apply && Repaired(old(index.docs)[e], authoritative.value).Wrote?
  {
    if authoritative.None? { return Report([EventMissing], [], false); }
    if e !in index.docs { return Report([DocumentNotFound], [], false); }
    var s, doc := authoritative.value, index.docs[e];
    var diff, malformed := ComputeDiff(doc, s);
    var refusals: seq<Refusal> := [];
    if malformed { refusals := refusals + [MalformedDocument]; }
    if diff == [] { refusals := refusals + [NoCorruption]; }
    if refusals != [] || !apply { return Report(refusals, diff, false); }
    var effect := RepairScript(doc, s);
    index.docs := index.docs[e := After(doc, effect)];
    r := Report(refusals, diff, effect.Wrote?);
  }

  /** An apply that is not refused writes, when no id repeats in the document. */
  lemma UnrefusedRepairWrites(doc: Doc, s: Snapshot)
    requires SnapshotOk(s) && WellFormedTypes(TypesOf(doc)) && RepairRefusals(doc, s) == []
    ensures Repaired(doc, s).Wrote? && RepairRefusals(Repaired(doc, s).doc, s) == [NoCorruption]
  {
    RepairWritesIff(doc, s);
    var doc' := Repaired(doc, s).doc;
    RepairIdempotent(doc, s);
    RepairedIsCompatible(doc, s);
    RepairedReadable(doc, s);
    RepairWritesIff(doc', s);
  }

  lemma RepairedReadable(doc: Doc, s: Snapshot)
    requires SnapshotOk(s) && WellFormedTypes(TypesOf(doc)) && !Malformed(doc, s) && Repaired(doc, s).Wrote?
    ensures !Malformed(Repaired(doc, s).doc, s)
  {
    var doc' := Repaired(doc, s).doc;
    RepairedIsCompatible(doc, s);
    forall r | r in s.types ensures !RowMalformed(doc', r) {
      assert RowCompatible(doc', r) && RowInRange(r);
    }
  }

  // --- REMOVE_TICKET_TYPE_SCRIPT ---

  function Without(types: seq<Entry>, t: TypeId): seq<Entry> {
    if types == [] then []
    else if types[0].id == Some(t) then Without(types[1..], t)
    else [types[0]] + Without(types[1..], t)
  }

  function Removed(doc: Doc, t: TypeId): Effect {
    var kept := Without(TypesOf(doc), t);
    if |kept| == |TypesOf(doc)| then Noop else Wrote(doc.(types := Some(kept)))
  }

  /** Only the elements with the id go; every other type is found as before. */
  lemma {:induction false} WithoutLookup(types: seq<Entry>, t: TypeId, u: TypeId)
    ensures |Without(types, t)| <= |types|
    ensures |Without(types, t)| == |types| <==> IndexOf(types, t) == |types|
    ensures |Without(types, t)| == |types| ==> Without(types, t) == types
    ensures IndexOf(Without(types, t), t) == |Without(types, t)|
    ensures u != t ==> Find(Without(types, t), u) == Find(types, u)
    decreases |types|
  {
    if types != [] {
      WithoutLookup(types[1..], t, u);
      FindNext(types, u);
      if types[0].id != Some(t) {
        var kept := Without(types[1..], t);
        assert ([types[0]] + kept)[1..] == kept;
        FindNext([types[0]] + kept, u);
        FindNext([types[0]] + kept, t);
      }
    }
  }

  lemma FindNext(types: seq<Entry>, t: TypeId)
    requires types != []
    ensures Find(types, t) == if types[0].id == Some(t) then Some(types[0]) else Find(types[1..], t)
    ensures types[0].id != Some(t) ==> IndexOf(types, t) == 1 + IndexOf(types[1..], t)
  {
  }

  /** Removing an orphan takes away every element with its id, and neither helps nor hurts any other type. */
  lemma RemovalHelps(doc: Doc, s: Snapshot, t: TypeId)
    requires t !in RowIds(s.types)
    ensures var doc' := After(doc, Removed(doc, t));
      && Lookup(doc', t).None?
      && (Removed(doc, t).Wrote? <==> Lookup(doc, t).Some?)
      && (forall u | u != t :: Lookup(doc', u) == Lookup(doc, u))
      && (EventFits(doc', s) <==> EventFits(doc, s))
      && (forall r | r in s.types :: RowFits(doc', r) <==> RowFits(doc, r))
  {
    var doc' := After(doc, Removed(doc, t));
    WithoutLookup(TypesOf(doc), t, t);
    forall u | u != t ensures Lookup(doc', u) == Lookup(doc, u) {
      WithoutLookup(TypesOf(doc), t, u);
    }
    forall r | r in s.types ensures r.id != t { assert r.id in RowIds(s.types); }
  }

  /** Nothing stored is newer than the snapshot. */
  predicate NotAhead(doc: Doc, s: Snapshot) {
    && (doc.eventVersion.Some? ==> doc.eventVersion.value <= s.version)
    && forall r | r in s.types && Lookup(doc, r.id).Some? && Lookup(doc, r.id).value.version.Some? ::
         Lookup(doc, r.id).value.version.value <= r.version
  }

  ghost predicate NoUnexpectedType(doc: Doc, s: Snapshot) {
    forall t | Lookup(doc, t).Some? :: t in RowIds(s.types)
  }

  ghost predicate RebuiltClean(doc: Doc, s: Snapshot) {
    RebuildSucceeds(s, doc) && Compare(s, Deliver(doc, s.event, RebuildOps(s))) == multiset{}
  }

  /**
   Repair, then rebuild: the comparison is clean afterwards if and only if the repair could read what it compares, the
   coordinates come in a pair, and the document held nothing newer than the snapshot and no unexpected type,
   however many values were corrupted at their version.
   */
  lemma RepairThenRebuildClean(doc: Doc, s: Snapshot)
    requires SnapshotOk(s) && s.types != [] && WellFormedTypes(TypesOf(doc))
    ensures RebuiltClean(After(doc, Repaired(doc, s)), s) <==>
      !Repaired(doc, s).Threw? && (s.lat.Some? <==> s.lon.Some?) && NotAhead(doc, s) && NoUnexpectedType(doc, s)
  {
    var doc' := After(doc, Repaired(doc, s));
    if Repaired(doc, s).Threw? {
      ThrewContradicts(doc, s);
      RebuildSucceedsIff(s, doc);
    } else {
      RepairedIsCompatible(doc, s);
      RebuildThenCompareClean(s, doc');
      RepairedFitsIff(doc, s);
    }
  }

  /** The repair changes no version and no id, so what is ahead or unexpected stays so. */
  lemma RepairedFitsIff(doc: Doc, s: Snapshot)
    requires SnapshotOk(s) && WellFormedTypes(TypesOf(doc)) && !Repaired(doc, s).Threw?
    ensures var doc' := After(doc, Repaired(doc, s));
      Rebuildable(s, doc') <==> (s.lat.Some? <==> s.lon.Some?) && NotAhead(doc, s) && NoUnexpectedType(doc, s)
  {
    var doc' := After(doc, Repaired(doc, s));
    RepairedIsCompatible(doc, s);
    RepairKeepsVersions(doc, s);
    forall t ensures Lookup(doc', t).Some? <==> Lookup(doc, t).Some?
      ensures Lookup(doc', t).Some? ==> Lookup(doc', t).value.version == Lookup(doc, t).value.version
      ensures Lookup(doc, t).Some? ==> Lookup(doc, t).value.version.Some?
    {
      SameIds(TypesOf(doc), TypesOf(doc'), t);
    }
    forall r | r in s.types
      ensures RowFits(doc', r) <==> (Lookup(doc, r.id).Some? ==> Lookup(doc, r.id).value.version.value <= r.version)
    {
      CompatibleFits(doc', r);
    }
  }

  /** A repair that throws met an equal version with a missing quantity, which no payload can match either. */
  lemma ThrewContradicts(doc: Doc, s: Snapshot)
    requires SnapshotOk(s) && WellFormedTypes(TypesOf(doc)) && Repaired(doc, s).Threw?
    ensures !Compatible(s, doc)
  {
    if FixRows(TypesOf(doc), s.types).None? {
      var r, i := UnreadableEntry(TypesOf(doc), s.types);
      IndexUnique(TypesOf(doc), i, r.id);
      assert !RowCompatible(doc, r);
    }
  }

  lemma {:induction false} UnreadableEntry(types: seq<Entry>, rows: seq<TypeRow>) returns (r: TypeRow, i: nat)
    requires DistinctIds(rows) && FixRows(types, rows).None?
    ensures r in rows && i < |types| && CheckEntry(types[i], r).Unreadable?
  {
    var front, last := rows[..|rows| - 1], rows[|rows| - 1];
    assert rows == front + [last];
    var before := FixRows(types, front);
    if before.None? {
      r, i := UnreadableEntry(types, front);
    } else {
      r := last;
      i :| 0 <= i < |types| && CheckEntry(before.value[i], last).Unreadable?;
      FixedAt(types, front, i);
      LastIsNew(front, last);
    }
  }

  lemma CompatibleFits(doc: Doc, r: TypeRow)
    requires RowCompatible(doc, r)
    ensures RowFits(doc, r) <==> (Lookup(doc, r.id).Some? ==> Lookup(doc, r.id).value.version.value <= r.version)
  {
  }

  lemma SameIds(a: seq<Entry>, b: seq<Entry>, t: TypeId)
    requires |a| == |b| && forall i | 0 <= i < |a| :: a[i].id == b[i].id && a[i].version == b[i].version
    ensures IndexOf(a, t) == IndexOf(b, t)
  {
    var i := IndexOf(a, t);
    if i < |a| { IndexIs(b, i, t); }
  }

  // --- The whole runbook: remove the orphans, repair, rebuild ---

  function RemoveAll(doc: Doc, orphans: seq<TypeId>): Doc {
    if orphans == [] then doc
    else
      var before := RemoveAll(doc, orphans[..|orphans| - 1]);
      After(before, Removed(before, orphans[|orphans| - 1]))
  }

  lemma {:induction false} WithoutWellFormed(types: seq<Entry>, t: TypeId)
    requires WellFormedTypes(types)
    ensures WellFormedTypes(Without(types, t))
    ensures forall e | e in Without(types, t) :: e in types
  {
    if types != [] {
      var rest := types[1..];
      assert forall i | 0 <= i < |rest| :: rest[i] == types[i + 1];
      WithoutWellFormed(rest, t);
      var kept := Without(rest, t);
      if types[0].id != Some(t) {
        forall i | 0 <= i < |kept| ensures kept[i].id != types[0].id {
          assert kept[i] in rest;
        }
      }
    }
  }

  /** Removing orphans one after the other removes them all, and changes nothing else. */
  lemma {:induction false} AllRemoved(doc: Doc, orphans: seq<TypeId>)
    requires WellFormedTypes(TypesOf(doc))
    ensures var end := RemoveAll(doc, orphans);
      && WellFormedTypes(TypesOf(end)) && end.eventVersion == doc.eventVersion
      && (forall t | t in orphans :: Lookup(end, t).None?)
      && (forall t | t !in orphans :: Lookup(end, t) == Lookup(doc, t))
  {
    if orphans != [] {
      var front, last := orphans[..|orphans| - 1], orphans[|orphans| - 1];
      assert orphans == front + [last];
      AllRemoved(doc, front);
      var mid := RemoveAll(doc, front);
      RemovedOne(mid, last);
    }
  }

  lemma RemovedOne(doc: Doc, t: TypeId)
    requires WellFormedTypes(TypesOf(doc))
    ensures var end := After(doc, Removed(doc, t));
      && WellFormedTypes(TypesOf(end)) && end.eventVersion == doc.eventVersion
      && Lookup(end, t).None? && forall u | u != t :: Lookup(end, u) == Lookup(doc, u)
  {
    WithoutWellFormed(TypesOf(doc), t);
    WithoutLookup(TypesOf(doc), t, t);
    forall u | u != t ensures Lookup(After(doc, Removed(doc, t)), u) == Lookup(doc, u) {
      WithoutLookup(TypesOf(doc), t, u);
    }
  }

  /**
   Removing the unexpected types, repairing and rebuilding brings a document to a clean comparison if and only if the
   repair could read what it compares, the coordinates come in a pair, and the document was not ahead of the
   snapshot.
   */
  lemma RunbookConverges(doc: Doc, s: Snapshot, orphans: seq<TypeId>)
    requires SnapshotOk(s) && s.types != [] && WellFormedTypes(TypesOf(doc))
    requires forall t :: t in orphans <==> Lookup(doc, t).Some? && t !in RowIds(s.types)
    ensures var removed := RemoveAll(doc, orphans);
      RebuiltClean(After(removed, Repaired(removed, s)), s) <==>
        !Repaired(removed, s).Threw? && (s.lat.Some? <==> s.lon.Some?) && NotAhead(doc, s)
  {
    var removed := RemoveAll(doc, orphans);
    AllRemoved(doc, orphans);
    forall t | Lookup(removed, t).Some? ensures t in RowIds(s.types) {
      if t !in orphans { assert Lookup(removed, t) == Lookup(doc, t); }
    }
    forall r | r in s.types ensures Lookup(removed, r.id) == Lookup(doc, r.id) {
      assert r.id in RowIds(s.types);
    }
    RepairThenRebuildClean(removed, s);
  }
}
