/** The transaction that changes the active writer, guarded by the database parity categories on both sides. */
module WriterSwitch {
  import opened Common
  import opened Sums
  import opened InventoryTables
  import opened InventoryTriggers

  datatype Category =
    | EventWithoutExactlyOneDefault
    | EventWithoutLegacyInventory
    | LegacyInventoryWithoutDefaultTypeInventory
    | TypeInventoryWithoutType
    | TypeWithoutTypeInventory
    | PurchaseTypeEventMismatch
    | LegacyAggregateTotalMismatch
    | LegacyAggregateRemainingMismatch
    | NonDefaultTypeInventoryInLegacyMode
    | ControlModeMismatch

  /** One event contributes to the violation count of a category. */
  ghost predicate Violates(c: Category, d: EventData, expected: Mode) {
    match c
    case EventWithoutExactlyOneDefault => d.defaultType.None? || d.defaultType.value !in d.types
    case EventWithoutLegacyInventory => d.legacy.None?
    case LegacyInventoryWithoutDefaultTypeInventory =>
      d.legacy.Some? && (d.defaultType.None? || d.defaultType.value !in d.stock)
    case TypeInventoryWithoutType => exists t :: t in d.stock && t !in d.types
    case TypeWithoutTypeInventory => exists t :: t in d.types && t !in d.stock
    case PurchaseTypeEventMismatch => exists p :: p in d.purchases && p.typeId !in d.types
    case LegacyAggregateTotalMismatch => d.legacy.Some? && Sum(Totals(d.stock)) != d.legacy.value.total
    case LegacyAggregateRemainingMismatch => d.legacy.Some? && Sum(Remainings(d.stock)) != d.legacy.value.remaining
    case NonDefaultTypeInventoryInLegacyMode =>
      expected == Legacy && exists t :: t in d.stock && t in d.types && d.defaultType != Some(t)
    case ControlModeMismatch => false
  }

  ghost predicate EventClean(d: EventData, expected: Mode) {
    forall c :: !Violates(c, d, expected)
  }

  /** The mirror of the legacy row is missing: the event has no default type, or the default type no stock. */
  lemma UnmirroredIff(d: EventData, expected: Mode)
    ensures Violates(LegacyInventoryWithoutDefaultTypeInventory, d, expected) <==>
            d.legacy.Some? && !exists t :: t in d.stock && d.defaultType == Some(t)
  {
  }

  /** What a clean event is: one stock row per type, a default among them, and an aggregate that is their sum. */
  lemma EventCleanIff(d: EventData, expected: Mode)
    ensures EventClean(d, expected) <==>
            && d.legacy.Some? && d.defaultType.Some? && d.defaultType.value in d.types
            && d.stock.Keys == d.types.Keys
            && (forall p | p in d.purchases :: p.typeId in d.types)
            && d.legacy.value.total == Sum(Totals(d.stock)) && d.legacy.value.remaining == Sum(Remainings(d.stock))
            && (expected == Legacy ==> d.types.Keys == {d.defaultType.value})
  {
    if EventClean(d, expected) {
      CleanNames(d, expected);
    }
  }

  lemma CleanNames(d: EventData, expected: Mode)
    requires EventClean(d, expected)
    ensures d.legacy.Some? && d.defaultType.Some? && d.defaultType.value in d.types
    ensures d.stock.Keys == d.types.Keys
    ensures forall p | p in d.purchases :: p.typeId in d.types
    ensures d.legacy.value.total == Sum(Totals(d.stock)) && d.legacy.value.remaining == Sum(Remainings(d.stock))
    ensures expected == Legacy ==> d.types.Keys == {d.defaultType.value}
  {
    assert !Violates(EventWithoutExactlyOneDefault, d, expected) && !Violates(EventWithoutLegacyInventory, d, expected);
    assert !Violates(TypeInventoryWithoutType, d, expected) && !Violates(TypeWithoutTypeInventory, d, expected);
    assert !Violates(PurchaseTypeEventMismatch, d, expected);
    assert !Violates(LegacyAggregateTotalMismatch, d, expected) && !Violates(LegacyAggregateRemainingMismatch, d, expected);
    assert !Violates(NonDefaultTypeInventoryInLegacyMode, d, expected);
    forall t | t in d.types ensures t in d.stock {}
  }

  /** No category counts a violation when the checker expects `expected`. */
  ghost predicate Clean(db: Db, expected: Mode) {
    && db.mode == expected
    && forall e | e in db.events :: EventClean(db.events[e], expected)
  }

  /** executeWriterModeSwitch on committed states; the schema revision must not move under it. */
  ghost function SwitchSpec(db: Db, target: Mode, revisionStable: bool): (Db, bool) {
    var switched := db.(mode := target);
    if Clean(db, target.Opposite()) && Clean(switched, target) && revisionStable then (switched, true) else (db, false)
  }

  /** What the server did with COMMIT, and whether the client learned it. */
  datatype CommitFate = Acknowledged | LostAfterCommit | LostBeforeCommit

  datatype SwitchResult = Switched | RolledBack | OutcomeUnknown

  const DATABASE_CATEGORIES: seq<Category> := [
    EventWithoutExactlyOneDefault, EventWithoutLegacyInventory, LegacyInventoryWithoutDefaultTypeInventory,
    TypeInventoryWithoutType, TypeWithoutTypeInventory, PurchaseTypeEventMismatch,
    LegacyAggregateTotalMismatch, LegacyAggregateRemainingMismatch, NonDefaultTypeInventoryInLegacyMode,
    ControlModeMismatch]

  lemma CategoriesComplete(c: Category)
    ensures c in DATABASE_CATEGORIES
  {
    match c
    case EventWithoutExactlyOneDefault => assert DATABASE_CATEGORIES[0] == c;
    case EventWithoutLegacyInventory => assert DATABASE_CATEGORIES[1] == c;
    case LegacyInventoryWithoutDefaultTypeInventory => assert DATABASE_CATEGORIES[2] == c;
    case TypeInventoryWithoutType => assert DATABASE_CATEGORIES[3] == c;
    case TypeWithoutTypeInventory => assert DATABASE_CATEGORIES[4] == c;
    case PurchaseTypeEventMismatch => assert DATABASE_CATEGORIES[5] == c;
    case LegacyAggregateTotalMismatch => assert DATABASE_CATEGORIES[6] == c;
    case LegacyAggregateRemainingMismatch => assert DATABASE_CATEGORIES[7] == c;
    case NonDefaultTypeInventoryInLegacyMode => assert DATABASE_CATEGORIES[8] == c;
    case ControlModeMismatch => assert DATABASE_CATEGORIES[9] == c;
  }

  method CheckCategory(c: Category, d: EventData, expected: Mode) returns (violated: bool)
    ensures violated == Violates(c, d, expected)
  {
    var total, remaining := AggregateStock(d.stock);
    match c
    case EventWithoutExactlyOneDefault => return d.defaultType.None? || d.defaultType.value !in d.types;
    case EventWithoutLegacyInventory => return d.legacy.None?;
    case LegacyInventoryWithoutDefaultTypeInventory =>
      return d.legacy.Some? && (d.defaultType.None? || d.defaultType.value !in d.stock);
    case TypeInventoryWithoutType =>
      var clean := AllIn(d.stock.Keys, d.types.Keys);
      return !clean;
    case TypeWithoutTypeInventory =>
      var clean := AllIn(d.types.Keys, d.stock.Keys);
      return !clean;
    case PurchaseTypeEventMismatch =>
      var clean := PurchasesMatch(d.purchases, d.types.Keys);
      return !clean;
    case LegacyAggregateTotalMismatch => return d.legacy.Some? && total != d.legacy.value.total;
    case LegacyAggregateRemainingMismatch => return d.legacy.Some? && remaining != d.legacy.value.remaining;
    case NonDefaultTypeInventoryInLegacyMode =>
      var defaults := if d.defaultType.Some? then {d.defaultType.value} else {};
      var clean := AllIn(d.stock.Keys * d.types.Keys, defaults);
      assert forall t :: t in d.stock.Keys * d.types.Keys <==> t in d.stock && t in d.types;
      return expected == Legacy && !clean;
    case ControlModeMismatch => return false;
  }

  /** An anti-join of two key columns finds nothing exactly when the one is contained in the other. */
  method AllIn(ids: set<TypeId>, known: set<TypeId>) returns (clean: bool)
    ensures clean <==> forall t | t in ids :: t in known
  {
    var todo := ids;
    while todo != {}
      invariant todo <= ids
      invariant forall t | t in ids - todo :: t in known
      decreases todo
    {
      var t :| t in todo;
      if t !in known { return false; }
      todo := todo - {t};
    }
    clean := true;
  }

  method PurchasesMatch(ps: seq<Purchase>, known: set<TypeId>) returns (clean: bool)
    ensures clean <==> forall p | p in ps :: p.typeId in known
  {
    for i := 0 to |ps|
      invariant forall j | 0 <= j < i :: ps[j].typeId in known
    {
      if ps[i].typeId !in known { return false; }
    }
    clean := true;
  }

  method CheckEvent(d: EventData, expected: Mode) returns (clean: bool)
    ensures clean == EventClean(d, expected)
  {
    clean := true;
    for i := 0 to |DATABASE_CATEGORIES|
      invariant clean <==> forall j | 0 <= j < i :: !Violates(DATABASE_CATEGORIES[j], d, expected)
    {
      var violated := CheckCategory(DATABASE_CATEGORIES[i], d, expected);
      clean := clean && !violated;
    }
    if clean {
      forall c ensures !Violates(c, d, expected) {
        CategoriesComplete(c);
        var j :| 0 <= j < |DATABASE_CATEGORIES| && DATABASE_CATEGORIES[j] == c;
      }
    }
  }

  /** checkCutoverDatabase and assertNoCutoverViolations. */
  method CheckDatabase(db: Db, expected: Mode) returns (clean: bool)
    ensures clean == Clean(db, expected)
  {
    clean := db.mode == expected;
    var rest := db.events.Keys;
    while rest != {}
      invariant rest <= db.events.Keys
      invariant clean <==> db.mode == expected
                           && forall e | e in db.events.Keys - rest :: EventClean(db.events[e], expected)
      decreases rest
    {
      var e :| e in rest;
      var eventClean := CheckEvent(db.events[e], expected);
      clean := clean && eventClean;
      rest := rest - {e};
    }
  }

  method ExecuteWriterModeSwitch(
    s: Session, target: Mode, expectedRevision: Option<string>, revisionBefore: string, revisionAfter: string,
    fate: CommitFate) returns (r: SwitchResult)
    modifies s
    ensures var stable := revisionBefore == revisionAfter && (expectedRevision.Some? ==> expectedRevision.value == revisionBefore);
      var (db', passed) := SwitchSpec(old(s.View()), target, stable);
      && (r == RolledBack <==> !passed)
      && (r == Switched <==> passed && fate == Acknowledged)
      && s.View() == if fate == LostBeforeCommit then old(s.View()) else db'
  {
    var source := target.Opposite();
    var saved := Db(s.mode, s.events);
    var clean := CheckDatabase(saved, source);
    if saved.mode != source { return RolledBack; }
    if expectedRevision.Some? && revisionBefore != expectedRevision.value { return RolledBack; }
    if !clean { return RolledBack; }
    s.mode := target;
    clean := CheckDatabase(Db(s.mode, s.events), target);
    if s.mode != target || revisionAfter != revisionBefore || !clean {
      s.mode := saved.mode;
      return RolledBack;
    }
    if fate == LostBeforeCommit { s.mode := saved.mode; }
    return if fate == Acknowledged then Switched else OutcomeUnknown;
  }
}
