/** The InventoryChanged contract: what a producer builds and what a consumer accepts. */
module InventoryMessages {
  import opened Common

  const SUPPORTED_INVENTORY_EVENT_VERSION: int := 1

  /** Transaction-derived state a versioned InventoryChanged carries. */
  datatype Change = Change(
    event: EventId, typeId: TypeId, typeName: string,
    typeTotal: int, typeRemaining: int, typeVersion: int,
    eventTotal: int, eventRemaining: int, eventVersion: int)

  /** A JSON value as far as the parser looks at it; numbers that are not integers are Other. */
  datatype Json = Number(n: int) | Text(s: string) | Uuid(id: nat) | Other

  /** Field names of the detail record. Extra fields (the trace context among them) are ignored. */
  datatype Field =
    | FEventId | FRemaining
    | FContractVersion | FTypeId | FTypeName | FTypeTotal | FTypeRemaining | FTypeVersion
    | FEventTotal | FEventRemaining | FEventVersion
    | FTrace

  type Detail = map<Field, Json>

  datatype Parsed = Versioned(change: Change) | LegacyChange(event: EventId, remaining: int) | Broken

  const MARKERS: set<Field> :=
    {FContractVersion, FTypeId, FTypeName, FTypeTotal, FTypeRemaining, FTypeVersion,
     FEventTotal, FEventRemaining, FEventVersion}

  predicate NonNegativeInt(d: Detail, f: Field) {
    f in d && d[f].Number? && 0 <= d[f].n <= INT4_MAX
  }

  /** White space and line ends of ECMAScript, which trim() removes. */
  predicate IsSpace(c: char) {
    var n := c as int;
    || 9 <= n <= 13 || n == 0x20 || n == 0xA0 || n == 0x1680 || 0x2000 <= n <= 0x200A
    || n == 0x2028 || n == 0x2029 || n == 0x202F || n == 0x205F || n == 0x3000 || n == 0xFEFF
  }

  /** Spaces, tabs and line ends alone are no name; a name may contain and be surrounded by them. */
  lemma NonBlankNames(before: string, after: string, c: char)
    requires forall x | x in before + after :: x in {' ', '\t', '\n', '\r', '\U{00A0}', '\U{3000}'}
    ensures !NonBlank(before + after)
    ensures 33 <= c as int < 127 ==> NonBlank(before + [c] + after)
  {
    assert (before + [c] + after)[|before|] == c;
    forall i | 0 <= i < |before + after| ensures IsSpace((before + after)[i]) {
      assert (before + after)[i] in before + after;
    }
  }

  predicate NonBlank(s: string) {
    exists i :: 0 <= i < |s| && !IsSpace(s[i])
  }

  /** parseInventoryChangedDetail */
  function Parse(d: Detail): Parsed {
    if !(FEventId in d && d[FEventId].Uuid?) then Broken
    else if d.Keys !! MARKERS then
      if NonNegativeInt(d, FRemaining) then LegacyChange(d[FEventId].id, d[FRemaining].n) else Broken
    else if !(FContractVersion in d && d[FContractVersion] == Number(SUPPORTED_INVENTORY_EVENT_VERSION)) then Broken
    else if !(FTypeId in d && d[FTypeId].Uuid?) then Broken
    else if !(FTypeName in d && d[FTypeName].Text? && NonBlank(d[FTypeName].s)) then Broken
    else if !NonNegativeInt(d, FTypeTotal) then Broken
    else if !NonNegativeInt(d, FTypeRemaining) then Broken
    else if d[FTypeRemaining].n > d[FTypeTotal].n then Broken
    else if !NonNegativeInt(d, FTypeVersion) then Broken
    else if !NonNegativeInt(d, FEventTotal) then Broken
    else if !NonNegativeInt(d, FEventRemaining) then Broken
    else if d[FEventRemaining].n > d[FEventTotal].n then Broken
    else if !NonNegativeInt(d, FEventVersion) then Broken
    else if !NonNegativeInt(d, FRemaining) then Broken
    else if d[FRemaining].n != d[FEventRemaining].n then Broken
    else Versioned(Change(d[FEventId].id, d[FTypeId].id, d[FTypeName].s,
                          d[FTypeTotal].n, d[FTypeRemaining].n, d[FTypeVersion].n,
                          d[FEventTotal].n, d[FEventRemaining].n, d[FEventVersion].n))
  }

  /** buildVersionedInventoryChangedDetail */
  function Build(c: Change): Detail {
    map[FEventId := Uuid(c.event),
        FRemaining := Number(c.eventRemaining),
        FContractVersion := Number(SUPPORTED_INVENTORY_EVENT_VERSION),
        FTypeId := Uuid(c.typeId),
        FTypeName := Text(c.typeName),
        FTypeTotal := Number(c.typeTotal),
        FTypeRemaining := Number(c.typeRemaining),
        FTypeVersion := Number(c.typeVersion),
        FEventTotal := Number(c.eventTotal),
        FEventRemaining := Number(c.eventRemaining),
        FEventVersion := Number(c.eventVersion)]
  }

  /** What the tables guarantee of every state they hand to a producer. */
  predicate WellFormed(c: Change) {
    && NonBlank(c.typeName)
    && 0 <= c.typeRemaining <= c.typeTotal <= INT4_MAX
    && 0 <= c.eventRemaining <= c.eventTotal <= INT4_MAX
    && 0 <= c.typeVersion <= INT4_MAX
    && 0 <= c.eventVersion <= INT4_MAX
  }

  /** A built payload survives the parser, with or without a trace context, exactly when it is well-formed. */
  lemma BuildParse(c: Change, trace: Json)
    ensures Parse(Build(c)) == Versioned(c) <==> WellFormed(c)
    ensures !WellFormed(c) ==> Parse(Build(c)) == Broken
    ensures Parse(Build(c)[FTrace := trace]) == Parse(Build(c))
  {
    assert FTypeId in Build(c) && FTypeId in Build(c)[FTrace := trace] && FTypeId in MARKERS;
    assert FTypeId in Build(c).Keys * MARKERS;
    assert FTypeId in Build(c)[FTrace := trace].Keys * MARKERS;
  }

  /** A payload that carries any versioned marker is never taken for a legacy one, however broken it is. */
  lemma NoLegacyFallback(d: Detail, f: Field)
    requires f in d && f in MARKERS
    ensures !Parse(d).LegacyChange?
    ensures Parse(d).Versioned? ==> MARKERS <= d.Keys && Parse(d).change.eventRemaining == d[FRemaining].n
  {
    assert f in d.Keys * MARKERS;
  }

  /** What the parser accepts is well-formed, and rebuilding it gives back every field the parser read. */
  lemma ParseBuild(d: Detail)
    requires Parse(d).Versioned?
    ensures WellFormed(Parse(d).change)
    ensures forall f | f in Build(Parse(d).change) :: f in d && Build(Parse(d).change)[f] == d[f]
  {
  }

  predicate Has(d: Detail, f: Field, v: Json) {
    f in d && d[f] == v
  }

  /** The detail record a consumer of versioned changes has to find, field by field; the remainder appears twice. */
  predicate Carries(d: Detail, c: Change) {
    && Has(d, FEventId, Uuid(c.event)) && Has(d, FContractVersion, Number(1))
    && Has(d, FTypeId, Uuid(c.typeId)) && Has(d, FTypeName, Text(c.typeName))
    && Has(d, FTypeTotal, Number(c.typeTotal)) && Has(d, FTypeRemaining, Number(c.typeRemaining))
    && Has(d, FTypeVersion, Number(c.typeVersion))
    && Has(d, FEventTotal, Number(c.eventTotal)) && Has(d, FEventRemaining, Number(c.eventRemaining))
    && Has(d, FEventVersion, Number(c.eventVersion)) && Has(d, FRemaining, Number(c.eventRemaining))
  }

  /** Which payloads are taken for versioned ones: those that carry every field of a well-formed change, whatever else they carry. */
  lemma VersionedIff(d: Detail, c: Change)
    ensures Parse(d) == Versioned(c) <==> WellFormed(c) && Carries(d, c)
  {
    if WellFormed(c) && Carries(d, c) { CarriedIsParsed(d, c); }
  }

  lemma CarriedIsParsed(d: Detail, c: Change)
    requires WellFormed(c) && Carries(d, c)
    ensures Parse(d) == Versioned(c)
  {
    assert FTypeId in d.Keys * MARKERS;
  }

  /** And for legacy ones: those with an event and a remainder in range, and no versioned marker at all. */
  lemma LegacyIff(d: Detail, event: EventId, remaining: int)
    ensures Parse(d) == LegacyChange(event, remaining) <==>
      && FEventId in d && d[FEventId] == Uuid(event)
      && FRemaining in d && d[FRemaining] == Number(remaining) && 0 <= remaining <= INT4_MAX
      && forall f | f in d :: f !in MARKERS
  {
    assert d.Keys !! MARKERS <==> forall f | f in d :: f !in MARKERS;
  }
}
