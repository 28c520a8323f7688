/**
 The trigger cascade of the compatibility writer, statement by statement. A statement issued at
 `level` (the number of triggers it is nested in) fires its own triggers at pg_trigger_depth() == level + 1.
 A `false` result is a raised exception: the caller's transaction is rolled back, so nothing is promised
 about the tables then.
 */
module InventoryTriggers {
  import opened Common
  import opened Sums
  import opened InventoryTables

  datatype Table = LegacyTable | TypeTable

  /** What a statement does to the row it names: matches nothing, meets DO NOTHING, or writes NEW. */
  datatype Effect = NoRow | DoNothing | Write(row: Row)

  datatype Verdict = Raise | Keep | Skip

  /** A legacy write in legacy mode: the row, and its copy on the default type. */
  function LegacyWritten(d: EventData, r: Row): EventData
    requires d.defaultType.Some?
  {
    d.(legacy := Some(r), stock := d.stock[d.defaultType.value := r])
  }

  /** A type write in ticket_type mode: the row, and the aggregate on the legacy row. */
  ghost function TypeWritten(d: EventData, t: TypeId, r: Row): EventData {
    var stock' := d.stock[t := r];
    d.(stock := stock', legacy := Some(Aggregate(stock', d.legacy)))
  }

  /** When a top-level write is accepted by guards, constraints and mirrors. */
  predicate LegacyAccepted(mode: Mode, d: EventData, r: Row) {
    mode == Legacy && RowOk(r)
    && d.defaultType.Some? && d.defaultType.value in d.types
  }

  ghost predicate TypeAccepted(mode: Mode, d: EventData, t: TypeId, r: Row) {
    mode == TicketType && RowOk(r) && t in d.types
    && RowOk(TypeWritten(d, t, r).legacy.value)
  }

  /** The table a top-level statement may touch: that of the active writer. */
  predicate FenceAccepts(table: Table, mode: Mode) {
    (table == LegacyTable) == (mode == Legacy)
  }

  /** Both writes in terms of the rows: what is written, what mirrors it, and the version of the mirror. */
  lemma WrittenRows(d: EventData, t: TypeId, r: Row)
    ensures var d' := TypeWritten(d, t, r);
      && d'.stock.Keys == d.stock.Keys + {t} && d'.stock[t] == r
      && (forall u | u in d.stock && u != t :: d'.stock[u] == d.stock[u])
      && d'.legacy == Some(Row(Sum(Totals(d'.stock)), Sum(Remainings(d'.stock)),
                               if d.legacy.None? then 1 else d.legacy.value.version + 1))
      && d'.types == d.types && d'.defaultType == d.defaultType && d'.purchases == d.purchases
    ensures d.defaultType == Some(t) ==>
      var d' := LegacyWritten(d, r);
      && d'.legacy == Some(r) && d'.stock.Keys == d.stock.Keys + {t} && d'.stock[t] == r
      && (forall u | u in d.stock && u != t :: d'.stock[u] == d.stock[u])
      && d'.types == d.types && d'.defaultType == d.defaultType && d'.purchases == d.purchases
  {
  }

  class Session {
    /** inventory_writer_control.writer_mode, stable while the writer barrier is held. */
    var mode: Mode
    var events: map<EventId, EventData>
    /** The transaction-local setting ticket_c2c.inventory_mirror_origin; a client can set it to anything. */
    var mirrorOrigin: Option<Mode>
    /** The deepest pg_trigger_depth() any trigger of this session has run at. */
    ghost var deepest: nat

    ghost function View(): Db
      reads this
    {
      Db(mode, events)
    }

    constructor (db: Db, clientSetting: Option<Mode>)
      ensures View() == db && mirrorOrigin == clientSetting && deepest == 0
    {
      mode := db.mode;
      events := db.events;
      mirrorOrigin := clientSetting;
      deepest := 0;
    }

    /** inventory_compatibility_fence_inventory_statement */
    method FenceStatement(table: Table, depth: nat) returns (ok: bool)
      requires depth >= 1
      modifies this`mirrorOrigin, this`deepest
      ensures deepest == Max(depth, old(deepest))
      ensures depth == 1 ==> ok == FenceAccepts(table, mode)
      ensures depth == 1 && ok ==> mirrorOrigin == Some(mode)
      ensures depth > 1 ==> mirrorOrigin == old(mirrorOrigin)
      ensures depth > 1 ==> ok == (mirrorOrigin == Some(mode) && (table == LegacyTable ==> mode == TicketType))
    {
      deepest := Max(depth, deepest);
      if depth == 1 {
        if (table == LegacyTable && mode != Legacy) || (table == TypeTable && mode != TicketType) {
          return false;
        }
        mirrorOrigin := Some(mode);
        return true;
      }
      ok := (table == LegacyTable && mode == TicketType && mirrorOrigin == Some(TicketType))
            || (table == TypeTable && mode == Legacy && mirrorOrigin == Some(Legacy))
            || (table == TypeTable && mode == TicketType && mirrorOrigin == Some(TicketType));
    }

    /** inventory_compatibility_guard_legacy_write */
    method GuardLegacyWrite(depth: nat) returns (v: Verdict)
      requires depth >= 1
      modifies this`mirrorOrigin, this`deepest
      ensures deepest == Max(depth, old(deepest))
      ensures v != Skip
      ensures depth == 1 ==> (v == Keep <==> mode == Legacy) && (v == Keep ==> mirrorOrigin == Some(Legacy))
      ensures depth > 1 ==> mirrorOrigin == old(mirrorOrigin)
                            && (v == Keep <==> mode == TicketType && mirrorOrigin == Some(TicketType))
    {
      deepest := Max(depth, deepest);
      if depth == 1 {
        if mode != Legacy { return Raise; }
        mirrorOrigin := Some(Legacy);
        return Keep;
      }
      if mode == TicketType && mirrorOrigin == Some(TicketType) { return Keep; }
      return Raise;
    }

    /** inventory_compatibility_guard_ticket_type_write */
    method GuardTypeWrite(depth: nat) returns (v: Verdict)
      requires depth >= 1
      modifies this`mirrorOrigin, this`deepest
      ensures deepest == Max(depth, old(deepest))
      ensures depth == 1 ==> (v == Keep <==> mode == TicketType) && v != Skip
                             && (v == Keep ==> mirrorOrigin == Some(TicketType))
      ensures depth > 1 ==> mirrorOrigin == old(mirrorOrigin)
                            && (v == Raise <==> mirrorOrigin != Some(mode))
                            && (v == Skip <==> mode == TicketType && mirrorOrigin == Some(TicketType))
    {
      deepest := Max(depth, deepest);
      if depth == 1 {
        if mode != TicketType { return Raise; }
        mirrorOrigin := Some(TicketType);
        return Keep;
      }
      if mode == Legacy && mirrorOrigin == Some(Legacy) { return Keep; }
      if mode == TicketType && mirrorOrigin == Some(TicketType) { return Skip; }
      return Raise;
    }

    /**
     INSERT or UPDATE on ticket_inventory for one event. The mutual recursion with TypeStatement needs no
     bound on `level`: a nested statement never nests another one.
     */
    method LegacyStatement(level: nat, e: EventId, effect: Effect) returns (ok: bool)
      requires e in events
      modifies this`events, this`mirrorOrigin, this`deepest
      ensures deepest <= Max(old(deepest), level + 2)
      ensures level > 0 ==> deepest <= Max(old(deepest), level + 1)
      ensures level == 0 ==>
        (ok <==> mode == Legacy && (effect.Write? ==> LegacyAccepted(mode, old(events)[e], effect.row)))
      ensures level == 0 && ok ==> mirrorOrigin == Some(Legacy)
      ensures level == 0 && ok && !effect.Write? ==> events == old(events)
      ensures level == 0 && ok && effect.Write? ==>
        events == old(events)[e := LegacyWritten(old(events)[e], effect.row)]
      ensures level > 0 ==>
        (ok <==> mode == TicketType && old(mirrorOrigin) == Some(TicketType) && (effect.Write? ==> RowOk(effect.row)))
      ensures level > 0 && ok ==> mirrorOrigin == old(mirrorOrigin)
      ensures level > 0 && ok && !effect.Write? ==> events == old(events)
      ensures level > 0 && ok && effect.Write? ==>
        events == old(events)[e := old(events)[e].(legacy := Some(effect.row))]
      decreases if level == 0 then 2 else 0, 1
    {
      ok := FenceStatement(LegacyTable, level + 1);
      if !ok || effect.NoRow? { return; }
      var verdict := GuardLegacyWrite(level + 1);
      if verdict == Raise { return false; }
      if effect.DoNothing? { return; }
      if !RowOk(effect.row) { return false; }
      events := events[e := events[e].(legacy := Some(effect.row))];
      ok := ForwardBridge(level + 1, e, effect.row);
    }

    /** ticket_type_expand_sync_inventory, fired AFTER a legacy row write. */
    method ForwardBridge(depth: nat, e: EventId, row: Row) returns (ok: bool)
      requires depth >= 1 && e in events
      requires mirrorOrigin == Some(mode)
      requires depth > 1 ==> mode == TicketType
      requires depth == 1 ==> mode == Legacy
      modifies this`events, this`mirrorOrigin, this`deepest
      ensures ok ==> mirrorOrigin == old(mirrorOrigin)
      ensures deepest <= Max(old(deepest), depth + 1)
      ensures depth > 1 ==> ok && events == old(events) && deepest <= Max(old(deepest), depth)
      ensures depth == 1 ==>
        (ok <==> RowOk(row) && old(events)[e].defaultType.Some? && old(events)[e].defaultType.value in old(events)[e].types)
      ensures depth == 1 && ok ==>
        events == old(events)[e := old(events)[e].(stock := old(events)[e].stock[old(events)[e].defaultType.value := row])]
      decreases if depth <= 1 then 2 else 0, 0
    {
      deepest := Max(depth, deepest);
      if depth > 1 && mirrorOrigin == Some(TicketType) { return true; }
      if events[e].defaultType.None? { return false; }
      ok := TypeStatement(depth, e, events[e].defaultType.value, Write(row));
    }

    /** INSERT or UPDATE on ticket_type_inventory for one type. */
    method TypeStatement(level: nat, e: EventId, t: TypeId, effect: Effect) returns (ok: bool)
      requires e in events
      modifies this`events, this`mirrorOrigin, this`deepest
      ensures deepest <= Max(old(deepest), level + 2)
      ensures level > 0 ==> deepest <= Max(old(deepest), level + 1)
      ensures level == 0 ==>
        (ok <==> mode == TicketType && (effect.Write? ==> TypeAccepted(mode, old(events)[e], t, effect.row)))
      ensures level == 0 && ok ==> mirrorOrigin == Some(TicketType)
      ensures level == 0 && ok && !effect.Write? ==> events == old(events)
      ensures level == 0 && ok && effect.Write? ==>
        events == old(events)[e := TypeWritten(old(events)[e], t, effect.row)]
      ensures level > 0 ==>
        (ok <==> (old(mirrorOrigin) == Some(mode)
                  && (mode == Legacy && effect.Write? ==> RowOk(effect.row) && t in old(events)[e].types)))
      ensures level > 0 && ok ==> mirrorOrigin == old(mirrorOrigin)
      ensures level > 0 && ok && !(mode == Legacy && effect.Write?) ==> events == old(events)
      ensures level > 0 && ok && mode == Legacy && effect.Write? ==>
        events == old(events)[e := old(events)[e].(stock := old(events)[e].stock[t := effect.row])]
      decreases if level == 0 then 2 else 1, 1
    {
      ok := FenceStatement(TypeTable, level + 1);
      if !ok || effect.NoRow? { return; }
      var verdict := GuardTypeWrite(level + 1);
      if verdict == Raise { return false; }
      if verdict == Skip || effect.DoNothing? { return; }
      // CHECK constraints, and the foreign key (event_id, ticket_type_id) -> ticket_types.
      if !RowOk(effect.row) || t !in events[e].types { return false; }
      events := events[e := events[e].(stock := events[e].stock[t := effect.row])];
      assert t in events[e].stock;
      ok := ReverseMirror(level + 1, e);
    }

    /** inventory_compatibility_sync_ticket_type_to_legacy, fired AFTER a type row write. */
    method ReverseMirror(depth: nat, e: EventId) returns (ok: bool)
      requires depth >= 1 && e in events
      modifies this`events, this`mirrorOrigin, this`deepest
      ensures deepest <= Max(old(deepest), depth + 1)
      ensures depth != 1 ==> deepest <= Max(old(deepest), depth)
      ensures ok ==> mirrorOrigin == old(mirrorOrigin)
      ensures (depth != 1 || old(mirrorOrigin) != Some(TicketType)) ==> ok && events == old(events)
      ensures depth == 1 && old(mirrorOrigin) == Some(TicketType) ==>
        var d := old(events)[e];
        (ok <==> mode == TicketType && d.stock != map[] && RowOk(Aggregate(d.stock, d.legacy)))
        && (ok ==> events == old(events)[e := d.(legacy := Some(Aggregate(d.stock, d.legacy)))])
      decreases if depth <= 1 then 2 else 1, 0
    {
      deepest := Max(depth, deepest);
      if depth != 1 || mirrorOrigin != Some(TicketType) { return true; }
      if mode != TicketType { return false; }
      ok := LegacyStatement(depth, e, if events[e].legacy.Some? then DoNothing else Write(Row(0, 0, 0)));
      assert ok;
      if events[e].stock == map[] { return false; }
      var total, remaining := AggregateStock(events[e].stock);
      if total > INT4_MAX || remaining > INT4_MAX { return false; }
      ok := LegacyStatement(depth, e, Write(Row(total, remaining, events[e].legacy.value.version + 1)));
    }
  }

  /** SELECT sum(total_quantity), sum(remaining_quantity) over the rows of an event. */
  method AggregateStock(stock: map<TypeId, Row>) returns (total: int, remaining: int)
    ensures total == Sum(Totals(stock)) && remaining == Sum(Remainings(stock))
  {
    total, remaining := 0, 0;
    var rest := stock;
    assert Totals(map[]) == map[] && Remainings(map[]) == map[];
    while rest != map[]
      invariant total + Sum(Totals(rest)) == Sum(Totals(stock))
      invariant remaining + Sum(Remainings(rest)) == Sum(Remainings(stock))
      decreases |rest|
    {
      var t :| t in rest;
      SumRemove(Totals(rest), t);
      SumRemove(Remainings(rest), t);
      assert Totals(rest - {t}) == Totals(rest) - {t};
      assert Remainings(rest - {t}) == Remainings(rest) - {t};
      total, remaining := total + rest[t].total, remaining + rest[t].remaining;
      assert (rest - {t}).Keys == rest.Keys - {t};
      assert |(rest - {t}).Keys| < |rest.Keys|;
      rest := rest - {t};
    }
  }
}
