/**
 The PostgreSQL tables of the inventory, partitioned by event_id: every statement of the source
 filters on one event. `defaultType` is the ticket_types row flagged is_default (the partial unique
 index allows at most one), `stock` the ticket_type_inventory rows, `legacy` the ticket_inventory row.
 */
module InventoryTables {
  import opened Common
  import opened Sums

  datatype Row = Row(total: int, remaining: int, version: int)

  datatype Status = Confirmed | Rejected

  datatype Purchase = Purchase(
    id: nat, typeId: TypeId, buyer: BuyerId, requestId: Option<string>,
    quantity: int, status: Status, remainingAfter: Option<int>)

  datatype EventData = EventData(
    types: map<TypeId, string>,
    defaultType: Option<TypeId>,
    legacy: Option<Row>,
    stock: map<TypeId, Row>,
    purchases: seq<Purchase>)

  /** What one database transaction sees and leaves: the control row and the tables. */
  datatype Db = Db(mode: Mode, events: map<EventId, EventData>)

  /** CHECK constraints and INTEGER range of both inventory tables. */
  predicate RowOk(r: Row) {
    0 <= r.remaining <= r.total <= INT4_MAX && 0 <= r.version <= INT4_MAX
  }

  ghost function Totals(stock: map<TypeId, Row>): map<TypeId, int> {
    map t | t in stock :: stock[t].total
  }

  ghost function Remainings(stock: map<TypeId, Row>): map<TypeId, int> {
    map t | t in stock :: stock[t].remaining
  }

  /** The legacy row that mirrors a set of type rows, one version above the previous legacy row. */
  ghost function Aggregate(stock: map<TypeId, Row>, previous: Option<Row>): Row {
    Row(Sum(Totals(stock)), Sum(Remainings(stock)),
        (if previous.Some? then previous.value.version else 0) + 1)
  }

  lemma TotalsUpdate(stock: map<TypeId, Row>, t: TypeId, r: Row)
    ensures Sum(Totals(stock[t := r])) == Sum(Totals(stock)) - (if t in stock then stock[t].total else 0) + r.total
    ensures Sum(Remainings(stock[t := r]))
         == Sum(Remainings(stock)) - (if t in stock then stock[t].remaining else 0) + r.remaining
  {
    assert Totals(stock[t := r]) == Totals(stock)[t := r.total];
    assert Remainings(stock[t := r]) == Remainings(stock)[t := r.remaining];
    SumUpdate(Totals(stock), t, r.total);
    SumUpdate(Remainings(stock), t, r.remaining);
  }

  lemma TotalsSingleton(t: TypeId, r: Row)
    ensures Sum(Totals(map[t := r])) == r.total
    ensures Sum(Remainings(map[t := r])) == r.remaining
  {
    assert Totals(map[t := r]) == map[t := r.total];
    assert Remainings(map[t := r]) == map[t := r.remaining];
    SumSingleton(t, r.total);
    SumSingleton(t, r.remaining);
  }

  /** Quantity the confirmed purchases of a type hold. */
  function Sold(ps: seq<Purchase>, t: TypeId): int {
    if ps == [] then 0
    else
      var p := ps[|ps| - 1];
      Sold(ps[..|ps| - 1], t) + (if p.status == Confirmed && p.typeId == t then p.quantity else 0)
  }

  /** Quantity the confirmed purchases of the whole event hold. */
  function SoldInEvent(ps: seq<Purchase>): int {
    if ps == [] then 0
    else
      var p := ps[|ps| - 1];
      SoldInEvent(ps[..|ps| - 1]) + (if p.status == Confirmed then p.quantity else 0)
  }

  lemma SoldAppend(ps: seq<Purchase>, p: Purchase, t: TypeId)
    ensures Sold(ps + [p], t) == Sold(ps, t) + (if p.status == Confirmed && p.typeId == t then p.quantity else 0)
  {
    assert (ps + [p])[..|ps|] == ps;
  }

  ghost function SoldPerType(ps: seq<Purchase>, keys: set<TypeId>): map<TypeId, int> {
    map t | t in keys :: Sold(ps, t)
  }

  /** Sums over types and sums over purchases are the same quantity. */
  lemma {:induction false} SoldByType(ps: seq<Purchase>, keys: set<TypeId>)
    requires forall p | p in ps :: p.typeId in keys
    ensures Sum(SoldPerType(ps, keys)) == SoldInEvent(ps)
  {
    if ps == [] {
      SumZero(SoldPerType(ps, keys));
    } else {
      var p, rest := ps[|ps| - 1], ps[..|ps| - 1];
      SoldByType(rest, keys);
      var before := SoldPerType(rest, keys);
      var after := SoldPerType(ps, keys);
      assert p.typeId in keys;
      if p.status == Confirmed {
        assert after == before[p.typeId := before[p.typeId] + p.quantity];
        SumUpdate(before, p.typeId, before[p.typeId] + p.quantity);
      } else {
        assert after == before;
      }
    }
  }

  lemma {:induction false} SumZero(m: map<nat, int>)
    requires forall k | k in m :: m[k] == 0
    ensures Sum(m) == 0
    decreases |m|
  {
    if m != map[] {
      var k :| k in m && Sum(m) == m[k] + Sum(m - {k});
      assert (m - {k}).Keys == m.Keys - {k};
      assert |(m - {k}).Keys| < |m.Keys|;
      SumZero(m - {k});
    }
  }

  lemma {:induction false} SumDifference(a: map<nat, int>, b: map<nat, int>, c: map<nat, int>)
    requires a.Keys == b.Keys == c.Keys
    requires forall k | k in a :: a[k] - b[k] == c[k]
    ensures Sum(a) - Sum(b) == Sum(c)
    decreases |a|
  {
    if a == map[] {
      assert b == map[] && c == map[];
    } else {
      var k :| k in a;
      SumRemove(a, k);
      SumRemove(b, k);
      SumRemove(c, k);
      assert (a - {k}).Keys == a.Keys - {k};
      assert |(a - {k}).Keys| < |a.Keys|;
      SumDifference(a - {k}, b - {k}, c - {k});
    }
  }
}
