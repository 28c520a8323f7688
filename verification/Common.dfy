/** Types and small facts every other module shares. */
module Common {

  /** Row identifiers: the source uses UUIDs, of which only equality and order matter. */
  type EventId = nat
  type TypeId = nat
  type BuyerId = nat

  /** Upper bound of a PostgreSQL INTEGER column. */
  const INT4_MAX: int := 0x7FFF_FFFF

  /** Largest integer a JavaScript number holds exactly. */
  const MAX_SAFE_INTEGER: int := 0x1F_FFFF_FFFF_FFFF

  datatype Option<+T> = None | Some(value: T)

  /** Value of the inventory_writer_control row. */
  datatype Mode = Legacy | TicketType {
    function Opposite(): Mode {
      match this
      case Legacy => TicketType
      case TicketType => Legacy
    }
  }

  function Min(a: int, b: int): int {
    if a <= b then a else b
  }

  function Max(a: int, b: int): int {
    if a <= b then b else a
  }
}

/** Division facts the batching loops need. */
module Arithmetic {
  lemma NextMultiple(q: nat, d: nat)
    ensures (q + 1) * d == q * d + d
  {
  }

  lemma DivUnique(n: int, d: int, q: int, r: int)
    requires d > 0 && 0 <= r < d && n == d * q + r
    ensures n / d == q
  {
    var k := n / d - q;
    assert n == d * (n / d) + n % d;
    assert d * k == r - n % d;
    MultipleSize(d, k);
  }

  lemma MultipleSize(d: int, k: int)
    requires d > 0
    ensures k >= 1 ==> d * k >= d
    ensures k <= -1 ==> d * k <= -d
  {
  }
}

/** The aggregate sum(column) of SQL over the rows of a table. */
module Sums {

  ghost function Sum(m: map<nat, int>): int
    decreases |m|
  {
    if m == map[] then 0
    else
      var k :| k in m;
      assert (m - {k}).Keys == m.Keys - {k};
      assert |m - {k}| == |(m - {k}).Keys|;
      m[k] + Sum(m - {k})
  }

  /** The sum does not depend on the order in which the rows are visited. */
  lemma SumRemove(m: map<nat, int>, k: nat)
    requires k in m
    ensures Sum(m) == m[k] + Sum(m - {k})
    decreases |m|
  {
    var p :| p in m && Sum(m) == m[p] + Sum(m - {p});
    if p != k {
      assert (m - {p}).Keys == m.Keys - {p};
      assert |(m - {p}).Keys| < |m.Keys|;
      SumRemove(m - {p}, k);
      assert (m - {k}).Keys == m.Keys - {k};
      assert |(m - {k}).Keys| < |m.Keys|;
      SumRemove(m - {k}, p);
      assert m - {p} - {k} == m - {k} - {p};
    }
  }

  lemma SumUpdate(m: map<nat, int>, k: nat, v: int)
    ensures Sum(m[k := v]) == Sum(m) - (if k in m then m[k] else 0) + v
  {
    SumRemove(m[k := v], k);
    assert m[k := v] - {k} == m - {k};
    if k in m {
      SumRemove(m, k);
    } else {
      assert m - {k} == m;
    }
  }

  lemma SumSingleton(k: nat, v: int)
    ensures Sum(map[k := v]) == v
  {
    SumUpdate(map[], k, v);
    assert map[][k := v] == map[k := v];
  }

  lemma {:induction false} SumAtLeast(m: map<nat, int>, k: nat)
    requires k in m
    requires forall j | j in m :: m[j] >= 0
    ensures Sum(m) >= m[k]
    decreases |m|
  {
    SumRemove(m, k);
    SumNonNegative(m - {k});
  }

  lemma {:induction false} SumNonNegative(m: map<nat, int>)
    requires forall j | j in m :: m[j] >= 0
    ensures Sum(m) >= 0
    decreases |m|
  {
    if m != map[] {
      var k :| k in m && Sum(m) == m[k] + Sum(m - {k});
      assert (m - {k}).Keys == m.Keys - {k};
      assert |(m - {k}).Keys| < |m.Keys|;
      SumNonNegative(m - {k});
    }
  }
}
