/** Keyset pagination: WHERE id > last ORDER BY id LIMIT n, repeated until a short page. */
module Keyset {
  import opened Common

  /** A row key: the event id, or the pair of event id and ticket type id, in lexicographic order. */
  type RowKey = (nat, nat)

  predicate Less(a: RowKey, b: RowKey) {
    a.0 < b.0 || (a.0 == b.0 && a.1 < b.1)
  }

  /** ORDER BY event_id, ticket_type_id */
  lemma LessIsLexicographic(a: RowKey, b: RowKey)
    ensures a.0 < b.0 ==> Less(a, b) && !Less(b, a)
    ensures a.0 == b.0 ==> (Less(a, b) <==> a.1 < b.1)
  {
  }

  predicate Above(k: RowKey, after: Option<RowKey>) {
    after.Some? ==> Less(after.value, k)
  }

  predicate Ascending(s: seq<RowKey>) {
    forall i, j | 0 <= i < j < |s| :: Less(s[i], s[j])
  }

  /** All keys above the cursor, in order. */
  ghost predicate Lists(s: seq<RowKey>, keys: set<RowKey>, after: Option<RowKey>) {
    Ascending(s) && forall k :: k in s <==> k in keys && Above(k, after)
  }

  /** The rows one query returns. */
  ghost predicate IsPage(page: seq<RowKey>, keys: set<RowKey>, after: Option<RowKey>, limit: nat) {
    && Ascending(page) && |page| <= limit
    && (forall k | k in page :: k in keys && Above(k, after))
    && (forall k | k in keys && Above(k, after) && k !in page :: |page| == limit && forall p | p in page :: Less(p, k))
  }

  /** The least key above the cursor, if there is one. */
  method Least(keys: set<RowKey>, after: Option<RowKey>) returns (least: Option<RowKey>)
    ensures least.Some? ==> least.value in keys && Above(least.value, after)
                            && forall k | k in keys && Above(k, after) :: !Less(k, least.value)
    ensures least.None? ==> forall k | k in keys :: !Above(k, after)
  {
    least := None;
    var todo := keys;
    while todo != {}
      invariant todo <= keys
      invariant least.Some? ==> least.value in keys && Above(least.value, after)
      invariant forall k | k in keys - todo && Above(k, after) :: least.Some? && !Less(k, least.value)
      decreases |todo|
    {
      var k :| k in todo;
      todo := todo - {k};
      if Above(k, after) && (least.None? || Less(k, least.value)) { least := Some(k); }
    }
  }

  method QueryPage(keys: set<RowKey>, after: Option<RowKey>, limit: nat) returns (page: seq<RowKey>)
    ensures IsPage(page, keys, after, limit)
  {
    page := [];
    var last := after;
    while |page| < limit
      invariant Ascending(page) && |page| <= limit
      invariant forall p | p in page :: last.Some? && !Less(last.value, p)
      invariant after.Some? ==> last.Some? && !Less(last.value, after.value)
      invariant last == if page == [] then after else Some(page[|page| - 1])
      invariant forall k | k in page :: k in keys && Above(k, after)
      invariant forall k | k in keys && Above(k, after) && k !in page :: Above(k, last)
    {
      var next := Least(keys, last);
      if next.None? {
        assert forall k | k in keys && Above(k, after) :: k in page;
        return;
      }
      page := page + [next.value];
      last := next;
    }
  }

  lemma LastIsGreatest(s: seq<RowKey>)
    requires Ascending(s) && s != []
    ensures forall k | k in s :: !Less(s[|s| - 1], k)
  {
  }

  lemma AscendingJoin(a: seq<RowKey>, b: seq<RowKey>)
    requires Ascending(a) && Ascending(b) && forall x, y | x in a && y in b :: Less(x, y)
    ensures Ascending(a + b)
  {
    forall i, j | 0 <= i < j < |a + b| ensures Less((a + b)[i], (a + b)[j]) {
      if i < |a| <= j { assert a[i] in a && b[j - |a|] in b; }
    }
  }

  /** Listing is unique, so the page size cannot be seen in the result. */
  lemma {:induction false} ListsUnique(a: seq<RowKey>, b: seq<RowKey>, keys: set<RowKey>, after: Option<RowKey>)
    requires Lists(a, keys, after) && Lists(b, keys, after)
    ensures a == b
    decreases |a|
  {
    if b != [] {
      assert b[0] in b;
      assert b[0] in a;
    }
    if a != [] {
      assert a[0] in a;
      assert a[0] in b;
      assert b[0] in b;
      assert b[0] in a;
      assert a[0] == b[0];
      Tail(a, keys, after);
      Tail(b, keys, after);
      ListsUnique(a[1..], b[1..], keys, Some(a[0]));
      assert a == [a[0]] + a[1..] && b == [b[0]] + b[1..];
    }
  }

  lemma Tail(a: seq<RowKey>, keys: set<RowKey>, after: Option<RowKey>)
    requires Lists(a, keys, after) && a != []
    ensures Lists(a[1..], keys, Some(a[0]))
  {
    assert a[0] in a;
    forall k ensures k in a[1..] <==> k in keys && Above(k, Some(a[0])) {
      if k in keys && Less(a[0], k) {
        assert k in a;
        var i :| 0 <= i < |a| && a[i] == k;
        assert a[1..][i - 1] == k;
      }
    }
  }

  /** DEFAULT_PAGE_SIZE bounds: pages hold between 1 and 1000 rows whatever was asked for. */
  function BoundedPageSize(pageSize: int): (n: nat)
    ensures 1 <= n <= 1000
  {
    Max(1, Min(pageSize, 1000))
  }

  /** Everything up to the cursor has been visited. */
  ghost predicate Visited(s: seq<RowKey>, keys: set<RowKey>, last: Option<RowKey>) {
    && Ascending(s)
    && (forall k :: k in s <==> k in keys && last.Some? && !Less(last.value, k))
    && (last.Some? ==> s != [])
  }

  lemma AppendPage(visited: seq<RowKey>, page: seq<RowKey>, keys: set<RowKey>, last: Option<RowKey>, limit: nat)
    requires Visited(visited, keys, last) && IsPage(page, keys, last, limit) && page != []
    ensures Visited(visited + page, keys, Some(page[|page| - 1]))
    ensures |page| < limit ==> Lists(visited + page, keys, None)
  {
    var end := page[|page| - 1];
    LastIsGreatest(page);
    assert end in page;
    AscendingJoin(visited, page);
    forall k ensures k in visited + page <==> k in keys && !Less(end, k) {
      if k in keys && !Less(end, k) && k !in visited { assert Above(k, last); }
    }
    if |page| < limit {
      forall k | k in keys ensures k in visited + page {
        if k !in visited { assert Above(k, last); }
      }
    }
  }

  /** The paging loop of iterateAuthoritativeInventory and runInventoryCounterReconcile: every row once, in key order. */
  method VisitAll(keys: set<RowKey>, pageSize: int) returns (visited: seq<RowKey>)
    ensures Lists(visited, keys, None)
  {
    var limit := BoundedPageSize(pageSize);
    visited := [];
    var last: Option<RowKey> := None;
    ghost var todo := keys;
    while true
      invariant Visited(visited, keys, last)
      invariant todo == set k | k in keys && Above(k, last)
      decreases |todo|
    {
      var page := QueryPage(keys, last, limit);
      if page == [] {
        assert forall k | k in keys :: !Above(k, last);
        return;
      }
      AppendPage(visited, page, keys, last, limit);
      visited := visited + page;
      assert page[|page| - 1] in page;
      last := Some(page[|page| - 1]);
      var rest := set k | k in keys && Above(k, last);
      assert rest < todo by { assert page[|page| - 1] in todo && page[|page| - 1] !in rest; }
      StrictlyFewer(rest, todo);
      todo := rest;
      if |page| < limit { return; }
    }
  }

  lemma StrictlyFewer(a: set<RowKey>, b: set<RowKey>)
    requires a < b
    ensures |a| < |b|
  {
    assert b == a + (b - a);
    assert |b| == |a| + |b - a|;
    assert b - a != {};
  }
}
