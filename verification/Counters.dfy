/** The Valkey inventory counters: every script is one atomic step on a counter and its revision. */
module Counters {
  import opened Common

  /** The Event namespace and the Ticket Type namespace never share a key. */
  datatype Key = EventCounter(event: EventId) | TypeCounter(event: EventId, typeId: TypeId)

  datatype Store = Store(values: map<Key, int>, revisions: map<Key, nat>)

  datatype Script =
    | Init(value: int)                             // INIT_SCRIPT, TICKET_TYPE_INIT_SCRIPT
    | Reserve(quantity: int)                       // RESERVE_SCRIPT, TICKET_TYPE_RESERVE_SCRIPT
    | Release(quantity: int)                       // RELEASE_SCRIPT, TICKET_TYPE_RELEASE_SCRIPT
    | Sync(value: int, expected: nat)              // SYNC_SCRIPT: no EXISTS guard
    | GuardedSync(value: int, expected: nat)       // TICKET_TYPE_SYNC_SCRIPT, CLI_LEGACY_GUARDED_SYNC_SCRIPT

  datatype Reply = Done(revision: nat) | Unknown | SoldOut | Skipped

  /** GET on the revision key; an absent key reads as '0'. */
  function Revision(s: Store, k: Key): nat {
    if k in s.revisions then s.revisions[k] else 0
  }

  function Value(s: Store, k: Key): Option<int> {
    if k in s.values then Some(s.values[k]) else None
  }

  /** The reply of a script, decided before anything is written. */
  function ReplyTo(s: Store, k: Key, script: Script): Reply {
    var next := Done(Revision(s, k) + 1);
    match script
    case Init(_) => next
    case Reserve(q) => if k !in s.values then Unknown else if s.values[k] < q then SoldOut else next
    case Release(_) => if k !in s.values then Skipped else next
    case Sync(_, expected) => if Revision(s, k) != expected then Skipped else next
    case GuardedSync(_, expected) => if k !in s.values || Revision(s, k) != expected then Skipped else next
  }

  function NewValue(s: Store, k: Key, script: Script): int
    requires script.Reserve? || script.Release? ==> k in s.values
  {
    match script
    case Init(v) => v
    case Reserve(q) => s.values[k] - q
    case Release(q) => s.values[k] + q
    case Sync(v, _) => v
    case GuardedSync(v, _) => v
  }

  function Run(s: Store, k: Key, script: Script): Store {
    if ReplyTo(s, k, script).Done?
    then Store(s.values[k := NewValue(s, k, script)], s.revisions[k := Revision(s, k) + 1])
    else s
  }

  class CounterStore {
    var values: map<Key, int>
    var revisions: map<Key, nat>

    function View(): Store
      reads this
    {
      Store(values, revisions)
    }

    constructor ()
      ensures View() == Store(map[], map[])
    {
      values, revisions := map[], map[];
    }

    method Increment(k: Key) returns (revision: nat)
      modifies this`revisions
      ensures revision == Revision(old(View()), k) + 1
      ensures revisions == old(revisions)[k := revision]
    {
      revision := (if k in revisions then revisions[k] else 0) + 1;
      revisions := revisions[k := revision];
    }

    method RunInit(k: Key, value: int) returns (r: Reply)
      modifies this
      ensures View() == Run(old(View()), k, Init(value)) && r == ReplyTo(old(View()), k, Init(value))
    {
      values := values[k := value];
      var revision := Increment(k);
      r := Done(revision);
    }

    method RunReserve(k: Key, quantity: int) returns (r: Reply)
      modifies this
      ensures View() == Run(old(View()), k, Reserve(quantity)) && r == ReplyTo(old(View()), k, Reserve(quantity))
    {
      if k !in values { return Unknown; }
      if values[k] < quantity { return SoldOut; }
      values := values[k := values[k] - quantity];
      var revision := Increment(k);
      r := Done(revision);
    }

    method RunRelease(k: Key, quantity: int) returns (r: Reply)
      modifies this
      ensures View() == Run(old(View()), k, Release(quantity)) && r == ReplyTo(old(View()), k, Release(quantity))
    {
      if k !in values { return Skipped; }
      values := values[k := values[k] + quantity];
      var revision := Increment(k);
      r := Done(revision);
    }

    method GetRevision(k: Key) returns (revision: nat)
      ensures revision == Revision(View(), k)
    {
      revision := if k in revisions then revisions[k] else 0;
    }

    /** SYNC_SCRIPT with `guarded` false; the EXISTS-guarded variants with `guarded` true. */
    method RunSync(k: Key, value: int, expected: nat, guarded: bool) returns (r: Reply)
      modifies this
      ensures var script := if guarded then GuardedSync(value, expected) else Sync(value, expected);
        View() == Run(old(View()), k, script) && r == ReplyTo(old(View()), k, script)
    {
      if guarded && k !in values { return Skipped; }
      var revision := if k in revisions then revisions[k] else 0;
      if revision != expected { return Skipped; }
      values := values[k := value];
      var next := Increment(k);
      r := Done(next);
    }
  }

  // --- Compare-and-set ---

  datatype Call = Call(key: Key, script: Script)

  function RunAll(s: Store, calls: seq<Call>): Store
    decreases |calls|
  {
    if calls == [] then s else RunAll(Run(s, calls[0].key, calls[0].script), calls[1..])
  }

  /** A script that writes raises the revision of its own key, and touches no other key of either namespace. */
  lemma ScriptEffect(s: Store, k: Key, script: Script, other: Key)
    ensures Revision(Run(s, k, script), k) == Revision(s, k) + (if ReplyTo(s, k, script).Done? then 1 else 0)
    ensures Value(Run(s, k, script), k) != Value(s, k) ==> Revision(Run(s, k, script), k) > Revision(s, k)
    ensures other != k ==> Value(Run(s, k, script), other) == Value(s, other)
                           && Revision(Run(s, k, script), other) == Revision(s, other)
  {
  }

  /** None of the calls wrote the counter of `k`. */
  ghost predicate Untouched(s: Store, calls: seq<Call>, k: Key)
    decreases |calls|
  {
    calls == [] || ((calls[0].key == k ==> !ReplyTo(s, k, calls[0].script).Done?)
                    && Untouched(Run(s, calls[0].key, calls[0].script), calls[1..], k))
  }

  lemma {:induction false} RevisionCounts(s: Store, calls: seq<Call>, k: Key)
    ensures Revision(RunAll(s, calls), k) >= Revision(s, k)
    ensures Revision(RunAll(s, calls), k) == Revision(s, k) <==> Untouched(s, calls, k)
    ensures Untouched(s, calls, k) ==> Value(RunAll(s, calls), k) == Value(s, k)
    decreases |calls|
  {
    if calls != [] {
      ScriptEffect(s, calls[0].key, calls[0].script, k);
      RevisionCounts(Run(s, calls[0].key, calls[0].script), calls[1..], k);
    }
  }

  /**
   A compare-and-set whose anchor was read before any number of other calls writes exactly when none of them
   reserved, released, initialised or synced that counter (and, for the guarded scripts, the counter exists).
   */
  lemma SyncWritesIff(s: Store, calls: seq<Call>, k: Key, value: int)
    ensures var later := RunAll(s, calls);
      && (ReplyTo(later, k, Sync(value, Revision(s, k))).Done? <==> Untouched(s, calls, k))
      && (ReplyTo(later, k, GuardedSync(value, Revision(s, k))).Done? <==> Untouched(s, calls, k) && k in s.values)
  {
    RevisionCounts(s, calls, k);
  }
}
