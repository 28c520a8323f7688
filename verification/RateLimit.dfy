/** The fixed-window limiter. Times are milliseconds; the store answers, and its clock never runs backwards. */
module RateLimit {
  import opened Common

  type Key = nat

  /** A counter without an expiry would never go away; INCR alone creates one. */
  datatype Counter = Counter(count: nat, expiresAt: Option<int>)

  type Counters = map<Key, Counter>

  /** A key whose expiry has passed reads as absent. */
  function Read(c: Counters, k: Key, now: int): Option<Counter> {
    if k in c && (c[k].expiresAt.Some? ==> now < c[k].expiresAt.value) then Some(c[k]) else None
  }

  /** INCR_WITH_EXPIRE_SCRIPT on one counter. */
  function Hit(c: Option<Counter>, now: int, window: nat): Counter {
    if c.None? then Counter(1, Some(now + window)) else Counter(c.value.count + 1, c.value.expiresAt)
  }

  /** TTL in seconds, as Valkey rounds it; -1 without an expiry. */
  function Ttl(c: Counter, now: int): int {
    if c.expiresAt.None? then -1 else (c.expiresAt.value - now + 500) / 1000
  }

  /** What an over-limit request is told to wait. */
  function Wait(c: Counter, now: int, windowSeconds: nat): int {
    var ttl := Ttl(c, now);
    if ttl > 0 then ttl else windowSeconds
  }

  /** The wait is what is left of the window, to the nearest second; the whole window when that rounds to nothing. */
  lemma WaitIs(c: Counter, now: int, windowSeconds: nat)
    requires c.expiresAt.Some? && now < c.expiresAt.value
    ensures var left := c.expiresAt.value - now;
      if left < 500 then Wait(c, now, windowSeconds) == windowSeconds
      else -500 < 1000 * Wait(c, now, windowSeconds) - left <= 500
  {
  }

  datatype Request = Request(at: int, keys: seq<Key>)

  datatype Verdict = Admitted | Limited(retryAfterSeconds: int)

  predicate DistinctKeys(keys: seq<Key>) {
    forall i, j | 0 <= i < j < |keys| :: keys[i] != keys[j]
  }

  function HitAll(c: Counters, keys: seq<Key>, now: int, window: nat): Counters {
    if keys == [] then c
    else
      var before := HitAll(c, keys[..|keys| - 1], now, window);
      var k := keys[|keys| - 1];
      before[k := Hit(Read(before, k, now), now, window)]
  }

  /** The request passes when no key is over its limit after counting the request on every key. */
  ghost predicate Passes(c: Counters, r: Request, window: nat, limits: Key -> nat) {
    forall k | k in r.keys :: !Over(c, k, r.at, window, limits)
  }

  predicate Over(c: Counters, k: Key, now: int, window: nat, limits: Key -> nat) {
    Hit(Read(c, k, now), now, window).count > limits(k)
  }

  /** What the caller is told: the longest wait among the keys over their limit. */
  ghost predicate LongestWait(c: Counters, keys: seq<Key>, now: int, windowSeconds: nat, limits: Key -> nat, wait: int) {
    && (forall k | k in keys && Over(c, k, now, windowSeconds * 1000, limits) :: WaitOf(c, k, now, windowSeconds) <= wait)
    && exists k :: k in keys && Over(c, k, now, windowSeconds * 1000, limits) && wait == WaitOf(c, k, now, windowSeconds)
  }

  /** No key over its limit and nothing to wait for, or the longest wait. */
  ghost predicate Told(c: Counters, keys: seq<Key>, now: int, windowSeconds: nat, limits: Key -> nat, wait: int) {
    if wait == 0 then forall k | k in keys :: !Over(c, k, now, windowSeconds * 1000, limits)
    else wait > 0 && LongestWait(c, keys, now, windowSeconds, limits, wait)
  }

  lemma ToldNext(c: Counters, keys: seq<Key>, k: Key, now: int, windowSeconds: nat, limits: Key -> nat, wait: int)
    requires Told(c, keys, now, windowSeconds, limits, wait) && windowSeconds > 0
    ensures var over := Over(c, k, now, windowSeconds * 1000, limits);
      Told(c, keys + [k], now, windowSeconds, limits, if over then Max(wait, WaitOf(c, k, now, windowSeconds)) else wait)
  {
    var over := Over(c, k, now, windowSeconds * 1000, limits);
    var wait' := if over then Max(wait, WaitOf(c, k, now, windowSeconds)) else wait;
    if wait' > 0 {
      if over && wait' == WaitOf(c, k, now, windowSeconds) {
        assert k in keys + [k];
      } else {
        var j :| j in keys && Over(c, j, now, windowSeconds * 1000, limits) && wait == WaitOf(c, j, now, windowSeconds);
        assert j in keys + [k];
      }
    }
  }

  function WaitOf(c: Counters, k: Key, now: int, windowSeconds: nat): int {
    Wait(Hit(Read(c, k, now), now, windowSeconds * 1000), now, windowSeconds)
  }

  class RateLimiter {
    var counters: Counters

    constructor ()
      ensures counters == map[]
    {
      counters := map[];
    }

    method IncrWithExpire(k: Key, now: int, window: nat) returns (count: nat, ttl: int)
      modifies this
      ensures var c := Hit(Read(old(counters), k, now), now, window);
        counters == old(counters)[k := c] && count == c.count && ttl == Ttl(c, now)
    {
      var stored := Read(counters, k, now);
      if stored.None? {
        counters := counters[k := Counter(1, None)];
      } else {
        counters := counters[k := Counter(stored.value.count + 1, stored.value.expiresAt)];
      }
      if counters[k].count == 1 && stored.None? {
        counters := counters[k := Counter(1, Some(now + window))];
      }
      count, ttl := counters[k].count, Ttl(counters[k], now);
    }

    /** enforce: every key is counted, even after one is over its limit. */
    method Enforce(r: Request, windowSeconds: nat, limits: Key -> nat) returns (v: Verdict)
      requires DistinctKeys(r.keys) && windowSeconds > 0
      modifies this
      ensures counters == HitAll(old(counters), r.keys, r.at, windowSeconds * 1000)
      ensures v.Admitted? <==> Passes(old(counters), r, windowSeconds * 1000, limits)
      ensures v.Limited? ==> v.retryAfterSeconds > 0
      ensures v.Limited? ==> LongestWait(old(counters), r.keys, r.at, windowSeconds, limits, v.retryAfterSeconds)
    {
      var retryAfterSeconds := 0;
      var window := windowSeconds * 1000;
      ghost var start := counters;
      var i := 0;
      while i < |r.keys|
        invariant i <= |r.keys|
        invariant counters == HitAll(start, r.keys[..i], r.at, window)
        invariant Told(start, r.keys[..i], r.at, windowSeconds, limits, retryAfterSeconds)
      {
        CountedNext(start, r.keys, i, r.at, window);
        ToldNext(start, r.keys[..i], r.keys[i], r.at, windowSeconds, limits, retryAfterSeconds);
        var count, ttl := IncrWithExpire(r.keys[i], r.at, window);
        if count > limits(r.keys[i]) {
          retryAfterSeconds := Max(retryAfterSeconds, if ttl > 0 then ttl else windowSeconds);
        }
        i := i + 1;
      }
      assert r.keys[..i] == r.keys;
      v := if retryAfterSeconds > 0 then Limited(retryAfterSeconds) else Admitted;
    }
  }

  lemma CountedNext(c: Counters, keys: seq<Key>, i: nat, now: int, window: nat)
    requires DistinctKeys(keys) && i < |keys|
    ensures keys[..i + 1] == keys[..i] + [keys[i]]
    ensures var before := HitAll(c, keys[..i], now, window);
      && Read(before, keys[i], now) == Read(c, keys[i], now)
      && HitAll(c, keys[..i + 1], now, window) == before[keys[i] := Hit(Read(c, keys[i], now), now, window)]
  {
    assert keys[..i + 1][..i] == keys[..i];
    HitAllAt(c, keys[..i], now, window, keys[i]);
  }

  lemma {:induction false} HitAllAt(c: Counters, keys: seq<Key>, now: int, window: nat, k: Key)
    requires DistinctKeys(keys)
    ensures k !in keys ==> (k in HitAll(c, keys, now, window) <==> k in c)
    ensures k !in keys && k in c ==> HitAll(c, keys, now, window)[k] == c[k]
    ensures k in keys ==> k in HitAll(c, keys, now, window)
                          && HitAll(c, keys, now, window)[k] == Hit(Read(c, k, now), now, window)
  {
    if keys != [] {
      var front, last := keys[..|keys| - 1], keys[|keys| - 1];
      assert keys == front + [last];
      HitAllAt(c, front, now, window, k);
      HitAllAt(c, front, now, window, last);
      assert forall i | 0 <= i < |front| :: keys[i] != keys[|front|];
    }
  }

  // --- One key over time ---

  /** The state of one counter after hits at the given times. */
  function After(times: seq<int>, window: nat): Option<Counter> {
    if times == [] then None
    else
      var t := times[|times| - 1];
      var c := After(times[..|times| - 1], window);
      Some(Hit(if c.Some? && c.value.expiresAt.Some? && c.value.expiresAt.value <= t then None else c, t, window))
  }

  /** How many of the hits in [a, b) were within the limit. */
  function Within(times: seq<int>, window: nat, limit: nat, a: int, b: int): nat {
    if times == [] then 0
    else
      var t := times[|times| - 1];
      Within(times[..|times| - 1], window, limit, a, b)
      + (if a <= t < b && After(times, window).value.count <= limit then 1 else 0)
  }

  predicate Ordered(times: seq<int>) {
    forall i, j | 0 <= i < j < |times| :: times[i] <= times[j]
  }

  /** Every counter that exists expires, one window after the hit that created it; all its hits lie before that. */
  lemma {:induction false} WindowShape(times: seq<int>, window: nat)
    requires Ordered(times) && times != [] && window > 0
    ensures var c := After(times, window).value;
      && c.expiresAt.Some? && c.count >= 1
      && (exists i :: 0 <= i < |times| && times[i] + window == c.expiresAt.value)
      && (forall i | 0 <= i < |times| :: times[i] < c.expiresAt.value)
  {
    if |times| > 1 {
      var front := times[..|times| - 1];
      WindowShape(front, window);
      assert forall i | 0 <= i < |front| :: times[i] == front[i] <= times[|times| - 1];
      var i :| 0 <= i < |front| && front[i] + window == After(front, window).value.expiresAt.value;
      assert times[i] == front[i];
    } else {
      assert times[..0] == [];
      assert After(times, window) == Some(Counter(1, Some(times[0] + window)));
    }
  }

  /** Start of the window the newest hit belongs to. */
  function Start(times: seq<int>, window: nat): int
    requires times != [] && After(times, window).value.expiresAt.Some?
  {
    After(times, window).value.expiresAt.value - window
  }

  /** Hits so far within [a, a + window), by where the current window lies. */
  lemma {:induction false} WithinByCase(times: seq<int>, window: nat, limit: nat, a: int)
    requires Ordered(times) && times != [] && window > 0 && limit > 0
    requires After(times, window).value.expiresAt.Some?
    ensures var s, c, n := Start(times, window), After(times, window).value.count, Within(times, window, limit, a, a + window);
      && (s + window <= a ==> n == 0)
      && (s < a < s + window ==> n <= Min(c, limit) - 1)
      && (s == a ==> n <= Min(c, limit))
      && (a < s < a + window ==> n <= limit - 1 + Min(c, limit))
      && (a + window <= s ==> n <= 2 * limit - 1)
  {
    var front, t := times[..|times| - 1], times[|times| - 1];
    if front != [] {
      WindowShape(front, window);
      WithinByCase(front, window, limit, a);
      WindowShape(times, window);
    }
  }

  /** In any interval of one window length, one less than twice the limit: the hit that opened the older window lies before it. */
  lemma LessThanTwiceTheLimit(times: seq<int>, window: nat, limit: nat, a: int)
    requires Ordered(times) && window > 0 && limit > 0
    ensures Within(times, window, limit, a, a + window) <= 2 * limit - 1
  {
    if times != [] {
      WindowShape(times, window);
      WithinByCase(times, window, limit, a);
    }
  }

  /** At most the limit in one window of the counter: exactly the smaller of the hits and the limit. */
  lemma {:induction false} AtMostLimitPerWindow(times: seq<int>, window: nat, limit: nat)
    requires Ordered(times) && times != [] && window > 0 && After(times, window).value.expiresAt.Some?
    ensures var s := Start(times, window);
      Within(times, window, limit, s, s + window) == Min(After(times, window).value.count, limit)
  {
    var front, t := times[..|times| - 1], times[|times| - 1];
    WindowShape(times, window);
    if front == [] {
      assert Within(front, window, limit, t, t + window) == 0;
    } else {
      WindowShape(front, window);
      if Start(front, window) + window <= t {
        NoneAfter(front, window, limit, t, t + window);
      } else {
        AtMostLimitPerWindow(front, window, limit);
      }
    }
  }

  lemma {:induction false} NoneAfter(times: seq<int>, window: nat, limit: nat, a: int, b: int)
    requires forall i | 0 <= i < |times| :: times[i] < a
    ensures Within(times, window, limit, a, b) == 0
  {
    if times != [] { NoneAfter(times[..|times| - 1], window, limit, a, b); }
  }

  // --- Requests ---

  function Serve(trace: seq<Request>, window: nat): Counters {
    if trace == [] then map[]
    else HitAll(Serve(trace[..|trace| - 1], window), trace[|trace| - 1].keys, trace[|trace| - 1].at, window)
  }

  /** Times at which the key was counted. */
  function TimesOf(trace: seq<Request>, k: Key): seq<int> {
    if trace == [] then []
    else TimesOf(trace[..|trace| - 1], k) + (if k in trace[|trace| - 1].keys then [trace[|trace| - 1].at] else [])
  }

  /** Requests with the key that passed in [a, b). */
  ghost function PassedWith(trace: seq<Request>, window: nat, limits: Key -> nat, k: Key, a: int, b: int): nat {
    if trace == [] then 0
    else
      var front, r := trace[..|trace| - 1], trace[|trace| - 1];
      PassedWith(front, window, limits, k, a, b)
      + (if a <= r.at < b && k in r.keys && Passes(Serve(front, window), r, window, limits) then 1 else 0)
  }

  /** So many requests they are: the positions of those that passed. */
  lemma {:induction false} PassedCounts(trace: seq<Request>, window: nat, limits: Key -> nat, k: Key, a: int, b: int)
    ensures PassedWith(trace, window, limits, k, a, b) == |PassedAt(trace, window, limits, k, a, b)|
  {
    if trace != [] {
      var n := |trace| - 1;
      PassedCounts(trace[..n], window, limits, k, a, b);
      var front, all := PassedAt(trace[..n], window, limits, k, a, b), PassedAt(trace, window, limits, k, a, b);
      forall i ensures i in front <==> i in all && i != n {
        PassedBefore(trace, window, limits, k, a, b, i);
      }
      assert front == all - {n};
    }
  }

  lemma PassedBefore(trace: seq<Request>, window: nat, limits: Key -> nat, k: Key, a: int, b: int, i: nat)
    requires trace != []
    ensures var n := |trace| - 1;
      i in PassedAt(trace[..n], window, limits, k, a, b) <==> i in PassedAt(trace, window, limits, k, a, b) && i != n
  {
    var n := |trace| - 1;
    if i < n { assert trace[..n][..i] == trace[..i] && trace[..n][i] == trace[i]; }
  }

  ghost function PassedAt(trace: seq<Request>, window: nat, limits: Key -> nat, k: Key, a: int, b: int): set<nat> {
    set i | 0 <= i < |trace| && a <= trace[i].at < b && k in trace[i].keys && Passes(Serve(trace[..i], window), trace[i], window, limits)
  }

  ghost predicate Sensible(trace: seq<Request>) {
    && (forall i | 0 <= i < |trace| :: DistinctKeys(trace[i].keys))
    && (forall i, j | 0 <= i < j < |trace| :: trace[i].at <= trace[j].at)
  }

  lemma NewestHit(times: seq<int>, t: int, window: nat)
    ensures var c := After(times, window);
      After(times + [t], window)
      == Some(Hit(if c.Some? && c.value.expiresAt.Some? && c.value.expiresAt.value <= t then None else c, t, window))
  {
    assert (times + [t])[..|times|] == times;
  }

  lemma NewestWithin(times: seq<int>, t: int, window: nat, limit: nat, a: int, b: int)
    ensures Within(times + [t], window, limit, a, b)
         == Within(times, window, limit, a, b) + (if a <= t < b && After(times + [t], window).value.count <= limit then 1 else 0)
  {
    assert (times + [t])[..|times|] == times;
  }

  lemma {:induction false} TimesOrdered(trace: seq<Request>, k: Key)
    requires Sensible(trace)
    ensures Ordered(TimesOf(trace, k))
    ensures trace != [] ==> forall i | 0 <= i < |TimesOf(trace, k)| :: TimesOf(trace, k)[i] <= trace[|trace| - 1].at
  {
    if trace != [] {
      var front := trace[..|trace| - 1];
      TimesOrdered(front, k);
      if front != [] { assert trace[|front| - 1].at <= trace[|front|].at; }
    }
  }

  /** The stored counter of a key depends on the hits of that key alone. */
  lemma {:induction false} CounterIs(trace: seq<Request>, window: nat, k: Key)
    requires Sensible(trace)
    ensures var c := After(TimesOf(trace, k), window);
      (k in Serve(trace, window) <==> c.Some?) && (c.Some? ==> Serve(trace, window)[k] == c.value)
  {
    if trace != [] {
      var front, r := trace[..|trace| - 1], trace[|trace| - 1];
      CounterIs(front, window, k);
      HitAllAt(Serve(front, window), r.keys, r.at, window, k);
      if k in r.keys {
        NewestHit(TimesOf(front, k), r.at, window);
        assert TimesOf(trace, k) == TimesOf(front, k) + [r.at];
      } else {
        assert TimesOf(trace, k) == TimesOf(front, k);
      }
    }
  }

  lemma {:induction false} PassedIsWithin(trace: seq<Request>, window: nat, limits: Key -> nat, k: Key, a: int, b: int)
    requires Sensible(trace)
    ensures PassedWith(trace, window, limits, k, a, b) <= Within(TimesOf(trace, k), window, limits(k), a, b)
  {
    if trace != [] {
      var front, r := trace[..|trace| - 1], trace[|trace| - 1];
      PassedIsWithin(front, window, limits, k, a, b);
      CounterIs(front, window, k);
      if k in r.keys {
        NewestHit(TimesOf(front, k), r.at, window);
        NewestWithin(TimesOf(front, k), r.at, window, limits(k), a, b);
      } else {
        assert TimesOf(trace, k) == TimesOf(front, k);
      }
    }
  }

  /**
   Whatever the other key of each request does, fewer than 2 * limit requests of a key pass in any interval of one window
   length, and every counter the store holds has an expiry.
   */
  lemma LimiterBound(trace: seq<Request>, window: nat, limits: Key -> nat, k: Key, a: int)
    requires Sensible(trace) && window > 0 && limits(k) > 0
    ensures PassedWith(trace, window, limits, k, a, a + window) <= 2 * limits(k) - 1
    ensures k in Serve(trace, window) ==> Serve(trace, window)[k].expiresAt.Some?
  {
    TimesOrdered(trace, k);
    CounterIs(trace, window, k);
    PassedIsWithin(trace, window, limits, k, a, a + window);
    LessThanTwiceTheLimit(TimesOf(trace, k), window, limits(k), a);
    if TimesOf(trace, k) != [] { WindowShape(TimesOf(trace, k), window); }
  }

  /** And at most the limit of them in the running window of the key. */
  lemma LimiterWindowBound(trace: seq<Request>, window: nat, limits: Key -> nat, k: Key)
    requires Sensible(trace) && window > 0 && k in Serve(trace, window)
    ensures Serve(trace, window)[k].expiresAt.Some?
    ensures var start := Serve(trace, window)[k].expiresAt.value - window;
      PassedWith(trace, window, limits, k, start, start + window) <= Min(Serve(trace, window)[k].count, limits(k))
  {
    var times := TimesOf(trace, k);
    TimesOrdered(trace, k);
    CounterIs(trace, window, k);
    WindowShape(times, window);
    var start := Start(times, window);
    PassedIsWithin(trace, window, limits, k, start, start + window);
    AtMostLimitPerWindow(times, window, limits(k));
  }

  // --- Exactly which requests pass ---

  /** The hit finds no running window and opens one. */
  ghost predicate Opens(times: seq<int>, window: nat, i: nat)
    requires i < |times|
    decreases i
  {
    forall j | 0 <= j < i && Opens(times, window, j) :: times[j] + window <= times[i]
  }

  ghost predicate LastOpener(times: seq<int>, window: nat, i: nat)
    requires i < |times|
  {
    Opens(times, window, i) && forall j | i < j < |times| :: !Opens(times, window, j)
  }

  lemma {:induction false} OpensPrefix(times: seq<int>, t: int, window: nat, i: nat)
    requires i < |times|
    ensures Opens(times + [t], window, i) <==> Opens(times, window, i)
    decreases i
  {
    forall j | 0 <= j < i ensures Opens(times + [t], window, j) <==> Opens(times, window, j) {
      OpensPrefix(times, t, window, j);
    }
  }

  predicate CountsFrom(times: seq<int>, window: nat, i: nat)
    requires i < |times|
  {
    After(times, window) == Some(Counter(|times| - i, Some(times[i] + window)))
  }

  lemma CountsNext(front: seq<int>, t: int, window: nat, k: nat)
    requires k < |front| && CountsFrom(front, window, k)
    ensures CountsFrom(front + [t], window, if t < front[k] + window then k else |front|)
  {
    NewestHit(front, t, window);
  }

  /** A counter counts the hits from the one that opened its window, and expires one window after that one. */
  lemma {:induction false} CountsFromOpener(times: seq<int>, window: nat) returns (i: nat)
    requires Ordered(times) && times != [] && window > 0
    ensures i < |times| && LastOpener(times, window, i) && CountsFrom(times, window, i)
  {
    var front, t := times[..|times| - 1], times[|times| - 1];
    assert times == front + [t];
    if front == [] { return 0; }
    var k := CountsFromOpener(front, window);
    OpenerNext(front, t, window, k);
    CountsNext(front, t, window, k);
    i := if t < front[k] + window then k else |front|;
  }

  /** A hit within the window of the last opener opens nothing; a later one does. */
  lemma OpenerNext(front: seq<int>, t: int, window: nat, k: nat)
    requires Ordered(front) && k < |front| && LastOpener(front, window, k) && window > 0
    ensures LastOpener(front + [t], window, if t < front[k] + window then k else |front|)
  {
    var times := front + [t];
    forall j | 0 <= j < |front| ensures Opens(times, window, j) <==> Opens(front, window, j) {
      OpensPrefix(front, t, window, j);
    }
    if t >= front[k] + window {
      forall j | 0 <= j < |front| && Opens(times, window, j) ensures times[j] + window <= t {
        assert j <= k && front[j] <= front[k];
      }
    }
  }

  /** One more hit at `t` is within the limit of a key counted at these times. */
  ghost predicate Fits(times: seq<int>, window: nat, limit: nat, t: int) {
    && limit > 0
    && forall i | 0 <= i < |times| && LastOpener(times, window, i) && t < times[i] + window :: |times| - i < limit
  }

  /** The limiter refuses nothing else: a request passes if and only if each key has room in its running window. */
  lemma PassesIff(trace: seq<Request>, r: Request, window: nat, limits: Key -> nat)
    requires Sensible(trace) && window > 0 && forall i | 0 <= i < |trace| :: trace[i].at <= r.at
    ensures Passes(Serve(trace, window), r, window, limits) <==>
            forall k | k in r.keys :: Fits(TimesOf(trace, k), window, limits(k), r.at)
  {
    forall k | k in r.keys
      ensures Over(Serve(trace, window), k, r.at, window, limits) <==> !Fits(TimesOf(trace, k), window, limits(k), r.at)
    {
      OverIff(trace, k, r.at, window, limits);
    }
  }

  lemma OverIff(trace: seq<Request>, k: Key, t: int, window: nat, limits: Key -> nat)
    requires Sensible(trace) && window > 0
    ensures Over(Serve(trace, window), k, t, window, limits) <==> !Fits(TimesOf(trace, k), window, limits(k), t)
  {
    var times := TimesOf(trace, k);
    TimesOrdered(trace, k);
    CounterIs(trace, window, k);
    if times != [] {
      var i := CountsFromOpener(times, window);
      forall j | 0 <= j < |times| && LastOpener(times, window, j) ensures j == i {}
    }
  }

  /** `n` more hits at the same moment. */
  function Hits(times: seq<int>, t: int, n: nat): seq<int> {
    if n == 0 then times else Hits(times, t, n - 1) + [t]
  }

  /** After the hits the counter stands at `count`, and `passed` of those in [a, a + window) were within the limit. */
  predicate Stands(times: seq<int>, window: nat, limit: nat, a: int, count: nat, end: int, passed: nat) {
    After(times, window) == Some(Counter(count, Some(end))) && Within(times, window, limit, a, a + window) == passed
  }

  /** A burst at one moment of a running window passes until the limit is used up. */
  lemma {:induction false} Burst(times: seq<int>, t: int, n: nat, window: nat, limit: nat, a: int, count: nat, end: int, passed: nat)
    requires Stands(times, window, limit, a, count, end, passed) && t < end && a <= t < a + window && count + n <= limit
    ensures Stands(Hits(times, t, n), window, limit, a, count + n, end, passed + n)
  {
    if n > 0 {
      Burst(times, t, n - 1, window, limit, a, count, end, passed);
      OneMoreHit(Hits(times, t, n - 1), t, window, limit, a, count + n - 1, end, passed + n - 1);
    }
  }

  lemma OneMoreHit(times: seq<int>, t: int, window: nat, limit: nat, a: int, count: nat, end: int, passed: nat)
    requires Stands(times, window, limit, a, count, end, passed) && t < end && a <= t < a + window && count < limit
    ensures Stands(times + [t], window, limit, a, count + 1, end, passed + 1)
  {
    NewestHit(times, t, window);
    NewestWithin(times, t, window, limit, a, a + window);
  }

  /** A hit at 0, a burst just before its window ends, and a burst at the start of the next window. */
  function TwoBursts(window: nat, limit: nat): seq<int>
    requires window > 1 && limit > 0
  {
    Hits(Hits([0], window - 1, limit - 1) + [window], window, limit - 1)
  }

  /** The bound is reached for every limit, by hits in order of time. */
  lemma BoundIsReached(window: nat, limit: nat) returns (times: seq<int>)
    requires window > 1 && limit > 0
    ensures Ordered(times)
    ensures Within(times, window, limit, window - 1, window - 1 + window) == 2 * limit - 1
  {
    times := TwoBursts(window, limit);
    BurstsOrdered(window, limit);
    var a := window - 1;
    OpensWindow([], 0, window, limit, a, 0);
    assert [] + [0] == [0];
    Burst([0], a, limit - 1, window, limit, a, 1, window, 0);
    var older := Hits([0], a, limit - 1);
    OpensWindow(older, window, window, limit, a, limit - 1);
    Burst(older + [window], window, limit - 1, window, limit, a, 1, 2 * window, limit);
  }

  lemma BurstsOrdered(window: nat, limit: nat)
    requires window > 1 && limit > 0
    ensures Ordered(TwoBursts(window, limit))
  {
    HitsOrdered([0], window - 1, limit - 1);
    NoneLaterGrows(Hits([0], window - 1, limit - 1), window - 1, window);
    HitsOrdered(Hits([0], window - 1, limit - 1) + [window], window, limit - 1);
  }

  predicate NoneLater(times: seq<int>, t: int) {
    forall i | 0 <= i < |times| :: times[i] <= t
  }

  lemma NoneLaterGrows(times: seq<int>, a: int, b: int)
    requires NoneLater(times, a) && a <= b
    ensures NoneLater(times, b)
  {
  }

  lemma {:induction false} HitsOrdered(times: seq<int>, t: int, n: nat)
    requires Ordered(times) && NoneLater(times, t)
    ensures Ordered(Hits(times, t, n)) && NoneLater(Hits(times, t, n), t)
  {
    if n > 0 { HitsOrdered(times, t, n - 1); }
  }

  /** A hit after the end of the running window, if there was one, opens a new one. */
  lemma OpensWindow(times: seq<int>, t: int, window: nat, limit: nat, a: int, passed: nat)
    requires limit > 0 && Within(times, window, limit, a, a + window) == passed
    requires After(times, window).Some? ==> After(times, window).value.expiresAt == Some(t)
    ensures Stands(times + [t], window, limit, a, 1, t + window, passed + (if a <= t < a + window then 1 else 0))
  {
    NewestHit(times, t, window);
    NewestWithin(times, t, window, limit, a, a + window);
  }
}
