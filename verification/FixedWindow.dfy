/** The fixed window strategy of app/core/rate_limiter.py (`_check_fixed_window`): one counter per
    aligned window, in the shared cache, or in memory when the cache raises.  Time is counted in
    ticks, and a check is one step. */
module FixedWindow {
  import opened Common
  import opened WeightedWindow

  predicate ProperLimit(limit: nat, window: nat) { limit >= 1 && window >= 1 }

  /** A check in the cache: the count is read and, below the limit, written back with a fresh TTL. */
  function CheckCache(limit: nat, window: nat, counts: Counts, now: int): (bool, Counts)
    requires ProperLimit(limit, window)
  {
    var k := Slot(window, now);
    var count := Read(counts, k, now);
    if count >= limit then (false, counts) else (true, counts[k := Entry(count + 1, now + window)])
  }

  /** A check in memory: a missing or expired entry starts over, and is kept even by a denied check. */
  function CheckMemory(limit: nat, window: nat, counts: Counts, now: int): (bool, Counts)
    requires ProperLimit(limit, window)
  {
    var k := Slot(window, now);
    var blank := Entry(0, now + window);
    var entry := if k !in counts || now > counts[k].expires then blank else counts[k];
    if entry.count >= limit then (false, counts[k := entry]) else (true, counts[k := entry.(count := entry.count + 1)])
  }

  lemma CacheKept(limit: nat, window: nat, counts: Counts, log: seq<int>, now: int)
    requires ProperLimit(limit, window) && WithinQuota(limit, window, counts, log)
    ensures var (allowed, counts') := CheckCache(limit, window, counts, now);
            && (allowed <==> Tally(window, log, Slot(window, now)) < limit)
            && (forall k :: k in counts' && (k !in counts || counts'[k] != counts[k]) ==>
                  counts'[k].expires == now + window)
            && WithinQuota(limit, window, counts', if allowed then log + [now] else log)
  {
    Aligned(window, now);
    TtlCovers(window, window, counts, log, Slot(window, now), now);
    hide Slot;
    forall k ensures Tally(window, log + [now], k) == Tally(window, log, k) + if Slot(window, now) == k then 1 else 0 {
      TallyAppend(window, log, now, k);
    }
    hide Tally;
  }

  lemma MemoryKept(limit: nat, window: nat, counts: Counts, log: seq<int>, now: int)
    requires ProperLimit(limit, window) && WithinQuota(limit, window, counts, log)
    ensures var (allowed, counts') := CheckMemory(limit, window, counts, now);
            && (allowed <==> Tally(window, log, Slot(window, now)) < limit)
            && WithinQuota(limit, window, counts', if allowed then log + [now] else log)
  {
    Aligned(window, now);
    TtlCovers(window, window, counts, log, Slot(window, now), now);
    hide Slot;
    forall k ensures Tally(window, log + [now], k) == Tally(window, log, k) + if Slot(window, now) == k then 1 else 0 {
      TallyAppend(window, log, now, k);
    }
    hide Tally;
  }

  // ---------- runs in which the cache comes and goes ----------

  /** One client's counters in the two stores, and what each store has admitted. */
  datatype Client = Client(cached: Counts, inMemory: Counts)

  datatype Log = Log(cached: seq<int>, inMemory: seq<int>)

  /** A check at `now`, with the cache up or raising. */
  datatype Try = Try(now: int, cacheUp: bool)

  function CheckClient(limit: nat, window: nat, s: Client, t: Try): (bool, Client)
    requires ProperLimit(limit, window)
  {
    if t.cacheUp then
      var (allowed, counts) := CheckCache(limit, window, s.cached, t.now);
      (allowed, s.(cached := counts))
    else
      var (allowed, counts) := CheckMemory(limit, window, s.inMemory, t.now);
      (allowed, s.(inMemory := counts))
  }

  function Record(log: Log, t: Try, allowed: bool): Log {
    if !allowed then log
    else if t.cacheUp then log.(cached := log.cached + [t.now])
    else log.(inMemory := log.inMemory + [t.now])
  }

  function RunChecks(limit: nat, window: nat, s: Client, log: Log, tries: seq<Try>): (Client, Log)
    requires ProperLimit(limit, window)
    decreases tries
  {
    if tries == [] then (s, log)
    else
      var (allowed, s') := CheckClient(limit, window, s, tries[0]);
      RunChecks(limit, window, s', Record(log, tries[0], allowed), tries[1..])
  }

  ghost predicate Within(limit: nat, window: nat, s: Client, log: Log)
    requires ProperLimit(limit, window)
  {
    WithinQuota(limit, window, s.cached, log.cached) && WithinQuota(limit, window, s.inMemory, log.inMemory)
  }

  lemma {:induction false} RunWithin(limit: nat, window: nat, s: Client, log: Log, tries: seq<Try>)
    requires ProperLimit(limit, window) && Within(limit, window, s, log)
    ensures var (s', log') := RunChecks(limit, window, s, log, tries); Within(limit, window, s', log')
    decreases tries
  {
    if tries != [] {
      var (allowed, s') := CheckClient(limit, window, s, tries[0]);
      if tries[0].cacheUp {
        CacheKept(limit, window, s.cached, log.cached, tries[0].now);
      } else {
        MemoryKept(limit, window, s.inMemory, log.inMemory, tries[0].now);
      }
      hide WithinQuota, CheckCache, CheckMemory;
      RunWithin(limit, window, s', Record(log, tries[0], allowed), tries[1..]);
    }
  }

  /** Over any run, however the cache comes and goes, each store admits at most the limit in an
      aligned window, so both together at most twice the limit; and each admits at most twice the
      limit in any trailing window. */
  lemma EachStoreWithinLimit(limit: nat, window: nat, tries: seq<Try>, k: int, end: int)
    requires ProperLimit(limit, window)
    ensures var log := RunChecks(limit, window, Client(map[], map[]), Log([], []), tries).1;
            && Tally(window, log.cached, k) <= limit && Tally(window, log.inMemory, k) <= limit
            && Trailing(window, log.cached, end) <= 2 * limit && Trailing(window, log.inMemory, end) <= 2 * limit
  {
    RunWithin(limit, window, Client(map[], map[]), Log([], []), tries);
    var log := RunChecks(limit, window, Client(map[], map[]), Log([], []), tries).1;
    TrailingInTwoWindows(window, log.cached, end);
    TrailingInTwoWindows(window, log.inMemory, end);
    hide RunChecks, Faithful, Tally, Trailing;
  }

  // ---------- the burst at the boundary ----------

  /** `n` checks at one instant. */
  function Burst(now: int, cacheUp: bool, n: nat): seq<Try> {
    if n == 0 then [] else [Try(now, cacheUp)] + Burst(now, cacheUp, n - 1)
  }

  function Copies(now: int, n: nat): seq<int> {
    if n == 0 then [] else Copies(now, n - 1) + [now]
  }

  lemma {:induction false} CopiesFirst(now: int, n: nat)
    requires n > 0
    ensures Copies(now, n) == [now] + Copies(now, n - 1)
  {
    if n > 1 {
      CopiesFirst(now, n - 1);
      Regroup([now], Copies(now, n - 2), [now]);
    }
  }

  lemma BurstBegins(now: int, n: nat, rest: seq<Try>)
    requires n > 0
    ensures var all := Burst(now, true, n) + rest;
            all != [] && all[0] == Try(now, true) && all[1..] == Burst(now, true, n - 1) + rest
  {
  }

  /** A check on the cache with room for it. */
  lemma OneAdmitted(limit: nat, window: nat, s: Client, log: Log, now: int, tries: seq<Try>)
    requires ProperLimit(limit, window) && Within(limit, window, s, log)
    requires Tally(window, log.cached, Slot(window, now)) < limit && tries != [] && tries[0] == Try(now, true)
    ensures var s', log' := CheckClient(limit, window, s, tries[0]).1, log.(cached := log.cached + [now]);
            && Within(limit, window, s', log')
            && Tally(window, log'.cached, Slot(window, now)) == Tally(window, log.cached, Slot(window, now)) + 1
            && RunChecks(limit, window, s, log, tries) == RunChecks(limit, window, s', log', tries[1..])
  {
    CacheKept(limit, window, s.cached, log.cached, now);
    TallyAppend(window, log.cached, now, Slot(window, now));
    hide WithinQuota, CheckCache, Slot, Tally;
  }

  /** The first of a burst. */
  lemma BurstStep(limit: nat, window: nat, s: Client, log: Log, now: int, n: nat, rest: seq<Try>)
    returns (next: Client, more: Log)
    requires ProperLimit(limit, window) && Within(limit, window, s, log)
    requires n > 0 && Tally(window, log.cached, Slot(window, now)) + n <= limit
    ensures Within(limit, window, next, more)
    ensures Tally(window, more.cached, Slot(window, now)) + (n - 1) <= limit
    ensures more.(cached := more.cached + Copies(now, n - 1)) == log.(cached := log.cached + Copies(now, n))
    ensures RunChecks(limit, window, s, log, Burst(now, true, n) + rest)
         == RunChecks(limit, window, next, more, Burst(now, true, n - 1) + rest)
  {
    CopiesFirst(now, n);
    hide Within, RunChecks, Tally, Slot, Copies, Burst, CheckClient;
    var tries := Burst(now, true, n) + rest;
    BurstBegins(now, n, rest);
    OneAdmitted(limit, window, s, log, now, tries);
    next, more := CheckClient(limit, window, s, tries[0]).1, log.(cached := log.cached + [now]);
    Regroup(log.cached, [now], Copies(now, n - 1));
  }

  /** With room for `n`, a burst of `n` on the cache is admitted whole; then `rest` follows. */
  lemma {:induction false} BurstAdmitted(limit: nat, window: nat, s: Client, log: Log, now: int, n: nat, rest: seq<Try>)
    returns (after: Client)
    requires ProperLimit(limit, window) && Within(limit, window, s, log)
    requires Tally(window, log.cached, Slot(window, now)) + n <= limit
    ensures var sum := log.(cached := log.cached + Copies(now, n));
            && Within(limit, window, after, sum)
            && RunChecks(limit, window, s, log, Burst(now, true, n) + rest)
            == RunChecks(limit, window, after, sum, rest)
    decreases n
  {
    if n == 0 {
      assert log.cached + Copies(now, 0) == log.cached;
      assert Burst(now, true, 0) + rest == rest;
      after := s;
    } else {
      hide Within, RunChecks, Tally, Slot, Copies, Burst, CheckClient;
      var next, more := BurstStep(limit, window, s, log, now, n, rest);
      after := BurstAdmitted(limit, window, next, more, now, n - 1, rest);
    }
  }

  lemma TrailingAppend(window: nat, log: seq<int>, t: int, end: int)
    ensures Trailing(window, log + [t], end) == Trailing(window, log, end) + if end - window < t <= end then 1 else 0
  {
    assert (log + [t])[..|log|] == log;
  }

  lemma {:induction false} CopiesCounted(window: nat, log: seq<int>, now: int, n: nat, k: int, end: int)
    requires window >= 1
    ensures Tally(window, log + Copies(now, n), k) == Tally(window, log, k) + if Slot(window, now) == k then n else 0
    ensures Trailing(window, log + Copies(now, n), end)
         == Trailing(window, log, end) + if end - window < now <= end then n else 0
  {
    hide Tally, Trailing, Slot;
    if n == 0 {
      assert log + [] == log;
    } else {
      CopiesCounted(window, log, now, n - 1, k, end);
      Regroup(log, Copies(now, n - 1), [now]);
      TallyAppend(window, log + Copies(now, n - 1), now, k);
      TrailingAppend(window, log + Copies(now, n - 1), now, end);
    }
  }

  /** The factor two of the trailing window is reached for every limit: a burst on the last tick of
      one aligned window and a burst on the first tick of the next are both admitted whole. */
  lemma BurstAcrossTheBoundary(limit: nat, window: nat)
    requires ProperLimit(limit, window) && window >= 2
    ensures var log := RunChecks(limit, window, Client(map[], map[]), Log([], []),
                                 Burst(window - 1, true, limit) + (Burst(window, true, limit) + [])).1;
            Trailing(window, log.cached, window) == 2 * limit
  {
    var s, log := Client(map[], map[]), Log([], []);
    Quotient(window, window - 1, 0);
    Quotient(window, window, 1);
    var s1 := BurstAdmitted(limit, window, s, log, window - 1, limit, Burst(window, true, limit) + []);
    var log1 := log.(cached := log.cached + Copies(window - 1, limit));
    CopiesCounted(window, [], window - 1, limit, 1, window);
    var s2 := BurstAdmitted(limit, window, s1, log1, window, limit, []);
    CopiesCounted(window, log1.cached, window, limit, 1, window);
  }

  class FixedWindowLimiter {
    const requests: nat
    const window: nat
    var cache: AllCounts
    var memoryStore: AllCounts

    constructor (requests: nat, window: nat)
      requires ProperLimit(requests, window)
      ensures ProperLimit(this.requests, this.window) && this.requests == requests && this.window == window
      ensures forall id :: At(id) == Client(map[], map[])
    {
      this.requests, this.window := requests, window;
      cache, memoryStore := map[], map[];
    }

    ghost function At(id: string): Client
      reads this
    {
      Client(OfClient(cache, id), OfClient(memoryStore, id))
    }

    /** The cache's `aget`, None counting as 0. */
    method GetCached(id: string, k: int, now: int) returns (count: nat)
      ensures count == Read(OfClient(cache, id), k, now)
    {
      OfClientLookup(cache, id, k);
      hide OfClient;
      count := if (id, k) in cache && now <= cache[(id, k)].expires then cache[(id, k)].count else 0;
    }

    /** The part that the source tries first. */
    method TryCache(id: string, now: int) returns (allowed: bool, current: nat)
      requires ProperLimit(requests, window)
      modifies this`cache
      ensures (allowed, OfClient(cache, id)) == CheckCache(requests, window, old(OfClient(cache, id)), now)
      ensures if allowed then 1 <= current <= requests else current >= requests
      ensures current == Read(OfClient(cache, id), Slot(window, now), now)
      ensures forall other :: other != id ==> OfClient(cache, other) == old(OfClient(cache, other))
    {
      hide Slot, OfClient;
      ghost var was := OfClient(cache, id);
      var k := Slot(window, now);
      current := GetCached(id, k, now);
      if current >= requests {
        return false, current;
      }
      current := current + 1;
      var entry := Entry(current, now + window);
      OfClientUpdate(cache, id, k, entry);
      cache := cache[(id, k) := entry];
      allowed := true;
      assert OfClient(cache, id) == was[k := entry];
    }

    /** The part that runs when the cache raises. */
    method FallBack(id: string, now: int) returns (allowed: bool, current: nat)
      requires ProperLimit(requests, window)
      modifies this`memoryStore
      ensures (allowed, OfClient(memoryStore, id)) == CheckMemory(requests, window, old(OfClient(memoryStore, id)), now)
      ensures if allowed then 1 <= current <= requests else current >= requests
      ensures current == Read(OfClient(memoryStore, id), Slot(window, now), now)
      ensures forall other :: other != id ==> OfClient(memoryStore, other) == old(OfClient(memoryStore, other))
    {
      var k := Slot(window, now);
      OfClientLookup(memoryStore, id, k);
      hide Slot, OfClient;
      var entry := Entry(0, now + window);
      if (id, k) in memoryStore && now <= memoryStore[(id, k)].expires {
        entry := memoryStore[(id, k)];
      }
      allowed := entry.count < requests;
      if allowed {
        entry := entry.(count := entry.count + 1);
      }
      current := entry.count;
      OfClientUpdate(memoryStore, id, k, entry);
      assert k in OfClient(memoryStore, id)[k := entry] && now <= entry.expires;
      memoryStore := memoryStore[(id, k) := entry];
    }

    method CheckFixedWindow(id: string, now: int, cacheUp: bool) returns (allowed: bool, current: nat)
      requires ProperLimit(requests, window)
      modifies this
      ensures (allowed, At(id)) == CheckClient(requests, window, old(At(id)), Try(now, cacheUp))
      ensures if allowed then 1 <= current <= requests else current >= requests
      ensures current == Read(if cacheUp then At(id).cached else At(id).inMemory, Slot(window, now), now)
      ensures forall other :: other != id ==> At(other) == old(At(other))
    {
      hide OfClient, CheckCache, CheckMemory;
      if cacheUp {
        allowed, current := TryCache(id, now);
      } else {
        allowed, current := FallBack(id, now);
      }
    }
  }
}
