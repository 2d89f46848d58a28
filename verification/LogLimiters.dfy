/** The other two limiters that keep a log: the sliding-window-log algorithm of
    app/core/api_integration/rate_limiting.py, on the memory list and on the Redis list, and the
    middleware of app/core/middleware.py with its minute and hour windows over one list. */
module LogLimiters {
  import opened Common
  import opened AdmissionLog

  // ---------- the sliding window log ----------

  datatype Verdict = Allowed(remaining: int) | Denied(retryAfter: int)

  /** `limit` requests in the half-open window of `window` seconds. */
  predicate Proper(rule: Rule) {
    rule.limit >= 1 && rule.window > 0.0 && rule.edge.Open?
  }

  /** Python's `min`. */
  function Min(s: seq<real>): real
    requires s != []
  {
    if |s| == 1 then s[0] else var m := Min(s[..|s| - 1]); if s[|s| - 1] < m then s[|s| - 1] else m
  }

  lemma {:induction false} MinIsLeast(s: seq<real>)
    requires s != []
    ensures Min(s) in s && forall t :: t in s ==> Min(s) <= t
  {
    if |s| > 1 {
      MinIsLeast(s[..|s| - 1]);
      assert s == s[..|s| - 1] + [s[|s| - 1]];
    }
  }

  /** The answer to a check that finds `timestamps` in the window. */
  function Answer(rule: Rule, timestamps: seq<real>, now: real): Verdict
    requires rule.limit >= 1
  {
    if |timestamps| >= rule.limit then Denied((Min(timestamps) + rule.window - now).Floor + 1)
    else Allowed(rule.limit - |timestamps| - 1)
  }

  /** A check on the memory list: clean up, count, and if there is room append and clean up again. */
  function CheckMemory(rule: Rule, list: seq<real>, now: real): (Verdict, seq<real>)
    requires rule.limit >= 1
  {
    var recent := Recent(rule, now, list);
    var answer := Answer(rule, recent, now);
    (answer, if answer.Allowed? then Recent(rule, now, recent + [now]) else recent)
  }

  /** The memory list decides as the full log would, and stays the recent part of it. */
  lemma CheckMemoryKeeps(rule: Rule, list: seq<real>, log: seq<real>, clock: real, now: real)
    requires Proper(rule) && Keeps(rule, list, log, clock) && clock <= now
    ensures var (answer, list') := CheckMemory(rule, list, now);
            && (answer.Allowed? <==> Permits(rule, log, now))
            && Keeps(rule, list', if answer.Allowed? then log + [now] else log, now)
            && (answer.Allowed? ==> answer.remaining == rule.limit - Held(rule, now, log + [now]))
  {
    KeepsFilter(rule, list, log, clock, now);
    KeepsLater(rule, list, log, clock, now);
    HeldAfterAdmission(rule, log, now);
    hide Held;
    var recent := Recent(rule, now, list);
    if |recent| < rule.limit {
      KeepsAdmit(rule, recent, log, now);
      KeepsFilter(rule, recent + [now], log + [now], now, now);
    }
  }

  /** The reported wait ends within a second after the oldest admission of the window has left it. */
  lemma RetryAfterIsTight(rule: Rule, list: seq<real>, log: seq<real>, clock: real, now: real)
    requires Proper(rule) && Keeps(rule, list, log, clock) && clock <= now
    requires CheckMemory(rule, list, now).0.Denied?
    ensures Recent(rule, now, log) != []
    ensures var oldest := Recent(rule, now, log)[0];
            oldest + rule.window < now + CheckMemory(rule, list, now).0.retryAfter as real <= oldest + rule.window + 1.0
  {
    KeepsFilter(rule, list, log, clock, now);
    KeepsMeans(rule, list, log, clock);
    RecentOrdered(rule, now, log);
    FirstIsMin(Recent(rule, now, log));
  }

  lemma FirstIsMin(s: seq<real>)
    requires Ordered(s) && s != []
    ensures Min(s) == s[0]
  {
    MinIsLeast(s);
    var i :| 0 <= i < |s| && s[i] == Min(s);
    assert s[0] <= s[i];
  }

  /** A denied client that waits the reported number of seconds, or longer, with no other
      admission on its key, is admitted. */
  lemma RetryAfterSuffices(rule: Rule, list: seq<real>, log: seq<real>, clock: real, now: real, later: real)
    requires Proper(rule) && Keeps(rule, list, log, clock) && clock <= now
    requires CheckMemory(rule, list, now).0.Denied?
    requires later >= now + CheckMemory(rule, list, now).0.retryAfter as real
    ensures CheckMemory(rule, CheckMemory(rule, list, now).1, later).0.Allowed?
  {
    CheckMemoryKeeps(rule, list, log, clock, now);
    KeepsFilter(rule, list, log, clock, now);
    KeepsLater(rule, list, log, clock, now);
    var recent := Recent(rule, now, log);
    MinIsLeast(recent);
    RecentMembers(rule, now, log);
    assert Min(recent) + rule.window - now > 0.0;
    assert later > Min(recent) + rule.window;
    KeepsMeans(rule, list, log, clock);
    RecentOrdered(rule, now, log);
    PermittedOnceOldestLeaves(rule, log, now, later);
    FirstIsMin(recent);
    CheckMemoryKeeps(rule, CheckMemory(rule, list, now).1, log, now, later);
  }

  // ---------- the same checks on the Redis list ----------

  /** LPUSH puts the newest entry first; the key may carry a TTL. */
  datatype RedisList = RedisList(items: seq<real>, expires: Option<real>) {
    function Live(now: real): seq<real> {
      if expires.Some? && expires.value <= now then [] else items
    }
  }

  /** The cleanup script: delete the key and push the entries still in the window, in the order
      they are listed, which reverses them; the deletion loses the TTL. */
  function Rebuild(rule: Rule, now: real, values: seq<real>, pushed: seq<real>): seq<real> {
    if values == [] then pushed
    else Rebuild(rule, now, values[1..], if rule.InWindow(now, values[0]) then [values[0]] + pushed else pushed)
  }

  function CheckRedis(rule: Rule, list: RedisList, now: real): (Verdict, RedisList)
    requires rule.limit >= 1
  {
    var recent := Rebuild(rule, now, list.Live(now), []);
    var answer := Answer(rule, recent, now);
    var kept := if answer.Allowed? then RedisList([now] + recent, Some(now + rule.window + 1.0))
                else RedisList(recent, None);
    (answer, kept)
  }

  /** The Redis list holds the same entries as the memory list, in some order; a TTL runs out
      only after all of them have left the window. */
  ghost predicate SameEntries(rule: Rule, memory: seq<real>, redis: RedisList) {
    && multiset(memory) == multiset(redis.items)
    && (redis.expires.Some? ==> forall t :: t in redis.items ==> t + rule.window + 1.0 <= redis.expires.value)
  }

  /** How often a value occurs among the recent entries does not depend on their order. */
  lemma {:induction false} RecentCounts(rule: Rule, now: real, s: seq<real>, t: real)
    ensures multiset(Recent(rule, now, s))[t] == if rule.InWindow(now, t) then multiset(s)[t] else 0
  {
    if s != [] {
      var before, last := s[..|s| - 1], s[|s| - 1];
      RecentCounts(rule, now, before, t);
      assert s == before + [last];
    }
  }

  lemma {:induction false} RebuildCounts(rule: Rule, now: real, values: seq<real>, pushed: seq<real>, t: real)
    ensures multiset(Rebuild(rule, now, values, pushed))[t]
         == multiset(pushed)[t] + if rule.InWindow(now, t) then multiset(values)[t] else 0
  {
    if values != [] {
      RebuildCounts(rule, now, values[1..], if rule.InWindow(now, values[0]) then [values[0]] + pushed else pushed, t);
      assert values == [values[0]] + values[1..];
    }
  }

  lemma SameMultisetSameAnswer(rule: Rule, a: seq<real>, b: seq<real>, now: real)
    requires rule.limit >= 1 && multiset(a) == multiset(b)
    ensures Answer(rule, a, now) == Answer(rule, b, now)
  {
    assert |a| == |multiset(a)| && |b| == |multiset(b)|;
    if a != [] && b != [] {
      MinIsLeast(a);
      MinIsLeast(b);
      assert Min(a) in multiset(a) && Min(a) in multiset(b) && Min(a) in b;
      assert Min(b) in multiset(b) && Min(b) in multiset(a) && Min(b) in a;
    }
  }

  /** One check gives the same answer on both stores, and they stay equal up to order. */
  lemma RedisAnswersAlike(rule: Rule, memory: seq<real>, redis: RedisList, now: real)
    requires Proper(rule) && SameEntries(rule, memory, redis)
    requires forall t :: t in memory ==> t <= now
    ensures CheckMemory(rule, memory, now).0 == CheckRedis(rule, redis, now).0
    ensures SameEntries(rule, CheckMemory(rule, memory, now).1, CheckRedis(rule, redis, now).1)
    ensures forall t :: t in CheckMemory(rule, memory, now).1 ==> t <= now
  {
    hide SameEntries, Recent, Rebuild, Answer;
    var recent := Recent(rule, now, memory);
    var rebuilt := Rebuild(rule, now, redis.Live(now), []);
    CleanupAlike(rule, memory, redis, now);
    SameMultisetSameAnswer(rule, recent, rebuilt, now);
    RecentMembers(rule, now, memory);
    AddAlike(rule, recent, rebuilt, now);
  }

  /** Appending on one side and pushing on the other keeps the entries the same; the new TTL
      outlasts all of them. */
  lemma AddAlike(rule: Rule, recent: seq<real>, rebuilt: seq<real>, now: real)
    requires Proper(rule) && multiset(recent) == multiset(rebuilt)
    requires forall t :: t in recent ==> rule.InWindow(now, t) && t <= now
    ensures Recent(rule, now, recent + [now]) == recent + [now]
    ensures SameEntries(rule, recent + [now], RedisList([now] + rebuilt, Some(now + rule.window + 1.0)))
    ensures SameEntries(rule, recent, RedisList(rebuilt, None))
  {
    RecentAll(rule, now, recent + [now]);
    hide Recent;
    PushSame(recent, rebuilt, now);
  }

  lemma PushSame(a: seq<real>, b: seq<real>, x: real)
    requires multiset(a) == multiset(b)
    ensures multiset(a + [x]) == multiset([x] + b)
    ensures forall t :: t in b ==> t in a
  {
    assert multiset(a + [x]) == multiset(a) + multiset{x};
    assert multiset([x] + b) == multiset{x} + multiset(b);
    assert forall t :: t in b ==> t in multiset(b) && t in multiset(a);
  }

  /** Cleaning up leaves the same entries on both stores, whether or not the Redis key was
      still there. */
  lemma CleanupAlike(rule: Rule, memory: seq<real>, redis: RedisList, now: real)
    requires Proper(rule) && SameEntries(rule, memory, redis)
    ensures multiset(Recent(rule, now, memory)) == multiset(Rebuild(rule, now, redis.Live(now), []))
  {
    forall t ensures multiset(Recent(rule, now, memory))[t] == multiset(Rebuild(rule, now, redis.Live(now), []))[t] {
      RecentCounts(rule, now, memory, t);
      RebuildCounts(rule, now, redis.Live(now), [], t);
      assert t in multiset(redis.items) <==> t in redis.items;
    }
  }

  function AnswersMemory(rule: Rule, list: seq<real>, times: seq<real>): seq<Verdict>
    requires rule.limit >= 1
    decreases times
  {
    if times == [] then []
    else var (answer, list') := CheckMemory(rule, list, times[0]); [answer] + AnswersMemory(rule, list', times[1..])
  }

  function AnswersRedis(rule: Rule, list: RedisList, times: seq<real>): seq<Verdict>
    requires rule.limit >= 1
    decreases times
  {
    if times == [] then []
    else var (answer, list') := CheckRedis(rule, list, times[0]); [answer] + AnswersRedis(rule, list', times[1..])
  }

  /** Over any run of checks both stores give the same answers, retry times included. */
  lemma {:induction false} RedisRunsAlike(rule: Rule, memory: seq<real>, redis: RedisList, times: seq<real>)
    requires Proper(rule) && SameEntries(rule, memory, redis) && Ordered(times)
    requires times != [] ==> forall t :: t in memory ==> t <= times[0]
    ensures AnswersMemory(rule, memory, times) == AnswersRedis(rule, redis, times)
    decreases times
  {
    if times != [] {
      RedisAnswersAlike(rule, memory, redis, times[0]);
      var memory', redis' := CheckMemory(rule, memory, times[0]).1, CheckRedis(rule, redis, times[0]).1;
      assert forall t :: t in memory' ==> |times| > 1 ==> t <= times[0] <= times[1];
      RedisRunsAlike(rule, memory', redis', times[1..]);
    }
  }

  lemma TailOrdered(times: seq<real>)
    requires Ordered(times) && times != []
    ensures Ordered(times[1..]) && (|times| > 1 ==> times[0] <= times[1])
  {
  }

  /** The complete log of admissions of a run on the memory list. */
  function LogOf(rule: Rule, list: seq<real>, times: seq<real>): seq<real>
    requires rule.limit >= 1
    decreases times
  {
    if times == [] then []
    else
      var (answer, list') := CheckMemory(rule, list, times[0]);
      (if answer.Allowed? then [times[0]] else []) + LogOf(rule, list', times[1..])
  }

  lemma LogOfUnfolds(rule: Rule, list: seq<real>, log: seq<real>, times: seq<real>)
    requires rule.limit >= 1 && times != []
    ensures var r := CheckMemory(rule, list, times[0]);
            log + LogOf(rule, list, times)
            == (if r.0.Allowed? then log + [times[0]] else log) + LogOf(rule, r.1, times[1..])
  {
    hide CheckMemory;
    var r := CheckMemory(rule, list, times[0]);
    var first, rest := if r.0.Allowed? then [times[0]] else [], LogOf(rule, r.1, times[1..]);
    assert LogOf(rule, list, times) == first + rest;
    hide LogOf;
    Regroup(log, first, rest);
    assert log + [] == log;
  }

  lemma {:induction false} RunKeeps(rule: Rule, list: seq<real>, log: seq<real>, clock: real, times: seq<real>)
    requires Proper(rule) && Keeps(rule, list, log, clock) && Ordered(times) && (times != [] ==> clock <= times[0])
    ensures Ordered(log + LogOf(rule, list, times)) && Admissible(rule, log + LogOf(rule, list, times))
    decreases times
  {
    hide Keeps, Ordered, Recent, Admissible;
    if times == [] {
      KeepsMeans(rule, list, log, clock);
      assert log + [] == log;
    } else {
      TailOrdered(times);
      CheckMemoryKeeps(rule, list, log, clock, times[0]);
      LogOfUnfolds(rule, list, log, times);
      hide LogOf, CheckMemory;
      var r := CheckMemory(rule, list, times[0]);
      var log' := if r.0.Allowed? then log + [times[0]] else log;
      RunKeeps(rule, r.1, log', times[0], times[1..]);
      assert log + LogOf(rule, list, times) == log' + LogOf(rule, r.1, times[1..]);
    }
  }

  /** On either store, no window of the configured length anywhere in a run holds more
      admissions than the limit. */
  lemma LogAlgorithmBound(rule: Rule, times: seq<real>, end: real)
    requires Proper(rule) && Ordered(times)
    ensures Held(rule, end, LogOf(rule, [], times)) <= rule.limit
  {
    KeepsNothing(rule, if times == [] then 0.0 else times[0]);
    RunKeeps(rule, [], [], if times == [] then 0.0 else times[0], times);
    assert [] + LogOf(rule, [], times) == LogOf(rule, [], times);
    AnyWindowWithinLimit(rule, LogOf(rule, [], times), end);
  }

  // ---------- the middleware's two windows ----------

  datatype Response = Pass(remaining: int) | MinuteExceeded | HourExceeded

  function MinuteRule(perMinute: nat): Rule { Rule(perMinute, 60.0, Open) }

  function HourRule(perHour: nat): Rule { Rule(perHour, 3600.0, Open) }

  /** `dispatch` on one client's history. */
  function Dispatch(perMinute: nat, perHour: nat, history: seq<real>, now: real): (Response, seq<real>) {
    var recent := Recent(HourRule(perHour), now, history);
    var minuteRequests := |Recent(MinuteRule(perMinute), now, recent)|;
    if minuteRequests >= perMinute then (MinuteExceeded, recent)
    else if |recent| >= perHour then (HourExceeded, recent)
    else (Pass(perMinute - minuteRequests - 1), recent + [now])
  }

  ghost predicate KeepsBoth(perMinute: nat, perHour: nat, history: seq<real>, log: seq<real>, clock: real) {
    Keeps(HourRule(perHour), history, log, clock) && Admissible(MinuteRule(perMinute), log)
  }

  /** One list serves both windows: a request passes exactly when the full log permits it under
      both rules. */
  lemma DispatchKeeps(perMinute: nat, perHour: nat, history: seq<real>, log: seq<real>, clock: real, now: real)
    requires KeepsBoth(perMinute, perHour, history, log, clock) && clock <= now
    ensures var (response, history') := Dispatch(perMinute, perHour, history, now);
            var minute, hour := Rule(perMinute, 60.0, Open), Rule(perHour, 3600.0, Open);
            && (response.MinuteExceeded? <==> !Permits(minute, log, now))
            && (response.Pass? <==> Permits(minute, log, now) && Permits(hour, log, now))
            && (response.Pass? ==> response.remaining == perMinute - Held(minute, now, log + [now]))
            && KeepsBoth(perMinute, perHour, history', if response.Pass? then log + [now] else log, now)
  {
    var minute, hour := MinuteRule(perMinute), HourRule(perHour);
    KeepsLater(hour, history, log, clock, now);
    HeldAfterAdmission(minute, log, now);
    hide Held;
    KeepsFilter(hour, history, log, clock, now);
    RecentTwice(hour, now, minute, now, log);
    if Permits(minute, log, now) && Permits(hour, log, now) {
      KeepsAdmit(hour, Recent(hour, now, history), log, now);
    }
  }

  function PassLog(perMinute: nat, perHour: nat, history: seq<real>, times: seq<real>): seq<real>
    decreases times
  {
    if times == [] then []
    else
      var (response, history') := Dispatch(perMinute, perHour, history, times[0]);
      (if response.Pass? then [times[0]] else []) + PassLog(perMinute, perHour, history', times[1..])
  }

  lemma PassLogUnfolds(perMinute: nat, perHour: nat, history: seq<real>, log: seq<real>, times: seq<real>)
    requires times != []
    ensures var r := Dispatch(perMinute, perHour, history, times[0]);
            log + PassLog(perMinute, perHour, history, times)
            == (if r.0.Pass? then log + [times[0]] else log) + PassLog(perMinute, perHour, r.1, times[1..])
  {
    hide Dispatch;
    var r := Dispatch(perMinute, perHour, history, times[0]);
    var first, rest := if r.0.Pass? then [times[0]] else [], PassLog(perMinute, perHour, r.1, times[1..]);
    assert PassLog(perMinute, perHour, history, times) == first + rest;
    hide PassLog;
    Regroup(log, first, rest);
    assert log + [] == log;
  }

  lemma {:induction false} RunKeepsBoth(perMinute: nat, perHour: nat, history: seq<real>, log: seq<real>, clock: real,
                                        times: seq<real>)
    requires KeepsBoth(perMinute, perHour, history, log, clock) && Ordered(times) && (times != [] ==> clock <= times[0])
    ensures var all := log + PassLog(perMinute, perHour, history, times);
            Ordered(all) && Admissible(MinuteRule(perMinute), all) && Admissible(HourRule(perHour), all)
    decreases times
  {
    hide Keeps, Ordered, Recent, Admissible, Dispatch;
    if times == [] {
      KeepsMeans(HourRule(perHour), history, log, clock);
      assert log + [] == log;
    } else {
      TailOrdered(times);
      PassLogUnfolds(perMinute, perHour, history, log, times);
      DispatchKeeps(perMinute, perHour, history, log, clock, times[0]);
      hide PassLog, KeepsBoth;
      var r := Dispatch(perMinute, perHour, history, times[0]);
      RunKeepsBoth(perMinute, perHour, r.1, if r.0.Pass? then log + [times[0]] else log, times[0], times[1..]);
    }
  }

  /** Over any run no minute holds more than `perMinute` passes and, at the same time, no hour
      more than `perHour`. */
  lemma BothWindowsBounded(perMinute: nat, perHour: nat, times: seq<real>, end: real)
    requires Ordered(times)
    ensures var log := PassLog(perMinute, perHour, [], times);
            && Held(Rule(perMinute, 60.0, Open), end, log) <= perMinute
            && Held(Rule(perHour, 3600.0, Open), end, log) <= perHour
  {
    var clock := if times == [] then 0.0 else times[0];
    KeepsNothing(HourRule(perHour), clock);
    RunKeepsBoth(perMinute, perHour, [], [], clock, times);
    var log := PassLog(perMinute, perHour, [], times);
    assert [] + log == log;
    AnyWindowWithinLimit(MinuteRule(perMinute), log, end);
    AnyWindowWithinLimit(HourRule(perHour), log, end);
  }

  // ---------- the stores, updated in place ----------

  class MemoryTimestamps {
    var timestamps: map<string, seq<real>>

    constructor ()
      ensures forall k :: At(k) == []
    {
      timestamps := map[];
    }

    function At(key: string): seq<real>
      reads this
    {
      if key in timestamps then timestamps[key] else []
    }

    method CleanupExpired(key: string, rule: Rule, now: real)
      modifies this
      ensures At(key) == Recent(rule, now, old(At(key)))
      ensures forall k :: k != key ==> At(k) == old(At(k))
    {
      if key in timestamps {
        timestamps := timestamps[key := Recent(rule, now, timestamps[key])];
      }
    }

    method AddTimestamp(key: string, rule: Rule, now: real)
      modifies this
      ensures At(key) == Recent(rule, now, old(At(key)) + [now])
      ensures forall k :: k != key ==> At(k) == old(At(k))
    {
      if key !in timestamps {
        timestamps := timestamps[key := []];
      }
      timestamps := timestamps[key := timestamps[key] + [now]];
      timestamps := timestamps[key := Recent(rule, now, timestamps[key])];
    }

    method CheckLimit(key: string, rule: Rule, now: real) returns (r: Verdict)
      requires rule.limit >= 1
      modifies this
      ensures (r, At(key)) == CheckMemory(rule, old(At(key)), now)
      ensures forall k :: k != key ==> At(k) == old(At(k))
    {
      CleanupExpired(key, rule, now);
      var stamps := At(key);
      if |stamps| >= rule.limit {
        r := Denied((Min(stamps) + rule.window - now).Floor + 1);
      } else {
        r := Allowed(rule.limit - |stamps| - 1);
        AddTimestamp(key, rule, now);
      }
    }
  }

  class RateLimitMiddleware {
    const perMinute: nat
    const perHour: nat
    var history: map<string, seq<real>>

    constructor (callsPerMinute: nat, callsPerHour: nat)
      ensures perMinute == callsPerMinute && perHour == callsPerHour && forall c :: At(c) == []
    {
      perMinute, perHour, history := callsPerMinute, callsPerHour, map[];
    }

    function At(client: string): seq<real>
      reads this
    {
      if client in history then history[client] else []
    }

    method DispatchRequest(client: string, now: real) returns (r: Response)
      modifies this
      ensures (r, At(client)) == Dispatch(perMinute, perHour, old(At(client)), now)
      ensures forall c :: c != client ==> At(c) == old(At(c))
    {
      if client !in history {
        history := history[client := []];
      }
      history := history[client := Recent(HourRule(perHour), now, history[client])];
      var recent := history[client];
      var minuteRequests := |Recent(MinuteRule(perMinute), now, recent)|;
      if minuteRequests >= perMinute {
        return MinuteExceeded;
      }
      if |recent| >= perHour {
        return HourExceeded;
      }
      history := history[client := history[client] + [now]];
      r := Pass(perMinute - minuteRequests - 1);
    }
  }
}
