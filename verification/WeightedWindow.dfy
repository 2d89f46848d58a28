/** The weighted sliding counter and the quota counter of
    app/core/api_integration/rate_limiting.py: one stored count per aligned window, where the
    sliding window is estimated from the current count and a share of the previous one. Time is
    counted in ticks, as fine as one likes. */
module WeightedWindow {
  import opened Common

  /** `limit` requests per `window` ticks, `second` ticks making one second. */
  datatype Config = Config(limit: nat, window: nat, second: nat)

  predicate Proper(cfg: Config) {
    cfg.limit >= 1 && cfg.second >= 1 && cfg.second <= cfg.window
  }

  // ---------- aligned windows ----------

  /** The index of the aligned window that holds `t`, and where in it `t` lies. */
  function Slot(window: nat, t: int): int
    requires window >= 1
  {
    t / window
  }

  function Offset(window: nat, t: int): nat
    requires window >= 1
  {
    t % window
  }

  lemma Aligned(window: nat, t: int)
    requires window >= 1
    ensures Slot(window, t) * window <= t < Slot(window, t) * window + window
    ensures t == Slot(window, t) * window + Offset(window, t) && Offset(window, t) < window
  {
  }

  lemma {:induction false} Times(a: int, b: int, w: nat)
    requires a < b
    ensures a * w + w <= b * w
    decreases b - a
  {
    var c := b - 1;
    assert (c + 1) * w == c * w + w;
    if a < c {
      Times(a, c, w);
    }
  }

  /** The quotient is the one number that fits. */
  lemma Quotient(window: nat, t: int, q: int)
    requires window >= 1 && q * window <= t < q * window + window
    ensures Slot(window, t) == q
  {
    Aligned(window, t);
    var r := Slot(window, t);
    if r < q {
      Times(r, q, window);
    } else if r > q {
      Times(q, r, window);
    }
  }

  lemma SlotOrder(window: nat, t: int, end: int)
    requires window >= 1 && t <= end
    ensures Slot(window, t) <= Slot(window, end)
    ensures Slot(window, t) == Slot(window, end) ==> Offset(window, t) <= Offset(window, end)
    ensures end - window < t ==> Slot(window, end) <= Slot(window, t) + 1
  {
    Aligned(window, t);
    Aligned(window, end);
    var a, b := Slot(window, t), Slot(window, end);
    if a > b {
      Times(b, a, window);
    } else if b > a + 1 {
      Times(a, a + 1, window);
      Times(a + 1, b, window);
    }
  }

  // ---------- the counter storage ----------

  datatype Entry = Entry(count: nat, expires: int)

  /** One client's counters, by index of the aligned window. */
  type Counts = map<int, Entry>

  function Read(counts: Counts, k: int, now: int): nat {
    if k in counts && now <= counts[k].expires then counts[k].count else 0
  }

  /** Reading deletes a counter that has expired. */
  function Drop(counts: Counts, k: int, now: int): Counts {
    if k in counts && now > counts[k].expires then counts - {k} else counts
  }

  /** `increment`: a new or expired counter starts over with a fresh TTL, a live one keeps its TTL. */
  function Increment(counts: Counts, k: int, ttl: nat, now: int): Counts {
    if k in counts && now <= counts[k].expires then counts[k := counts[k].(count := counts[k].count + 1)]
    else counts[k := Entry(1, now + ttl)]
  }

  // ---------- what it counts ----------

  /** How many admissions of the log fall in aligned window `k`. */
  function Tally(window: nat, log: seq<int>, k: int): nat
    requires window >= 1
  {
    if log == [] then 0
    else Tally(window, log[..|log| - 1], k) + if Slot(window, log[|log| - 1]) == k then 1 else 0
  }

  ghost predicate NoneAfter(log: seq<int>, now: int) {
    forall i :: 0 <= i < |log| ==> log[i] <= now
  }

  /** Every counter is the tally of its window, and lives at least `ttl` from the start of it. */
  ghost predicate Faithful(window: nat, ttl: nat, counts: Counts, log: seq<int>)
    requires window >= 1
  {
    forall k :: if k in counts then counts[k].count == Tally(window, log, k) && counts[k].expires >= k * window + ttl
                else Tally(window, log, k) == 0
  }

  /** A TTL of two windows never drops a counter that a check in its window or the next one
      still reads; a TTL of one window serves reads in the window itself. */
  lemma TtlCovers(window: nat, ttl: nat, counts: Counts, log: seq<int>, k: int, now: int)
    requires window >= 1 && Faithful(window, ttl, counts, log)
    requires k * window <= now < k * window + ttl
    ensures k in counts ==> now < counts[k].expires
    ensures Read(counts, k, now) == Tally(window, log, k) && Drop(counts, k, now) == counts
  {
  }

  lemma TallyAppend(window: nat, log: seq<int>, t: int, k: int)
    requires window >= 1
    ensures Tally(window, log + [t], k) == Tally(window, log, k) + if Slot(window, t) == k then 1 else 0
  {
    assert (log + [t])[..|log|] == log;
  }

  lemma IncrementFaithful(window: nat, ttl: nat, counts: Counts, log: seq<int>, now: int)
    requires window >= 1 && ttl >= window && Faithful(window, ttl, counts, log)
    ensures Faithful(window, ttl, Increment(counts, Slot(window, now), ttl, now), log + [now])
  {
    var k := Slot(window, now);
    Aligned(window, now);
    TtlCovers(window, ttl, counts, log, k, now);
    forall j
      ensures var c := Increment(counts, k, ttl, now);
              if j in c then c[j].count == Tally(window, log + [now], j) && c[j].expires >= j * window + ttl
              else Tally(window, log + [now], j) == 0
    {
      TallyAppend(window, log, now, j);
    }
  }

  // ---------- the sliding check ----------

  datatype Answer = Allowed(remaining: int) | Denied(retryAfter: int)

  /** The share of the previous window that still counts: `int(prev * (1 - x / window))`. */
  function Share(window: nat, prev: nat, x: nat): nat
    requires x < window
  {
    var rest: nat := window - x;
    prev * rest / window
  }

  /** `SlidingWindowAlgorithm.check_limit`; the current count being whole, it may be added after
      the rounding. */
  function Check(cfg: Config, counts: Counts, now: int): (Answer, Counts)
    requires Proper(cfg)
  {
    var k, x := Slot(cfg.window, now), Offset(cfg.window, now);
    var estimated := Share(cfg.window, Read(counts, k - 1, now), x) + Read(counts, k, now);
    var left := Drop(Drop(counts, k, now), k - 1, now);
    if estimated >= cfg.limit then (Denied((cfg.window - x) / cfg.second + 1), left)
    else (Allowed(cfg.limit - estimated - 1), Increment(left, k, 2 * cfg.window, now))
  }

  /** The estimate made from the complete log of admissions. */
  function Estimate(window: nat, log: seq<int>, now: int): nat
    requires window >= 1
  {
    var k := Slot(window, now);
    Share(window, Tally(window, log, k - 1), Offset(window, now)) + Tally(window, log, k)
  }

  /** Admissions come in order, each when the estimate was below the limit. */
  ghost predicate Admissible(cfg: Config, log: seq<int>)
    requires Proper(cfg)
  {
    log == [] ||
    var before, t := log[..|log| - 1], log[|log| - 1];
    NoneAfter(before, t) && Estimate(cfg.window, before, t) < cfg.limit && Admissible(cfg, before)
  }

  ghost predicate Explains(cfg: Config, counts: Counts, log: seq<int>, clock: int)
    requires Proper(cfg)
  {
    Faithful(cfg.window, 2 * cfg.window, counts, log) && Admissible(cfg, log) && NoneAfter(log, clock)
  }

  /** The stored counters decide as the complete log would. */
  lemma CheckExplained(cfg: Config, counts: Counts, log: seq<int>, clock: int, now: int)
    requires Proper(cfg) && Explains(cfg, counts, log, clock) && clock <= now
    ensures var (answer, counts') := Check(cfg, counts, now);
            && (answer.Allowed? <==> Estimate(cfg.window, log, now) < cfg.limit)
            && Explains(cfg, counts', if answer.Allowed? then log + [now] else log, now)
            && (answer.Allowed? ==> answer.remaining == cfg.limit - Estimate(cfg.window, log, now) - 1)
  {
    hide Share, Slot, Offset, Faithful, Tally, Read, Drop, Increment, Admissible;
    BothCovered(cfg.window, counts, log, now);
    if Estimate(cfg.window, log, now) < cfg.limit {
      IncrementFaithful(cfg.window, 2 * cfg.window, counts, log, now);
      AdmissibleAppend(cfg, log, now);
    }
  }

  lemma AdmissibleAppend(cfg: Config, log: seq<int>, now: int)
    requires Proper(cfg) && Admissible(cfg, log) && NoneAfter(log, now)
    requires Estimate(cfg.window, log, now) < cfg.limit
    ensures Admissible(cfg, log + [now])
  {
    hide Share, Slot, Offset, Tally;
    assert (log + [now])[..|log|] == log;
  }

  /** The two counters a check reads. */
  lemma BothCovered(window: nat, counts: Counts, log: seq<int>, now: int)
    requires window >= 1 && Faithful(window, 2 * window, counts, log)
    ensures var k := Slot(window, now);
            && Read(counts, k - 1, now) == Tally(window, log, k - 1) && Read(counts, k, now) == Tally(window, log, k)
            && Drop(Drop(counts, k, now), k - 1, now) == counts
  {
    Aligned(window, now);
    var k := Slot(window, now);
    assert (k - 1) * window == k * window - window;
    TtlCovers(window, 2 * window, counts, log, k - 1, now);
    TtlCovers(window, 2 * window, counts, log, k, now);
  }

  function RunChecks(cfg: Config, counts: Counts, times: seq<int>): seq<int>
    requires Proper(cfg)
    decreases times
  {
    if times == [] then []
    else
      var (answer, counts') := Check(cfg, counts, times[0]);
      (if answer.Allowed? then [times[0]] else []) + RunChecks(cfg, counts', times[1..])
  }

  ghost predicate Monotone(from: int, times: seq<int>)
    decreases times
  {
    times == [] || (from <= times[0] && Monotone(times[0], times[1..]))
  }

  /** The counters that a run of checks leaves behind. */
  function CountsAfter(cfg: Config, counts: Counts, times: seq<int>): Counts
    requires Proper(cfg)
    decreases times
  {
    if times == [] then counts else CountsAfter(cfg, Check(cfg, counts, times[0]).1, times[1..])
  }

  function LastOf(clock: int, times: seq<int>): int {
    if times == [] then clock else times[|times| - 1]
  }

  lemma RunUnfolds(cfg: Config, counts: Counts, log: seq<int>, times: seq<int>)
    requires Proper(cfg) && times != []
    ensures var r := Check(cfg, counts, times[0]);
            && log + RunChecks(cfg, counts, times)
               == (if r.0.Allowed? then log + [times[0]] else log) + RunChecks(cfg, r.1, times[1..])
            && CountsAfter(cfg, counts, times) == CountsAfter(cfg, r.1, times[1..])
            && LastOf(0, times) == LastOf(times[0], times[1..])
  {
    var r := Check(cfg, counts, times[0]);
    hide Check;
    var first, rest := if r.0.Allowed? then [times[0]] else [], RunChecks(cfg, r.1, times[1..]);
    assert RunChecks(cfg, counts, times) == first + rest;
    assert CountsAfter(cfg, counts, times) == CountsAfter(cfg, r.1, times[1..]);
    hide RunChecks, CountsAfter;
    Regroup(log, first, rest);
    assert log + [] == log;
  }

  lemma {:induction false} RunExplained(cfg: Config, counts: Counts, log: seq<int>, clock: int, times: seq<int>)
    requires Proper(cfg) && Explains(cfg, counts, log, clock) && Monotone(clock, times)
    ensures Explains(cfg, CountsAfter(cfg, counts, times), log + RunChecks(cfg, counts, times), LastOf(clock, times))
    decreases times
  {
    if times == [] {
      assert log + [] == log;
    } else {
      CheckExplained(cfg, counts, log, clock, times[0]);
      RunUnfolds(cfg, counts, log, times);
      hide Check, Explains, RunChecks, CountsAfter;
      var r := Check(cfg, counts, times[0]);
      RunExplained(cfg, r.1, if r.0.Allowed? then log + [times[0]] else log, times[0], times[1..]);
    }
  }

  /** After any run, whenever the next check comes, the counters it reads are those of the complete
      log, and it drops neither: a TTL of two windows never loses a counter that is still read. */
  lemma NoCounterDropped(cfg: Config, times: seq<int>, now: int)
    requires Proper(cfg) && (times != [] ==> Monotone(times[0], times[1..]))
    ensures var counts, log := CountsAfter(cfg, map[], times), RunChecks(cfg, map[], times);
            var k := Slot(cfg.window, now);
            && Read(counts, k - 1, now) == Tally(cfg.window, log, k - 1)
            && Read(counts, k, now) == Tally(cfg.window, log, k)
            && Drop(Drop(counts, k, now), k - 1, now) == counts
  {
    var clock := if times == [] then 0 else times[0];
    assert Monotone(clock, times);
    hide RunChecks, CountsAfter, Read, Drop, Tally, Slot, Monotone, Faithful, Admissible, NoneAfter, LastOf;
    RunExplained(cfg, map[], [], clock, times);
    var log := RunChecks(cfg, map[], times);
    assert [] + log == log;
    BothCovered(cfg.window, CountsAfter(cfg, map[], times), log, now);
  }

  // ---------- the bounds ----------

  /** Every aligned window admits at most the limit. */
  lemma {:induction false} AlignedLimit(cfg: Config, log: seq<int>, k: int)
    requires Proper(cfg) && Admissible(cfg, log)
    ensures Tally(cfg.window, log, k) <= cfg.limit
  {
    hide Share, Slot, Offset;
    if log != [] {
      AlignedLimit(cfg, log[..|log| - 1], k);
    }
  }

  /** How many admissions lie in the trailing window (end - window, end]. */
  function Trailing(window: nat, log: seq<int>, end: int): nat {
    if log == [] then 0
    else
      var t := log[|log| - 1];
      Trailing(window, log[..|log| - 1], end) + if end - window < t <= end then 1 else 0
  }

  lemma {:induction false} TrailingInTwoWindows(window: nat, log: seq<int>, end: int)
    requires window >= 1
    ensures var k := Slot(window, end);
            Trailing(window, log, end) <= Tally(window, log, k) + Tally(window, log, k - 1)
  {
    hide Slot;
    if log != [] {
      var t := log[|log| - 1];
      TrailingInTwoWindows(window, log[..|log| - 1], end);
      if end - window < t <= end {
        SlotOrder(window, t, end);
      }
    }
  }

  function CeilDiv(a: nat, b: nat): nat
    requires b >= 1
  {
    (a + b - 1) / b
  }

  /** What the share of the previous window leaves out is `prev * x / window`, rounded up. */
  lemma ShareLeftOut(window: nat, prev: nat, x: nat)
    requires x < window
    ensures prev == Share(window, prev, x) + CeilDiv(prev * x, window)
  {
    var a := prev * x;
    Aligned(window, a + window - 1);
    var q := Slot(window, a + window - 1);
    assert prev * (window - x) == prev * window - a;
    assert (prev - q) * window == prev * window - q * window;
    Quotient(window, prev * window - a, prev - q);
  }

  lemma ShareShrinks(window: nat, prev: nat, y: nat, x: nat)
    requires y <= x < window
    ensures Share(window, prev, x) <= Share(window, prev, y)
  {
    assert prev * (window - y) - prev * (window - x) == prev * (x - y);
    assert 0 <= prev * (x - y);
    SlotOrder(window, prev * (window - x), prev * (window - y));
  }

  lemma {:induction false} NothingLater(window: nat, log: seq<int>, now: int, k: int)
    requires window >= 1 && NoneAfter(log, now) && Slot(window, now) < k
    ensures Tally(window, log, k) == 0
  {
    hide Slot;
    if log != [] {
      NothingLater(window, log[..|log| - 1], now, k);
      SlotOrder(window, log[|log| - 1], now);
    }
  }

  /** In any trailing window, ending at offset `x` of an aligned window, at most
      limit + ceil(P * x / window) requests are admitted, P being the count of the aligned
      window before. */
  ghost predicate TrailingWithin(cfg: Config, log: seq<int>, end: int)
    requires Proper(cfg)
  {
    var prev := Tally(cfg.window, log, Slot(cfg.window, end) - 1);
    Trailing(cfg.window, log, end) <= cfg.limit + CeilDiv(prev * Offset(cfg.window, end), cfg.window)
  }

  lemma {:induction false} TrailingBound(cfg: Config, log: seq<int>, end: int)
    requires Proper(cfg) && Admissible(cfg, log)
    ensures TrailingWithin(cfg, log, end)
  {
    hide Share, Slot, Offset, CeilDiv;
    if log != [] {
      var w, before, t := cfg.window, log[..|log| - 1], log[|log| - 1];
      var k := Slot(w, end);
      if t > end {
        TrailingBound(cfg, before, end);
        SlotOrder(w, end, t);
      } else {
        SlotOrder(w, t, end);
        TrailingInTwoWindows(w, log, end);
        if Slot(w, t) == k {
          LastAdmissionInWindow(cfg, log, end);
        } else {
          NothingLater(w, log, t, k);
          AlignedLimit(cfg, log, k - 1);
        }
      }
    }
  }

  /** The last admission of the window was let in by an estimate that counted at least the share
      of the previous window left at the end. */
  lemma LastAdmissionInWindow(cfg: Config, log: seq<int>, end: int)
    requires Proper(cfg) && Admissible(cfg, log) && log != []
    requires var t := log[|log| - 1]; t <= end && Slot(cfg.window, t) == Slot(cfg.window, end)
    ensures var w, k := cfg.window, Slot(cfg.window, end); var prev := Tally(w, log, k - 1);
            Tally(w, log, k) + prev <= cfg.limit + CeilDiv(prev * Offset(w, end), w)
  {
    hide Share, Slot, Offset, CeilDiv;
    var w, t := cfg.window, log[|log| - 1];
    var prev := Tally(w, log, Slot(w, end) - 1);
    Aligned(w, end);
    SlotOrder(w, t, end);
    ShareShrinks(w, prev, Offset(w, t), Offset(w, end));
    ShareLeftOut(w, prev, Offset(w, end));
  }

  /** Both bounds over whole runs of checks. */
  lemma RunBounds(cfg: Config, times: seq<int>, end: int, k: int)
    requires Proper(cfg) && (times != [] ==> Monotone(times[0], times[1..]))
    ensures var log := RunChecks(cfg, map[], times);
            && Tally(cfg.window, log, k) <= cfg.limit
            && TrailingWithin(cfg, log, end)
  {
    var clock := if times == [] then 0 else times[0];
    RunExplained(cfg, map[], [], clock, times);
    var log := RunChecks(cfg, map[], times);
    assert [] + log == log;
    AlignedLimit(cfg, log, k);
    TrailingBound(cfg, log, end);
  }

  // ---------- waiting ----------

  /** A denied client that waits the reported seconds, or longer, with no other admission on its
      key is admitted. */
  lemma RetryAfterSuffices(cfg: Config, counts: Counts, log: seq<int>, clock: int, now: int, later: int)
    requires Proper(cfg) && Explains(cfg, counts, log, clock) && clock <= now
    requires Check(cfg, counts, now).0.Denied?
    requires later >= now + Check(cfg, counts, now).0.retryAfter * cfg.second
    ensures Check(cfg, Check(cfg, counts, now).1, later).0.Allowed?
  {
    ReportedWait(cfg, counts, now);
    PastTheBoundary(cfg.window, cfg.second, now, later);
    hide Check, Slot, Offset, Faithful, Admissible, Estimate;
    CheckExplained(cfg, counts, log, clock, now);
    CheckExplained(cfg, Check(cfg, counts, now).1, log, now, later);
    NothingHeldLater(cfg, log, now, later);
  }

  lemma ReportedWait(cfg: Config, counts: Counts, now: int)
    requires Proper(cfg) && Check(cfg, counts, now).0.Denied?
    ensures Check(cfg, counts, now).0.retryAfter == (cfg.window - Offset(cfg.window, now)) / cfg.second + 1
    ensures Check(cfg, counts, now).0.retryAfter * cfg.second >= 0
  {
    Aligned(cfg.window, now);
  }

  lemma NothingHeldLater(cfg: Config, log: seq<int>, now: int, later: int)
    requires Proper(cfg) && Admissible(cfg, log) && NoneAfter(log, now)
    requires Slot(cfg.window, later) > Slot(cfg.window, now)
    requires Slot(cfg.window, later) == Slot(cfg.window, now) + 1 ==> Offset(cfg.window, later) > 0
    ensures Estimate(cfg.window, log, later) < cfg.limit
  {
    hide Slot, Offset, Share;
    var w, k := cfg.window, Slot(cfg.window, now);
    Aligned(w, later);
    NothingLater(w, log, now, Slot(w, later));
    if Slot(w, later) == k + 1 {
      AlignedLimit(cfg, log, k);
      ShareOfLess(w, Tally(w, log, k), cfg.limit, Offset(w, later));
    } else {
      NothingLater(w, log, now, Slot(w, later) - 1);
      ShareOfNone(w, Offset(w, later));
    }
  }

  lemma ShareOfNone(window: nat, x: nat)
    requires x < window
    ensures Share(window, 0, x) == 0
  {
    Quotient(window, 0, 0);
  }

  /** The reported wait, rounded down to seconds and then increased by one, ends strictly after
      the current window does. */
  lemma PastTheBoundary(window: nat, second: nat, now: int, later: int)
    requires window >= 1 && second >= 1
    requires later >= now + ((window - Offset(window, now)) / second + 1) * second
    ensures Slot(window, later) > Slot(window, now)
    ensures Slot(window, later) == Slot(window, now) + 1 ==> Offset(window, later) > 0
  {
    Aligned(window, now);
    Aligned(window, later);
    var left := window - Offset(window, now);
    Aligned(second, left);
    Times(Slot(second, left), left / second + 1, second);
    var k := Slot(window, now);
    assert later > k * window + window;
    Times(k, k + 1, window);
    if Slot(window, later) < k {
      Times(Slot(window, later), k, window);
    }
    assert (k + 1) * window == k * window + window;
  }

  lemma ShareOfLess(window: nat, prev: nat, limit: nat, x: nat)
    requires 0 < x < window && prev <= limit && limit >= 1
    ensures Share(window, prev, x) < limit
  {
    var a := prev * (window - x);
    Aligned(window, a);
    assert a <= limit * (window - x) by {
      if prev < limit { Times(prev, limit, window - x); }
    }
    assert limit * (window - x) == limit * window - limit * x;
    Times(0, limit, x);
    if Slot(window, a) > limit {
      Times(limit, Slot(window, a), window);
    }
  }

  /** Without the added second it would not do: at the very start of the next window a request
      is permitted exactly when the window before was not full. */
  lemma BoundaryNeedsTheSecond(cfg: Config, log: seq<int>, k: int)
    requires Proper(cfg) && Admissible(cfg, log) && NoneAfter(log, (k + 1) * cfg.window - 1)
    ensures Estimate(cfg.window, log, (k + 1) * cfg.window) < cfg.limit <==> Tally(cfg.window, log, k) < cfg.limit
  {
    var w, now := cfg.window, (k + 1) * cfg.window;
    Quotient(w, now, k + 1);
    Aligned(w, now);
    assert (k + 1) * w == k * w + w;
    Quotient(w, now - 1, k);
    hide Slot, Offset, Share;
    NothingLater(w, log, now - 1, k + 1);
    ShareOfAll(w, Tally(w, log, k));
  }

  lemma ShareOfAll(window: nat, prev: nat)
    requires window >= 1
    ensures Share(window, prev, 0) == prev
  {
    Quotient(window, prev * window, prev);
  }

  // ---------- quotas ----------

  /** `QuotaManager.check_quota` on a configured quota: one counter per period, kept for one period. */
  function CheckQuota(limit: nat, period: nat, counts: Counts, now: int): (bool, Counts)
    requires period >= 1
  {
    var k := Slot(period, now);
    if Read(counts, k, now) >= limit then (false, Drop(counts, k, now))
    else (true, Increment(Drop(counts, k, now), k, period, now))
  }

  ghost predicate WithinQuota(limit: nat, period: nat, counts: Counts, log: seq<int>)
    requires period >= 1
  {
    Faithful(period, period, counts, log) && forall k :: Tally(period, log, k) <= limit
  }

  /** No period ever admits more than the quota, and a request is refused only in a period that
      has used all of it. */
  lemma QuotaKept(limit: nat, period: nat, counts: Counts, log: seq<int>, now: int)
    requires period >= 1 && WithinQuota(limit, period, counts, log)
    ensures var (allowed, counts') := CheckQuota(limit, period, counts, now);
            && (allowed <==> Tally(period, log, Slot(period, now)) < limit)
            && WithinQuota(limit, period, counts', if allowed then log + [now] else log)
  {
    Aligned(period, now);
    TtlCovers(period, period, counts, log, Slot(period, now), now);
    if Tally(period, log, Slot(period, now)) < limit {
      IncrementFaithful(period, period, counts, log, now);
      forall k ensures Tally(period, log + [now], k) <= limit {
        TallyAppend(period, log, now, k);
      }
    }
  }

  /** The counters and the log of admissions after a run of quota checks. */
  function RunQuota(limit: nat, period: nat, counts: Counts, log: seq<int>, times: seq<int>): (Counts, seq<int>)
    requires period >= 1
    decreases times
  {
    if times == [] then (counts, log)
    else
      var (allowed, counts') := CheckQuota(limit, period, counts, times[0]);
      RunQuota(limit, period, counts', if allowed then log + [times[0]] else log, times[1..])
  }

  lemma {:induction false} RunWithinQuota(limit: nat, period: nat, counts: Counts, log: seq<int>, clock: int,
                                          times: seq<int>)
    requires period >= 1 && WithinQuota(limit, period, counts, log) && NoneAfter(log, clock) && Monotone(clock, times)
    ensures var (counts', log') := RunQuota(limit, period, counts, log, times);
            WithinQuota(limit, period, counts', log') && NoneAfter(log', LastOf(clock, times))
    decreases times
  {
    if times != [] {
      var now := times[0];
      QuotaKept(limit, period, counts, log, now);
      var (allowed, counts') := CheckQuota(limit, period, counts, now);
      var log' := if allowed then log + [now] else log;
      assert NoneAfter(log', now);
      hide WithinQuota, CheckQuota, NoneAfter;
      RunWithinQuota(limit, period, counts', log', now, times[1..]);
      assert LastOf(clock, times) == LastOf(now, times[1..]);
    }
  }

  /** What `check_quota` reports to a refused client: the seconds to the end of the period, rounded down. */
  function QuotaRetry(period: nat, second: nat, now: int): int
    requires period >= 1 && second >= 1
  {
    ((Slot(period, now) + 1) * period - now) / second
  }

  /** A refused client that waits the reported seconds, with no other request on its quota, is
      admitted if and only if these were not rounded. */
  lemma QuotaRetryIff(limit: nat, period: nat, second: nat, counts: Counts, log: seq<int>, now: int)
    requires limit >= 1 && period >= 1 && second >= 1
    requires WithinQuota(limit, period, counts, log) && NoneAfter(log, now) && !CheckQuota(limit, period, counts, now).0
    ensures var later := now + QuotaRetry(period, second, now) * second;
            CheckQuota(limit, period, CheckQuota(limit, period, counts, now).1, later).0 <==>
            ((Slot(period, now) + 1) * period - now) % second == 0
  {
    QuotaKept(limit, period, counts, log, now);
    var counts' := CheckQuota(limit, period, counts, now).1;
    var later := now + QuotaRetry(period, second, now) * second;
    hide CheckQuota, WithinQuota, Tally, Slot, NoneAfter;
    QuotaKept(limit, period, counts', log, later);
    WaitEnds(period, second, now);
    if Slot(period, later) != Slot(period, now) {
      NothingLater(period, log, now, Slot(period, later));
    }
  }

  /** Over any run no period admits more than the quota; a check is refused exactly in a period that
      has used all of it; and waiting the reported seconds suffices if and only if they were not rounded. */
  lemma QuotaOverRuns(limit: nat, period: nat, second: nat, times: seq<int>, now: int, k: int)
    requires limit >= 1 && period >= 1 && second >= 1
    requires (times != [] ==> Monotone(times[0], times[1..])) && LastOf(now, times) <= now
    ensures var (counts, log) := RunQuota(limit, period, map[], [], times);
            var (allowed, counts') := CheckQuota(limit, period, counts, now);
            && Tally(period, log, k) <= limit
            && (allowed <==> Tally(period, log, Slot(period, now)) < limit)
            && (!allowed ==>
                  (CheckQuota(limit, period, counts', now + QuotaRetry(period, second, now) * second).0
                   <==> ((Slot(period, now) + 1) * period - now) % second == 0))
  {
    var clock := if times == [] then now else times[0];
    RunWithinQuota(limit, period, map[], [], clock, times);
    var (counts, log) := RunQuota(limit, period, map[], [], times);
    assert NoneAfter(log, now);
    hide RunQuota, CheckQuota, Tally, Slot, NoneAfter, QuotaRetry;
    QuotaKept(limit, period, counts, log, now);
    if !CheckQuota(limit, period, counts, now).0 {
      QuotaRetryIff(limit, period, second, counts, log, now);
    }
  }

  lemma RoundedDown(second: nat, left: nat)
    requires second >= 1
    ensures left - Offset(second, left) >= 0
  {
    Aligned(second, left);
    if Slot(second, left) < 0 {
      Times(Slot(second, left), 0, second);
    }
  }

  /** The wait ends at the start of the next period, or before it if it was rounded. */
  lemma WaitEnds(period: nat, second: nat, now: int)
    requires period >= 1 && second >= 1
    ensures var k, left := Slot(period, now), (Slot(period, now) + 1) * period - now;
            Slot(period, now + left / second * second) == if left % second == 0 then k + 1 else k
  {
    var k := Slot(period, now);
    Aligned(period, now);
    var left := (k + 1) * period - now;
    assert (k + 1) * period == k * period + period;
    Aligned(second, left);
    var rounded := left - Offset(second, left);
    assert rounded == left / second * second;
    hide Slot, Offset;
    if rounded == left {
      Quotient(period, now + rounded, k + 1);
    } else {
      RoundedDown(second, left);
      Quotient(period, now + rounded, k);
    }
  }

  // ---------- the storage, updated in place ----------

  type AllCounts = map<(string, int), Entry>

  /** The counters of one client. */
  function OfClient(counts: AllCounts, key: string): Counts {
    map p | p in counts && p.0 == key :: p.1 := counts[p]
  }

  lemma OfClientUpdate(counts: AllCounts, key: string, k: int, e: Entry)
    ensures OfClient(counts[(key, k) := e], key) == OfClient(counts, key)[k := e]
    ensures forall other :: other != key ==> OfClient(counts[(key, k) := e], other) == OfClient(counts, other)
  {
  }

  lemma OfClientLookup(counts: AllCounts, key: string, k: int)
    ensures k in OfClient(counts, key) <==> (key, k) in counts
    ensures (key, k) in counts ==> OfClient(counts, key)[k] == counts[(key, k)]
  {
  }

  class CounterStorage {
    var counts: AllCounts

    constructor ()
      ensures counts == map[]
    {
      counts := map[];
    }

    method GetCount(key: string, k: int, now: int) returns (count: nat)
      modifies this
      ensures count == Read(OfClient(old(counts), key), k, now)
      ensures OfClient(counts, key) == Drop(OfClient(old(counts), key), k, now)
      ensures forall other :: other != key ==> OfClient(counts, other) == OfClient(old(counts), other)
    {
      OfClientLookup(counts, key, k);
      var p := (key, k);
      if p in counts && now > counts[p].expires {
        counts := counts - {p};
        return 0;
      }
      count := if p in counts then counts[p].count else 0;
    }

    method DoIncrement(key: string, k: int, ttl: nat, now: int) returns (count: nat)
      modifies this
      ensures OfClient(counts, key) == Increment(OfClient(old(counts), key), k, ttl, now)
      ensures forall other :: other != key ==> OfClient(counts, other) == OfClient(old(counts), other)
      ensures k in OfClient(counts, key) && count == OfClient(counts, key)[k].count
    {
      OfClientLookup(counts, key, k);
      var p := (key, k);
      var data := if p in counts && now <= counts[p].expires then counts[p] else Entry(0, now + ttl);
      data := data.(count := data.count + 1);
      OfClientUpdate(counts, key, k, data);
      counts := counts[p := data];
      count := data.count;
    }

    /** `SlidingWindowAlgorithm.check_limit` on this storage. */
    method CheckLimit(cfg: Config, key: string, now: int) returns (r: Answer)
      requires Proper(cfg)
      modifies this
      ensures (r, OfClient(counts, key)) == Check(cfg, OfClient(old(counts), key), now)
      ensures forall other :: other != key ==> OfClient(counts, other) == OfClient(old(counts), other)
    {
      hide OfClient, Increment;
      var k, x := now / cfg.window, now % cfg.window;
      var current := GetCount(key, k, now);
      var previous := GetCount(key, k - 1, now);
      var estimated := previous * (cfg.window - x) / cfg.window + current;
      if estimated >= cfg.limit {
        r := Denied((cfg.window - x) / cfg.second + 1);
      } else {
        r := Allowed(cfg.limit - estimated - 1);
        var _ := DoIncrement(key, k, 2 * cfg.window, now);
      }
    }

    /** `QuotaManager.check_quota` on this storage. */
    method CheckQuotaOf(limit: nat, period: nat, second: nat, key: string, now: int)
      returns (allowed: bool, retryAfter: int)
      requires period >= 1 && second >= 1
      modifies this
      ensures (allowed, OfClient(counts, key)) == CheckQuota(limit, period, OfClient(old(counts), key), now)
      ensures retryAfter == if allowed then 0 else QuotaRetry(period, second, now)
      ensures forall other :: other != key ==> OfClient(counts, other) == OfClient(old(counts), other)
    {
      hide OfClient, Increment;
      var usage := GetCount(key, now / period, now);
      if usage >= limit {
        return false, (now / period * period + period - now) / second;
      }
      var _ := DoIncrement(key, now / period, period, now);
      allowed, retryAfter := true, 0;
    }
  }
}
