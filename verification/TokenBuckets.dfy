/** The two token buckets: the one of app/core/rate_limiter.py, which keeps fractional tokens in
    a cache entry that may expire, and the one of app/core/api_integration/rate_limiting.py, which
    keeps whole tokens in the counter storage. */
module TokenBuckets {
  import opened Common

  // ---------- the bound, for any bucket ----------

  /** Tokens gained in `dt` seconds at `requests` per `window` seconds. */
  function Refill(requests: nat, window: real, dt: real): real
    requires window > 0.0
  {
    dt * requests as real / window
  }

  lemma RefillAdds(requests: nat, window: real, a: real, b: real)
    requires window > 0.0
    ensures Refill(requests, window, a + b) == Refill(requests, window, a) + Refill(requests, window, b)
  {
    var n := requests as real;
    assert (a + b) * n == a * n + b * n;
  }

  lemma RefillGrows(requests: nat, window: real, a: real, b: real)
    requires window > 0.0 && a <= b
    ensures Refill(requests, window, a) <= Refill(requests, window, b)
  {
    RefillAdds(requests, window, a, b - a);
    assert (b - a) * requests as real >= 0.0;
  }

  /** What is left in the bucket after a check. */
  datatype Mark = Mark(at: real, tokens: real, admitted: bool) {
    function Spent(): real { if admitted then 1.0 else 0.0 }
  }

  /** The bucket never overflows, and gains no more than its rate from one check to the next. */
  ghost predicate Fed(max: real, requests: nat, window: real, m: Mark, rest: seq<Mark>)
    requires window > 0.0
    decreases rest
  {
    && 0.0 <= m.tokens && m.tokens + m.Spent() <= max
    && (rest != [] ==>
        && m.at <= rest[0].at
        && rest[0].tokens + rest[0].Spent() <= m.tokens + Refill(requests, window, rest[0].at - m.at)
        && Fed(max, requests, window, rest[0], rest[1..]))
  }

  /** How many checks were admitted between `s` and `e`. */
  function Admitted(s: real, e: real, marks: seq<Mark>): nat {
    if marks == [] then 0
    else (if s <= marks[0].at <= e && marks[0].admitted then 1 else 0) + Admitted(s, e, marks[1..])
  }

  lemma AdmittedHead(s: real, e: real, m: Mark, rest: seq<Mark>)
    ensures Admitted(s, e, [m] + rest) == (if s <= m.at <= e && m.admitted then 1 else 0) + Admitted(s, e, rest)
  {
    assert ([m] + rest)[1..] == rest;
  }

  lemma {:induction false} AdmittedAfter(max: real, requests: nat, window: real, m: Mark, rest: seq<Mark>, s: real,
                                         e: real)
    requires window > 0.0 && Fed(max, requests, window, m, rest) && m.at <= e
    ensures Admitted(s, e, rest) as real <= m.tokens + Refill(requests, window, e - m.at)
    decreases rest
  {
    RefillGrows(requests, window, 0.0, e - m.at);
    if rest != [] {
      if rest[0].at <= e {
        AdmittedAfter(max, requests, window, rest[0], rest[1..], s, e);
        RefillAdds(requests, window, rest[0].at - m.at, e - rest[0].at);
      } else {
        NoneAdmittedLater(max, requests, window, rest[0], rest[1..], s, e);
      }
    }
  }

  lemma {:induction false} NoneAdmittedLater(max: real, requests: nat, window: real, m: Mark, rest: seq<Mark>,
                                             s: real, e: real)
    requires window > 0.0 && Fed(max, requests, window, m, rest) && e < m.at
    ensures Admitted(s, e, rest) == 0
    decreases rest
  {
    if rest != [] {
      NoneAdmittedLater(max, requests, window, rest[0], rest[1..], s, e);
    }
  }

  /** Over any interval [s, e] of any run at most the capacity plus the refill of the interval
      is admitted. */
  lemma {:induction false} IntervalBound(max: real, requests: nat, window: real, marks: seq<Mark>, s: real, e: real)
    requires window > 0.0 && max >= 0.0 && s <= e
    requires marks != [] ==> Fed(max, requests, window, marks[0], marks[1..])
    ensures Admitted(s, e, marks) as real <= max + Refill(requests, window, e - s)
    decreases marks
  {
    RefillGrows(requests, window, 0.0, e - s);
    if marks != [] {
      var m := marks[0];
      if m.at < s {
        IntervalBound(max, requests, window, marks[1..], s, e);
      } else if m.at <= e {
        AdmittedAfter(max, requests, window, m, marks[1..], s, e);
        RefillGrows(requests, window, e - m.at, e - s);
      } else {
        NoneAdmittedLater(max, requests, window, m, marks[1..], s, e);
      }
    }
  }

  // ---------- the cached bucket ----------

  datatype Config = Config(requests: nat, window: real, burst: Option<nat>) {
    /** `burst_requests or requests`: a burst of zero counts as none. */
    function MaxTokens(): nat {
      if burst.Some? && burst.value != 0 then burst.value else requests
    }
  }

  predicate Proper(cfg: Config) {
    cfg.requests >= 1 && cfg.window > 0.0
  }

  /** The cache entry; every check stores it anew for `window` seconds. */
  datatype Bucket = Bucket(tokens: real, lastRefill: real, expires: real)

  datatype Answer = Allowed(remaining: int) | Denied(retryAfter: real)

  function Fetch(cfg: Config, cached: Option<Bucket>, now: real): Bucket {
    if cached.Some? && now < cached.value.expires then cached.value
    else Bucket(cfg.requests as real, now, now + cfg.window)
  }

  /** `_check_token_bucket`. */
  function CheckBucket(cfg: Config, cached: Option<Bucket>, now: real): (Answer, Bucket)
    requires Proper(cfg)
  {
    var b := Fetch(cfg, cached, now);
    var filled := b.tokens + Refill(cfg.requests, cfg.window, now - b.lastRefill);
    var max := cfg.MaxTokens() as real;
    var tokens := if filled < max then filled else max;
    if tokens < 1.0 then
      (Denied(cfg.window / cfg.requests as real), Bucket(tokens, now, now + cfg.window))
    else
      (Allowed((tokens - 1.0).Floor), Bucket(tokens - 1.0, now, now + cfg.window))
  }

  /** An entry left by an earlier check at `lastRefill`. */
  predicate Stored(cfg: Config, b: Bucket) {
    0.0 <= b.tokens <= cfg.MaxTokens() as real && b.expires == b.lastRefill + cfg.window
  }

  function MarkOf(r: (Answer, Bucket)): Mark {
    Mark(r.1.lastRefill, r.1.tokens, r.0.Allowed?)
  }

  /** A whole window's refill is `requests` tokens: a bucket recreated after it expired is no
      fuller than the one that was lost would have been. */
  lemma WindowRefill(cfg: Config, dt: real)
    requires Proper(cfg) && dt >= cfg.window
    ensures Refill(cfg.requests, cfg.window, dt) >= cfg.requests as real
  {
    RefillGrows(cfg.requests, cfg.window, cfg.window, dt);
    assert cfg.window * cfg.requests as real / cfg.window == cfg.requests as real;
  }

  lemma CheckBucketFed(cfg: Config, b: Bucket, now: real)
    requires Proper(cfg) && Stored(cfg, b) && b.lastRefill <= now
    ensures var (answer, b') := CheckBucket(cfg, Some(b), now);
            && Stored(cfg, b') && b'.lastRefill == now
            && var m := MarkOf((answer, b'));
               && 0.0 <= m.tokens && m.tokens + m.Spent() <= cfg.MaxTokens() as real
               && m.tokens + m.Spent() <= b.tokens + Refill(cfg.requests, cfg.window, now - b.lastRefill)
  {
    RefillGrows(cfg.requests, cfg.window, 0.0, now - b.lastRefill);
    if now >= b.expires {
      WindowRefill(cfg, now - b.lastRefill);
    }
  }

  function Marks(cfg: Config, cached: Option<Bucket>, times: seq<real>): seq<Mark>
    requires Proper(cfg)
    decreases times
  {
    if times == [] then []
    else
      var r := CheckBucket(cfg, cached, times[0]);
      [MarkOf(r)] + Marks(cfg, Some(r.1), times[1..])
  }

  ghost predicate Monotone(from: real, times: seq<real>)
    decreases times
  {
    times == [] || (from <= times[0] && Monotone(times[0], times[1..]))
  }

  lemma {:induction false} MarksFed(cfg: Config, answer: Answer, b: Bucket, times: seq<real>)
    requires Proper(cfg) && Stored(cfg, b) && Monotone(b.lastRefill, times)
    requires b.tokens + MarkOf((answer, b)).Spent() <= cfg.MaxTokens() as real
    ensures Fed(cfg.MaxTokens() as real, cfg.requests, cfg.window, MarkOf((answer, b)), Marks(cfg, Some(b), times))
    decreases times
  {
    if times != [] {
      CheckBucketFed(cfg, b, times[0]);
      var r := CheckBucket(cfg, Some(b), times[0]);
      MarksFed(cfg, r.0, r.1, times[1..]);
      assert Marks(cfg, Some(b), times)[1..] == Marks(cfg, Some(r.1), times[1..]);
    }
  }

  /** Over any interval of any run, starting with no bucket and losing it whenever it expires,
      at most max_tokens + (e - s) * requests / window requests are admitted. */
  lemma CachedBucketBound(cfg: Config, times: seq<real>, s: real, e: real)
    requires Proper(cfg) && s <= e && (times != [] ==> Monotone(times[0], times[1..]))
    ensures Admitted(s, e, Marks(cfg, None, times)) as real
         <= cfg.MaxTokens() as real + Refill(cfg.requests, cfg.window, e - s)
  {
    if times != [] {
      var r := CheckBucket(cfg, None, times[0]);
      assert Refill(cfg.requests, cfg.window, 0.0) == 0.0;
      MarksFed(cfg, r.0, r.1, times[1..]);
      assert Marks(cfg, None, times)[1..] == Marks(cfg, Some(r.1), times[1..]);
    }
    IntervalBound(cfg.MaxTokens() as real, cfg.requests, cfg.window, Marks(cfg, None, times), s, e);
  }

  // ---------- and no token is lost ----------

  /** A live entry loses nothing: what a check leaves and takes is what was there and what has accrued since,
      cut off at the burst or, without one, at the limit; the check is admitted exactly if that is a whole
      token. */
  lemma CheckBucketExact(cfg: Config, b: Bucket, now: real)
    requires Proper(cfg) && b.lastRefill <= now < b.expires
    ensures var (answer, b') := CheckBucket(cfg, Some(b), now);
            var accrued := b.tokens + (now - b.lastRefill) * cfg.requests as real / cfg.window;
            var cap := match cfg.burst case None => cfg.requests case Some(n) => if n == 0 then cfg.requests else n;
            && b'.lastRefill == now && b'.expires == now + cfg.window
            && b'.tokens + (if answer.Allowed? then 1.0 else 0.0)
               == (if accrued < cap as real then accrued else cap as real)
            && (answer.Allowed? <==> accrued >= 1.0 && cap >= 1)
            && match answer
               case Allowed(remaining) => remaining as real <= b'.tokens < remaining as real + 1.0
               case Denied(retryAfter) => retryAfter * cfg.requests as real == cfg.window
  {
    assert cfg.window / cfg.requests as real * cfg.requests as real == cfg.window;
    assert Refill(cfg.requests, cfg.window, now - b.lastRefill)
        == (now - b.lastRefill) * cfg.requests as real / cfg.window;
    hide Refill;
  }

  /** And once its time has passed an entry counts no more than none. */
  lemma ExpiredIsNone(cfg: Config, b: Bucket, now: real)
    requires Proper(cfg) && now >= b.expires
    ensures CheckBucket(cfg, Some(b), now) == CheckBucket(cfg, None, now)
  {
  }

  /** A check at the instant of the one before finds what that one left. */
  lemma CheckAtOnce(cfg: Config, b: Bucket)
    requires Proper(cfg) && b.lastRefill < b.expires && b.tokens <= cfg.MaxTokens() as real
    ensures var (answer, b') := CheckBucket(cfg, Some(b), b.lastRefill);
            && (answer.Allowed? <==> b.tokens >= 1.0)
            && b'.tokens == (if answer.Allowed? then b.tokens - 1.0 else b.tokens)
            && b'.lastRefill == b.lastRefill < b'.expires
  {
    assert Refill(cfg.requests, cfg.window, 0.0) == 0.0;
    hide Refill;
  }

  function Repeated(now: real, n: nat): seq<real> {
    if n == 0 then [] else [now] + Repeated(now, n - 1)
  }

  /** The first `n` checks are admitted, and no more. */
  ghost predicate FirstAdmitted(marks: seq<Mark>, n: nat) {
    forall i :: 0 <= i < |marks| ==> (marks[i].admitted <==> i < n)
  }

  lemma FirstAdmittedHead(m: Mark, rest: seq<Mark>, n: nat)
    requires m.admitted == (n > 0) && FirstAdmitted(rest, if n > 0 then n - 1 else 0)
    ensures FirstAdmitted([m] + rest, n)
  {
    forall i | 0 <= i < |[m] + rest| ensures ([m] + rest)[i].admitted <==> i < n {
      if i > 0 {
        assert ([m] + rest)[i] == rest[i - 1];
      }
    }
  }

  /** Of `checks` checks at one instant a bucket with `n` whole tokens admits exactly the first `n`. */
  lemma {:induction false} WholeTokensAdmit(cfg: Config, b: Bucket, now: real, n: nat, checks: nat)
    requires Proper(cfg) && b.lastRefill == now < b.expires
    requires n as real <= b.tokens < n as real + 1.0 && b.tokens <= cfg.MaxTokens() as real
    ensures FirstAdmitted(Marks(cfg, Some(b), Repeated(now, checks)), n)
    decreases checks
  {
    if checks > 0 {
      var r := CheckBucket(cfg, Some(b), now);
      CheckAtOnce(cfg, b);
      assert Repeated(now, checks)[1..] == Repeated(now, checks - 1);
      hide CheckBucket, FirstAdmitted;
      WholeTokensAdmit(cfg, r.1, now, if n > 0 then n - 1 else 0, checks - 1);
      FirstAdmittedHead(MarkOf(r), Marks(cfg, Some(r.1), Repeated(now, checks - 1)), n);
    }
  }

  /** A new bucket admits the limit at once, or the burst if that is smaller. */
  lemma NewBucketAdmits(cfg: Config, now: real, checks: nat)
    requires Proper(cfg)
    ensures var cap := match cfg.burst case None => cfg.requests case Some(n) => if n == 0 then cfg.requests else n;
            FirstAdmitted(Marks(cfg, None, Repeated(now, checks)), if cap < cfg.requests then cap else cfg.requests)
  {
    var cap := cfg.MaxTokens();
    var n := if cap < cfg.requests then cap else cfg.requests;
    if checks > 0 {
      var r := CheckBucket(cfg, None, now);
      assert Refill(cfg.requests, cfg.window, now - now) == 0.0;
      assert r.0.Allowed? && r.1 == Bucket(n as real - 1.0, now, now + cfg.window);
      assert Repeated(now, checks)[1..] == Repeated(now, checks - 1);
      hide CheckBucket, FirstAdmitted, Refill;
      WholeTokensAdmit(cfg, r.1, now, n - 1, checks - 1);
      FirstAdmittedHead(MarkOf(r), Marks(cfg, Some(r.1), Repeated(now, checks - 1)), n);
    }
  }

  /** A denied client that waits the reported time, or longer, with no other check on its
      bucket is admitted, whether or not the bucket expired meanwhile. */
  lemma RetryAfterSuffices(cfg: Config, b: Bucket, now: real, later: real)
    requires Proper(cfg) && Stored(cfg, b) && b.lastRefill <= now
    requires CheckBucket(cfg, Some(b), now).0.Denied?
    requires later >= now + CheckBucket(cfg, Some(b), now).0.retryAfter
    ensures CheckBucket(cfg, Some(CheckBucket(cfg, Some(b), now).1), later).0.Allowed?
  {
    CheckBucketFed(cfg, b, now);
    var wait := cfg.window / cfg.requests as real;
    OneTokenEach(cfg);
    RefillGrows(cfg.requests, cfg.window, wait, later - now);
    hide Refill;
  }

  /** What `check_rate_limit` holds for one client around the bucket: the entry, and the end of its block. */
  datatype Client = Client(cached: Option<Bucket>, until: Option<real>)

  datatype Response = Passed(remaining: int) | LimitExceeded(retryAfter: real, blockedUntil: real) | Blocked

  /** `check_rate_limit` with this strategy, reading the clock at `outer`; the bucket reads it at `inner`. */
  function CheckClient(cfg: Config, block: real, s: Client, outer: real, inner: real): (Response, Client)
    requires Proper(cfg)
  {
    if s.until.Some? && outer < s.until.value then (Blocked, s)
    else
      var (answer, b) := CheckBucket(cfg, s.cached, inner);
      match answer
      case Allowed(remaining) => (Passed(remaining), Client(Some(b), None))
      case Denied(retryAfter) => (LimitExceeded(retryAfter, outer + block), Client(Some(b), Some(outer + block)))
  }

  /** Inside a block nothing happens; outside the bucket decides, and exactly a denial begins a block. */
  lemma ClientExplained(cfg: Config, block: real, s: Client, outer: real, inner: real)
    requires Proper(cfg)
    ensures var (r, s') := CheckClient(cfg, block, s, outer, inner);
            var (answer, b) := CheckBucket(cfg, s.cached, inner);
            if s.until.Some? && outer < s.until.value then r.Blocked? && s' == s
            else
              && s'.cached == Some(b) && s'.until == (if answer.Allowed? then None else Some(outer + block))
              && (answer.Allowed? ==> r == Passed(answer.remaining))
              && (answer.Denied? ==> r == LimitExceeded(answer.retryAfter, outer + block))
  {
  }

  /** Of the checks that come when the reported time has passed, with no other in between, exactly those
      are let in that come when the block has ended as well. */
  lemma NextPassesIff(cfg: Config, block: real, s: Client, outer: real, inner: real, nextOuter: real, nextInner: real)
    requires Proper(cfg) && (s.cached.Some? ==> Stored(cfg, s.cached.value) && s.cached.value.lastRefill <= inner)
    requires CheckClient(cfg, block, s, outer, inner).0.LimitExceeded?
    requires inner + CheckClient(cfg, block, s, outer, inner).0.retryAfter <= nextInner
    ensures var (r, s') := CheckClient(cfg, block, s, outer, inner);
            && r.blockedUntil == outer + block
            && (CheckClient(cfg, block, s', nextOuter, nextInner).0.Passed? <==> r.blockedUntil <= nextOuter)
  {
    if s.cached.Some? {
      RetryAfterSuffices(cfg, s.cached.value, inner, nextInner);
    } else {
      NewBucketAllows(cfg, inner);
    }
  }

  lemma NewBucketAllows(cfg: Config, now: real)
    requires Proper(cfg)
    ensures CheckBucket(cfg, None, now).0.Allowed?
  {
    assert Refill(cfg.requests, cfg.window, now - now) == 0.0;
  }

  lemma OneTokenEach(cfg: Config)
    requires Proper(cfg)
    ensures Refill(cfg.requests, cfg.window, cfg.window / cfg.requests as real) == 1.0
  {
    assert cfg.window / cfg.requests as real * cfg.requests as real == cfg.window;
    OverItself(cfg.window);
  }

  // ---------- the bucket in the counter storage ----------

  /** A stored counter, read as 0 once it has expired. */
  datatype Entry = Entry(count: int, expires: real)

  function Read(e: Option<Entry>, now: real): int {
    if e.Some? && now <= e.value.expires then e.value.count else 0
  }

  /** Python's `int(x)`: truncation toward zero. */
  function Truncate(x: real): int {
    if x >= 0.0 then x.Floor else -((-x).Floor)
  }

  datatype Limit = Limit(limit: nat, window: nat, burst: Option<nat>) {
    function MaxTokens(): nat {
      if burst.Some? && burst.value != 0 then burst.value else limit
    }

    /** What the configured rate earns in `dt` seconds. */
    function Earned(dt: real): real
      requires window >= 1
    {
      Refill(limit, window as real, dt)
    }
  }

  predicate ProperLimit(l: Limit) { l.limit >= 1 && l.window >= 1 }

  /** `TokenBucketAlgorithm.check_limit`: whether the request is allowed, and the new token and
      refill-time entries.  The clock is fractional; the refill time is stored in whole seconds. */
  function CheckStored(l: Limit, tokens: Option<Entry>, last: Option<Entry>, now: real): (bool, Entry, Entry)
    requires ProperLimit(l)
  {
    var lastRefill := if Read(last, now) == 0 then now else Read(last, now) as real;
    var filled := Read(tokens, now) + Truncate(l.Earned(now - lastRefill));
    var current := if l.MaxTokens() < filled then l.MaxTokens() else filled;
    var left := if current >= 1 then current - 1 else current;
    var expires := now + (2 * l.window) as real;
    (current >= 1, Entry(left, expires), Entry(Truncate(now), expires))
  }

  /** The entries a check at `at` leaves behind. */
  predicate LeftAt(l: Limit, tokens: Entry, last: Entry, at: real) {
    && 0.0 <= at && 0 <= tokens.count <= l.MaxTokens()
    && last.count == at.Floor && tokens.expires == last.expires == at + (2 * l.window) as real
  }

  function StoredMark(now: real, r: (bool, Entry, Entry)): Mark {
    Mark(now, r.1.count as real, r.0)
  }

  function StoredMarks(l: Limit, tokens: Option<Entry>, last: Option<Entry>, times: seq<real>): seq<Mark>
    requires ProperLimit(l)
    decreases times
  {
    if times == [] then []
    else
      var r := CheckStored(l, tokens, last, times[0]);
      [StoredMark(times[0], r)] + StoredMarks(l, Some(r.1), Some(r.2), times[1..])
  }

  /** A run begins with nothing stored; its clock readings are not negative and not decreasing. */
  ghost predicate Readings(times: seq<real>) {
    times != [] ==> 0.0 <= times[0] && Monotone(times[0], times[1..])
  }

  lemma FirstCheckDenied(l: Limit, now: real)
    requires ProperLimit(l) && now >= 0.0
    ensures var r := CheckStored(l, None, None, now); !r.0 && LeftAt(l, r.1, r.2, now) && r.1.count == 0
  {
    assert l.Earned(now - now) == 0.0;
  }

  /** What the next check of a run earns: nothing when the entries have expired or the stored refill
      time is 0, and otherwise what has accrued since the last whole second before the check before. */
  function Gain(l: Limit, at: real, now: real): real
    requires ProperLimit(l)
  {
    if now > at + (2 * l.window) as real || at.Floor == 0 then 0.0 else l.Earned(now - at.Floor as real)
  }

  lemma GainNatural(l: Limit, at: real, now: real)
    requires ProperLimit(l) && 0.0 <= at <= now
    ensures 0.0 <= Gain(l, at, now) && Truncate(Gain(l, at, now)) == Gain(l, at, now).Floor >= 0
  {
    RefillGrows(l.limit, l.window as real, 0.0, now - at.Floor as real);
  }

  /** A check in whole tokens. */
  lemma CheckStoredCounts(l: Limit, tokens: Entry, last: Entry, at: real, now: real)
    requires ProperLimit(l) && LeftAt(l, tokens, last, at) && at <= now
    ensures var r := CheckStored(l, Some(tokens), Some(last), now);
            var kept := if now > at + (2 * l.window) as real then 0 else tokens.count;
            var filled := kept + Gain(l, at, now).Floor;
            var cap := match l.burst case None => l.limit case Some(n) => if n == 0 then l.limit else n;
            && LeftAt(l, r.1, r.2, now)
            && (r.0 <==> filled >= 1)
            && r.1.count + (if r.0 then 1 else 0) == if cap < filled then cap else filled
  {
    GainNatural(l, at, now);
    assert l.Earned(now - now) == 0.0;
    hide Refill;
  }

  // ---------- the bound, when the limit divides the window ----------

  /** If a token takes a whole number of seconds, the fraction of a second never earns one. */
  lemma FractionEarnsNothing(l: Limit, n: nat, f: real)
    requires ProperLimit(l) && l.window % l.limit == 0 && 0.0 <= f < 1.0
    ensures l.Earned(n as real + f).Floor as real <= l.Earned(n as real)
  {
    Divided(l.window, l.limit);
    FractionOfPeriod(l, l.window / l.limit, n, f);
  }

  lemma FractionOfPeriod(l: Limit, period: nat, n: nat, f: real)
    requires ProperLimit(l) && l.window == period * l.limit && period >= 1 && 0.0 <= f < 1.0
    ensures l.Earned(n as real + f).Floor as real <= l.Earned(n as real)
  {
    var k := WholePeriods(n, period, f);
    hide Refill, Limit.Earned;
    EarnedWithin(l, period, k, n as real + f);
    EarnedWithin(l, period, k, n as real);
    FloorBelow(l.Earned(n as real + f), k);
  }

  lemma FloorBelow(x: real, k: int)
    requires x < k as real + 1.0
    ensures x.Floor <= k && x.Floor as real <= k as real
  {
    assert x.Floor as real <= x < (k + 1) as real;
  }

  lemma Divided(a: nat, b: nat)
    requires a >= 1 && b >= 1 && a % b == 0
    ensures a / b >= 1 && a == a / b * b
  {
  }

  lemma WholePeriods(n: nat, period: nat, f: real) returns (k: nat)
    requires period >= 1 && 0.0 <= f < 1.0
    ensures k as real * period as real <= n as real
    ensures n as real + f < (k as real + 1.0) * period as real
  {
    k := n / period;
    assert k * period <= n <= k * period + period - 1;
    assert (k * period) as real == k as real * period as real;
    assert (k as real + 1.0) * period as real == k as real * period as real + period as real;
  }

  lemma EarnedWithin(l: Limit, period: nat, k: nat, dt: real)
    requires ProperLimit(l) && l.window == period * l.limit && period >= 1
    requires k as real * period as real <= dt < (k as real + 1.0) * period as real
    ensures k as real <= l.Earned(dt) < k as real + 1.0
  {
    PerPeriod(l, period, dt);
    hide Refill;
    var x, p := l.Earned(dt), period as real;
    if x >= k as real + 1.0 {
      TimesMonotone(k as real + 1.0, x, p);
    }
  }

  lemma PerPeriod(l: Limit, period: nat, dt: real)
    requires ProperLimit(l) && l.window == period * l.limit && period >= 1
    ensures l.Earned(dt) * period as real == dt
  {
    var n, p := l.limit as real, period as real;
    assert l.window as real == p * n;
    assert l.Earned(dt) * (p * n) == dt * n;
    assert l.Earned(dt) * (p * n) == (l.Earned(dt) * p) * n;
  }

  lemma TimesMonotone(a: real, b: real, c: real)
    requires a <= b && c > 0.0
    ensures a * c <= b * c
  {
  }

  /** A mark on the clock of whole seconds. */
  function OnTheSecond(m: Mark): Mark { m.(at := m.at.Floor as real) }

  function AllOnTheSecond(marks: seq<Mark>): seq<Mark> {
    if marks == [] then [] else [OnTheSecond(marks[0])] + AllOnTheSecond(marks[1..])
  }

  lemma GainOnTheSecond(l: Limit, at: real, now: real)
    requires ProperLimit(l) && l.window % l.limit == 0 && 0.0 <= at <= now
    ensures Gain(l, at, now).Floor as real <= l.Earned((now.Floor - at.Floor) as real)
  {
    FloorOrder(at, now);
    var n: nat := now.Floor - at.Floor;
    FractionEarnsNothing(l, n, now - now.Floor as real);
    RefillGrows(l.limit, l.window as real, 0.0, n as real);
    assert now - at.Floor as real == n as real + (now - now.Floor as real);
    hide Refill;
  }

  lemma CheckStoredFed(l: Limit, tokens: Entry, last: Entry, at: real, now: real)
    requires ProperLimit(l) && l.window % l.limit == 0 && LeftAt(l, tokens, last, at) && at <= now
    ensures var r := CheckStored(l, Some(tokens), Some(last), now);
            && LeftAt(l, r.1, r.2, now)
            && var m := StoredMark(now, r);
               && 0.0 <= m.tokens && m.tokens + m.Spent() <= l.MaxTokens() as real
               && m.tokens + m.Spent() <= tokens.count as real + l.Earned((now.Floor - at.Floor) as real)
  {
    CheckStoredCounts(l, tokens, last, at, now);
    GainNatural(l, at, now);
    GainOnTheSecond(l, at, now);
    hide CheckStored, Refill, Limit.Earned, Gain;
  }

  lemma {:induction false} StoredMarksFed(l: Limit, r: (bool, Entry, Entry), at: real, times: seq<real>)
    requires ProperLimit(l) && l.window % l.limit == 0 && LeftAt(l, r.1, r.2, at) && Monotone(at, times)
    requires r.1.count as real + StoredMark(at, r).Spent() <= l.MaxTokens() as real
    ensures Fed(l.MaxTokens() as real, l.limit, l.window as real, OnTheSecond(StoredMark(at, r)),
                AllOnTheSecond(StoredMarks(l, Some(r.1), Some(r.2), times)))
    decreases times
  {
    if times != [] {
      CheckStoredFed(l, r.1, r.2, at, times[0]);
      var r' := CheckStored(l, Some(r.1), Some(r.2), times[0]);
      hide CheckStored, Refill, Limit.Earned, LeftAt;
      StoredMarksFed(l, r', times[0], times[1..]);
      hide AllOnTheSecond;
      OnTheSecondHead(StoredMark(times[0], r'), StoredMarks(l, Some(r'.1), Some(r'.2), times[1..]));
    }
  }

  lemma OnTheSecondHead(m: Mark, rest: seq<Mark>)
    ensures AllOnTheSecond([m] + rest) == [OnTheSecond(m)] + AllOnTheSecond(rest)
    ensures AllOnTheSecond([m] + rest)[1..] == AllOnTheSecond(rest)
  {
    assert ([m] + rest)[1..] == rest;
  }

  lemma {:induction false} SecondsCountMore(marks: seq<Mark>, s: real, e: real)
    ensures Admitted(s, e, marks) <= Admitted(s.Floor as real, e.Floor as real, AllOnTheSecond(marks))
  {
    if marks != [] {
      var m, rest := marks[0], marks[1..];
      SecondsCountMore(rest, s, e);
      FloorOrder(s, m.at);
      FloorOrder(m.at, e);
      assert AllOnTheSecond(marks)[1..] == AllOnTheSecond(rest);
    }
  }

  lemma FloorOrder(a: real, b: real)
    ensures a <= b ==> a.Floor as real <= b.Floor as real
  {
    if a <= b {
      FloorBelow(a, b.Floor);
    }
  }

  /** When the limit divides the window, any interval of any run admits at most the capacity and
      the refill of the interval and one second more. */
  lemma StoredBucketBound(l: Limit, times: seq<real>, s: real, e: real)
    requires ProperLimit(l) && l.window % l.limit == 0 && s <= e && Readings(times)
    ensures Admitted(s, e, StoredMarks(l, None, None, times)) as real <= l.MaxTokens() as real + l.Earned(e - s + 1.0)
  {
    StoredRunFed(l, times);
    var marks := StoredMarks(l, None, None, times);
    hide Admitted, AllOnTheSecond, Fed, StoredMarks, Refill;
    SecondsCountMore(marks, s, e);
    FloorOrder(s, e);
    var max, whole := l.MaxTokens() as real, AllOnTheSecond(marks);
    IntervalBound(max, l.limit, l.window as real, whole, s.Floor as real, e.Floor as real);
    RefillGrows(l.limit, l.window as real, e.Floor as real - s.Floor as real, e - s + 1.0);
  }

  /** A whole run, read on the clock of whole seconds, is fed at the rate. */
  lemma StoredRunFed(l: Limit, times: seq<real>)
    requires ProperLimit(l) && l.window % l.limit == 0 && Readings(times)
    ensures var whole := AllOnTheSecond(StoredMarks(l, None, None, times));
            whole != [] ==> Fed(l.MaxTokens() as real, l.limit, l.window as real, whole[0], whole[1..])
  {
    if times != [] {
      FirstCheckDenied(l, times[0]);
      var r := CheckStored(l, None, None, times[0]);
      hide CheckStored, Fed, Refill;
      StoredMarksFed(l, r, times[0], times[1..]);
      OnTheSecondHead(StoredMark(times[0], r), StoredMarks(l, Some(r.1), Some(r.2), times[1..]));
    }
  }

  // ---------- the failing run, when it does not ----------

  /** `n` checks, `window / limit` whole seconds apart, at the offset in the second that makes a
      gap, counted from the second before, worth exactly one token. */
  function Period(l: Limit): nat
    requires ProperLimit(l)
  {
    l.window / l.limit
  }

  function Offset(l: Limit): real
    requires ProperLimit(l)
  {
    (l.window % l.limit) as real / l.limit as real
  }

  function TickAt(l: Limit, k: nat): real
    requires ProperLimit(l)
  {
    (1 + k * Period(l)) as real + Offset(l)
  }

  function Ticks(l: Limit, k: nat, n: nat): seq<real>
    requires ProperLimit(l)
    decreases n
  {
    if n == 0 then [] else [TickAt(l, k)] + Ticks(l, k + 1, n - 1)
  }

  lemma OffsetProper(l: Limit)
    requires ProperLimit(l)
    ensures 0.0 <= Offset(l) < 1.0 && Offset(l) * l.limit as real == (l.window % l.limit) as real
  {
    var r, n := (l.window % l.limit) as real, l.limit as real;
    assert Offset(l) * n == r;
    if Offset(l) >= 1.0 {
      TimesMonotone(1.0, Offset(l), n);
      assert false;
    }
  }

  lemma OffsetWorth(l: Limit)
    requires ProperLimit(l)
    ensures 0.0 <= Offset(l) < 1.0
    ensures l.Earned(Period(l) as real + Offset(l)) == 1.0
  {
    OffsetProper(l);
    hide Offset;
    var p, n, w := Period(l), l.limit as real, l.window as real;
    assert l.window == p * l.limit + l.window % l.limit;
    assert (p * l.limit) as real == p as real * n;
    assert (p as real + Offset(l)) * n == p as real * n + Offset(l) * n;
    assert (p as real + Offset(l)) * n == w;
    OverItself(w);
  }

  lemma OverItself(w: real)
    requires w > 0.0
    ensures w / w == 1.0
  {
  }

  /** A tick and the one before it. */
  lemma TickStep(l: Limit, k: nat)
    requires ProperLimit(l)
    ensures TickAt(l, k).Floor == 1 + k * Period(l)
    ensures TickAt(l, k + 1) == TickAt(l, k) + Period(l) as real && Period(l) <= l.window
    ensures TickAt(l, k + 1) - TickAt(l, k).Floor as real == Period(l) as real + Offset(l)
  {
    OffsetProper(l);
    assert (k + 1) * Period(l) == k * Period(l) + Period(l);
    Quotients(l.window, l.limit);
  }

  lemma Quotients(a: nat, b: nat)
    requires b >= 1
    ensures a / b <= a
  {
    var q := a / b;
    assert q * b <= a;
    assert q * b == q * (b - 1) + q;
  }

  lemma TickLater(l: Limit, k: nat)
    requires ProperLimit(l)
    ensures 0.0 <= TickAt(l, k) <= TickAt(l, k + 1)
  {
    TickStep(l, k);
    OffsetProper(l);
    hide TickAt, Offset, Period;
  }

  lemma {:induction false} TicksReadings(l: Limit, k: nat, n: nat)
    requires ProperLimit(l)
    ensures Monotone(TickAt(l, k), Ticks(l, k + 1, n)) && 0.0 <= TickAt(l, k)
    decreases n
  {
    TickLater(l, k);
    hide TickAt;
    if n > 0 {
      TicksReadings(l, k + 1, n - 1);
      assert Ticks(l, k + 1, n)[1..] == Ticks(l, k + 2, n - 1);
    }
  }

  lemma TickAdmits(l: Limit, r: (bool, Entry, Entry), k: nat)
    requires ProperLimit(l) && LeftAt(l, r.1, r.2, TickAt(l, k)) && r.1.count == 0
    ensures var now := TickAt(l, k + 1);
            var r' := CheckStored(l, Some(r.1), Some(r.2), now);
            r'.0 && LeftAt(l, r'.1, r'.2, now) && r'.1.count == 0
  {
    TickStep(l, k);
    OffsetWorth(l);
    TickLater(l, k);
    CheckStoredCounts(l, r.1, r.2, TickAt(l, k), TickAt(l, k + 1));
    assert TickAt(l, k).Floor >= 1;
    hide CheckStored, TickAt, Refill, Limit.Earned, Offset, Period;
  }

  /** After a first check that finds the bucket empty all `n` checks are admitted. */
  lemma {:induction false} TicksAdmitted(l: Limit, r: (bool, Entry, Entry), k: nat, n: nat, s: real, e: real)
    requires ProperLimit(l) && LeftAt(l, r.1, r.2, TickAt(l, k)) && r.1.count == 0
    requires s <= TickAt(l, k) && TickAt(l, k + n) <= e
    ensures Admitted(s, e, StoredMarks(l, Some(r.1), Some(r.2), Ticks(l, k + 1, n))) == n
    decreases n
  {
    if n > 0 {
      TickAdmits(l, r, k);
      TickStep(l, k);
      TickOrder(l, k + 1, n - 1);
      var times := Ticks(l, k + 1, n);
      assert times[0] == TickAt(l, k + 1) && times[1..] == Ticks(l, k + 2, n - 1);
      hide CheckStored, TickAt, Offset, Period, LeftAt;
      var r' := CheckStored(l, Some(r.1), Some(r.2), times[0]);
      TicksAdmitted(l, r', k + 1, n - 1, s, e);
    }
  }

  lemma {:induction false} TickOrder(l: Limit, k: nat, n: nat)
    requires ProperLimit(l)
    ensures TickAt(l, k) <= TickAt(l, k + n)
  {
    if n > 0 {
      TickOrder(l, k, n - 1);
      TickLater(l, k + n - 1);
    }
  }

  /** In every run any interval admits at most `slack` and the refill of the interval. */
  ghost predicate AtRate(l: Limit, slack: real)
    requires ProperLimit(l)
  {
    forall times, s, e :: s <= e && Readings(times) ==>
      Admitted(s, e, StoredMarks(l, None, None, times)) as real <= slack + l.Earned(e - s)
  }

  /** `n` ticks earn `n` tokens in a time that is worth `n * (window % limit) / window` fewer. */
  lemma TicksEarnTooMuch(l: Limit, n: nat)
    requires ProperLimit(l)
    ensures n as real - l.Earned(TickAt(l, n) - TickAt(l, 0)) == (n * (l.window % l.limit)) as real / l.window as real
  {
    var p, r := Period(l), l.window % l.limit;
    Distributed(n, p, l.limit, r);
    assert l.window == p * l.limit + r;
    assert TickAt(l, n) - TickAt(l, 0) == (n * p) as real;
    assert l.Earned((n * p) as real) == (n * p * l.limit) as real / l.window as real;
    hide TickAt, Refill, Period;
    Share(n as real, (n * p * l.limit) as real, (n * r) as real, l.window as real);
  }

  lemma Distributed(n: nat, p: nat, m: nat, r: nat)
    ensures n as real * (p * m + r) as real == (n * p * m) as real + (n * r) as real
  {
    assert n * (p * m + r) == n * p * m + n * r;
    assert (n * (p * m + r)) as real == n as real * (p * m + r) as real;
  }

  lemma Share(n: real, a: real, b: real, w: real)
    requires w > 0.0 && n * w == a + b
    ensures n - a / w == b / w
  {
    assert n == (a + b) / w;
  }

  lemma TicksBegin(l: Limit, n: nat)
    requires ProperLimit(l)
    ensures var times := Ticks(l, 0, n + 1);
            Readings(times) && times[0] == TickAt(l, 0) >= 0.0 && times[1..] == Ticks(l, 1, n)
  {
    TicksReadings(l, 0, n);
    hide TickAt;
    assert Ticks(l, 0, n + 1) == [TickAt(l, 0)] + Ticks(l, 1, n);
  }

  /** The run of `n + 1` ticks: every check but the first is admitted. */
  lemma TickRun(l: Limit, n: nat)
    requires ProperLimit(l)
    ensures Readings(Ticks(l, 0, n + 1)) && TickAt(l, 0) <= TickAt(l, n)
    ensures Admitted(TickAt(l, 0), TickAt(l, n), StoredMarks(l, None, None, Ticks(l, 0, n + 1))) == n
  {
    var times, from, to := Ticks(l, 0, n + 1), TickAt(l, 0), TickAt(l, n);
    TicksBegin(l, n);
    TickOrder(l, 0, n);
    FirstCheckDenied(l, from);
    var r := CheckStored(l, None, None, from);
    var later := StoredMarks(l, Some(r.1), Some(r.2), times[1..]);
    assert StoredMarks(l, None, None, times) == [StoredMark(from, r)] + later;
    hide CheckStored, TickAt, Ticks, LeftAt, Offset, Period, Admitted, StoredMarks, StoredMark, Readings;
    TicksAdmitted(l, r, 0, n, from, to);
    AdmittedHead(from, to, StoredMark(from, r), later);
  }

  /** Otherwise no slack is enough: in the run of `n + 1` ticks it is exceeded for large `n`. */
  lemma RateFails(l: Limit, slack: real)
    requires ProperLimit(l) && l.window % l.limit != 0
    ensures !AtRate(l, slack)
  {
    hide TickAt, Refill, Ticks, Admitted, StoredMarks, Readings;
    var n: nat := (if slack > 0.0 then (slack * l.window as real).Floor else 0) + 1;
    TickRun(l, n);
    TicksEarnTooMuch(l, n);
    MoreThanSlack(slack, n, l.window % l.limit, l.window);
    var s, e := TickAt(l, 0), TickAt(l, n);
    assert Admitted(s, e, StoredMarks(l, None, None, Ticks(l, 0, n + 1))) as real > slack + l.Earned(e - s);
  }

  lemma MoreThanSlack(slack: real, n: nat, r: nat, w: nat)
    requires r >= 1 && w >= 1 && n as real > slack * w as real
    ensures (n * r) as real / w as real > slack
  {
    assert n * r >= n by {
      assert n * (r - 1) >= 0;
    }
    var x := (n * r) as real / w as real;
    assert x * w as real == (n * r) as real;
    if x <= slack {
      TimesMonotone(x, slack, w as real);
      assert false;
    }
  }

  /** The bucket keeps its rate, up to some constant, over all runs if and only if the limit divides
      the window; `StoredBucketBound` names the constant. */
  lemma KeepsRateIff(l: Limit)
    requires ProperLimit(l)
    ensures (exists slack :: AtRate(l, slack)) <==> l.window % l.limit == 0
    ensures AtRate(l, l.MaxTokens() as real + l.Earned(1.0)) <==> l.window % l.limit == 0
  {
    if l.window % l.limit == 0 {
      var slack := l.MaxTokens() as real + l.Earned(1.0);
      forall times, s, e | s <= e && Readings(times)
        ensures Admitted(s, e, StoredMarks(l, None, None, times)) as real <= slack + l.Earned(e - s)
      {
        StoredBucketBound(l, times, s, e);
        RefillAdds(l.limit, l.window as real, e - s, 1.0);
      }
      assert AtRate(l, slack);
    } else {
      forall slack ensures !AtRate(l, slack) {
        RateFails(l, slack);
      }
    }
  }

  // ---------- which clients the bucket starves ----------

  /** A gap between two checks that earns nothing: the stored refill time is 0 or has expired, or
      what has accrued since the whole second before is less than a token. */
  predicate Barren(l: Limit, at: real, now: real)
    requires ProperLimit(l)
  {
    || at < 1.0
    || now - at > (2 * l.window) as real
    || (now - at.Floor as real) * l.limit as real < l.window as real
  }

  lemma WorthAToken(a: real, w: real)
    requires w > 0.0
    ensures a < w <==> a / w < 1.0
  {
    assert a / w * w == a;
    if a / w >= 1.0 {
      TimesMonotone(1.0, a / w, w);
    }
  }

  lemma BarrenMeans(l: Limit, at: real, now: real)
    requires ProperLimit(l) && 0.0 <= at <= now
    ensures Barren(l, at, now) <==> Gain(l, at, now).Floor < 1
  {
    GainNatural(l, at, now);
    WorthAToken((now - at.Floor as real) * l.limit as real, l.window as real);
    var accrued := (now - at.Floor as real) * l.limit as real;
    var none := at < 1.0 || now - at > (2 * l.window) as real;
    assert Gain(l, at, now) == if none then 0.0 else accrued / l.window as real;
  }

  ghost predicate AllBarren(l: Limit, at: real, times: seq<real>)
    requires ProperLimit(l)
    decreases times
  {
    times == [] || (Barren(l, at, times[0]) && AllBarren(l, times[0], times[1..]))
  }

  ghost predicate NoneAdmitted(marks: seq<Mark>) {
    forall i :: 0 <= i < |marks| ==> !marks[i].admitted
  }

  lemma NoneAdmittedHead(m: Mark, rest: seq<Mark>)
    ensures NoneAdmitted([m] + rest) <==> !m.admitted && NoneAdmitted(rest)
  {
    if NoneAdmitted([m] + rest) {
      forall i | 0 <= i < |rest| ensures !rest[i].admitted {
        assert rest[i] == ([m] + rest)[i + 1];
      }
      assert !([m] + rest)[0].admitted;
    }
  }

  lemma {:induction false} EmptyStarvesIff(l: Limit, r: (bool, Entry, Entry), at: real, times: seq<real>)
    requires ProperLimit(l) && LeftAt(l, r.1, r.2, at) && r.1.count == 0 && Monotone(at, times)
    ensures NoneAdmitted(StoredMarks(l, Some(r.1), Some(r.2), times)) <==> AllBarren(l, at, times)
    decreases times
  {
    if times != [] {
      var now := times[0];
      CheckStoredCounts(l, r.1, r.2, at, now);
      BarrenMeans(l, at, now);
      GainNatural(l, at, now);
      var r' := CheckStored(l, Some(r.1), Some(r.2), now);
      hide CheckStored, Barren, Gain, NoneAdmitted;
      NoneAdmittedHead(StoredMark(now, r'), StoredMarks(l, Some(r'.1), Some(r'.2), times[1..]));
      if Barren(l, at, now) {
        EmptyStarvesIff(l, r', now, times[1..]);
      }
    }
  }

  /** The bucket starts empty, truncates credit at every check and forgets it after two windows:
      a client is never admitted, in a whole run, if and only if every gap is barren. */
  lemma StarvesIff(l: Limit, times: seq<real>)
    requires ProperLimit(l) && Readings(times)
    ensures NoneAdmitted(StoredMarks(l, None, None, times)) <==> times == [] || AllBarren(l, times[0], times[1..])
  {
    if times != [] {
      FirstCheckDenied(l, times[0]);
      var r := CheckStored(l, None, None, times[0]);
      hide CheckStored;
      EmptyStarvesIff(l, r, times[0], times[1..]);
      NoneAdmittedHead(StoredMark(times[0], r), StoredMarks(l, Some(r.1), Some(r.2), times[1..]));
    }
  }

  // ---------- the stores, updated in place ----------

  class TokenBucketLimiter {
    const cfg: Config
    const block: real
    var cache: map<string, Bucket>
    var blocked: map<string, real>

    constructor (c: Config, blockDuration: real)
      ensures cfg == c && block == blockDuration && cache == map[] && blocked == map[]
    {
      cfg, block, cache, blocked := c, blockDuration, map[], map[];
    }

    /** What the limiter holds for client `c`. */
    function Of(c: string): Client
      reads this
    {
      Client(At(c), if c in blocked then Some(blocked[c]) else None)
    }

    function At(key: string): Option<Bucket>
      reads this
    {
      if key in cache then Some(cache[key]) else None
    }

    method CheckTokenBucket(key: string, now: real) returns (r: Answer)
      requires Proper(cfg)
      modifies this`cache
      ensures (r, At(key).GetOr(Fetch(cfg, None, now))) == CheckBucket(cfg, old(At(key)), now) && At(key).Some?
      ensures forall k :: k != key ==> At(k) == old(At(k))
    {
      var bucket := Fetch(cfg, At(key), now);
      var tokensToAdd := Refill(cfg.requests, cfg.window, now - bucket.lastRefill);
      var maxTokens := cfg.MaxTokens() as real;
      var tokens := bucket.tokens + tokensToAdd;
      if maxTokens <= tokens {
        tokens := maxTokens;
      }
      if tokens < 1.0 {
        cache := cache[key := Bucket(tokens, now, now + cfg.window)];
        return Denied(cfg.window / cfg.requests as real);
      }
      tokens := tokens - 1.0;
      cache := cache[key := Bucket(tokens, now, now + cfg.window)];
      r := Allowed(tokens.Floor);
    }

    method CheckRateLimit(c: string, outer: real, inner: real) returns (r: Response)
      requires Proper(cfg)
      modifies this
      ensures (r, Of(c)) == CheckClient(cfg, block, old(Of(c)), outer, inner)
      ensures forall d :: d != c ==> Of(d) == old(Of(d))
    {
      if c in blocked {
        if outer < blocked[c] {
          return Blocked;
        }
        blocked := map d | d in blocked && d != c :: blocked[d];
        assert forall d :: d != c ==> Of(d) == old(Of(d));
      }
      var answer := CheckTokenBucket(c, inner);
      match answer {
        case Allowed(remaining) =>
          r := Passed(remaining);
        case Denied(retryAfter) =>
          blocked := blocked[c := outer + block];
          r := LimitExceeded(retryAfter, blocked[c]);
      }
    }
  }

  datatype CountKey = Tokens(key: string) | LastRefill(key: string)

  class CounterStorage {
    var counts: map<CountKey, Entry>

    constructor ()
      ensures counts == map[]
    {
      counts := map[];
    }

    function At(k: CountKey): Option<Entry>
      reads this
    {
      if k in counts then Some(counts[k]) else None
    }

    method GetCount(k: CountKey, now: real) returns (count: int)
      modifies this
      ensures count == Read(old(At(k)), now)
      ensures At(k) == old(At(k)) || (At(k) == None && old(At(k)).Some? && old(At(k)).value.expires < now)
      ensures forall j :: j != k ==> At(j) == old(At(j))
    {
      if k in counts && now > counts[k].expires {
        counts := map j | j in counts && j != k :: counts[j];
        return 0;
      }
      count := if k in counts then counts[k].count else 0;
    }

    method SetCount(k: CountKey, count: int, ttl: int, now: real)
      modifies this
      ensures counts == old(counts)[k := Entry(count, now + ttl as real)]
    {
      counts := counts[k := Entry(count, now + ttl as real)];
    }

    method CheckLimit(key: string, l: Limit, now: real) returns (allowed: bool)
      requires ProperLimit(l)
      modifies this
      ensures At(Tokens(key)).Some? && At(LastRefill(key)).Some?
      ensures (allowed, At(Tokens(key)).value, At(LastRefill(key)).value)
           == CheckStored(l, old(At(Tokens(key))), old(At(LastRefill(key))), now)
      ensures forall k :: k != Tokens(key) && k != LastRefill(key) ==> At(k) == old(At(k))
    {
      var current := GetCount(Tokens(key), now);
      var lastRefill := GetCount(LastRefill(key), now);
      var since := if lastRefill == 0 then now else lastRefill as real;
      var elapsed := now - since;
      current := current + Truncate(l.Earned(elapsed));
      if l.MaxTokens() < current {
        current := l.MaxTokens();
      }
      allowed := current >= 1;
      if allowed {
        current := current - 1;
      }
      SetCount(Tokens(key), current, 2 * l.window, now);
      SetCount(LastRefill(key), Truncate(now), 2 * l.window, now);
    }
  }
}
