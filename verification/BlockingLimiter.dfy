/** The in-memory sliding window of app/core/rate_limiter.py, with the temporary blocking that
    `check_rate_limit` wraps around it. */
module BlockingLimiter {
  import opened Common
  import opened AdmissionLog

  datatype Response =
    | Allowed(remaining: int)
    | LimitExceeded(retryAfter: real, blockedUntil: real)
    | Blocked(blockRemaining: real)

  /** What the limiter holds for one client: the deque, and the end of its block if any. */
  datatype Client = Client(deque: seq<real>, until: Option<real>)

  /** What has happened to the client: all its admissions, how often the window has denied it
      since the last one, and when it first did. */
  datatype History = History(log: seq<real>, denials: nat, first: real)

  datatype Config = Config(rule: Rule, block: real)

  predicate Proper(cfg: Config) {
    cfg.rule.limit >= 1 && cfg.rule.window > 0.0 && cfg.rule.edge.Closed? && cfg.block > 0.0
  }

  /** The popleft loop. */
  function DropOld(cutoff: real, deque: seq<real>): seq<real> {
    if deque == [] || deque[0] >= cutoff then deque else DropOld(cutoff, deque[1..])
  }

  /** `_check_sliding_window` on the memory deque. */
  function CheckWindow(rule: Rule, deque: seq<real>, now: real): (r: (bool, real, seq<real>))
    requires rule.limit >= 1
  {
    var left := DropOld(now - rule.window, deque);
    if |left| >= rule.limit then (false, rule.window - (now - left[0]), left) else (true, 0.0, left + [now])
  }

  /** `check_rate_limit`, reading the clock at `outer`; the strategy reads it again at `inner`. */
  function Check(cfg: Config, s: Client, outer: real, inner: real): (Response, Client)
    requires Proper(cfg)
  {
    if s.until.Some? && outer < s.until.value then (Blocked(s.until.value - outer), s)
    else
      var (allowed, retryAfter, left) := CheckWindow(cfg.rule, s.deque, inner);
      if allowed then (Allowed(cfg.rule.limit - |left|), Client(left, None))
      else (LimitExceeded(retryAfter, outer + cfg.block), Client(left, Some(outer + cfg.block)))
  }

  function Record(h: History, r: Response, outer: real, inner: real): History {
    match r
    case Allowed(_) => h.(log := h.log + [inner], denials := 0)
    case LimitExceeded(_, _) => h.(denials := h.denials + 1, first := if h.denials == 0 then outer else h.first)
    case Blocked(_) => h
  }

  // ---------- the deque is the recent part of the log ----------

  lemma NothingToDrop(rule: Rule, gone: seq<real>, deque: seq<real>, now: real)
    requires Faithful(rule, gone, deque, now) && (deque == [] || rule.InWindow(now, deque[0]))
    ensures Recent(rule, now, gone + deque) == deque
  {
    forall i | 0 <= i < |deque| ensures rule.InWindow(now, deque[i]) {
      assert deque[0] == (gone + deque)[|gone|] && deque[i] == (gone + deque)[|gone| + i];
    }
    RecentDrop(rule, now, gone, deque);
    RecentAll(rule, now, deque);
  }

  lemma {:induction false} DropOldIsRecent(rule: Rule, gone: seq<real>, deque: seq<real>, now: real)
    returns (dropped: seq<real>)
    requires rule.edge.Closed? && Faithful(rule, gone, deque, now)
    ensures dropped + DropOld(now - rule.window, deque) == gone + deque
    ensures Faithful(rule, dropped, DropOld(now - rule.window, deque), now)
    ensures DropOld(now - rule.window, deque) == Recent(rule, now, gone + deque)
    decreases |deque|
  {
    if deque == [] || deque[0] >= now - rule.window {
      dropped := gone;
      NothingToDrop(rule, gone, deque, now);
    } else {
      assert gone + deque == (gone + [deque[0]]) + deque[1..];
      dropped := DropOldIsRecent(rule, gone + [deque[0]], deque[1..], now);
    }
  }

  /** The deque decides as the full log would. */
  lemma CheckWindowKeeps(rule: Rule, deque: seq<real>, log: seq<real>, clock: real, now: real)
    requires rule.limit >= 1 && rule.window > 0.0 && rule.edge.Closed?
    requires Keeps(rule, deque, log, clock) && clock <= now
    ensures var (allowed, retryAfter, left) := CheckWindow(rule, deque, now);
            var log' := if allowed then log + [now] else log;
            && (allowed <==> Permits(rule, log, now))
            && Keeps(rule, left, log', now) && left == Recent(rule, now, log')
            && (!allowed ==> left != [] && retryAfter == left[0] + rule.window - now)
            && (allowed ==> |left| == |Recent(rule, now, log)| + 1)
  {
    KeepsDropOld(rule, deque, log, clock, now);
    var left := DropOld(now - rule.window, deque);
    if |left| < rule.limit {
      KeepsAdmit(rule, left, log, now);
    }
  }

  lemma KeepsDropOld(rule: Rule, deque: seq<real>, log: seq<real>, clock: real, now: real)
    requires rule.edge.Closed? && Keeps(rule, deque, log, clock) && clock <= now
    ensures var left := DropOld(now - rule.window, deque);
            Keeps(rule, left, log, now) && left == Recent(rule, now, log)
  {
    var gone :| gone + deque == log && Faithful(rule, gone, deque, clock);
    var dropped := DropOldIsRecent(rule, gone, deque, now);
  }

  // ---------- blocking ----------

  /** `k` strategy-level denials since the last admission: at least one block apart, and all
      within one window of the first of them, which came after every admission. */
  ghost predicate Spaced(rule: Rule, block: real, k: nat, first: real, until: real, log: seq<real>) {
    && first + (k - 1) as real * block <= until - block <= first + rule.window
    && NoneAfter(log, first)
  }

  /** The next denial, at `outer` not before the block ended, is spaced as well: the admissions
      that cause it are still in its window, and they precede the first denial. */
  lemma NextDenialSpaced(rule: Rule, block: real, k: nat, first: real, until: real, log: seq<real>, outer: real,
                         inner: real)
    requires rule.limit >= 1 && rule.edge.Closed? && block > 0.0
    requires k > 0 ==> Spaced(rule, block, k, first, until, log) && until <= outer
    requires outer <= inner && !Permits(rule, log, inner)
    requires k == 0 ==> first == outer && NoneAfter(log, outer) && rule.window > 0.0
    ensures Spaced(rule, block, k + 1, first, outer + block, log)
  {
    RecentMembers(rule, inner, log);
    var t := Recent(rule, inner, log)[0];
    assert t in log;
    if k > 0 {
      assert k as real * block == (k - 1) as real * block + block;
    }
  }

  /** Between two admissions the window denies at most floor(window / block) + 1 times. */
  lemma DenialsBounded(rule: Rule, block: real, k: nat, first: real, until: real, log: seq<real>)
    requires block > 0.0 && rule.window >= 0.0 && (k > 0 ==> Spaced(rule, block, k, first, until, log))
    ensures k <= (rule.window / block).Floor + 1
  {
    var q := rule.window / block;
    assert q * block == rule.window;
    if k > 0 {
      var n := (k - 1) as real;
      assert n * block <= rule.window;
      AtMostTimes(n, q, block);
    } else {
      AtMostTimes(0.0, q, block);
    }
  }

  lemma AtMostTimes(a: real, b: real, c: real)
    requires a * c <= b * c && c > 0.0
    ensures a <= b
  {
    assert (a - b) * c == a * c - b * c;
    assert a > b ==> (a - b) * c > 0.0;
  }

  // ---------- any run of checks of one client ----------

  ghost predicate Explains(cfg: Config, s: Client, h: History, clock: real) {
    && Keeps(cfg.rule, s.deque, h.log, clock)
    && (h.denials > 0 ==> s.until.Some? && Spaced(cfg.rule, cfg.block, h.denials, h.first, s.until.value, h.log))
  }

  /** One check: inside a block nothing changes; outside, the full log decides, and the
      invariant is kept. */
  lemma CheckExplained(cfg: Config, s: Client, h: History, clock: real, outer: real, inner: real)
    requires Proper(cfg) && Explains(cfg, s, h, clock) && clock <= outer <= inner
    ensures var (r, s') := Check(cfg, s, outer, inner);
            && Explains(cfg, s', Record(h, r, outer, inner), inner)
            && (r.Blocked? <==> s.until.Some? && outer < s.until.value)
            && (r.Blocked? ==> s' == s)
            && (!r.Blocked? ==> (r.Allowed? <==> Permits(cfg.rule, h.log, inner)))
  {
    hide Keeps, Spaced;
    if s.until.Some? && outer < s.until.value {
      KeepsLater(cfg.rule, s.deque, h.log, clock, inner);
    } else {
      CheckWindowKeeps(cfg.rule, s.deque, h.log, clock, inner);
      if !Permits(cfg.rule, h.log, inner) {
        DenialExplained(cfg, s, h, clock, outer, inner);
      }
    }
  }

  /** What a check reports: `remaining` is the limit less what the window then holds, and exactly a denial
      begins a block, whose end is told. */
  lemma CheckReports(cfg: Config, s: Client, h: History, clock: real, outer: real, inner: real)
    requires Proper(cfg) && Keeps(cfg.rule, s.deque, h.log, clock) && clock <= outer <= inner
    ensures var (r, s') := Check(cfg, s, outer, inner);
            && (r.Allowed? ==>
                  s'.until == None && r.remaining == cfg.rule.limit - Held(cfg.rule, inner, h.log + [inner]))
            && (r.LimitExceeded? ==> s'.until == Some(r.blockedUntil) && r.blockedUntil == outer + cfg.block)
            && (r.Blocked? ==> s.until == Some(outer + r.blockRemaining))
  {
    hide Keeps, Held, CheckWindow;
    WindowHolds(cfg.rule, s.deque, h.log, clock, inner);
  }

  lemma WindowHolds(rule: Rule, deque: seq<real>, log: seq<real>, clock: real, now: real)
    requires rule.limit >= 1 && rule.window > 0.0 && rule.edge.Closed?
    requires Keeps(rule, deque, log, clock) && clock <= now
    ensures var (allowed, retryAfter, left) := CheckWindow(rule, deque, now);
            allowed ==> |left| == Held(rule, now, log + [now])
  {
    hide Keeps, Held, CheckWindow, Recent, Permits;
    CheckWindowKeeps(rule, deque, log, clock, now);
    KeepsLater(rule, deque, log, clock, now);
    HeldAfterAdmission(rule, log, now);
  }

  lemma DenialExplained(cfg: Config, s: Client, h: History, clock: real, outer: real, inner: real)
    requires Proper(cfg) && Explains(cfg, s, h, clock) && clock <= outer <= inner
    requires (s.until.Some? ==> s.until.value <= outer) && !Permits(cfg.rule, h.log, inner)
    ensures var first := if h.denials == 0 then outer else h.first;
            Spaced(cfg.rule, cfg.block, h.denials + 1, first, outer + cfg.block, h.log)
  {
    KeepsLater(cfg.rule, s.deque, h.log, clock, outer);
    var first := if h.denials == 0 then outer else h.first;
    NextDenialSpaced(cfg.rule, cfg.block, h.denials, first, s.until.GetOr(outer), h.log, outer, inner);
  }

  /** The clock readings of a check: `outer` by `check_rate_limit`, `inner` by the strategy. */
  datatype Readings = Readings(outer: real, inner: real)

  ghost predicate Monotone(clock: real, run: seq<Readings>)
    decreases run
  {
    run == [] || (clock <= run[0].outer <= run[0].inner && Monotone(run[0].inner, run[1..]))
  }

  /** State and history after a run of checks. */
  function RunChecks(cfg: Config, s: Client, h: History, run: seq<Readings>): (Client, History)
    requires Proper(cfg)
    decreases run
  {
    if run == [] then (s, h)
    else
      var (r, s') := Check(cfg, s, run[0].outer, run[0].inner);
      RunChecks(cfg, s', Record(h, r, run[0].outer, run[0].inner), run[1..])
  }

  lemma {:induction false} RunExplained(cfg: Config, s: Client, h: History, clock: real, run: seq<Readings>)
    returns (end: real)
    requires Proper(cfg) && Explains(cfg, s, h, clock) && Monotone(clock, run)
    ensures var (s', h') := RunChecks(cfg, s, h, run); Explains(cfg, s', h', end)
    decreases run
  {
    end := clock;
    if run != [] {
      CheckExplained(cfg, s, h, clock, run[0].outer, run[0].inner);
      var (r, s') := Check(cfg, s, run[0].outer, run[0].inner);
      end := RunExplained(cfg, s', Record(h, r, run[0].outer, run[0].inner), run[0].inner, run[1..]);
    }
  }

  const NEW := Client([], None)
  const NOTHING := History([], 0, 0.0)

  lemma NewIsExplained(cfg: Config, clock: real)
    ensures Explains(cfg, NEW, NOTHING, clock)
  {
    KeepsNothing(cfg.rule, clock);
  }

  /** Over any run, blocking included: no window of the configured length, wherever it ends,
      holds more admissions than the limit; and since its last admission a client has been
      denied by the window at most floor(window / block) + 1 times, so it is never starved. */
  lemma BoundedAndNeverStarved(cfg: Config, clock: real, run: seq<Readings>, end: real)
    requires Proper(cfg) && Monotone(clock, run)
    ensures var (s, h) := RunChecks(cfg, NEW, NOTHING, run);
            && Held(cfg.rule, end, h.log) <= cfg.rule.limit
            && h.denials <= (cfg.rule.window / cfg.block).Floor + 1
  {
    NewIsExplained(cfg, clock);
    var last := RunExplained(cfg, NEW, NOTHING, clock, run);
    var (s, h) := RunChecks(cfg, NEW, NOTHING, run);
    AnyWindowWithinLimit(cfg.rule, h.log, end);
    DenialsBounded(cfg.rule, cfg.block, h.denials, h.first, s.until.GetOr(0.0), h.log);
  }

  /** A client that has not been admitted for longer than a window is let in by its next check
      outside a block. */
  lemma SilenceIsRewarded(cfg: Config, s: Client, h: History, clock: real, outer: real, inner: real)
    requires Proper(cfg) && Explains(cfg, s, h, clock) && clock <= outer <= inner
    requires forall t :: t in h.log ==> t < inner - cfg.rule.window
    requires s.until.Some? ==> s.until.value <= outer
    ensures Check(cfg, s, outer, inner).0.Allowed?
  {
    CheckExplained(cfg, s, h, clock, outer, inner);
    NothingHeld(cfg.rule, inner, h.log);
  }

  /** After a denial, with no other check in between, the next check is let in if and only if it comes when
      the block has ended and the reported time has passed: waiting that time alone does not do. */
  lemma NextAllowedIff(cfg: Config, s: Client, h: History, clock: real, first: Readings, next: Readings)
    requires Proper(cfg) && Explains(cfg, s, h, clock)
    requires clock <= first.outer <= first.inner <= next.outer <= next.inner
    requires Check(cfg, s, first.outer, first.inner).0.LimitExceeded?
    ensures var (r, s') := Check(cfg, s, first.outer, first.inner);
            Check(cfg, s', next.outer, next.inner).0.Allowed?
            <==> r.blockedUntil <= next.outer && first.inner + r.retryAfter < next.inner
  {
    CheckExplained(cfg, s, h, clock, first.outer, first.inner);
    CheckWindowKeeps(cfg.rule, s.deque, h.log, clock, first.inner);
    KeepsMeans(cfg.rule, s.deque, h.log, clock);
    var (r, s') := Check(cfg, s, first.outer, first.inner);
    var h' := Record(h, r, first.outer, first.inner);
    hide Keeps, Spaced, CheckWindow;
    CheckExplained(cfg, s', h', first.inner, next.outer, next.inner);
    PermittedOnceOldestLeaves(cfg.rule, h.log, first.inner, next.inner);
  }

  // ---------- the limiter ----------

  class RateLimiter {
    const cfg: Config
    var store: map<string, seq<real>>
    var blocked: map<string, real>

    constructor (requests: nat, window: real, blockDuration: real)
      requires requests >= 1 && window > 0.0 && blockDuration > 0.0
      ensures Proper(cfg) && cfg == Config(Rule(requests, window, Closed), blockDuration)
      ensures forall c :: At(c) == NEW
    {
      cfg := Config(Rule(requests, window, Closed), blockDuration);
      store, blocked := map[], map[];
    }

    /** What the limiter holds for client `c`. */
    ghost function At(c: string): Client
      reads this
    {
      Client(if c in store then store[c] else [], if c in blocked then Some(blocked[c]) else None)
    }

    method CheckSlidingWindow(c: string, now: real) returns (allowed: bool, remaining: int, retryAfter: real)
      requires Proper(cfg)
      modifies this`store
      ensures (allowed, retryAfter, At(c).deque) == CheckWindow(cfg.rule, old(At(c)).deque, now)
      ensures remaining == if allowed then cfg.rule.limit - |At(c).deque| else 0
      ensures forall d :: d != c ==> At(d) == old(At(d))
    {
      if c !in store {
        store := store[c := []];
      }
      var times := store[c];
      while times != [] && times[0] < now - cfg.rule.window
        invariant DropOld(now - cfg.rule.window, times) == DropOld(now - cfg.rule.window, old(At(c)).deque)
      {
        times := times[1..];
      }
      if |times| >= cfg.rule.limit {
        allowed, remaining, retryAfter := false, 0, cfg.rule.window - (now - times[0]);
      } else {
        times := times + [now];
        allowed, remaining, retryAfter := true, cfg.rule.limit - |times|, 0.0;
      }
      store := store[c := times];
    }

    method CheckRateLimit(c: string, outer: real, inner: real) returns (r: Response)
      requires Proper(cfg)
      modifies this
      ensures (r, At(c)) == Check(cfg, old(At(c)), outer, inner)
      ensures forall d :: d != c ==> At(d) == old(At(d))
    {
      if c in blocked {
        if outer < blocked[c] {
          return Blocked(blocked[c] - outer);
        } else {
          blocked := map d | d in blocked && d != c :: blocked[d];
          assert forall d :: d != c ==> At(d) == old(At(d));
        }
      }
      var allowed, remaining, retryAfter := CheckSlidingWindow(c, inner);
      if allowed {
        r := Allowed(remaining);
      } else {
        blocked := blocked[c := outer + cfg.block];
        r := LimitExceeded(retryAfter, blocked[c]);
      }
    }
  }
}
