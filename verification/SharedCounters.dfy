/** The distributed rate limit (app/core/rate_limit.py): any number of servers count requests
    in one Redis, under keys formed from a clock reading that may be old by the time the
    pipeline runs. */
module SharedCounters {
  import opened Common

  type Client = string

  /** The two counter keys of a request; `slot` is the clock reading divided by the window. */
  datatype Key = Minute(client: Client, slot: int) | Hour(client: Client, slot: int) {
    function Window(): int {
      if Minute? then 60 else 3600
    }
  }

  function MinuteKey(client: Client, now: int): Key { Minute(client, now / 60) }

  function HourKey(client: Client, now: int): Key { Hour(client, now / 3600) }

  /** How long a pipeline may run after its clock reading. */
  const MAX_DELAY := 60.0

  /** The configured limits, and the TTLs that the pipeline sets. */
  datatype Limits = Limits(perMinute: int, perHour: int, minuteTtl: int, hourTtl: int) {
    function Ttl(k: Key): int {
      if k.Minute? then minuteTtl else hourTtl
    }
  }

  /** The limits with the TTLs of the code. */
  function Coded(perMinute: int, perHour: int): (limits: Limits)
    ensures LongEnough(limits) && limits.perMinute == perMinute && limits.perHour == perHour
    ensures !LongEnough(limits.(minuteTtl := limits.minuteTtl - 1))
    ensures !LongEnough(limits.(hourTtl := limits.hourTtl - 1))
  {
    Limits(perMinute, perHour, 120, 3600 + 60)
  }

  predicate LongEnough(limits: Limits) { limits.minuteTtl >= 60 + 60 && limits.hourTtl >= 3600 + 60 }

  datatype Response = Pass | MinuteExceeded(retryAfter: int) | HourExceeded(retryAfter: int)

  // ---------- Redis ----------

  datatype Counter = Counter(count: nat, expires: Option<real>)

  type Store = map<Key, Counter>

  predicate Live(store: Store, k: Key, t: real) {
    k in store && (store[k].expires.None? || t < store[k].expires.value)
  }

  function Incr(store: Store, k: Key, t: real): Store {
    store[k := if Live(store, k, t) then store[k].(count := store[k].count + 1) else Counter(1, None)]
  }

  function Expire(store: Store, k: Key, t: real, ttl: int): Store
    requires k in store
  {
    store[k := store[k].(expires := Some(t + ttl as real))]
  }

  function Bump(limits: Limits, store: Store, k: Key, t: real): Store {
    Expire(Incr(store, k, t), k, t, limits.Ttl(k))
  }

  /** INCR and EXPIRE of both keys, executed as one transaction at time `t`. */
  function Pipeline(limits: Limits, store: Store, client: Client, now: int, t: real): (r: Store)
    ensures MinuteKey(client, now) in r && HourKey(client, now) in r
  {
    Bump(limits, Bump(limits, store, MinuteKey(client, now), t), HourKey(client, now), t)
  }

  function Decide(limits: Limits, now: int, minuteCount: int, hourCount: int): Response {
    if minuteCount > limits.perMinute then MinuteExceeded(60 - now % 60)
    else if hourCount > limits.perHour then HourExceeded(3600 - now % 3600)
    else Pass
  }

  // ---------- the servers, step by step ----------

  /** A request that has read the clock but not run its pipeline yet. */
  datatype Pending = Pending(client: Client, readAt: real) {
    function Now(): int { readAt.Floor }
  }

  /** A request whose pipeline has run. */
  datatype Served = Served(client: Client, now: int, response: Response) {
    predicate Counts(k: Key) {
      k == MinuteKey(client, now) || k == HourKey(client, now)
    }
  }

  datatype State = State(store: Store, clock: real, pending: map<nat, Pending>, log: seq<Served>)

  datatype Event = ReadClock(id: nat, client: Client, at: real) | RunPipeline(id: nat, at: real)

  /** Time does not run backwards, and a pipeline runs less than MAX_DELAY after its reading. */
  predicate Legal(s: State, e: Event) {
    && s.clock <= e.at
    && match e
       case ReadClock(id, _, _) => id !in s.pending
       case RunPipeline(id, at) => id in s.pending && at < s.pending[id].readAt + MAX_DELAY
  }

  function Step(limits: Limits, s: State, e: Event): State
    requires Legal(s, e)
  {
    match e
    case ReadClock(id, client, at) =>
      s.(clock := at, pending := s.pending[id := Pending(client, at)])
    case RunPipeline(id, at) =>
      var p := s.pending[id];
      var store := Pipeline(limits, s.store, p.client, p.Now(), at);
      var m, h := MinuteKey(p.client, p.Now()), HourKey(p.client, p.Now());
      var response := Decide(limits, p.Now(), store[m].count, store[h].count);
      State(store, at, s.pending - {id}, s.log + [Served(p.client, p.Now(), response)])
  }

  ghost predicate LegalRun(limits: Limits, s: State, events: seq<Event>)
    decreases events
  {
    events == [] || (Legal(s, events[0]) && LegalRun(limits, Step(limits, s, events[0]), events[1..]))
  }

  function Run(limits: Limits, s: State, events: seq<Event>): State
    requires LegalRun(limits, s, events)
    decreases events
  {
    if events == [] then s else Run(limits, Step(limits, s, events[0]), events[1..])
  }

  // ---------- what the counters mean ----------

  /** How many of the served requests counted under key `k`, denied ones included. */
  function Count(log: seq<Served>, k: Key): nat {
    if log == [] then 0
    else Count(log[..|log| - 1], k) + if log[|log| - 1].Counts(k) then 1 else 0
  }

  /** The position of request `i` among the requests served under key `k`. */
  function Rank(log: seq<Served>, i: nat, k: Key): nat
    requires i < |log|
  {
    Count(log[..i], k) + 1
  }

  /** The latest moment at which a request with a reading in this slot can still run. */
  function Deadline(k: Key): real {
    (k.slot * k.Window() + k.Window()) as real + MAX_DELAY
  }

  ghost predicate DecidedByRank(limits: Limits, log: seq<Served>, i: nat)
    requires i < |log|
  {
    var r := log[i];
    var m, h := MinuteKey(r.client, r.now), HourKey(r.client, r.now);
    r.response == Decide(limits, r.now, Rank(log, i, m), Rank(log, i, h))
  }

  ghost predicate Counted(s: State, k: Key) {
    if k in s.store then
      s.store[k].count == Count(s.log, k) && (s.store[k].expires.Some? ==> s.store[k].expires.value >= Deadline(k))
    else
      Count(s.log, k) == 0
  }

  ghost predicate Invariant(limits: Limits, s: State) {
    && (forall k :: Counted(s, k))
    && (forall id :: id in s.pending ==> s.pending[id].readAt <= s.clock)
    && (forall i :: 0 <= i < |s.log| ==> DecidedByRank(limits, s.log, i))
  }

  /** A reading falls in its slot, and a pipeline in time falls before the slot's deadline;
      the TTL set by such a pipeline reaches the deadline as well. */
  lemma InTime(limits: Limits, readAt: real, at: real, k: Key)
    requires LongEnough(limits)
    requires readAt <= at < readAt + MAX_DELAY && k.slot == readAt.Floor / k.Window()
    ensures at < Deadline(k) <= at + limits.Ttl(k) as real
  {
    assert k.slot * k.Window() <= readAt.Floor < k.slot * k.Window() + k.Window();
    assert readAt < (readAt.Floor + 1) as real;
  }

  lemma CountStep(log: seq<Served>, r: Served, k: Key)
    ensures Count(log + [r], k) == Count(log, k) + if r.Counts(k) then 1 else 0
  {
    assert (log + [r])[..|log|] == log;
  }

  /** What the two bumps do to a counter whose deadline has not passed. */
  lemma PipelineCounter(limits: Limits, s: State, client: Client, now: int, at: real, k: Key)
    requires Counted(s, k)
    requires k == MinuteKey(client, now) || k == HourKey(client, now) ==> at < Deadline(k) <= at + limits.Ttl(k) as real
    ensures var store := Pipeline(limits, s.store, client, now, at);
            if k == MinuteKey(client, now) || k == HourKey(client, now) then
              && k in store && store[k] == Counter(Count(s.log, k) + 1, Some(at + limits.Ttl(k) as real))
              && (k in s.store ==> Live(s.store, k, at))
            else
              (k in store <==> k in s.store) && (k in s.store ==> store[k] == s.store[k])
  {
  }

  /** One pipeline: every counter it touches is still alive, and moves up by exactly one. */
  lemma PipelineCounts(limits: Limits, s: State, id: nat, at: real)
    requires LongEnough(limits) && Invariant(limits, s) && Legal(s, RunPipeline(id, at))
    ensures Invariant(limits, Step(limits, s, RunPipeline(id, at)))
    ensures var p := s.pending[id];
            forall k :: k in s.store && (k == MinuteKey(p.client, p.Now()) || k == HourKey(p.client, p.Now())) ==>
              Live(s.store, k, at)
  {
    var p := s.pending[id];
    var s' := Step(limits, s, RunPipeline(id, at));
    var m, h := MinuteKey(p.client, p.Now()), HourKey(p.client, p.Now());
    InTime(limits, p.readAt, at, m);
    InTime(limits, p.readAt, at, h);
    var r := s'.log[|s.log|];
    assert s'.log == s.log + [r] && s'.log[..|s.log|] == s.log;
    hide Pipeline, Live, Deadline, Count, Rank;
    forall k
      ensures Counted(s', k)
      ensures k == m || k == h ==> k in s'.store && s'.store[k].count == Count(s.log, k) + 1
      ensures (k == m || k == h) && k in s.store ==> Live(s.store, k, at)
    {
      assert Counted(s, k);
      PipelineCounter(limits, s, p.client, p.Now(), at, k);
      CountStep(s.log, r, k);
    }
    hide Counted;
    forall i | 0 <= i < |s'.log| ensures DecidedByRank(limits, s'.log, i) {
      if i < |s.log| {
        assert s'.log[..i] == s.log[..i];
        assert DecidedByRank(limits, s.log, i);
      }
    }
  }

  lemma StepKeepsInvariant(limits: Limits, s: State, e: Event)
    requires LongEnough(limits) && Invariant(limits, s) && Legal(s, e)
    ensures Invariant(limits, Step(limits, s, e))
  {
    match e
    case ReadClock(_, _, _) =>
      forall k ensures Counted(Step(limits, s, e), k) {
        assert Counted(s, k);
      }
    case RunPipeline(id, at) => PipelineCounts(limits, s, id, at);
  }

  lemma {:induction false} RunKeepsInvariant(limits: Limits, s: State, events: seq<Event>)
    requires LongEnough(limits) && Invariant(limits, s) && LegalRun(limits, s, events)
    ensures Invariant(limits, Run(limits, s, events))
    decreases events
  {
    if events != [] {
      StepKeepsInvariant(limits, s, events[0]);
      RunKeepsInvariant(limits, Step(limits, s, events[0]), events[1..]);
    }
  }

  function Start(t: real): State { State(map[], t, map[], []) }

  lemma StartIsFine(limits: Limits, t: real)
    ensures Invariant(limits, Start(t))
  {
    forall k ensures Counted(Start(t), k) {}
  }

  /** In every run of any number of servers, no counter expires between two increments. */
  ghost predicate NoCounterExpires(limits: Limits) {
    forall t, events, id, at ::
      LegalRun(limits, Start(t), events) && Legal(Run(limits, Start(t), events), RunPipeline(id, at)) ==>
        FindsAlive(Run(limits, Start(t), events), id, at)
  }

  /** The pipeline of request `id` finds its counters alive, as far as they were ever set. */
  ghost predicate FindsAlive(s: State, id: nat, at: real)
    requires id in s.pending
  {
    var p := s.pending[id];
    && (MinuteKey(p.client, p.Now()) in s.store ==> Live(s.store, MinuteKey(p.client, p.Now()), at))
    && (HourKey(p.client, p.Now()) in s.store ==> Live(s.store, HourKey(p.client, p.Now()), at))
  }

  lemma LongTtlsSuffice(limits: Limits, t: real, events: seq<Event>, id: nat, at: real)
    requires LongEnough(limits) && LegalRun(limits, Start(t), events)
    requires Legal(Run(limits, Start(t), events), RunPipeline(id, at))
    ensures FindsAlive(Run(limits, Start(t), events), id, at)
  {
    StartIsFine(limits, t);
    RunKeepsInvariant(limits, Start(t), events);
    PipelineCounts(limits, Run(limits, Start(t), events), id, at);
  }

  /** The log has every request under its own client and clock reading, in the order of the pipelines. */
  lemma {:induction false} ServedAsRead(limits: Limits, s: State, id: nat, events: seq<Event>, at: real)
    requires id in s.pending && LegalRun(limits, s, events) && Legal(Run(limits, s, events), RunPipeline(id, at))
    requires forall e :: e in events ==> !(e.RunPipeline? && e.id == id)
    ensures var log := Step(limits, Run(limits, s, events), RunPipeline(id, at)).log;
            && |log| == |Run(limits, s, events).log| + 1
            && log[|log| - 1].client == s.pending[id].client && log[|log| - 1].now == s.pending[id].readAt.Floor
    decreases events
  {
    if events != [] {
      assert events[0] in events;
      ServedAsRead(limits, Step(limits, s, events[0]), id, events[1..], at);
    }
  }

  lemma ReadAsSent(limits: Limits, s: State, id: nat, client: Client, at: real)
    requires Legal(s, ReadClock(id, client, at))
    ensures var p := Step(limits, s, ReadClock(id, client, at)).pending;
            id in p && p[id].client == client && p[id].readAt == at
  {
  }

  /** The requests of one client whose clock readings fall in one slot of `window` seconds. */
  function Requests(log: seq<Served>, client: Client, window: nat, slot: int): nat
    requires window >= 1
  {
    if log == [] then 0
    else
      var r := log[|log| - 1];
      Requests(log[..|log| - 1], client, window, slot) + if r.client == client && r.now / window == slot then 1 else 0
  }

  /** The keys count exactly these. */
  lemma {:induction false} CountIsRequests(log: seq<Served>, client: Client, now: int)
    ensures Count(log, MinuteKey(client, now)) == Requests(log, client, 60, now / 60)
    ensures Count(log, HourKey(client, now)) == Requests(log, client, 3600, now / 3600)
  {
    if log != [] {
      CountIsRequests(log[..|log| - 1], client, now);
    }
  }

  /** In every run, a request is denied exactly when its own client has had `perMinute` requests in its
      minute before it, passed or denied, or `perHour` in its hour; the reported wait ends with the slot. */
  lemma PassesExactlyByRank(limits: Limits, t: real, events: seq<Event>, i: nat)
    requires LongEnough(limits) && LegalRun(limits, Start(t), events) && i < |Run(limits, Start(t), events).log|
    ensures var log := Run(limits, Start(t), events).log; var r := log[i];
            var inMinute := Requests(log[..i], r.client, 60, r.now / 60);
            var inHour := Requests(log[..i], r.client, 3600, r.now / 3600);
            match r.response
            case MinuteExceeded(wait) => inMinute >= limits.perMinute && r.now + wait == (r.now / 60 + 1) * 60
            case HourExceeded(wait) =>
              inMinute < limits.perMinute && inHour >= limits.perHour && r.now + wait == (r.now / 3600 + 1) * 3600
            case Pass => inMinute < limits.perMinute && inHour < limits.perHour
  {
    LogByRank(limits, t, events, i);
    var log := Run(limits, Start(t), events).log;
    CountIsRequests(log[..i], log[i].client, log[i].now);
    hide Run, LegalRun, Count, Requests;
  }

  function Passed(log: seq<Served>, k: Key): nat {
    if log == [] then 0
    else Passed(log[..|log| - 1], k) + if log[|log| - 1].Counts(k) && log[|log| - 1].response == Pass then 1 else 0
  }

  lemma {:induction false} PassedWithinLimit(limits: Limits, log: seq<Served>, k: Key)
    requires limits.perMinute >= 0 && limits.perHour >= 0
    requires forall i :: 0 <= i < |log| ==> DecidedByRank(limits, log, i)
    ensures Passed(log, k) <= Count(log, k)
    ensures Passed(log, k) <= if k.Minute? then limits.perMinute else limits.perHour
  {
    if log != [] {
      var n := |log| - 1;
      forall i | 0 <= i < n ensures DecidedByRank(limits, log[..n], i) {
        assert log[..n][..i] == log[..i] && DecidedByRank(limits, log, i);
      }
      PassedWithinLimit(limits, log[..n], k);
      assert DecidedByRank(limits, log, n);
    }
  }

  /** The requests of one client that passed, in one slot of `window` seconds. */
  function Through(log: seq<Served>, client: Client, window: nat, slot: int): nat
    requires window >= 1
  {
    if log == [] then 0
    else
      var r := log[|log| - 1];
      Through(log[..|log| - 1], client, window, slot)
      + if r.client == client && r.now / window == slot && r.response == Pass then 1 else 0
  }

  lemma {:induction false} PassedIsThrough(log: seq<Served>, client: Client, slot: int)
    ensures Passed(log, Minute(client, slot)) == Through(log, client, 60, slot)
    ensures Passed(log, Hour(client, slot)) == Through(log, client, 3600, slot)
  {
    if log != [] {
      PassedIsThrough(log[..|log| - 1], client, slot);
    }
  }

  /** So no client gets more than `perMinute` requests through in a minute, nor more than `perHour` in an
      hour, on all servers together. */
  lemma SlotLimitHolds(limits: Limits, t: real, events: seq<Event>, client: Client, slot: int)
    requires limits.perMinute >= 0 && limits.perHour >= 0
    requires LongEnough(limits) && LegalRun(limits, Start(t), events)
    ensures Through(Run(limits, Start(t), events).log, client, 60, slot) <= limits.perMinute
    ensures Through(Run(limits, Start(t), events).log, client, 3600, slot) <= limits.perHour
  {
    StartIsFine(limits, t);
    RunKeepsInvariant(limits, Start(t), events);
    var log := Run(limits, Start(t), events).log;
    PassedWithinLimit(limits, log, Minute(client, slot));
    PassedWithinLimit(limits, log, Hour(client, slot));
    PassedIsThrough(log, client, slot);
  }

  // ---------- waiting ----------

  lemma {:induction false} NothingCounted(log: seq<Served>, k: Key)
    requires forall m :: 0 <= m < |log| ==> !log[m].Counts(k)
    ensures Count(log, k) == 0
  {
    if log != [] {
      NothingCounted(log[..|log| - 1], k);
    }
  }

  /** Request `j` is the first that counts under `k`, leaving aside the denied request `i`. */
  ghost predicate AloneBut(log: seq<Served>, i: nat, j: nat, k: Key)
    requires i < j < |log|
  {
    log[i].client == log[j].client && forall m :: 0 <= m < j && m != i ==> !log[m].Counts(k)
  }

  /** Request `j` read the clock no earlier than the denied request `i` was told to. */
  predicate Waited(log: seq<Served>, i: nat, j: nat)
    requires i < j < |log| && !log[i].response.Pass?
  {
    log[j].now >= log[i].now + log[i].response.retryAfter
  }

  lemma LogByRank(limits: Limits, t: real, events: seq<Event>, i: nat)
    requires LongEnough(limits) && LegalRun(limits, Start(t), events) && i < |Run(limits, Start(t), events).log|
    ensures DecidedByRank(limits, Run(limits, Start(t), events).log, i)
  {
    StartIsFine(limits, t);
    RunKeepsInvariant(limits, Start(t), events);
  }

  lemma FirstUnder(log: seq<Served>, j: nat, k: Key)
    requires j < |log| && forall m :: 0 <= m < j ==> !log[m].Counts(k)
    ensures Rank(log, j, k) == 1
  {
    NothingCounted(log[..j], k);
  }

  /** The reported waits reach the next slot. */
  lemma NextMinute(now: int, later: int)
    requires later >= now + (60 - now % 60)
    ensures now / 60 < later / 60
  {
  }

  lemma NextHour(now: int, later: int)
    requires later >= now + (3600 - now % 3600)
    ensures now / 3600 < later / 3600
  {
  }

  lemma SameMinuteSameHour(a: int, b: int)
    requires a / 60 == b / 60
    ensures a / 3600 == b / 3600
  {
    assert a / 3600 == a / 60 / 60 && b / 3600 == b / 60 / 60;
  }

  /** Who shares a minute key shares the hour key. */
  lemma MinuteInHour(r: Served, client: Client, now: int)
    requires r.Counts(MinuteKey(client, now))
    ensures r.Counts(HourKey(client, now))
  {
    SameMinuteSameHour(r.now, now);
  }

  /** In every run, a client denied by its minute that waits the reported time, or longer, and has no
      other request under its next minute key has rank 1 there. */
  lemma MinuteRetryIsFirst(limits: Limits, t: real, events: seq<Event>, i: nat, j: nat)
    requires LongEnough(limits) && LegalRun(limits, Start(t), events) && limits.perMinute >= 1
    requires i < j < |Run(limits, Start(t), events).log|
    ensures var log := Run(limits, Start(t), events).log;
            var m := MinuteKey(log[j].client, log[j].now);
            log[i].response.MinuteExceeded? && Waited(log, i, j) && AloneBut(log, i, j, m) ==>
              Rank(log, j, m) == 1 && !log[j].response.MinuteExceeded?
  {
    LogByRank(limits, t, events, i);
    LogByRank(limits, t, events, j);
    var log := Run(limits, Start(t), events).log;
    hide Run, LegalRun;
    var m := MinuteKey(log[j].client, log[j].now);
    if log[i].response.MinuteExceeded? && Waited(log, i, j) && AloneBut(log, i, j, m) {
      NextMinute(log[i].now, log[j].now);
      FirstUnder(log, j, m);
      hide Rank;
    }
  }

  /** And one denied by its hour, with no other request under its next hour key, passes. */
  lemma HourRetryPasses(limits: Limits, t: real, events: seq<Event>, i: nat, j: nat)
    requires LongEnough(limits) && LegalRun(limits, Start(t), events) && limits.perMinute >= 1 && limits.perHour >= 1
    requires i < j < |Run(limits, Start(t), events).log|
    ensures var log := Run(limits, Start(t), events).log;
            var h := HourKey(log[j].client, log[j].now);
            log[i].response.HourExceeded? && Waited(log, i, j) && AloneBut(log, i, j, h) ==> log[j].response == Pass
  {
    LogByRank(limits, t, events, i);
    LogByRank(limits, t, events, j);
    var log := Run(limits, Start(t), events).log;
    hide Run, LegalRun;
    var m, h := MinuteKey(log[j].client, log[j].now), HourKey(log[j].client, log[j].now);
    if log[i].response.HourExceeded? && Waited(log, i, j) && AloneBut(log, i, j, h) {
      NextHour(log[i].now, log[j].now);
      FirstUnder(log, j, h);
      forall n | 0 <= n < j ensures !log[n].Counts(m) {
        if log[n].Counts(m) {
          MinuteInHour(log[n], log[j].client, log[j].now);
          assert false;
        }
      }
      FirstUnder(log, j, m);
      hide Rank, Served.Counts;
    }
  }

  // ---------- the TTLs are just enough ----------

  /** A request at the very start of a slot, and a second one whose clock reading comes half a second
      before the end of the slot and whose pipeline runs as late as it may: a shorter TTL has passed. */
  lemma ShortTtlLoses(limits: Limits, window: int, ttl: int)
    requires (window == 60 && ttl == limits.minuteTtl) || (window == 3600 && ttl == limits.hourTtl)
    requires ttl < window + 60
    ensures !NoCounterExpires(limits)
  {
    var first, second := window as real, (2 * window) as real - 0.5;
    var at := if ttl < window then second else first + ttl as real;
    var events := [ReadClock(0, "", first), RunPipeline(0, first), ReadClock(1, "", second)];
    var s0 := Start(0.0);
    var s1 := Step(limits, s0, events[0]);
    var s2 := Step(limits, s1, events[1]);
    var s3 := Step(limits, s2, events[2]);
    RunOfThree(limits, s0, events);
    assert second.Floor == 2 * window - 1;
    assert Legal(s3, RunPipeline(1, at));
    assert !FindsAlive(s3, 1, at);
  }

  lemma RunOfThree(limits: Limits, s: State, events: seq<Event>)
    requires |events| == 3 && Legal(s, events[0]) && Legal(Step(limits, s, events[0]), events[1])
    requires Legal(Step(limits, Step(limits, s, events[0]), events[1]), events[2])
    ensures LegalRun(limits, s, events)
    ensures Run(limits, s, events) == Step(limits, Step(limits, Step(limits, s, events[0]), events[1]), events[2])
  {
    assert events[1..][0] == events[1] && events[1..][1..] == [events[2]];
    var s2 := Step(limits, Step(limits, s, events[0]), events[1]);
    assert [events[2]][1..] == [] && LegalRun(limits, s2, [events[2]]);
    assert Run(limits, s2, [events[2]]) == Step(limits, s2, events[2]);
  }

  /** No run loses a counter if and only if the TTLs are at least 120 s and 3660 s: those of the code
      are just enough. */
  lemma TtlsJustEnough(limits: Limits)
    ensures NoCounterExpires(limits) <==> LongEnough(limits)
  {
    if LongEnough(limits) {
      forall t, events, id, at
        | LegalRun(limits, Start(t), events) && Legal(Run(limits, Start(t), events), RunPipeline(id, at))
        ensures FindsAlive(Run(limits, Start(t), events), id, at)
      {
        LongTtlsSuffice(limits, t, events, id, at);
      }
    } else if limits.minuteTtl < 120 {
      ShortTtlLoses(limits, 60, limits.minuteTtl);
    } else {
      ShortTtlLoses(limits, 3600, limits.hourTtl);
    }
  }

  // ---------- the pipeline as the servers run it ----------

  class Redis {
    var store: Store

    constructor ()
      ensures store == map[]
    {
      store := map[];
    }

    method DoIncr(k: Key, t: real) returns (count: nat)
      modifies this
      ensures store == Incr(old(store), k, t) && count == store[k].count
    {
      var counter := if Live(store, k, t) then store[k].(count := store[k].count + 1) else Counter(1, None);
      store := store[k := counter];
      count := counter.count;
    }

    method DoExpire(k: Key, t: real, ttl: int)
      requires k in store
      modifies this
      ensures store == Expire(old(store), k, t, ttl)
    {
      store := store[k := store[k].(expires := Some(t + ttl as real))];
    }

    /** The part of `dispatch` after the clock reading `now`, the pipeline running at `t`. */
    method Dispatch(perMinute: int, perHour: int, client: Client, now: int, t: real) returns (r: Response)
      modifies this
      ensures store == Pipeline(Coded(perMinute, perHour), old(store), client, now, t)
      ensures var m, h := MinuteKey(client, now), HourKey(client, now);
              r == Decide(Coded(perMinute, perHour), now, store[m].count, store[h].count)
    {
      var minuteCount := DoIncr(MinuteKey(client, now), t);
      DoExpire(MinuteKey(client, now), t, 120);
      var hourCount := DoIncr(HourKey(client, now), t);
      DoExpire(HourKey(client, now), t, 3600 + 60);
      if minuteCount > perMinute {
        return MinuteExceeded(60 - now % 60);
      }
      if hourCount > perHour {
        return HourExceeded(3600 - now % 3600);
      }
      r := Pass;
    }
  }
}
