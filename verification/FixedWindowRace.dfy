/** The fixed window strategy of app/core/rate_limiter.py (`_check_fixed_window`) on the shared cache,
    with checks of one window's counter in flight together: reading and writing the count are separate
    commands, so a check may write back a count that is long out of date.  At first the counter does not
    expire; then checks may also be so late that it has. */
module FixedWindowRace {

  /** `requests` per window, with at most `flights` checks between their reading and their writing. */
  datatype Config = Config(requests: nat, flights: nat)

  /** The stored count, the counts that the checks in flight are going to write, and how many checks
      have been let in. */
  datatype State = State(count: nat, pending: multiset<nat>, admitted: nat)

  const EMPTY := State(0, multiset{}, 0)

  /** A check reads the count and decides; a check that was let in writes `value`. */
  datatype Event = Get | Set(value: nat)

  predicate Legal(cfg: Config, s: State, e: Event) {
    match e
    case Get => |s.pending| < cfg.flights
    case Set(value) => value in s.pending
  }

  function Step(cfg: Config, s: State, e: Event): State
    requires Legal(cfg, s, e)
  {
    match e
    case Get =>
      if s.count >= cfg.requests then s
      else State(s.count, s.pending + multiset{s.count + 1}, s.admitted + 1)
    case Set(value) => State(value, s.pending - multiset{value}, s.admitted)
  }

  ghost predicate LegalRun(cfg: Config, s: State, events: seq<Event>)
    decreases events
  {
    events == [] || (Legal(cfg, s, events[0]) && LegalRun(cfg, Step(cfg, s, events[0]), events[1..]))
  }

  function Run(cfg: Config, s: State, events: seq<Event>): State
    requires LegalRun(cfg, s, events)
    decreases events
  {
    if events == [] then s else Run(cfg, Step(cfg, s, events[0]), events[1..])
  }

  // ---------- how much a counter is worth ----------

  /** What `flights` free checks can get out of a counter that is `room` below the limit: one of them
      reads and waits, the others use the counter up, and then it writes its count. */
  function Worth(flights: nat, room: nat): nat
    decreases flights + room
  {
    if flights == 0 || room == 0 then 0 else Worth(flights - 1, room) + 1 + Worth(flights, room - 1)
  }

  lemma {:induction false} MoreFlights(flights: nat, room: nat)
    ensures Worth(flights, room) <= Worth(flights + 1, room)
  {
  }

  function Choose(n: nat, k: nat): nat {
    if k == 0 then 1 else if n == 0 then 0 else Choose(n - 1, k - 1) + Choose(n - 1, k)
  }

  lemma {:induction false} ChooseAll(n: nat, k: nat)
    requires n <= k
    ensures Choose(n, k) == if n == k then 1 else 0
  {
    if n > 0 {
      ChooseAll(n - 1, k - 1);
      ChooseAll(n - 1, k);
    }
  }

  /** The worth in closed form. */
  lemma {:induction false} WorthIsChoose(flights: nat, room: nat)
    ensures Worth(flights, room) + 1 == Choose(room + flights, flights)
    decreases flights + room
  {
    if room == 0 {
      ChooseAll(flights, flights);
    } else if flights > 0 {
      WorthIsChoose(flights - 1, room);
      WorthIsChoose(flights, room - 1);
      assert room + flights - 1 == room + (flights - 1) == (room - 1) + flights;
    }
  }

  /** A check that is in flight with a count to write, or free. */
  datatype Flight = Free | Holding(value: nat)

  /** What a flight is worth when it is the `level`-th to be used: a free one could read the count. */
  function Value(cfg: Config, f: Flight, level: nat, count: nat): nat {
    match f
    case Free => if count < cfg.requests then 1 + Worth(level, cfg.requests - count - 1) else 0
    case Holding(value) => if value <= cfg.requests then Worth(level, cfg.requests - value) else 0
  }

  /** What the flights are worth when they are used in the order given. */
  function Total(cfg: Config, flights: seq<Flight>, count: nat): nat {
    if flights == [] then 0
    else Total(cfg, flights[..|flights| - 1], count) + Value(cfg, flights[|flights| - 1], |flights|, count)
  }

  function Load(f: Flight): multiset<nat> { if f.Holding? then multiset{f.value} else multiset{} }

  /** The counts that the flights hold. */
  function Held(flights: seq<Flight>): multiset<nat> {
    if flights == [] then multiset{} else Held(flights[..|flights| - 1]) + Load(flights[|flights| - 1])
  }

  // ---------- the bound ----------

  /** The flights are those of the state, in some order. */
  ghost predicate Orders(cfg: Config, s: State, flights: seq<Flight>) {
    |flights| == cfg.flights && Held(flights) == s.pending
  }

  /** In whatever order the flights are used, what was admitted and what they are worth stays within
      what all of them were worth at the start. */
  ghost predicate Bounded(cfg: Config, s: State) {
    && s.count <= cfg.requests
    && (forall value :: value in s.pending ==> value <= cfg.requests)
    && forall flights :: Orders(cfg, s, flights) ==>
         s.admitted + Total(cfg, flights, s.count) <= Worth(cfg.flights, cfg.requests)
  }

  lemma {:induction false} Replaced(cfg: Config, flights: seq<Flight>, i: nat, f: Flight, count: nat)
    requires i < |flights|
    ensures Total(cfg, flights[i := f], count) + Value(cfg, flights[i], i + 1, count)
         == Total(cfg, flights, count) + Value(cfg, f, i + 1, count)
  {
    var n := |flights| - 1;
    if i < n {
      Replaced(cfg, flights[..n], i, f, count);
      assert flights[i := f][..n] == flights[..n][i := f];
    } else {
      assert flights[i := f][..n] == flights[..n];
    }
  }

  lemma Cancel(a: multiset<nat>, b: multiset<nat>, c: multiset<nat>)
    requires a + c == b + c
    ensures a == b
  {
    forall x ensures a[x] == b[x] {
      assert (a + c)[x] == (b + c)[x];
    }
  }

  lemma Exchange(a: multiset<nat>, b: multiset<nat>, from: multiset<nat>, to: multiset<nat>, rest: multiset<nat>)
    requires a + from == b + to
    ensures a + rest + from == b + rest + to
  {
    Swapped(a, rest, from);
    Swapped(b, rest, to);
  }

  lemma Swapped(a: multiset<nat>, b: multiset<nat>, c: multiset<nat>)
    ensures a + b + c == a + c + b
  {
  }

  lemma {:induction false} HeldReplaced(flights: seq<Flight>, i: nat, f: Flight)
    requires i < |flights|
    ensures Held(flights[i := f]) + Load(flights[i]) == Held(flights) + Load(f)
  {
    var n := |flights| - 1;
    var replaced := flights[i := f];
    assert Held(flights) == Held(flights[..n]) + Load(flights[n]);
    assert Held(replaced) == Held(replaced[..n]) + Load(replaced[n]);
    hide Held, Load;
    if i < n {
      HeldReplaced(flights[..n], i, f);
      assert replaced[..n] == flights[..n][i := f];
      Exchange(Held(replaced[..n]), Held(flights[..n]), Load(flights[i]), Load(f), Load(flights[n]));
    } else {
      assert replaced[..n] == flights[..n];
      Swapped(Held(flights[..n]), Load(f), Load(flights[n]));
    }
  }

  lemma {:induction false} Holder(flights: seq<Flight>, value: nat) returns (i: nat)
    requires value in Held(flights)
    ensures i < |flights| && flights[i] == Holding(value)
  {
    var n := |flights| - 1;
    if flights[n] == Holding(value) {
      i := n;
    } else {
      i := Holder(flights[..n], value);
    }
  }

  lemma HeldSize(flights: seq<Flight>)
    requires flights != []
    ensures var n := |flights| - 1; |Held(flights)| == |Held(flights[..n])| + if flights[n].Free? then 0 else 1
  {
  }

  /** Some flight is free, if fewer values are held than there are flights; the last of them. */
  lemma {:induction false} LastFree(flights: seq<Flight>) returns (i: nat)
    requires |Held(flights)| < |flights|
    ensures i < |flights| && flights[i].Free? && forall j :: i < j < |flights| ==> flights[j].Holding?
  {
    var n := |flights| - 1;
    HeldSize(flights);
    hide Held;
    if flights[n].Free? {
      i := n;
    } else {
      i := LastFree(flights[..n]);
      assert forall j :: i < j < n ==> flights[j] == flights[..n][j];
    }
  }

  lemma {:induction false} AllFree(cfg: Config, flights: seq<Flight>)
    requires Held(flights) == multiset{}
    ensures Total(cfg, flights, 0) <= Worth(|flights|, cfg.requests)
  {
    if flights != [] {
      var n := |flights| - 1;
      assert flights[n].Free?;
      AllFree(cfg, flights[..n]);
    }
  }

  lemma StartBounded(cfg: Config)
    ensures Bounded(cfg, EMPTY)
  {
    forall flights | Orders(cfg, EMPTY, flights)
      ensures EMPTY.admitted + Total(cfg, flights, EMPTY.count) <= Worth(cfg.flights, cfg.requests)
    {
      AllFree(cfg, flights);
    }
  }

  /** A check that is let in turns a free flight into one that holds the next count, and the flight is
      worth one less for it. */
  lemma BeforeGet(cfg: Config, s: State, t: State, flights: seq<Flight>) returns (before: seq<Flight>)
    requires s.count < cfg.requests && t.pending == s.pending + multiset{s.count + 1}
    requires Orders(cfg, t, flights)
    ensures Orders(cfg, s, before)
    ensures Total(cfg, before, s.count) == Total(cfg, flights, s.count) + 1
  {
    hide Total, Held;
    var held := s.count + 1;
    assert held in t.pending;
    var i := Holder(flights, held);
    before := flights[i := Free];
    Replaced(cfg, flights, i, Free, s.count);
    HeldReplaced(flights, i, Free);
    assert Held(before) + multiset{} == Held(before);
    assert Held(flights) + multiset{} == Held(flights);
    Cancel(Held(before), s.pending, multiset{held});
  }

  lemma GetBounded(cfg: Config, s: State)
    requires Bounded(cfg, s) && Legal(cfg, s, Get)
    ensures Bounded(cfg, Step(cfg, s, Get))
  {
    hide Total, Held, Worth, Orders;
    if s.count < cfg.requests {
      var t := Step(cfg, s, Get);
      forall flights | Orders(cfg, t, flights)
        ensures t.admitted + Total(cfg, flights, t.count) <= Worth(cfg.flights, cfg.requests)
      {
        var before := BeforeGet(cfg, s, t, flights);
      }
    }
  }

  /** With the count set to `value`, flights used before the `|flights|`-th gain no more than what the
      counter is worth to them. */
  lemma {:induction false} GainBounded(cfg: Config, flights: seq<Flight>, count: nat, value: nat)
    requires value <= cfg.requests
    ensures Total(cfg, flights, value) <= Total(cfg, flights, count) + Worth(|flights|, cfg.requests - value)
  {
    if flights != [] {
      var n := |flights| - 1;
      GainBounded(cfg, flights[..n], count, value);
      MoreFlights(n, cfg.requests - value);
    }
  }

  /** The check that writes `value` is free afterwards.  Whatever the order, had it been the last free
      flight of that order, it would have been worth all that the free flights gain. */
  lemma {:induction false} WriteLosesNothing(cfg: Config, flights: seq<Flight>, i: nat, count: nat, value: nat)
    requires i < |flights| && flights[i].Free? && (forall j :: i < j < |flights| ==> flights[j].Holding?)
    requires value <= cfg.requests
    ensures Total(cfg, flights, value) <= Total(cfg, flights[i := Holding(value)], count)
  {
    var n := |flights| - 1;
    var before := flights[i := Holding(value)];
    if i == n {
      assert before[..n] == flights[..n];
      GainBounded(cfg, flights[..n], count, value);
    } else {
      WriteLosesNothing(cfg, flights[..n], i, count, value);
      assert before[..n] == flights[..n][i := Holding(value)];
      assert flights[n].Holding?;
    }
  }

  lemma BeforeSet(cfg: Config, s: State, t: State, value: nat, flights: seq<Flight>) returns (before: seq<Flight>)
    requires value in s.pending && value <= cfg.requests && |s.pending| <= cfg.flights
    requires t.pending == s.pending - multiset{value} && Orders(cfg, t, flights)
    ensures Orders(cfg, s, before)
    ensures Total(cfg, flights, value) <= Total(cfg, before, s.count)
  {
    hide Total, Held;
    var i := LastFree(flights);
    before := flights[i := Holding(value)];
    WriteLosesNothing(cfg, flights, i, s.count, value);
    HeldReplaced(flights, i, Holding(value));
    PutBack(s.pending, value);
    assert Held(before) + multiset{} == Held(before);
  }

  lemma PutBack(m: multiset<nat>, x: nat)
    requires x in m
    ensures m - multiset{x} + multiset{x} == m
  {
  }

  lemma SetBounded(cfg: Config, s: State, value: nat)
    requires Bounded(cfg, s) && Legal(cfg, s, Set(value)) && |s.pending| <= cfg.flights
    ensures Bounded(cfg, Step(cfg, s, Set(value)))
  {
    hide Total, Held, Worth, Orders;
    var t := Step(cfg, s, Set(value));
    forall flights | Orders(cfg, t, flights)
      ensures t.admitted + Total(cfg, flights, t.count) <= Worth(cfg.flights, cfg.requests)
    {
      var before := BeforeSet(cfg, s, t, value, flights);
    }
  }

  lemma {:induction false} RunBounded(cfg: Config, s: State, events: seq<Event>)
    requires Bounded(cfg, s) && |s.pending| <= cfg.flights && LegalRun(cfg, s, events)
    ensures Bounded(cfg, Run(cfg, s, events)) && |Run(cfg, s, events).pending| <= cfg.flights
    decreases events
  {
    if events != [] {
      match events[0] {
        case Get => GetBounded(cfg, s);
        case Set(value) => SetBounded(cfg, s, value);
      }
      RunBounded(cfg, Step(cfg, s, events[0]), events[1..]);
    }
  }

  lemma {:induction false} SomeOrder(pending: multiset<nat>, n: nat) returns (flights: seq<Flight>)
    requires |pending| <= n
    ensures |flights| == n && Held(flights) == pending
  {
    if n == 0 {
      flights := [];
    } else if pending == multiset{} {
      var rest := SomeOrder(pending, n - 1);
      flights := rest + [Free];
      assert flights[..n - 1] == rest;
    } else {
      var value :| value in pending;
      var rest := SomeOrder(pending - multiset{value}, n - 1);
      flights := rest + [Holding(value)];
      assert flights[..n - 1] == rest;
      assert pending - multiset{value} + multiset{value} == pending;
    }
  }

  lemma AdmittedBounded(cfg: Config, s: State)
    requires Bounded(cfg, s) && |s.pending| <= cfg.flights
    ensures s.admitted <= Worth(cfg.flights, cfg.requests)
  {
    hide Total, Held, Worth;
    var flights := SomeOrder(s.pending, cfg.flights);
    assert Orders(cfg, s, flights);
  }

  /** However the readings and writings of at most `flights` checks interleave, one window lets in at
      most (requests + flights choose flights) - 1 checks; one at a time never exceeds the limit. */
  lemma OverrunIsBounded(cfg: Config, events: seq<Event>)
    requires LegalRun(cfg, EMPTY, events)
    ensures Run(cfg, EMPTY, events).admitted <= Choose(cfg.requests + cfg.flights, cfg.flights) - 1
    ensures cfg.flights == 1 ==> Run(cfg, EMPTY, events).admitted <= cfg.requests
  {
    hide Total, Held, Worth, Choose, LegalRun, Run, Bounded;
    StartBounded(cfg);
    RunBounded(cfg, EMPTY, events);
    AdmittedBounded(cfg, Run(cfg, EMPTY, events));
    WorthIsChoose(cfg.flights, cfg.requests);
    OneFlight(cfg.requests);
  }

  lemma {:induction false} OneFlight(room: nat)
    ensures Worth(1, room) == room
  {
    if room > 0 {
      OneFlight(room - 1);
    }
  }

  // ---------- the bound is exact ----------

  /** `events` leads from `s` to `t`. */
  ghost predicate Leads(cfg: Config, s: State, events: seq<Event>, t: State) {
    LegalRun(cfg, s, events) && Run(cfg, s, events) == t
  }

  lemma {:induction false} Joined(cfg: Config, s: State, first: seq<Event>, t: State, second: seq<Event>, u: State)
    requires Leads(cfg, s, first, t) && Leads(cfg, t, second, u)
    ensures Leads(cfg, s, first + second, u)
    decreases first
  {
    hide Step, Legal;
    if first == [] {
      assert first + second == second;
    } else {
      assert (first + second)[0] == first[0] && (first + second)[1..] == first[1..] + second;
      Joined(cfg, Step(cfg, s, first[0]), first[1..], t, second, u);
    }
  }

  lemma OneEvent(cfg: Config, s: State, e: Event)
    requires Legal(cfg, s, e)
    ensures Leads(cfg, s, [e], Step(cfg, s, e))
  {
    assert [e][1..] == [];
  }

  /** A check that waits with its count: `middle` and `last` run before and after it writes. */
  lemma AroundWrite(cfg: Config, s: State, middle: seq<Event>, s2: State, last: seq<Event>, u: State)
    returns (events: seq<Event>)
    requires |s.pending| < cfg.flights && s.count < cfg.requests
    requires Leads(cfg, Step(cfg, s, Get), middle, s2)
    requires Legal(cfg, s2, Set(s.count + 1)) && Leads(cfg, Step(cfg, s2, Set(s.count + 1)), last, u)
    ensures Leads(cfg, s, events, u)
  {
    hide Leads, LegalRun, Run, Step;
    var write := Set(s.count + 1);
    OneEvent(cfg, s, Get);
    OneEvent(cfg, s2, write);
    Joined(cfg, s2, [write], Step(cfg, s2, write), last, u);
    Joined(cfg, Step(cfg, s, Get), middle, s2, [write] + last, u);
    events := [Get] + (middle + ([write] + last));
    Joined(cfg, s, [Get], Step(cfg, s, Get), middle + ([write] + last), u);
  }

  /** With room, a check takes a flight and is let in. */
  lemma Taken(cfg: Config, s: State)
    requires s.count < cfg.requests && |s.pending| < cfg.flights
    ensures var t := Step(cfg, s, Get);
            && t.count == s.count && t.admitted == s.admitted + 1
            && t.pending == s.pending + multiset{s.count + 1} && |t.pending| == |s.pending| + 1
  {
  }

  /** And gives it back when it writes. */
  lemma GivenBack(cfg: Config, s: State, rest: multiset<nat>, value: nat)
    requires s.pending == rest + multiset{value}
    ensures Legal(cfg, s, Set(value)) && Step(cfg, s, Set(value)) == State(value, rest, s.admitted)
  {
    assert rest + multiset{value} - multiset{value} == rest;
  }

  lemma WorthStep(k: nat, room: nat)
    ensures Worth(k, room) == if k == 0 || room == 0 then 0 else Worth(k - 1, room) + 1 + Worth(k, room - 1)
  {
  }

  /** `k` free flights get out of the counter all that it is worth to them. */
  lemma {:induction false} UseUp(cfg: Config, s: State, k: nat) returns (events: seq<Event>, t: State)
    requires s.count <= cfg.requests && |s.pending| + k <= cfg.flights
    ensures Leads(cfg, s, events, t) && t.pending == s.pending && t.count <= cfg.requests
    ensures t.admitted == s.admitted + Worth(k, cfg.requests - s.count)
    decreases k + (cfg.requests - s.count)
  {
    assert Leads(cfg, s, [], s);
    WorthStep(k, cfg.requests - s.count);
    hide Worth, Leads, LegalRun, Run, Step;
    if k == 0 || s.count == cfg.requests {
      events, t := [], s;
    } else {
      Taken(cfg, s);
      var room := cfg.requests - s.count;
      var middle, s2 := UseUp(cfg, Step(cfg, s, Get), k - 1);
      assert s2.admitted == s.admitted + 1 + Worth(k - 1, room);
      GivenBack(cfg, s2, s.pending, s.count + 1);
      var s3 := State(s.count + 1, s.pending, s2.admitted);
      assert cfg.requests - s3.count == room - 1;
      var last;
      last, t := UseUp(cfg, s3, k);
      assert t.admitted == s2.admitted + Worth(k, room - 1);
      events := AroundWrite(cfg, s, middle, s2, last, t);
    }
  }

  /** The bound is exact: for every limit and number of flights some run reaches it. */
  lemma OverrunHappens(cfg: Config) returns (events: seq<Event>)
    ensures LegalRun(cfg, EMPTY, events)
    ensures Run(cfg, EMPTY, events).admitted == Choose(cfg.requests + cfg.flights, cfg.flights) - 1
  {
    var t;
    events, t := UseUp(cfg, EMPTY, cfg.flights);
    WorthIsChoose(cfg.flights, cfg.requests);
  }

  // ---------- checks so late that the counter has expired ----------

  /** `started` checks have read the clock but not the count.  Once the window is over no check starts in it;
      and only then can its counter expire, a window's length after it was last written. */
  datatype Window = Window(core: State, started: nat, over: bool)

  datatype Tick = Start | Command(event: Event) | Over | Expire

  predicate LegalTick(cfg: Config, w: Window, x: Tick) {
    match x
    case Start => !w.over && w.started + |w.core.pending| < cfg.flights
    case Command(e) => Legal(cfg, w.core, e) && (e.Get? ==> w.started > 0)
    case Over => true
    case Expire => w.over
  }

  function After(cfg: Config, w: Window, x: Tick): Window
    requires LegalTick(cfg, w, x)
  {
    match x
    case Start => w.(started := w.started + 1)
    case Command(e) => Window(Step(cfg, w.core, e), if e.Get? then w.started - 1 else w.started, w.over)
    case Over => w.(over := true)
    case Expire => w.(core := w.core.(count := 0))
  }

  ghost predicate LegalTicks(cfg: Config, w: Window, ticks: seq<Tick>)
    decreases ticks
  {
    ticks == [] || (LegalTick(cfg, w, ticks[0]) && LegalTicks(cfg, After(cfg, w, ticks[0]), ticks[1..]))
  }

  function AfterAll(cfg: Config, w: Window, ticks: seq<Tick>): Window
    requires LegalTicks(cfg, w, ticks)
    decreases ticks
  {
    if ticks == [] then w else AfterAll(cfg, After(cfg, w, ticks[0]), ticks[1..])
  }

  const OPENED := Window(EMPTY, 0, false)

  /** Some run of the window leads to `w`. */
  ghost predicate Reachable(cfg: Config, w: Window) {
    exists ticks :: LegalTicks(cfg, OPENED, ticks) && AfterAll(cfg, OPENED, ticks) == w
  }

  /** While the window is open the counter is there; afterwards only the checks that have started are let in. */
  ghost predicate WindowBounded(cfg: Config, w: Window) {
    && w.started + |w.core.pending| <= cfg.flights
    && if w.over then w.core.admitted + w.started <= Worth(cfg.flights, cfg.requests) + cfg.flights
       else Bounded(cfg, w.core)
  }

  lemma TickBounded(cfg: Config, w: Window, x: Tick)
    requires WindowBounded(cfg, w) && LegalTick(cfg, w, x)
    ensures WindowBounded(cfg, After(cfg, w, x))
  {
    hide Bounded, Worth;
    match x {
      case Command(e) =>
        if !w.over {
          match e {
            case Get => GetBounded(cfg, w.core);
            case Set(value) => SetBounded(cfg, w.core, value);
          }
        }
      case Over =>
        if !w.over {
          AdmittedBounded(cfg, w.core);
        }
      case _ =>
    }
  }

  lemma {:induction false} TicksBounded(cfg: Config, w: Window, ticks: seq<Tick>)
    requires WindowBounded(cfg, w) && LegalTicks(cfg, w, ticks)
    ensures WindowBounded(cfg, AfterAll(cfg, w, ticks))
    decreases ticks
  {
    if ticks != [] {
      TickBounded(cfg, w, ticks[0]);
      hide WindowBounded, LegalTick, After;
      TicksBounded(cfg, After(cfg, w, ticks[0]), ticks[1..]);
    }
  }

  /** However late the checks are, expiry lets in at most one more for each of the flights. */
  lemma LateOverrunIsBounded(cfg: Config, w: Window)
    requires Reachable(cfg, w)
    ensures w.core.admitted <= Choose(cfg.requests + cfg.flights, cfg.flights) - 1 + cfg.flights
  {
    var ticks :| LegalTicks(cfg, OPENED, ticks) && AfterAll(cfg, OPENED, ticks) == w;
    StartBounded(cfg);
    hide Bounded, Worth, Choose;
    TicksBounded(cfg, OPENED, ticks);
    WorthIsChoose(cfg.flights, cfg.requests);
    if !w.over {
      AdmittedBounded(cfg, w.core);
    }
  }

  lemma {:induction false} TicksAppend(cfg: Config, w: Window, ticks: seq<Tick>, x: Tick)
    requires LegalTicks(cfg, w, ticks) && LegalTick(cfg, AfterAll(cfg, w, ticks), x)
    ensures LegalTicks(cfg, w, ticks + [x])
    ensures AfterAll(cfg, w, ticks + [x]) == After(cfg, AfterAll(cfg, w, ticks), x)
    decreases ticks
  {
    hide After, LegalTick;
    if ticks == [] {
      assert ticks + [x] == [x];
      assert LegalTicks(cfg, After(cfg, w, x), []);
    } else {
      TicksAppend(cfg, After(cfg, w, ticks[0]), ticks[1..], x);
      assert (ticks + [x])[0] == ticks[0] && (ticks + [x])[1..] == ticks[1..] + [x];
    }
  }

  lemma OneMore(cfg: Config, w: Window, x: Tick)
    requires Reachable(cfg, w) && LegalTick(cfg, w, x)
    ensures Reachable(cfg, After(cfg, w, x))
  {
    var ticks :| LegalTicks(cfg, OPENED, ticks) && AfterAll(cfg, OPENED, ticks) == w;
    TicksAppend(cfg, OPENED, ticks, x);
  }

  /** A run without expiry is one of the open window: each check starts and at once reads the count. */
  lemma {:induction false} InTime(cfg: Config, s: State, events: seq<Event>)
    requires Reachable(cfg, Window(s, 0, false)) && LegalRun(cfg, s, events)
    ensures Reachable(cfg, Window(Run(cfg, s, events), 0, false))
    decreases events
  {
    if events != [] {
      hide Reachable;
      var e, w := events[0], Window(s, 0, false);
      if e.Get? {
        OneMore(cfg, w, Start);
        OneMore(cfg, After(cfg, w, Start), Command(e));
      } else {
        OneMore(cfg, w, Command(e));
      }
      InTime(cfg, Step(cfg, s, e), events[1..]);
    }
  }

  lemma {:induction false} StartMany(cfg: Config, s: State, k: nat)
    requires Reachable(cfg, Window(s, 0, false)) && |s.pending| + k <= cfg.flights
    ensures Reachable(cfg, Window(s, k, false))
  {
    if k > 0 {
      StartMany(cfg, s, k - 1);
      OneMore(cfg, Window(s, k - 1, false), Start);
    }
  }

  /** The started checks all find no counter. */
  lemma {:induction false} ReadMany(cfg: Config, s: State, k: nat)
    requires Reachable(cfg, Window(s, k, true)) && s.count == 0 < cfg.requests && |s.pending| + k <= cfg.flights
    ensures exists w :: Reachable(cfg, w) && w.core.admitted == s.admitted + k
    decreases k
  {
    if k > 0 {
      var w := Window(s, k, true);
      OneMore(cfg, w, Command(Get));
      ReadMany(cfg, Step(cfg, s, Get), k - 1);
    }
  }

  /** This bound is exact too: use the counter up, start once more on all flights, and read when the counter
      has expired. */
  lemma LateOverrunHappens(cfg: Config)
    requires cfg.requests >= 1
    ensures exists w :: Reachable(cfg, w)
                        && w.core.admitted == Choose(cfg.requests + cfg.flights, cfg.flights) - 1 + cfg.flights
  {
    var events, s := UseUp(cfg, EMPTY, cfg.flights);
    assert LegalRun(cfg, EMPTY, events) && Run(cfg, EMPTY, events) == s && s.pending == multiset{};
    WorthIsChoose(cfg.flights, cfg.requests);
    assert s.admitted == Choose(cfg.requests + cfg.flights, cfg.flights) - 1;
    OpenedReachable(cfg);
    hide Reachable, Choose, Worth, After, Leads, LegalRun, Run;
    InTime(cfg, EMPTY, events);
    StartMany(cfg, s, cfg.flights);
    Lapse(cfg, s, cfg.flights);
    ReadMany(cfg, s.(count := 0), cfg.flights);
  }

  lemma OpenedReachable(cfg: Config)
    ensures Reachable(cfg, OPENED)
  {
    var none: seq<Tick> := [];
    assert LegalTicks(cfg, OPENED, none) && AfterAll(cfg, OPENED, none) == OPENED;
  }

  lemma Lapse(cfg: Config, s: State, k: nat)
    requires Reachable(cfg, Window(s, k, false))
    ensures Reachable(cfg, Window(s.(count := 0), k, true))
  {
    hide Reachable;
    OneMore(cfg, Window(s, k, false), Over);
    OneMore(cfg, Window(s, k, true), Expire);
  }
}
