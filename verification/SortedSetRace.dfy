/** The Redis sliding window of app/core/rate_limiter.py (`_check_sliding_window`): trimming,
    counting and adding are separate commands, so checks of one key that are in flight together
    can all count the same set before any of them adds to it. */
module SortedSetRace {
  import opened Common

  /** How far a check has come; `now` is its clock reading. */
  datatype Stage = Started(now: real) | Trimmed(now: real) | Admitted(now: real) | Added(now: real)

  /** `requests` per `window` seconds, with at most `flights` checks in flight at a time.  Two further
      assumptions may be made of the runs: `apart`, that no check has the reading of one in flight or of a
      member when it begins; and `calm`, that the key does not expire. */
  datatype Config = Config(requests: nat, window: real, flights: nat, apart: bool, calm: bool)

  /** The sorted set holds one member per distinct reading, scored with it: the member's name
      is the reading followed by a hash of the client.  An empty set is a missing key, which has no
      expiry.  `log` has the readings of all checks that were let in. */
  datatype State = State(members: set<real>, expires: Option<real>, checks: map<nat, Stage>, log: seq<real>,
                         clock: real)

  datatype Event =
    | Begin(id: nat, now: real)
    | Trim(id: nat)
    | Card(id: nat)
    | Add(id: nat)
    | SetExpiry(id: nat, at: real)
    | Vanish(at: real)

  /** The reading of a check in flight or of a member of the set. */
  predicate Taken(s: State, now: real) {
    now in s.members || exists id :: id in s.checks && s.checks[id].now == now
  }

  predicate Legal(cfg: Config, s: State, e: Event) {
    match e
    case Begin(id, now) =>
      id !in s.checks && |s.checks| < cfg.flights && s.clock <= now && (cfg.apart ==> !Taken(s, now))
    case Trim(id) => id in s.checks && s.checks[id].Started?
    case Card(id) => id in s.checks && s.checks[id].Trimmed?
    case Add(id) => id in s.checks && s.checks[id].Admitted?
    case SetExpiry(id, at) => id in s.checks && s.checks[id].Added? && s.clock <= at
    case Vanish(at) => !cfg.calm && s.expires.Some? && s.expires.value <= at && s.clock <= at
  }

  function Step(cfg: Config, s: State, e: Event): State
    requires Legal(cfg, s, e)
  {
    match e
    case Begin(id, now) => s.(clock := now, checks := s.checks[id := Started(now)])
    case Trim(id) =>
      var now := s.checks[id].now;
      var left := set m | m in s.members && !(0.0 <= m <= now - cfg.window);
      s.(members := left, expires := if left == {} then None else s.expires, checks := s.checks[id := Trimmed(now)])
    case Card(id) =>
      var now := s.checks[id].now;
      if |s.members| >= cfg.requests then s.(checks := s.checks - {id})
      else s.(checks := s.checks[id := Admitted(now)], log := s.log + [now])
    case Add(id) =>
      s.(members := s.members + {s.checks[id].now}, checks := s.checks[id := Added(s.checks[id].now)])
    case SetExpiry(id, at) =>
      var renewed := if s.members == {} then None else Some(at + cfg.window + 1.0);
      s.(expires := renewed, checks := s.checks - {id}, clock := at)
    case Vanish(at) => s.(members := {}, expires := None, clock := at)
  }

  ghost predicate LegalRun(cfg: Config, s: State, events: seq<Event>)
    decreases events
  {
    events == [] || (Legal(cfg, s, events[0]) && LegalRun(cfg, Step(cfg, s, events[0]), events[1..]))
  }

  function Run(cfg: Config, s: State, events: seq<Event>): State
    requires LegalRun(cfg, s, events)
    decreases events
  {
    if events == [] then s else Run(cfg, Step(cfg, s, events[0]), events[1..])
  }

  const EMPTY := State({}, None, map[], [], 0.0)

  /** The checks that have been let in but have not added their member yet. */
  function Promised(s: State): set<nat> {
    set id | id in s.checks && s.checks[id].Admitted?
  }

  // ---------- the size of the set ----------

  /** What is in the set and what is about to be added never exceed the limit by more than the
      other checks in flight. */
  ghost predicate Bounded(cfg: Config, s: State) {
    && |s.checks| <= cfg.flights
    && |s.members| + |Promised(s)| <= cfg.requests + cfg.flights - 1
  }

  lemma KeysSize(s: State, checks: map<nat, Stage>)
    requires checks.Keys <= s.checks.Keys
    ensures |checks| <= |s.checks|
  {
    SubsetSize(checks.Keys, s.checks.Keys);
  }

  lemma CardBounded(cfg: Config, s: State, id: nat)
    requires cfg.requests >= 1 && Bounded(cfg, s) && Legal(cfg, s, Card(id))
    ensures Bounded(cfg, Step(cfg, s, Card(id)))
  {
    var t := Step(cfg, s, Card(id));
    if |s.members| >= cfg.requests {
      KeysSize(s, t.checks);
      assert Promised(t) == Promised(s);
    } else {
      assert t.checks.Keys == s.checks.Keys;
      SubsetSize(Promised(t), t.checks.Keys);
    }
  }

  lemma AddBounded(cfg: Config, s: State, id: nat)
    requires Bounded(cfg, s) && Legal(cfg, s, Add(id))
    ensures Bounded(cfg, Step(cfg, s, Add(id)))
  {
    var t := Step(cfg, s, Add(id));
    assert t.checks.Keys == s.checks.Keys;
    assert Promised(t) == Promised(s) - {id} && id in Promised(s);
    hide Promised;
  }

  lemma SamePromises(cfg: Config, s: State, e: Event)
    requires Legal(cfg, s, e) && !e.Card? && !e.Add?
    ensures Promised(Step(cfg, s, e)) == Promised(s)
  {
  }

  /** The other commands promise nothing and add nothing. */
  lemma OtherBounded(cfg: Config, s: State, e: Event)
    requires Bounded(cfg, s) && Legal(cfg, s, e) && !e.Card? && !e.Add?
    ensures Bounded(cfg, Step(cfg, s, e))
  {
    SamePromises(cfg, s, e);
    hide Promised;
    var t := Step(cfg, s, e);
    SubsetSize(t.members, s.members);
    if e.Begin? {
      assert t.checks.Keys == s.checks.Keys + {e.id};
    } else {
      KeysSize(s, t.checks);
    }
  }

  /** Every command keeps the bound. */
  lemma StepBounded(cfg: Config, s: State, e: Event)
    requires cfg.requests >= 1 && cfg.flights >= 1
    requires Bounded(cfg, s) && Legal(cfg, s, e)
    ensures Bounded(cfg, Step(cfg, s, e))
  {
    hide Bounded;
    match e {
      case Card(id) => CardBounded(cfg, s, id);
      case Add(id) => AddBounded(cfg, s, id);
      case _ => OtherBounded(cfg, s, e);
    }
  }

  lemma {:induction false} RunBounded(cfg: Config, s: State, events: seq<Event>)
    requires cfg.requests >= 1 && cfg.flights >= 1
    requires Bounded(cfg, s) && LegalRun(cfg, s, events)
    ensures Bounded(cfg, Run(cfg, s, events))
    decreases events
  {
    if events != [] {
      StepBounded(cfg, s, events[0]);
      RunBounded(cfg, Step(cfg, s, events[0]), events[1..]);
    }
  }

  /** However the commands interleave, the set never holds more than `requests + flights - 1`
      members. */
  lemma OverrunIsBounded(cfg: Config, events: seq<Event>)
    requires cfg.requests >= 1 && cfg.flights >= 1
    requires LegalRun(cfg, EMPTY, events)
    ensures |Run(cfg, EMPTY, events).members| <= cfg.requests + cfg.flights - 1
  {
    assert Promised(EMPTY) == {};
    RunBounded(cfg, EMPTY, events);
  }

  // ---------- how many checks are let in ----------

  /** The readings of one window, from `from` on. */
  predicate InWindow(cfg: Config, from: real, t: real) {
    from <= t < from + cfg.window
  }

  /** How many checks with readings in that window have been let in. */
  function LetIn(cfg: Config, from: real, log: seq<real>): nat {
    if log == [] then 0
    else LetIn(cfg, from, log[..|log| - 1]) + if InWindow(cfg, from, log[|log| - 1]) then 1 else 0
  }

  function MembersIn(cfg: Config, from: real, s: State): set<real> {
    set m | m in s.members && InWindow(cfg, from, m)
  }

  function PromisedIn(cfg: Config, from: real, s: State): set<nat> {
    set id | id in s.checks && s.checks[id].Admitted? && InWindow(cfg, from, s.checks[id].now)
  }

  /** The checks with readings in the window that have not counted yet. */
  function Undecided(cfg: Config, from: real, s: State): set<nat> {
    set id | id in s.checks && (s.checks[id].Started? || s.checks[id].Trimmed?) && InWindow(cfg, from, s.checks[id].now)
  }

  /** The readings of the checks that have added but not set the expiry. */
  function JustAdded(s: State): set<real> {
    set id | id in s.checks && s.checks[id].Added? :: s.checks[id].now
  }

  /** Nothing lies in the future. */
  ghost predicate Past(cfg: Config, s: State) {
    && (forall m :: m in s.members ==> m <= s.clock)
    && (forall id :: id in s.checks ==> s.checks[id].now <= s.clock)
    && (s.expires.Some? ==> s.members != {} && s.expires.value <= s.clock + cfg.window + 1.0)
  }

  /** No check in flight has the reading of another, or of a member other than its own. */
  ghost predicate Distinct(s: State) {
    && (forall i, j :: i in s.checks && j in s.checks && i != j ==> s.checks[i].now != s.checks[j].now)
    && (forall id :: id in s.checks && !s.checks[id].Added? ==> s.checks[id].now !in s.members)
  }

  /** The expiry was set before the window began. */
  predicate Old(cfg: Config, from: real, s: State) {
    s.expires.Some? && s.expires.value < from + cfg.window + 1.0
  }

  /** How many of the checks that have been let in can be told from the set and the promises. */
  function Accounted(cfg: Config, from: real, s: State): nat {
    if cfg.requests != 1 then |MembersIn(cfg, from, s)| + |PromisedIn(cfg, from, s)|
    else if MembersIn(cfg, from, s) == {} then |PromisedIn(cfg, from, s)|
    else cfg.flights
  }

  /** While the clock is in the window: every check let in is accounted for, but for at most `lost`,
      and those only if the key has vanished since the window began. */
  ghost predicate Early(cfg: Config, from: real, lost: nat, s: State) {
    && (s.clock < from ==> LetIn(cfg, from, s.log) == 0)
    && LetIn(cfg, from, s.log) <= Accounted(cfg, from, s) + (if Old(cfg, from, s) then 0 else lost)
    && (Old(cfg, from, s) ==> MembersIn(cfg, from, s) <= JustAdded(s))
    && (Old(cfg, from, s) && cfg.requests == 1 ==> LetIn(cfg, from, s.log) == 0)
  }

  /** Afterwards: only the checks of the window that are still in flight can be let in. */
  ghost predicate Late(cfg: Config, from: real, total: nat, s: State) {
    LetIn(cfg, from, s.log) + |Undecided(cfg, from, s)| <= total
  }

  /** At most this many checks of one window are let in. */
  function Most(cfg: Config): nat
    requires cfg.requests >= 1 && cfg.flights >= 1
  {
    if cfg.calm then cfg.requests + 2 * (cfg.flights - 1)
    else if cfg.requests == 1 then 2 * cfg.flights
    else cfg.requests + 3 * cfg.flights - 1
  }

  /** How many of them may be lost with the key; with a limit of 1, none is let in while an old key is there. */
  function Lost(cfg: Config): nat {
    if cfg.calm || cfg.requests == 1 then 0 else cfg.flights
  }

  ghost predicate Invariant(cfg: Config, from: real, s: State)
    requires cfg.requests >= 1 && cfg.flights >= 1
  {
    && Bounded(cfg, s) && Past(cfg, s) && (cfg.requests == 1 || Distinct(s))
    && if s.clock < from + cfg.window then Early(cfg, from, Lost(cfg), s)
       else Late(cfg, from, Most(cfg), s)
  }

  lemma StepPast(cfg: Config, s: State, e: Event)
    requires Past(cfg, s) && Legal(cfg, s, e)
    ensures Past(cfg, Step(cfg, s, e))
  {
  }

  lemma StepDistinct(cfg: Config, s: State, e: Event)
    requires Distinct(s) && Legal(cfg, s, e) && cfg.apart
    ensures Distinct(Step(cfg, s, e))
  {
  }

  /** The accounted ones are members or promised members. */
  lemma AccountedBounded(cfg: Config, from: real, s: State)
    requires cfg.requests >= 1 && cfg.flights >= 1 && Bounded(cfg, s)
    ensures Accounted(cfg, from, s) <= cfg.requests + cfg.flights - 1
  {
    SubsetSize(MembersIn(cfg, from, s), s.members);
    SubsetSize(PromisedIn(cfg, from, s), Promised(s));
    SubsetSize(PromisedIn(cfg, from, s), s.checks.Keys);
  }

  lemma {:induction false} ImageSize(checks: map<nat, Stage>, keys: set<nat>)
    requires keys <= checks.Keys
    ensures |set id | id in keys :: checks[id].now| <= |keys|
  {
    if keys != {} {
      var id :| id in keys;
      ImageSize(checks, keys - {id});
      assert (set i | i in keys :: checks[i].now) == (set i | i in keys - {id} :: checks[i].now) + {checks[id].now};
    }
  }

  lemma JustAddedSize(s: State)
    ensures |JustAdded(s)| <= |s.checks|
  {
    var ids := set id | id in s.checks && s.checks[id].Added?;
    assert JustAdded(s) == set id | id in ids :: s.checks[id].now;
    ImageSize(s.checks, ids);
    SubsetSize(ids, s.checks.Keys);
  }

  lemma JustAddedKept(s: State, t: State)
    requires forall id :: id in s.checks && s.checks[id].Added? ==> id in t.checks && t.checks[id] == s.checks[id]
    ensures JustAdded(s) <= JustAdded(t)
  {
    forall m | m in JustAdded(s) ensures m in JustAdded(t) {
      var id :| id in s.checks && s.checks[id].Added? && s.checks[id].now == m;
      assert id in t.checks && t.checks[id].Added?;
    }
  }

  /** Inside the window a check trims only what is older. */
  lemma EarlyTrim(cfg: Config, from: real, lost: nat, s: State, id: nat)
    requires Early(cfg, from, lost, s) && Past(cfg, s) && Legal(cfg, s, Trim(id)) && s.clock < from + cfg.window
    ensures Early(cfg, from, lost, Step(cfg, s, Trim(id)))
  {
    var t := Step(cfg, s, Trim(id));
    assert MembersIn(cfg, from, t) == MembersIn(cfg, from, s);
    assert PromisedIn(cfg, from, t) == PromisedIn(cfg, from, s);
    JustAddedKept(s, t);
  }

  lemma EarlyBegin(cfg: Config, from: real, lost: nat, s: State, id: nat, now: real)
    requires Early(cfg, from, lost, s) && Legal(cfg, s, Begin(id, now))
    ensures Early(cfg, from, lost, Step(cfg, s, Begin(id, now)))
  {
    var t := Step(cfg, s, Begin(id, now));
    assert MembersIn(cfg, from, t) == MembersIn(cfg, from, s);
    assert PromisedIn(cfg, from, t) == PromisedIn(cfg, from, s);
    JustAddedKept(s, t);
  }

  /** What a check that counts adds to the checks let in: one if it is of the window and finds room. */
  function Admits(cfg: Config, from: real, s: State, id: nat): nat
    requires id in s.checks
  {
    if |s.members| < cfg.requests && InWindow(cfg, from, s.checks[id].now) then 1 else 0
  }

  lemma LetInMore(cfg: Config, from: real, log: seq<real>, t: real)
    ensures LetIn(cfg, from, log + [t]) == LetIn(cfg, from, log) + if InWindow(cfg, from, t) then 1 else 0
  {
    assert (log + [t])[..|log|] == log;
  }

  lemma CardLogs(cfg: Config, from: real, s: State, id: nat)
    requires Legal(cfg, s, Card(id))
    ensures LetIn(cfg, from, Step(cfg, s, Card(id)).log) == LetIn(cfg, from, s.log) + Admits(cfg, from, s, id)
  {
    LetInMore(cfg, from, s.log, s.checks[id].now);
    hide LetIn;
  }

  /** A check that is let in is promised. */
  lemma CardPromises(cfg: Config, from: real, s: State, id: nat)
    requires Legal(cfg, s, Card(id))
    ensures id !in PromisedIn(cfg, from, s)
    ensures PromisedIn(cfg, from, Step(cfg, s, Card(id)))
         == PromisedIn(cfg, from, s) + if Admits(cfg, from, s, id) == 1 then {id} else {}
  {
  }

  /** Who is let in has read the clock in the window, and, with a limit of 1, finds no key. */
  lemma AdmitMeans(cfg: Config, from: real, s: State, id: nat)
    requires Past(cfg, s) && id in s.checks && Admits(cfg, from, s, id) == 1
    ensures s.clock >= from
    ensures cfg.requests == 1 ==> MembersIn(cfg, from, s) == {} && !Old(cfg, from, s)
  {
    if cfg.requests == 1 {
      assert s.members == {};
    }
  }

  lemma EarlyMore(cfg: Config, from: real, lost: nat, s: State, t: State, one: nat)
    requires Early(cfg, from, lost, s) && t.clock == s.clock && t.expires == s.expires
    requires MembersIn(cfg, from, t) == MembersIn(cfg, from, s) && JustAdded(s) <= JustAdded(t)
    requires |PromisedIn(cfg, from, t)| == |PromisedIn(cfg, from, s)| + one
    requires LetIn(cfg, from, t.log) == LetIn(cfg, from, s.log) + one
    requires one > 0 ==> s.clock >= from
    requires one > 0 && cfg.requests == 1 ==> MembersIn(cfg, from, s) == {} && !Old(cfg, from, s)
    ensures Early(cfg, from, lost, t)
  {
    hide LetIn, MembersIn, PromisedIn, JustAdded;
  }

  lemma EarlyCard(cfg: Config, from: real, lost: nat, s: State, id: nat)
    requires Early(cfg, from, lost, s) && Past(cfg, s) && Legal(cfg, s, Card(id))
    ensures Early(cfg, from, lost, Step(cfg, s, Card(id)))
  {
    hide LetIn, MembersIn, PromisedIn, JustAdded, Early, Past, Old, Step;
    var one := Admits(cfg, from, s, id);
    CardKeeps(cfg, from, s, id);
    CardLogs(cfg, from, s, id);
    CardCounts(cfg, from, s, id);
    if one == 1 {
      AdmitMeans(cfg, from, s, id);
    }
    EarlyMore(cfg, from, lost, s, Step(cfg, s, Card(id)), one);
  }

  lemma CardKeeps(cfg: Config, from: real, s: State, id: nat)
    requires Legal(cfg, s, Card(id))
    ensures var t := Step(cfg, s, Card(id));
            && t.clock == s.clock && t.expires == s.expires
            && MembersIn(cfg, from, t) == MembersIn(cfg, from, s) && JustAdded(s) <= JustAdded(t)
  {
    var t := Step(cfg, s, Card(id));
    JustAddedKept(s, t);
    hide JustAdded;
    assert t.members == s.members;
  }

  lemma CardCounts(cfg: Config, from: real, s: State, id: nat)
    requires Legal(cfg, s, Card(id))
    ensures |PromisedIn(cfg, from, Step(cfg, s, Card(id)))| == |PromisedIn(cfg, from, s)| + Admits(cfg, from, s, id)
  {
    CardPromises(cfg, from, s, id);
    hide PromisedIn, Step;
  }

  lemma EarlyAdd(cfg: Config, from: real, lost: nat, s: State, id: nat)
    requires Early(cfg, from, lost, s) && Bounded(cfg, s) && Legal(cfg, s, Add(id))
    requires cfg.requests == 1 || Distinct(s)
    ensures Early(cfg, from, lost, Step(cfg, s, Add(id)))
  {
    var t := Step(cfg, s, Add(id));
    var now := s.checks[id].now;
    JustAddedKept(s, t);
    assert t.checks[id].Added? && now in JustAdded(t);
    if InWindow(cfg, from, now) {
      assert MembersIn(cfg, from, t) == MembersIn(cfg, from, s) + {now};
      assert PromisedIn(cfg, from, t) == PromisedIn(cfg, from, s) - {id};
      SubsetSize(PromisedIn(cfg, from, s), s.checks.Keys);
    } else {
      assert MembersIn(cfg, from, t) == MembersIn(cfg, from, s);
      assert PromisedIn(cfg, from, t) == PromisedIn(cfg, from, s);
    }
  }

  lemma EarlySetExpiry(cfg: Config, from: real, lost: nat, s: State, id: nat, at: real)
    requires Early(cfg, from, lost, s) && Past(cfg, s) && Legal(cfg, s, SetExpiry(id, at))
    ensures Early(cfg, from, lost, Step(cfg, s, SetExpiry(id, at)))
  {
    var t := Step(cfg, s, SetExpiry(id, at));
    assert MembersIn(cfg, from, t) == MembersIn(cfg, from, s);
    assert PromisedIn(cfg, from, t) == PromisedIn(cfg, from, s);
  }

  /** A key that expires inside the window was last renewed before it, so that it loses only what the
      checks in flight have just added; once renewed inside the window it outlives it. */
  lemma EarlyVanish(cfg: Config, from: real, lost: nat, s: State, at: real)
    requires Early(cfg, from, lost, s) && Bounded(cfg, s) && Legal(cfg, s, Vanish(at)) && at < from + cfg.window
    requires cfg.requests == 1 || lost >= cfg.flights
    ensures Early(cfg, from, lost, Step(cfg, s, Vanish(at)))
  {
    var t := Step(cfg, s, Vanish(at));
    assert Old(cfg, from, s);
    assert MembersIn(cfg, from, t) == {};
    assert PromisedIn(cfg, from, t) == PromisedIn(cfg, from, s);
    SubsetSize(MembersIn(cfg, from, s), JustAdded(s));
    JustAddedSize(s);
  }

  lemma StepEarly(cfg: Config, from: real, lost: nat, s: State, e: Event)
    requires Early(cfg, from, lost, s) && Past(cfg, s) && Bounded(cfg, s) && (cfg.requests == 1 || Distinct(s))
    requires Legal(cfg, s, e) && Step(cfg, s, e).clock < from + cfg.window
    requires e.Vanish? ==> cfg.requests == 1 || lost >= cfg.flights
    ensures Early(cfg, from, lost, Step(cfg, s, e))
  {
    hide Early;
    match e {
      case Begin(id, now) => EarlyBegin(cfg, from, lost, s, id, now);
      case Trim(id) => EarlyTrim(cfg, from, lost, s, id);
      case Card(id) => EarlyCard(cfg, from, lost, s, id);
      case Add(id) => EarlyAdd(cfg, from, lost, s, id);
      case SetExpiry(id, at) => EarlySetExpiry(cfg, from, lost, s, id, at);
      case Vanish(at) => EarlyVanish(cfg, from, lost, s, at);
    }
  }

  /** The clock leaves the window. */
  lemma StepOut(cfg: Config, from: real, lost: nat, s: State, e: Event)
    requires cfg.requests >= 1 && cfg.flights >= 1
    requires Early(cfg, from, lost, s) && Bounded(cfg, s) && Legal(cfg, s, e)
    requires s.clock < from + cfg.window <= Step(cfg, s, e).clock
    ensures var others := if e.Vanish? then cfg.flights else cfg.flights - 1;
            Late(cfg, from, cfg.requests + cfg.flights - 1 + lost + others, Step(cfg, s, e))
  {
    var t := Step(cfg, s, e);
    AccountedBounded(cfg, from, s);
    assert Undecided(cfg, from, t) == Undecided(cfg, from, s);
    match e {
      case Begin(_, _) => SubsetSize(Undecided(cfg, from, s), s.checks.Keys);
      case SetExpiry(id, _) => SubsetSize(Undecided(cfg, from, s), s.checks.Keys - {id});
      case Vanish(_) => SubsetSize(Undecided(cfg, from, s), s.checks.Keys);
    }
  }

  lemma CardLate(cfg: Config, from: real, total: nat, s: State, id: nat)
    requires Late(cfg, from, total, s) && Legal(cfg, s, Card(id))
    ensures Late(cfg, from, total, Step(cfg, s, Card(id)))
  {
    var t := Step(cfg, s, Card(id));
    var counted := if InWindow(cfg, from, s.checks[id].now) then {id} else {};
    assert Undecided(cfg, from, t) == Undecided(cfg, from, s) - counted;
    assert counted <= Undecided(cfg, from, s);
    CardLogs(cfg, from, s, id);
    hide LetIn, Undecided;
  }

  lemma StepLate(cfg: Config, from: real, total: nat, s: State, e: Event)
    requires Late(cfg, from, total, s) && Legal(cfg, s, e) && from + cfg.window <= s.clock
    ensures Late(cfg, from, total, Step(cfg, s, e))
  {
    hide LetIn;
    if e.Card? {
      CardLate(cfg, from, total, s, e.id);
    } else {
      assert Undecided(cfg, from, Step(cfg, s, e)) == Undecided(cfg, from, s);
    }
  }

  lemma StepInvariant(cfg: Config, from: real, s: State, e: Event)
    requires cfg.requests >= 1 && cfg.flights >= 1
    requires Invariant(cfg, from, s) && Legal(cfg, s, e) && (cfg.requests == 1 || cfg.apart)
    ensures Invariant(cfg, from, Step(cfg, s, e))
  {
    StepBounded(cfg, s, e);
    StepPast(cfg, s, e);
    if cfg.requests != 1 {
      StepDistinct(cfg, s, e);
    }
    hide Early, Late, Distinct, Bounded, Past;
    var lost := Lost(cfg);
    if s.clock >= from + cfg.window {
      StepLate(cfg, from, Most(cfg), s, e);
    } else if Step(cfg, s, e).clock < from + cfg.window {
      StepEarly(cfg, from, lost, s, e);
    } else {
      StepOut(cfg, from, lost, s, e);
      LateMore(cfg, from, cfg.requests + cfg.flights - 1 + lost + (if e.Vanish? then cfg.flights else cfg.flights - 1),
               Most(cfg), Step(cfg, s, e));
    }
  }

  lemma LateMore(cfg: Config, from: real, total: nat, more: nat, s: State)
    requires Late(cfg, from, total, s) && total <= more
    ensures Late(cfg, from, more, s)
  {
  }

  lemma {:induction false} RunInvariant(cfg: Config, from: real, s: State, events: seq<Event>)
    requires cfg.requests >= 1 && cfg.flights >= 1
    requires Invariant(cfg, from, s) && LegalRun(cfg, s, events) && (cfg.requests == 1 || cfg.apart)
    ensures Invariant(cfg, from, Run(cfg, s, events))
    decreases events
  {
    if events != [] {
      StepInvariant(cfg, from, s, events[0]);
      hide Invariant;
      RunInvariant(cfg, from, Step(cfg, s, events[0]), events[1..]);
    }
  }

  lemma EmptyInvariant(cfg: Config, from: real)
    requires cfg.requests >= 1 && cfg.flights >= 1
    ensures Invariant(cfg, from, EMPTY)
  {
    assert Promised(EMPTY) == {};
    assert Undecided(cfg, from, EMPTY) == {};
  }

  /** Some run leads to `s`. */
  ghost predicate Reachable(cfg: Config, s: State) {
    exists events :: LegalRun(cfg, EMPTY, events) && Run(cfg, EMPTY, events) == s
  }

  /** Wherever a window of readings begins, at most `Most` checks of it are let in, however the commands
      interleave; unless the limit is 1, no check may have the reading of one it meets. */
  lemma AdmissionsBounded(cfg: Config, s: State, from: real)
    requires cfg.requests >= 1 && cfg.flights >= 1 && (cfg.requests == 1 || cfg.apart) && Reachable(cfg, s)
    ensures LetIn(cfg, from, s.log) <= Most(cfg)
  {
    var events :| LegalRun(cfg, EMPTY, events) && Run(cfg, EMPTY, events) == s;
    EmptyInvariant(cfg, from);
    RunInvariant(cfg, from, EMPTY, events);
    AccountedBounded(cfg, from, s);
  }

  // ---------- the bounds are reached ----------

  lemma {:induction false} RunAppend(cfg: Config, s: State, events: seq<Event>, e: Event)
    requires LegalRun(cfg, s, events) && Legal(cfg, Run(cfg, s, events), e)
    ensures LegalRun(cfg, s, events + [e]) && Run(cfg, s, events + [e]) == Step(cfg, Run(cfg, s, events), e)
    decreases events
  {
    hide Step, Legal;
    if events == [] {
      assert events + [e] == [e];
      assert LegalRun(cfg, Step(cfg, s, e), []);
    } else {
      RunAppend(cfg, Step(cfg, s, events[0]), events[1..], e);
      assert (events + [e])[0] == events[0] && (events + [e])[1..] == events[1..] + [e];
    }
  }

  lemma OneMore(cfg: Config, s: State, e: Event)
    requires Reachable(cfg, s) && Legal(cfg, s, e)
    ensures Reachable(cfg, Step(cfg, s, e))
  {
    var events :| LegalRun(cfg, EMPTY, events) && Run(cfg, EMPTY, events) == s;
    RunAppend(cfg, EMPTY, events, e);
  }

  /** Readings for checks that begin one after the other, later than all before, while nothing that is
      in the set is old enough to be trimmed. */
  ghost predicate Coming(cfg: Config, s: State, ticks: seq<real>) {
    && (forall i: nat :: i < |ticks| ==> s.clock <= ticks[i])
    && (forall i: nat, m :: i < |ticks| && m in s.members ==> ticks[i] - cfg.window < m < ticks[i])
    && (forall i, j :: 0 <= i < j < |ticks| ==> ticks[i] < ticks[j])
  }

  /** The clock once they have begun. */
  function Later(clock: real, ticks: seq<real>): real {
    if ticks == [] then clock else ticks[|ticks| - 1]
  }

  /** Checks 0, 1, ... begin together. */
  lemma {:induction false} Wait(cfg: Config, s: State, ticks: seq<real>) returns (t: State)
    requires Reachable(cfg, s) && s.checks == map[] && Coming(cfg, s, ticks) && |ticks| <= cfg.flights
    ensures Reachable(cfg, t) && t == s.(checks := t.checks, clock := Later(s.clock, ticks))
    ensures |t.checks| == |ticks| && forall id: nat :: id in t.checks <==> id < |ticks|
    ensures forall i: nat :: i < |ticks| ==> t.checks[i] == Started(ticks[i])
  {
    hide Reachable;
    t := s;
    if ticks != [] {
      var id := |ticks| - 1;
      t := Wait(cfg, s, ticks[..id]);
      OneMore(cfg, t, Begin(id, ticks[id]));
      t := Step(cfg, t, Begin(id, ticks[id]));
    }
  }

  lemma DecideOne(cfg: Config, s: State, id: nat) returns (t: State)
    requires Reachable(cfg, s) && |s.members| < cfg.requests && (s.members == {} ==> s.expires == None)
    requires id in s.checks && s.checks[id].Started?
    requires forall m :: m in s.members ==> s.checks[id].now - cfg.window < m
    ensures Reachable(cfg, t)
    ensures t == s.(checks := s.checks[id := Admitted(s.checks[id].now)], log := s.log + [s.checks[id].now])
  {
    hide Reachable;
    OneMore(cfg, s, Trim(id));
    t := Step(cfg, s, Trim(id));
    assert t.members == s.members;
    OneMore(cfg, t, Card(id));
    t := Step(cfg, t, Card(id));
  }

  /** The first `j` of the checks trim nothing and are let in. */
  lemma {:induction false} Decide(cfg: Config, s: State, ticks: seq<real>, j: nat) returns (t: State)
    requires Reachable(cfg, s) && j <= |ticks| && |s.members| < cfg.requests
    requires s.members == {} ==> s.expires == None
    requires forall i: nat :: i < |ticks| ==> i in s.checks && s.checks[i] == Started(ticks[i])
    requires forall i, m :: 0 <= i < |ticks| && m in s.members ==> ticks[i] - cfg.window < m
    ensures Reachable(cfg, t) && t == s.(checks := t.checks, log := s.log + ticks[..j])
    ensures (forall id: nat :: id in t.checks <==> id in s.checks)
    ensures forall i: nat :: i < |ticks| ==> t.checks[i] == if i < j then Admitted(ticks[i]) else Started(ticks[i])
  {
    hide Reachable;
    t := s;
    if j == 0 {
      assert s.log + ticks[..0] == s.log;
    } else {
      var id := j - 1;
      t := Decide(cfg, s, ticks, id);
      t := DecideOne(cfg, t, id);
      assert ticks[..j] == ticks[..id] + [ticks[id]];
    }
  }

  /** The set with all these readings added. */
  function With(members: set<real>, ticks: seq<real>): set<real> {
    if ticks == [] then members else With(members, ticks[..|ticks| - 1]) + {ticks[|ticks| - 1]}
  }

  lemma AddOne(cfg: Config, s: State, id: nat) returns (t: State)
    requires Reachable(cfg, s) && id in s.checks && s.checks[id].Admitted?
    ensures Reachable(cfg, t)
    ensures t == s.(members := s.members + {s.checks[id].now}, checks := s.checks[id := Added(s.checks[id].now)])
  {
    OneMore(cfg, s, Add(id));
    t := Step(cfg, s, Add(id));
  }

  /** The first `j` of them add. */
  lemma {:induction false} AddAll(cfg: Config, s: State, ticks: seq<real>, j: nat) returns (t: State)
    requires Reachable(cfg, s) && j <= |ticks|
    requires forall i: nat :: i < |ticks| ==> i in s.checks && s.checks[i] == Admitted(ticks[i])
    ensures Reachable(cfg, t) && t == s.(checks := t.checks, members := With(s.members, ticks[..j]))
    ensures (forall id: nat :: id in t.checks <==> id in s.checks)
    ensures forall i: nat :: i < |ticks| ==> t.checks[i] == if i < j then Added(ticks[i]) else Admitted(ticks[i])
  {
    hide Reachable;
    t := s;
    if j > 0 {
      var id := j - 1;
      t := AddAll(cfg, s, ticks, id);
      t := AddOne(cfg, t, id);
      assert ticks[..j] == ticks[..id] + [ticks[id]];
      assert With(s.members, ticks[..j]) == With(s.members, ticks[..id]) + {ticks[id]};
    }
  }

  /** The first `j` of them set the expiry and are done. */
  lemma {:induction false} FinishAll(cfg: Config, s: State, ticks: seq<real>, j: nat) returns (t: State)
    requires Reachable(cfg, s) && j <= |ticks|
    requires forall i: nat :: i < |ticks| ==> i in s.checks && s.checks[i] == Added(ticks[i])
    ensures Reachable(cfg, t) && t == s.(checks := t.checks, expires := t.expires)
    ensures j > 0 ==> t.expires == if s.members == {} then None else Some(s.clock + cfg.window + 1.0)
    ensures forall id: nat :: id in t.checks <==> id in s.checks && j <= id
    ensures forall id: nat :: id in t.checks ==> t.checks[id] == s.checks[id]
  {
    hide Reachable;
    t := s;
    if j > 0 {
      var id := j - 1;
      t := FinishAll(cfg, s, ticks, id);
      OneMore(cfg, t, SetExpiry(id, s.clock));
      t := Step(cfg, t, SetExpiry(id, s.clock));
    }
  }

  /** Checks that begin together are all let in, before any of them adds. */
  lemma Crowd(cfg: Config, s: State, ticks: seq<real>) returns (t: State)
    requires Reachable(cfg, s) && s.checks == map[] && Coming(cfg, s, ticks) && |ticks| <= cfg.flights
    requires |s.members| < cfg.requests && (s.members == {} ==> s.expires == None)
    ensures Reachable(cfg, t)
    ensures t == s.(checks := t.checks, log := s.log + ticks, clock := Later(s.clock, ticks))
    ensures forall id: nat :: id in t.checks <==> id < |ticks|
    ensures forall i: nat :: i < |ticks| ==> t.checks[i] == Admitted(ticks[i])
  {
    assert forall i: nat, m :: i < |ticks| && m in s.members ==> ticks[i] - cfg.window < m;
    hide Reachable, Coming, Later;
    t := Wait(cfg, s, ticks);
    t := Decide(cfg, t, ticks, |ticks|);
    assert ticks[..|ticks|] == ticks;
  }

  /** Nothing is in flight; any key there is has been renewed by now. */
  ghost predicate Idle(cfg: Config, s: State, members: set<real>, log: seq<real>, clock: real) {
    && Reachable(cfg, s) && s.checks == map[] && s.members == members && s.log == log && s.clock == clock
    && s.expires == if members == {} then None else Some(clock + cfg.window + 1.0)
  }

  /** A crowd that then adds and finishes. */
  lemma Round(cfg: Config, s: State, ticks: seq<real>) returns (t: State)
    requires Idle(cfg, s, s.members, s.log, s.clock) && Coming(cfg, s, ticks) && 1 <= |ticks| <= cfg.flights
    requires |s.members| < cfg.requests
    ensures Idle(cfg, t, With(s.members, ticks), s.log + ticks, ticks[|ticks| - 1])
  {
    hide Reachable, Coming, With;
    t := Crowd(cfg, s, ticks);
    assert ticks[..|ticks|] == ticks;
    t := AddAll(cfg, t, ticks, |ticks|);
    t := FinishAll(cfg, t, ticks, |ticks|);
    assert t.checks == map[];
  }

  /** Readings of one window, growing. */
  ghost predicate Rising(cfg: Config, from: real, ticks: seq<real>) {
    && (forall i :: 0 <= i < |ticks| ==> InWindow(cfg, from, ticks[i]))
    && (forall i, j :: 0 <= i < j < |ticks| ==> ticks[i] < ticks[j])
  }

  lemma {:induction false} MakeTicks(cfg: Config, from: real, low: real, n: nat) returns (ticks: seq<real>)
    requires from <= low < from + cfg.window
    ensures |ticks| == n && Rising(cfg, from, ticks)
    ensures forall i :: 0 <= i < n ==> low < ticks[i]
  {
    ticks := [];
    if n > 0 {
      var first := MakeTicks(cfg, from, low, n - 1);
      ticks := first + [(Later(low, first) + from + cfg.window) / 2.0];
    }
  }

  lemma {:induction false} WithSize(members: set<real>, ticks: seq<real>)
    requires forall i, m :: 0 <= i < |ticks| && m in members ==> m < ticks[i]
    requires forall i, j :: 0 <= i < j < |ticks| ==> ticks[i] < ticks[j]
    ensures |With(members, ticks)| == |members| + |ticks|
    ensures forall m :: m in With(members, ticks) <==> m in members || m in ticks
  {
    if ticks != [] {
      var before, last := ticks[..|ticks| - 1], ticks[|ticks| - 1];
      WithSize(members, before);
      assert ticks == before + [last];
      assert last !in With(members, before);
    }
  }

  lemma {:induction false} AllLetIn(cfg: Config, from: real, log: seq<real>, ticks: seq<real>)
    requires Rising(cfg, from, ticks)
    ensures LetIn(cfg, from, log + ticks) == LetIn(cfg, from, log) + |ticks|
  {
    if ticks == [] {
      assert log + ticks == log;
    } else {
      AllLetIn(cfg, from, log, ticks[..|ticks| - 1]);
      assert (log + ticks)[..|log + ticks| - 1] == log + ticks[..|ticks| - 1];
    }
  }

  /** Readings of one window come in order, and none is old enough for another to trim it. */
  lemma WithinWindow(cfg: Config, from: real, ticks: seq<real>, k: nat, i: nat, m: real)
    requires Rising(cfg, from, ticks) && k <= i < |ticks| && m in ticks[..k]
    ensures ticks[i] - cfg.window < m < ticks[i]
  {
    var j :| 0 <= j < k && m == ticks[..k][j];
    assert InWindow(cfg, from, ticks[j]) && InWindow(cfg, from, ticks[i]);
  }

  /** They begin after the clock, in order. */
  lemma RestInOrder(cfg: Config, s: State, ticks: seq<real>, k: nat)
    requires Coming(cfg, s, ticks) && k <= |ticks|
    ensures forall i: nat :: i < |ticks[k..]| ==> Later(s.clock, ticks[..k]) <= ticks[k..][i]
    ensures forall i, j :: 0 <= i < j < |ticks[k..]| ==> ticks[k..][i] < ticks[k..][j]
  {
  }

  /** After the first `k` of some readings of a window the others are still to come. */
  lemma ComingRest(cfg: Config, from: real, s: State, ticks: seq<real>, k: nat, t: State)
    requires Rising(cfg, from, ticks) && Coming(cfg, s, ticks) && s.members == {} && k <= |ticks|
    requires t.members == With({}, ticks[..k]) && t.clock == Later(s.clock, ticks[..k])
    ensures Coming(cfg, t, ticks[k..]) && |t.members| == k
  {
    WithSize({}, ticks[..k]);
    RestInOrder(cfg, s, ticks, k);
    hide With, Later, Rising;
    var rest := ticks[k..];
    forall i: nat, m | i < |rest| && m in t.members ensures rest[i] - cfg.window < m < rest[i] {
      WithinWindow(cfg, from, ticks, k, k + i, m);
    }
  }

  lemma ComingPart(cfg: Config, s: State, ticks: seq<real>, k: nat)
    requires Coming(cfg, s, ticks) && k <= |ticks|
    ensures Coming(cfg, s, ticks[..k])
  {
  }

  lemma OneTick(s: State, ticks: seq<real>, k: nat)
    requires k < |ticks|
    ensures var one := ticks[k..][..1];
            && one == [ticks[k]] && Later(s.clock, ticks[..k + 1]) == ticks[k]
            && s.log + ticks[..k] + one == s.log + ticks[..k + 1]
            && With(With({}, ticks[..k]), one) == With({}, ticks[..k + 1])
  {
    var one := ticks[k..][..1];
    assert one == [ticks[k]] && one[..0] == [];
    assert ticks[..k + 1][..k] == ticks[..k] && ticks[..k + 1] == ticks[..k] + one;
    Pieces(s.log, ticks[..k + 1], k);
    assert ticks[..k + 1][k..] == one;
    assert With(With({}, ticks[..k]), one) == With({}, ticks[..k]) + {ticks[k]};
  }

  /** One check after the other, each let in and finished: the first `k`. */
  lemma {:induction false} OneByOne(cfg: Config, from: real, s: State, ticks: seq<real>, k: nat)
    returns (t: State)
    requires Idle(cfg, s, {}, s.log, s.clock) && Rising(cfg, from, ticks) && Coming(cfg, s, ticks)
    requires k <= |ticks| && k <= cfg.requests && cfg.flights >= 1
    ensures Idle(cfg, t, With({}, ticks[..k]), s.log + ticks[..k], Later(s.clock, ticks[..k]))
  {
    t := s;
    assert With({}, ticks[..0]) == {} && Later(s.clock, ticks[..0]) == s.clock && s.log + ticks[..0] == s.log;
    hide With, Later, Rising, Coming, Reachable;
    if k > 0 {
      var id := k - 1;
      var u := OneByOne(cfg, from, s, ticks, id);
      ComingRest(cfg, from, s, ticks, id, u);
      ComingPart(cfg, u, ticks[id..], 1);
      OneTick(s, ticks, id);
      t := Round(cfg, u, ticks[id..][..1]);
    }
  }

  lemma Pieces(log: seq<real>, ticks: seq<real>, n: nat)
    requires n <= |ticks|
    ensures log + ticks[..n] + ticks[n..] == log + ticks
  {
    assert ticks[..n] + ticks[n..] == ticks;
  }

  /** All but the last one by one, then a crowd: the set is as large as it can be. */
  lemma Overfill(cfg: Config, from: real, s: State, ticks: seq<real>) returns (t: State)
    requires Idle(cfg, s, {}, s.log, s.clock) && Rising(cfg, from, ticks) && Coming(cfg, s, ticks)
    requires cfg.requests >= 1 && cfg.flights >= 1 && |ticks| == cfg.requests + cfg.flights - 1
    ensures Idle(cfg, t, With({}, ticks), s.log + ticks, ticks[|ticks| - 1])
  {
    var n := cfg.requests - 1;
    var u := OneByOne(cfg, from, s, ticks, n);
    assert u.members == With({}, ticks[..n]) && u.log == s.log + ticks[..n];
    ComingRest(cfg, from, s, ticks, n, u);
    var crowd := ticks[n..];
    assert crowd[|crowd| - 1] == ticks[|ticks| - 1];
    WithJoin({}, ticks, n);
    Pieces(s.log, ticks, n);
    hide Rising, Coming, With, Reachable;
    t := Round(cfg, u, crowd);
  }

  lemma {:induction false} WithJoin(members: set<real>, ticks: seq<real>, n: nat)
    requires n <= |ticks|
    ensures With(With(members, ticks[..n]), ticks[n..]) == With(members, ticks)
  {
    if n == |ticks| {
      assert ticks[..n] == ticks && ticks[n..] == [];
    } else {
      var before, last := ticks[..|ticks| - 1], ticks[|ticks| - 1];
      WithJoin(members, before, n);
      assert before[..n] == ticks[..n] && ticks[n..][..|ticks[n..]| - 1] == before[n..];
    }
  }

  lemma EmptyIdle(cfg: Config)
    ensures Idle(cfg, EMPTY, {}, [], 0.0)
  {
    var none: seq<Event> := [];
    assert LegalRun(cfg, EMPTY, none) && Run(cfg, EMPTY, none) == EMPTY;
  }

  lemma Start(cfg: Config, from: real, low: real, n: nat) returns (ticks: seq<real>)
    requires 0.0 <= from <= low < from + cfg.window
    ensures |ticks| == n && Rising(cfg, from, ticks) && Idle(cfg, EMPTY, {}, [], 0.0) && Coming(cfg, EMPTY, ticks)
  {
    EmptyIdle(cfg);
    ticks := MakeTicks(cfg, from, low, n);
    assert forall i :: 0 <= i < n ==> InWindow(cfg, from, ticks[i]);
  }

  /** The bound on the set is exact: for every limit and number of flights some run reaches it. */
  lemma OverrunHappens(cfg: Config)
    requires cfg.window > 0.0 && cfg.requests >= 1 && cfg.flights >= 1
    ensures exists events :: LegalRun(cfg, EMPTY, events)
                             && |Run(cfg, EMPTY, events).members| == cfg.requests + cfg.flights - 1
  {
    var ticks := Start(cfg, 0.0, 0.0, cfg.requests + cfg.flights - 1);
    var s := Overfill(cfg, 0.0, EMPTY, ticks);
    WithSize({}, ticks);
    hide LegalRun, Run;
  }

  /** A check that comes a window later trims all members. */
  lemma TrimmedAway(cfg: Config, s: State, id: nat) returns (t: State)
    requires Reachable(cfg, s) && id !in s.checks && |s.checks| < cfg.flights && cfg.window > 0.0
    requires forall m :: m in s.members ==> 0.0 <= m <= s.clock
    requires forall i :: i in s.checks ==> s.checks[i].now <= s.clock
    ensures Reachable(cfg, t) && t.members == {} && t.expires == None && t.log == s.log
    ensures forall i :: i in s.checks ==> i in t.checks && t.checks[i] == s.checks[i]
  {
    hide Reachable;
    var at := s.clock + cfg.window;
    OneMore(cfg, s, Begin(id, at));
    var u := Step(cfg, s, Begin(id, at));
    OneMore(cfg, u, Trim(id));
    t := Step(cfg, u, Trim(id));
    assert t.members == {};
  }

  /** Every member disappears while checks are waiting: one that comes later trims them, or the key
      expires. */
  lemma Emptied(cfg: Config, s: State, ticks: seq<real>) returns (t: State)
    requires Idle(cfg, s, s.members, s.log, s.clock) && Coming(cfg, s, ticks) && |ticks| <= cfg.flights
    requires s.members != {} && (cfg.calm ==> |ticks| < cfg.flights) && cfg.window > 0.0
    requires forall m :: m in s.members ==> 0.0 <= m <= s.clock
    ensures Reachable(cfg, t) && t.members == {} && t.expires == None && t.log == s.log
    ensures forall i: nat :: i < |ticks| ==> i in t.checks && t.checks[i] == Started(ticks[i])
  {
    var u := Wait(cfg, s, ticks);
    assert s.clock <= u.clock && forall i: nat :: i < |ticks| ==> ticks[i] <= u.clock;
    hide Reachable, Coming, Later;
    if cfg.calm {
      t := TrimmedAway(cfg, u, |ticks|);
    } else {
      var at := u.clock + cfg.window + 1.0;
      OneMore(cfg, u, Vanish(at));
      t := Step(cfg, u, Vanish(at));
    }
  }

  /** From an empty set: fill it beyond the limit, let others wait until it is empty again, and let
      them in. */
  lemma FillTwice(cfg: Config, from: real, s: State, ticks: seq<real>) returns (t: State)
    requires cfg.requests >= 1 && cfg.flights >= 1 && cfg.window > 0.0 && from >= 0.0
    requires Idle(cfg, s, {}, s.log, s.clock) && Rising(cfg, from, ticks) && Coming(cfg, s, ticks)
    requires |ticks| == cfg.requests + cfg.flights - 1 + if cfg.calm then cfg.flights - 1 else cfg.flights
    ensures Reachable(cfg, t) && t.log == s.log + ticks
  {
    var n := cfg.requests + cfg.flights - 1;
    var first, rest := ticks[..n], ticks[n..];
    ComingPart(cfg, s, ticks, n);
    var u := Overfill(cfg, from, s, first);
    ComingRest(cfg, from, s, ticks, n, u);
    OverfilledSet(cfg, from, first);
    Pieces(s.log, ticks, n);
    hide Rising, With, Coming, Reachable;
    var v := Emptied(cfg, u, rest);
    assert rest[..|rest|] == rest;
    t := Decide(cfg, v, rest, |rest|);
  }

  lemma OverfilledSet(cfg: Config, from: real, ticks: seq<real>)
    requires Rising(cfg, from, ticks) && ticks != [] && from >= 0.0
    ensures With({}, ticks) != {}
    ensures forall m :: m in With({}, ticks) ==> 0.0 <= m <= ticks[|ticks| - 1]
  {
    WithSize({}, ticks);
    assert forall i :: 0 <= i < |ticks| ==> InWindow(cfg, from, ticks[i]) && ticks[i] <= ticks[|ticks| - 1];
    hide With;
    assert ticks[0] in ticks;
  }

  /** A crowd is let in on top of a member that was there before the window, and the key, renewed
      before the window as well, expires before any of them renews it. */
  lemma LoseCrowd(cfg: Config, from: real) returns (s: State, crowd: seq<real>)
    requires cfg.requests >= 2 && cfg.flights >= 1 && 1.0 < from < cfg.window && !cfg.calm
    ensures Idle(cfg, s, {}, [0.0] + crowd, cfg.window + 1.0)
    ensures Rising(cfg, from, crowd) && |crowd| == cfg.flights
  {
    var first := OldMember(cfg);
    crowd := MakeTicks(cfg.(window := cfg.window - from), from, from, cfg.flights);
    assert forall i :: 0 <= i < |crowd| ==> InWindow(cfg.(window := cfg.window - from), from, crowd[i]);
    assert Coming(cfg, first, crowd);
    assert Later(0.0, crowd) < cfg.window;
    hide Reachable, Coming, Rising, Later, With;
    var promised := Crowd(cfg, first, crowd);
    var added := AddAll(cfg, promised, crowd, |crowd|);
    s := Lapse(cfg, added, crowd);
  }

  /** The key expires before any of those who added renews it. */
  lemma Lapse(cfg: Config, s: State, ticks: seq<real>) returns (t: State)
    requires Reachable(cfg, s) && !cfg.calm && s.expires == Some(cfg.window + 1.0) && s.clock <= cfg.window
    requires (forall i: nat :: i < |ticks| ==> i in s.checks && s.checks[i] == Added(ticks[i])) && ticks != []
    requires forall id: nat :: id in s.checks <==> id < |ticks|
    ensures Idle(cfg, t, {}, s.log, cfg.window + 1.0)
  {
    hide Reachable;
    var at := cfg.window + 1.0;
    OneMore(cfg, s, Vanish(at));
    t := FinishAll(cfg, Step(cfg, s, Vanish(at)), ticks, |ticks|);
    assert t.checks == map[];
  }

  lemma OldMember(cfg: Config) returns (s: State)
    requires cfg.requests >= 2 && cfg.flights >= 1
    ensures Idle(cfg, s, {0.0}, [0.0], 0.0)
  {
    EmptyIdle(cfg);
    var one := [0.0];
    s := Round(cfg, EMPTY, one);
    assert one[..0] == [] && With({}, one) == {0.0} && [] + one == one;
  }

  /** The bounds are exact, the one for keys that expire if the window is longer than the second by which
      keys outlive it. */
  lemma AdmissionsHappen(cfg: Config)
    requires cfg.requests >= 1 && cfg.flights >= 1 && cfg.window > 0.0
    requires cfg.calm || cfg.requests == 1 || cfg.window > 1.0
    ensures exists s, from :: Reachable(cfg, s) && LetIn(cfg, from, s.log) == Most(cfg)
  {
    hide Reachable;
    var n := cfg.requests + cfg.flights - 1 + if cfg.calm then cfg.flights - 1 else cfg.flights;
    if cfg.calm || cfg.requests == 1 {
      var ticks := Start(cfg, 0.0, 0.0, n);
      var s := FillTwice(cfg, 0.0, EMPTY, ticks);
      AllLetIn(cfg, 0.0, [], ticks);
      assert Reachable(cfg, s) && LetIn(cfg, 0.0, s.log) == Most(cfg);
    } else {
      var from := (1.0 + cfg.window) / 2.0;
      var s, crowd := LoseCrowd(cfg, from);
      var ticks := MakeTicks(cfg, from, cfg.window + 1.0, n);
      var t := FillTwice(cfg, from, s, ticks);
      AllLetIn(cfg, from, [0.0], crowd);
      AllLetIn(cfg, from, s.log, ticks);
      assert [0.0][..0] == [] && LetIn(cfg, from, [0.0]) == 0;
      assert Reachable(cfg, t) && LetIn(cfg, from, t.log) == Most(cfg);
    }
  }

  // ---------- checks with one reading ----------

  /** One more check at reading 0, alone. */
  lemma OneTurn(cfg: Config, s: State) returns (t: State)
    requires cfg.requests >= 2 && cfg.flights >= 1 && cfg.window > 0.0 && !cfg.apart
    requires Reachable(cfg, s) && s.checks == map[] && s.members <= {0.0} && s.clock == 0.0
    ensures Reachable(cfg, t) && t.checks == map[] && t.members <= {0.0} && t.clock == 0.0 && t.log == s.log + [0.0]
  {
    hide Reachable;
    SubsetSize(s.members, {0.0});
    OneMore(cfg, s, Begin(0, 0.0));
    t := Step(cfg, s, Begin(0, 0.0));
    OneMore(cfg, t, Trim(0));
    t := Step(cfg, t, Trim(0));
    assert t.members == s.members;
    OneMore(cfg, t, Card(0));
    t := Step(cfg, t, Card(0));
    OneMore(cfg, t, Add(0));
    t := Step(cfg, t, Add(0));
    OneMore(cfg, t, SetExpiry(0, 0.0));
    t := Step(cfg, t, SetExpiry(0, 0.0));
    assert t.checks == map[];
  }

  /** With a limit above 1, checks that all read the same time add one and the same member: one after
      the other, any number of them is let in. */
  lemma {:induction false} OneReading(cfg: Config, n: nat) returns (s: State)
    requires cfg.requests >= 2 && cfg.flights >= 1 && cfg.window > 0.0 && !cfg.apart
    ensures Reachable(cfg, s) && s.checks == map[] && s.members <= {0.0} && s.clock == 0.0
    ensures LetIn(cfg, 0.0, s.log) == n
  {
    if n == 0 {
      EmptyIdle(cfg);
      s := EMPTY;
    } else {
      var before := OneReading(cfg, n - 1);
      s := OneTurn(cfg, before);
      LetInMore(cfg, 0.0, before.log, 0.0);
    }
  }

  /** In every run at most `most` checks of any window are let in. */
  ghost predicate AtMost(cfg: Config, most: nat) {
    forall s, from :: Reachable(cfg, s) ==> LetIn(cfg, from, s.log) <= most
  }

  /** So how many are let in is bounded at all if and only if the limit is 1 or no check has the
      reading of one it meets. */
  lemma AdmissionsBoundedIff(cfg: Config)
    requires cfg.requests >= 1 && cfg.flights >= 1 && cfg.window > 0.0
    ensures (exists most :: AtMost(cfg, most)) <==> cfg.requests == 1 || cfg.apart
    ensures AtMost(cfg, Most(cfg)) <==> cfg.requests == 1 || cfg.apart
  {
    if cfg.requests == 1 || cfg.apart {
      forall s, from | Reachable(cfg, s) ensures LetIn(cfg, from, s.log) <= Most(cfg) {
        AdmissionsBounded(cfg, s, from);
      }
      assert AtMost(cfg, Most(cfg));
    } else {
      forall most: nat ensures !AtMost(cfg, most) {
        var s := OneReading(cfg, most + 1);
      }
    }
  }
}
