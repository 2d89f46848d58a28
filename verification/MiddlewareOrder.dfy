/** The order of the middleware pipeline (app/core/api_integration/middleware.py): a main list and a
    list for each phase, all kept in execution order. */
module MiddlewareOrder {
  import opened Common

  datatype Phase = PreRequest | PostRequest | PreRouting | PostRouting | PreResponse | PostResponse | ErrorHandling

  const ALL_PHASES: set<Phase> :=
    {PreRequest, PostRequest, PreRouting, PostRouting, PreResponse, PostResponse, ErrorHandling}

  /** A middleware instance.  `id` is its identity: two instances are equal only if they are one. */
  datatype Middleware = Middleware(id: nat, name: string, order: int, phases: seq<Phase>, enabled: bool)

  /** The list with `m` before the first instance of a greater order. */
  function Insert(s: seq<Middleware>, m: Middleware): seq<Middleware> {
    if s == [] then [m]
    else if m.order < s[0].order then [m] + s
    else [s[0]] + Insert(s[1..], m)
  }

  ghost predicate Sorted(s: seq<Middleware>) {
    forall i, j :: 0 <= i < j < |s| ==> s[i].order <= s[j].order
  }

  type Test = Middleware -> bool

  function InPhase(p: Phase): Test { (m: Middleware) => p in m.phases }
  function NotNamed(name: string): Test { (m: Middleware) => m.name != name }
  function OfOrder(order: int): Test { (m: Middleware) => m.order == order }

  function Filter(s: seq<Middleware>, f: Test): seq<Middleware> {
    if s == [] then [] else (if f(s[0]) then [s[0]] else []) + Filter(s[1..], f)
  }

  // ---------- sorted insertion ----------

  lemma {:induction false} InsertMembers(s: seq<Middleware>, m: Middleware)
    ensures multiset(Insert(s, m)) == multiset(s) + multiset{m}
  {
    if s != [] {
      assert s == [s[0]] + s[1..];
      if m.order >= s[0].order {
        InsertMembers(s[1..], m);
      }
    }
  }

  lemma {:induction false} InsertSorted(s: seq<Middleware>, m: Middleware)
    requires Sorted(s)
    ensures Sorted(Insert(s, m))
  {
    if s != [] && m.order >= s[0].order {
      InsertSorted(s[1..], m);
      InsertMembers(s[1..], m);
      var rest := Insert(s[1..], m);
      forall x | x in rest ensures s[0].order <= x.order {
        assert x in multiset(rest);
        assert x == m || x in s[1..];
      }
    }
  }

  lemma {:induction false} FilterMembers(s: seq<Middleware>, f: Test)
    ensures forall m :: m in Filter(s, f) <==> m in s && f(m)
  {
    if s != [] {
      FilterMembers(s[1..], f);
      assert s == [s[0]] + s[1..];
    }
  }

  /** Inserting below every element puts the new one first. */
  lemma InsertFirst(s: seq<Middleware>, m: Middleware)
    requires forall x :: x in s ==> m.order < x.order
    ensures Insert(s, m) == [m] + s
  {
  }

  lemma FilterHead(s: seq<Middleware>, f: Test)
    requires s != []
    ensures Filter(s, f) == if f(s[0]) then [s[0]] + Filter(s[1..], f) else Filter(s[1..], f)
  {
  }

  lemma FilterCons(m: Middleware, s: seq<Middleware>, f: Test)
    ensures Filter([m] + s, f) == if f(m) then [m] + Filter(s, f) else Filter(s, f)
  {
    assert ([m] + s)[1..] == s;
  }

  lemma InsertCons(x: Middleware, s: seq<Middleware>, m: Middleware)
    requires m.order >= x.order
    ensures Insert([x] + s, m) == [x] + Insert(s, m)
  {
    assert ([x] + s)[1..] == s;
  }

  /** Insertion commutes with filtering, on sorted lists. */
  lemma {:induction false} InsertFilter(s: seq<Middleware>, m: Middleware, f: Test)
    requires Sorted(s)
    ensures Filter(Insert(s, m), f) == if f(m) then Insert(Filter(s, f), m) else Filter(s, f)
  {
    if s == [] {
      FilterCons(m, [], f);
      assert [m] + [] == [m];
    } else if m.order < s[0].order {
      FilterMembers(s, f);
      assert forall x :: x in s ==> m.order < x.order;
      InsertFirst(Filter(s, f), m);
      FilterCons(m, s, f);
    } else {
      InsertFilter(s[1..], m, f);
      FilterHead(s, f);
      FilterCons(s[0], Insert(s[1..], m), f);
      if f(s[0]) {
        InsertCons(s[0], Filter(s[1..], f), m);
      }
      assert Insert(s, m) == [s[0]] + Insert(s[1..], m);
      hide Filter, Insert, Sorted;
    }
  }

  lemma {:induction false} FiltersCommute(s: seq<Middleware>, f: Test, g: Test)
    ensures Filter(Filter(s, f), g) == Filter(Filter(s, g), f)
  {
    if s != [] {
      FiltersCommute(s[1..], f, g);
      FilterHead(s, f);
      FilterHead(s, g);
      FilterCons(s[0], Filter(s[1..], f), g);
      FilterCons(s[0], Filter(s[1..], g), f);
    }
  }

  lemma {:induction false} FilterSnoc(s: seq<Middleware>, m: Middleware, f: Test)
    ensures Filter(s + [m], f) == Filter(s, f) + if f(m) then [m] else []
  {
    if s == [] {
      assert [] + [m] == [m];
    } else {
      FilterSnoc(s[1..], m, f);
      assert (s + [m])[1..] == s[1..] + [m];
    }
  }

  lemma {:induction false} FilterSorted(s: seq<Middleware>, f: Test)
    requires Sorted(s)
    ensures Sorted(Filter(s, f))
  {
    if s != [] {
      FilterSorted(s[1..], f);
      FilterMembers(s[1..], f);
      FilterHead(s, f);
      forall x | x in Filter(s[1..], f) ensures s[0].order <= x.order {
        assert x in s[1..];
      }
    }
  }

  // ---------- the pipeline over a run ----------

  datatype Pipeline = Pipeline(main: seq<Middleware>, byPhase: map<Phase, seq<Middleware>>)

  datatype Op = Register(m: Middleware) | Unregister(name: string)

  ghost predicate AllPhases(byPhase: map<Phase, seq<Middleware>>) {
    forall p: Phase :: p in byPhase
  }

  lemma EveryPhase()
    ensures forall p: Phase :: p in ALL_PHASES
  {
    forall p: Phase ensures p in ALL_PHASES {
      assert p.PreRequest? || p.PostRequest? || p.PreRouting? || p.PostRouting?
          || p.PreResponse? || p.PostResponse? || p.ErrorHandling?;
    }
  }

  function Empty(): (r: Pipeline)
    ensures AllPhases(r.byPhase)
  {
    EveryPhase();
    Pipeline([], map p | p in ALL_PHASES :: [])
  }

  /** The phase lists after `m` is entered for `phases` in turn; a list that has it is left alone. */
  function EnterPhases(byPhase: map<Phase, seq<Middleware>>, m: Middleware, phases: seq<Phase>)
    : (r: map<Phase, seq<Middleware>>)
    requires AllPhases(byPhase)
    ensures AllPhases(r)
  {
    if phases == [] then byPhase
    else
      var before := EnterPhases(byPhase, m, phases[..|phases| - 1]);
      var p := phases[|phases| - 1];
      if m in before[p] then before else before[p := Insert(before[p], m)]
  }

  function Step(s: Pipeline, op: Op): (r: Pipeline)
    requires AllPhases(s.byPhase)
    ensures AllPhases(r.byPhase)
  {
    match op
    case Register(m) =>
      if m.enabled then Pipeline(Insert(s.main, m), EnterPhases(s.byPhase, m, m.phases)) else s
    case Unregister(name) =>
      Pipeline(Filter(s.main, NotNamed(name)), map p | p in s.byPhase :: Filter(s.byPhase[p], NotNamed(name)))
  }

  function Run(ops: seq<Op>): (r: Pipeline)
    ensures AllPhases(r.byPhase)
  {
    if ops == [] then Empty() else Step(Run(ops[..|ops| - 1]), ops[|ops| - 1])
  }

  /** The instances registered and not unregistered since, in the order of registration. */
  function Registered(ops: seq<Op>): seq<Middleware> {
    if ops == [] then []
    else
      var before := Registered(ops[..|ops| - 1]);
      match ops[|ops| - 1]
      case Register(m) => if m.enabled then before + [m] else before
      case Unregister(name) => Filter(before, NotNamed(name))
  }

  /** What is registered after one more operation: an enabled instance joins, a disabled one does not, and the
      instances of the name unregistered leave, no matter how many. */
  lemma StepMembers(s: Pipeline, op: Op)
    requires AllPhases(s.byPhase)
    ensures match op
            case Register(m) =>
              multiset(Step(s, op).main) == multiset(s.main) + if m.enabled then multiset{m} else multiset{}
            case Unregister(name) =>
              forall m :: multiset(Step(s, op).main)[m] == if m.name == name then 0 else multiset(s.main)[m]
    ensures op.Register? && !op.m.enabled ==> Step(s, op) == s
  {
    match op {
      case Register(m) =>
        InsertMembers(s.main, m);
      case Unregister(name) =>
        forall m
          ensures multiset(Filter(s.main, NotNamed(name)))[m] == if m.name == name then 0 else multiset(s.main)[m]
        {
          FilterCounts(s.main, NotNamed(name), m);
        }
    }
  }

  lemma {:induction false} FilterCounts(s: seq<Middleware>, f: Test, m: Middleware)
    ensures multiset(Filter(s, f))[m] == if f(m) then multiset(s)[m] else 0
  {
    if s != [] {
      FilterCounts(s[1..], f, m);
      FilterHead(s, f);
      assert s == [s[0]] + s[1..];
    }
  }

  /** `s` is `log` sorted stably: instances of equal order stand in the order of `log`. */
  ghost predicate StableSort(s: seq<Middleware>, log: seq<Middleware>) {
    Sorted(s) && forall order :: Filter(s, OfOrder(order)) == Filter(log, OfOrder(order))
  }

  /** Insertion after all of an order. */
  lemma InsertAmongEqual(s: seq<Middleware>, m: Middleware)
    requires forall x :: x in s ==> x.order == m.order
    ensures Insert(s, m) == s + [m]
  {
    if s != [] {
      InsertAmongEqual(s[1..], m);
    }
  }

  lemma InsertStable(s: seq<Middleware>, log: seq<Middleware>, m: Middleware)
    requires StableSort(s, log)
    ensures StableSort(Insert(s, m), log + [m])
  {
    InsertSorted(s, m);
    forall order ensures Filter(Insert(s, m), OfOrder(order)) == Filter(log + [m], OfOrder(order)) {
      InsertFilter(s, m, OfOrder(order));
      FilterSnoc(log, m, OfOrder(order));
      if m.order == order {
        FilterMembers(s, OfOrder(order));
        InsertAmongEqual(Filter(s, OfOrder(order)), m);
      }
    }
  }

  lemma FilterStable(s: seq<Middleware>, log: seq<Middleware>, f: Test)
    requires StableSort(s, log)
    ensures StableSort(Filter(s, f), Filter(log, f))
  {
    FilterSorted(s, f);
    forall order ensures Filter(Filter(s, f), OfOrder(order)) == Filter(Filter(log, f), OfOrder(order)) {
      FiltersCommute(s, f, OfOrder(order));
      FiltersCommute(log, f, OfOrder(order));
    }
  }

  /** After any run of registrations and unregistrations the main list is the registered instances,
      stably sorted by order. */
  lemma {:induction false} MainListIsStableSort(ops: seq<Op>)
    ensures StableSort(Run(ops).main, Registered(ops))
  {
    if ops != [] {
      var before := ops[..|ops| - 1];
      MainListIsStableSort(before);
      match ops[|ops| - 1] {
        case Register(m) => InsertStable(Run(before).main, Registered(before), m);
        case Unregister(name) => FilterStable(Run(before).main, Registered(before), NotNamed(name));
      }
    }
  }

  /** A stable sort is determined by what it sorts. */
  lemma {:induction false} StableSortUnique(s: seq<Middleware>, t: seq<Middleware>, log: seq<Middleware>)
    requires StableSort(s, log) && StableSort(t, log)
    ensures s == t
  {
    if s == [] {
      if t != [] {
        FilterMembers(t, OfOrder(t[0].order));
        FilterMembers(s, OfOrder(t[0].order));
        assert false;
      }
    } else {
      SameHead(s, t, log);
      forall o ensures Filter(s[1..], OfOrder(o)) == Filter(t[1..], OfOrder(o)) {
        assert Filter(s, OfOrder(o)) == Filter(log, OfOrder(o)) == Filter(t, OfOrder(o));
        FilterHead(s, OfOrder(o));
        FilterHead(t, OfOrder(o));
        TailsEqual(s[0], Filter(s[1..], OfOrder(o)), Filter(t[1..], OfOrder(o)));
      }
      StableSortUnique(s[1..], t[1..], s[1..]);
      assert s == [s[0]] + s[1..] && t == [t[0]] + t[1..];
    }
  }

  lemma TailsEqual(m: Middleware, s: seq<Middleware>, t: seq<Middleware>)
    ensures [m] + s == [m] + t ==> s == t
  {
    assert ([m] + s)[1..] == s && ([m] + t)[1..] == t;
  }

  lemma SameHead(s: seq<Middleware>, t: seq<Middleware>, log: seq<Middleware>)
    requires StableSort(s, log) && StableSort(t, log) && s != []
    ensures t != [] && s[0] == t[0]
  {
    FilterMembers(s, OfOrder(s[0].order));
    FilterMembers(t, OfOrder(s[0].order));
    assert s[0] in Filter(t, OfOrder(s[0].order));
    FilterMembers(s, OfOrder(t[0].order));
    FilterMembers(t, OfOrder(t[0].order));
    assert t[0] in t;
    assert t[0] in Filter(s, OfOrder(t[0].order));
    FilterHead(s, OfOrder(s[0].order));
    FilterHead(t, OfOrder(s[0].order));
    assert Filter(s, OfOrder(s[0].order))[0] == s[0];
    assert Filter(t, OfOrder(s[0].order))[0] == t[0];
  }

  // ---------- the phase lists ----------

  /** Each phase list is the main list filtered to the phase. */
  ghost predicate PhasesMatch(s: Pipeline)
    requires AllPhases(s.byPhase)
  {
    forall p: Phase :: s.byPhase[p] == Filter(s.main, InPhase(p))
  }

  /** A list that does not have `m` gets it exactly once, however often the phase is named. */
  lemma {:induction false} EnterOnce(byPhase: map<Phase, seq<Middleware>>, m: Middleware, phases: seq<Phase>, p: Phase)
    requires AllPhases(byPhase)
    ensures EnterPhases(byPhase, m, phases)[p]
         == if p in phases && m !in byPhase[p] then Insert(byPhase[p], m) else byPhase[p]
  {
    if phases != [] {
      var before := phases[..|phases| - 1];
      EnterOnce(byPhase, m, before, p);
      InsertMembers(byPhase[p], m);
      assert m in multiset(Insert(byPhase[p], m));
      assert phases == before + [phases[|phases| - 1]];
    }
  }

  /** A registration keeps the phase lists in step with the main list exactly when the instance is
      not registered already (or is disabled, or executes in no phase): a second registration enters
      the main list again but no phase list. */
  lemma RegisterKeepsPhasesIff(s: Pipeline, m: Middleware)
    requires AllPhases(s.byPhase) && Sorted(s.main) && PhasesMatch(s)
    ensures PhasesMatch(Step(s, Register(m))) <==> !m.enabled || m.phases == [] || m !in s.main
  {
    if m.enabled {
      forall p: Phase
        ensures Step(s, Register(m)).byPhase[p]
             == (if p in m.phases && m !in s.main then Insert(s.byPhase[p], m) else s.byPhase[p])
        ensures Filter(Insert(s.main, m), InPhase(p)) == if p in m.phases then Insert(s.byPhase[p], m) else s.byPhase[p]
      {
        EnterOnce(s.byPhase, m, m.phases, p);
        InsertFilter(s.main, m, InPhase(p));
        FilterMembers(s.main, InPhase(p));
      }
      if m.phases != [] && m in s.main {
        var p := m.phases[0];
        InsertMembers(s.byPhase[p], m);
        assert multiset(Insert(s.byPhase[p], m))[m] == multiset(s.byPhase[p])[m] + 1;
        assert Step(s, Register(m)).byPhase[p] != Filter(Insert(s.main, m), InPhase(p));
      }
    }
  }

  lemma UnregisterKeepsPhases(s: Pipeline, name: string)
    requires AllPhases(s.byPhase) && PhasesMatch(s)
    ensures PhasesMatch(Step(s, Unregister(name)))
  {
    forall p: Phase ensures Filter(s.byPhase[p], NotNamed(name)) == Filter(Filter(s.main, NotNamed(name)), InPhase(p)) {
      FiltersCommute(s.main, InPhase(p), NotNamed(name));
    }
  }

  /** No instance is registered while it is registered. */
  ghost predicate EachOnce(ops: seq<Op>) {
    forall i :: 0 <= i < |ops| && ops[i].Register? ==> ops[i].m !in Registered(ops[..i])
  }

  lemma RegisteredAreMain(ops: seq<Op>, m: Middleware)
    ensures m in Run(ops).main <==> m in Registered(ops)
  {
    MainListIsStableSort(ops);
    FilterMembers(Run(ops).main, OfOrder(m.order));
    FilterMembers(Registered(ops), OfOrder(m.order));
  }

  /** After any run that registers each instance once, every phase list is the main list filtered to
      the phase, and so the registered instances of the phase, stably sorted by order. */
  lemma {:induction false} PhaseListsFollowMainList(ops: seq<Op>)
    requires EachOnce(ops)
    ensures PhasesMatch(Run(ops))
    ensures forall p: Phase :: StableSort(Run(ops).byPhase[p], Filter(Registered(ops), InPhase(p)))
  {
    if ops != [] {
      var before, n := ops[..|ops| - 1], |ops| - 1;
      assert forall i :: 0 <= i < n ==> before[..i] == ops[..i];
      PhaseListsFollowMainList(before);
      MainListIsStableSort(before);
      match ops[n] {
        case Register(m) =>
          RegisteredAreMain(before, m);
          RegisterKeepsPhasesIff(Run(before), m);
        case Unregister(name) => UnregisterKeepsPhases(Run(before), name);
      }
    }
    MainListIsStableSort(ops);
    forall p: Phase ensures StableSort(Run(ops).byPhase[p], Filter(Registered(ops), InPhase(p))) {
      FilterStable(Run(ops).main, Registered(ops), InPhase(p));
    }
  }

  lemma InsertUnfolds(s: seq<Middleware>, i: nat, m: Middleware)
    requires i < |s|
    ensures s[..i] + Insert(s[i..], m)
         == if m.order < s[i].order then s[..i] + [m] + s[i..] else s[..i + 1] + Insert(s[i + 1..], m)
  {
    assert s[i..][1..] == s[i + 1..] && s[..i + 1] == s[..i] + [s[i]];
    assert Insert(s[i..], m) == if m.order < s[i].order then [m] + s[i..] else [s[i]] + Insert(s[i + 1..], m);
    hide Insert;
    Regroup(s[..i], [m], s[i..]);
    Regroup(s[..i], [s[i]], Insert(s[i + 1..], m));
  }

  class MiddlewareManager {
    var middleware: seq<Middleware>
    var byPhase: map<Phase, seq<Middleware>>

    ghost function Now(): Pipeline
      reads this
    {
      Pipeline(middleware, byPhase)
    }

    ghost predicate Valid()
      reads this
    {
      AllPhases(byPhase)
    }

    constructor ()
      ensures Valid() && Now() == Empty()
    {
      EveryPhase();
      middleware := [];
      byPhase := map p | p in ALL_PHASES :: [];
    }

    static method InsertInOrder(s: seq<Middleware>, m: Middleware) returns (r: seq<Middleware>)
      ensures r == Insert(s, m)
    {
      for i := 0 to |s|
        invariant Insert(s, m) == s[..i] + Insert(s[i..], m)
      {
        InsertUnfolds(s, i, m);
        if m.order < s[i].order {
          return s[..i] + [m] + s[i..];
        }
      }
      r := s + [m];
    }

    method RegisterMiddleware(m: Middleware) returns (ok: bool)
      requires Valid()
      modifies this
      ensures Valid() && Now() == Step(old(Now()), Register(m)) && ok == m.enabled
    {
      if !m.enabled {
        return false;
      }
      middleware := InsertInOrder(middleware, m);
      for i := 0 to |m.phases|
        invariant Valid() && middleware == Insert(old(middleware), m)
        invariant byPhase == EnterPhases(old(byPhase), m, m.phases[..i])
      {
        var p := m.phases[i];
        assert m.phases[..i + 1][..i] == m.phases[..i];
        if m !in byPhase[p] {
          var entered := InsertInOrder(byPhase[p], m);
          byPhase := byPhase[p := entered];
        }
      }
      assert m.phases[..|m.phases|] == m.phases;
      ok := true;
    }

    method UnregisterMiddleware(name: string) returns (ok: bool)
      requires Valid()
      modifies this
      ensures Valid() && Now() == Step(old(Now()), Unregister(name)) && ok
    {
      middleware := Filter(middleware, NotNamed(name));
      byPhase := map p | p in byPhase :: Filter(byPhase[p], NotNamed(name));
      ok := true;
    }
  }
}
