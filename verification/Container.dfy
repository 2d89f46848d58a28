/** The dependency-injection container (app/core/container.py).

    The first half judges a resolution on the binding graph alone: `Judge` walks the
    constructor parameters with the caches frozen as they were when the walk began.
    The second half is the container itself, whose caches grow while it recurses; its
    methods are proved to reach exactly the verdict of the frozen walk.
 */
module Container {
  import opened Common

  type Service = string

  datatype Lifetime = Singleton | Transient | Scoped

  /** A parameter of a constructor or factory, `self` excluded. `*args`/`**kwargs`
      count as parameters with a default: a call may omit them. */
  datatype Param = Param(name: string, annotation: Option<Service>, hasDefault: bool)

  datatype Provider =
    | Instance(tag: nat)
    | Factory(params: seq<Param>)
    | Class(params: seq<Param>)

  datatype Binding = Binding(provider: Provider, lifetime: Lifetime)

  /** What a resolution needs to know: the bindings, and which services are cached. */
  datatype Graph = Graph(bindings: map<Service, Binding>, done: set<Service>) {
    /** A registered service that is handed out without calling anything. */
    predicate Settled(t: Service)
      requires t in bindings
    {
      t in done || bindings[t].provider.Instance?
    }
  }

  datatype Verdict = Fine | Missing | Cyclic | BadCall

  /** A class constructor tolerates a missing dependency when the parameter has a
      default; a factory never does. */
  predicate Passes(v: Verdict, tolerant: bool, p: Param) {
    v == Fine || (v == Missing && tolerant && p.hasDefault)
  }

  /** No parameter is left that the call can neither inject nor omit. */
  predicate Callable(params: seq<Param>) {
    forall p :: p in params && p.annotation.None? ==> p.hasDefault
  }

  function Judge(g: Graph, stack: set<Service>, t: Service): Verdict
    decreases |g.bindings.Keys - stack|, 0
  {
    if t in stack then Cyclic
    else if t !in g.bindings then Missing
    else if g.Settled(t) then Fine
    else
      assert g.bindings.Keys - (stack + {t}) == (g.bindings.Keys - stack) - {t};
      var p := g.bindings[t].provider;
      var v := JudgeParams(g, stack + {t}, p.Class?, p.params);
      if v == Fine && !Callable(p.params) then BadCall else v
  }

  function JudgeParams(g: Graph, stack: set<Service>, tolerant: bool, params: seq<Param>): Verdict
    decreases |g.bindings.Keys - stack|, |params|
  {
    if params == [] then Fine
    else if params[0].annotation.None? then JudgeParams(g, stack, tolerant, params[1..])
    else
      var v := Judge(g, stack, params[0].annotation.value);
      if Passes(v, tolerant, params[0]) then JudgeParams(g, stack, tolerant, params[1..]) else v
  }

  // ---------- a smaller stack changes nothing but a Cyclic verdict ----------

  lemma {:induction false} SmallerStack(g: Graph, small: set<Service>, big: set<Service>, t: Service)
    requires small <= big
    requires Judge(g, big, t) != Cyclic
    ensures Judge(g, small, t) == Judge(g, big, t)
    decreases |g.bindings.Keys - big|, 0
  {
    if t in g.bindings && !g.Settled(t) {
      assert g.bindings.Keys - (big + {t}) == (g.bindings.Keys - big) - {t};
      SmallerStackParams(g, small + {t}, big + {t}, g.bindings[t].provider.Class?, g.bindings[t].provider.params);
    }
  }

  lemma {:induction false} SmallerStackParams(g: Graph, small: set<Service>, big: set<Service>,
                                             tolerant: bool, params: seq<Param>)
    requires small <= big
    requires JudgeParams(g, big, tolerant, params) != Cyclic
    ensures JudgeParams(g, small, tolerant, params) == JudgeParams(g, big, tolerant, params)
    decreases |g.bindings.Keys - big|, |params|
  {
    if params != [] {
      if params[0].annotation.Some? {
        SmallerStack(g, small, big, params[0].annotation.value);
      }
      if params[0].annotation.None? || Passes(Judge(g, big, params[0].annotation.value), tolerant, params[0]) {
        SmallerStackParams(g, small, big, tolerant, params[1..]);
      }
    }
  }

  // ---------- the call chain recorded by the resolution stack ----------

  /** Every annotated parameter in `params` lets the walk go on. */
  predicate AllPass(g: Graph, stack: set<Service>, tolerant: bool, params: seq<Param>) {
    forall p :: p in params && p.annotation.Some? ==> Passes(Judge(g, stack, p.annotation.value), tolerant, p)
  }

  /** `t` is under construction below the services of `stack`, and its walk has come
      to the parameter that asks for `next`. */
  ghost predicate Demands(g: Graph, stack: set<Service>, t: Service, next: Service) {
    && t in g.bindings && !g.Settled(t)
    && var p := g.bindings[t].provider;
       exists i :: 0 <= i < |p.params| && p.params[i].annotation == Some(next)
                   && AllPass(g, stack + {t}, p.Class?, p.params[..i])
  }

  /** `chain` is a live resolution stack whose top is now asking for `t`. */
  ghost predicate Leads(g: Graph, chain: seq<Service>, t: Service) {
    chain == [] ||
    var below, top := chain[..|chain| - 1], chain[|chain| - 1];
    top !in below && Demands(g, Elems(below), top, t) && Leads(g, below, top)
  }

  /** If the parameters before `k` pass under one stack, then under any stack whose walk
      does not end Cyclic they pass too, and parameter `k` is reached. */
  lemma {:induction false} ReachesParam(g: Graph, common: set<Service>, one: set<Service>, other: set<Service>,
                                       tolerant: bool, params: seq<Param>, k: nat)
    requires k <= |params| && common <= one && common <= other
    requires AllPass(g, one, tolerant, params[..k])
    requires JudgeParams(g, other, tolerant, params) != Cyclic
    ensures AllPass(g, other, tolerant, params[..k])
    ensures JudgeParams(g, other, tolerant, params) == JudgeParams(g, other, tolerant, params[k..])
    decreases k
  {
    if k > 0 {
      ReachesParam(g, common, one, other, tolerant, params, k - 1) by {
        assert params[..k][..k - 1] == params[..k - 1];
        assert forall p :: p in params[..k - 1] ==> p in params[..k];
      }
      var p := params[k - 1];
      assert p == params[..k][k - 1] && p in params[..k];
      assert params[k - 1..][0] == p && params[k - 1..][1..] == params[k..];
      if p.annotation.Some? {
        SmallerStack(g, common, one, p.annotation.value);
        SmallerStack(g, common, other, p.annotation.value);
      }
      assert params[..k] == params[..k - 1] + [p];
    } else {
      assert params[k..] == params;
    }
  }

  /** A service that has come to ask for `next` is Cyclic wherever `next` is. */
  lemma DemandCycles(g: Graph, below: set<Service>, c: Service, next: Service, taken: set<Service>)
    requires Demands(g, below, c, next) && Judge(g, taken, next) == Cyclic
    ensures Judge(g, taken, c) == Cyclic
  {
    if Judge(g, taken, c) != Cyclic {
      var p := g.bindings[c].provider;
      var k :| 0 <= k < |p.params| && p.params[k].annotation == Some(next)
               && AllPass(g, below + {c}, p.Class?, p.params[..k]);
      ReachesParam(g, {c}, below + {c}, taken + {c}, p.Class?, p.params, k);
      if Judge(g, taken + {c}, next) != Cyclic {
        SmallerStack(g, taken, taken + {c}, next);
      }
      assert false;
    }
  }

  /** Every member of a live chain is Cyclic wherever the service it asks for is. */
  lemma {:induction false} ChainCloses(g: Graph, chain: seq<Service>, t: Service, taken: set<Service>)
    requires Leads(g, chain, t) && Judge(g, taken, t) == Cyclic
    ensures forall s :: s in chain ==> Judge(g, taken, s) == Cyclic
  {
    if chain != [] {
      var below, top := chain[..|chain| - 1], chain[|chain| - 1];
      DemandCycles(g, Elems(below), top, t, taken);
      ChainCloses(g, below, top, taken);
      assert chain == below + [top];
    }
  }

  /** If the walk of `t`, with `c` under construction, turns Cyclic only because of `extra`,
      it meets some member of `extra` while `c` is still under construction, and that meeting
      is itself not Cyclic without `extra`. */
  lemma {:induction false} MeetsExtra(g: Graph, stack: set<Service>, extra: set<Service>, t: Service, c: Service)
    returns (s: Service, at: set<Service>)
    requires t !in extra && c in stack + {t}
    requires Judge(g, stack, t) != Cyclic && Judge(g, stack + extra, t) == Cyclic
    ensures s in extra && c in at && Judge(g, at, s) != Cyclic
    decreases |g.bindings.Keys - stack|, 0
  {
    assert g.bindings.Keys - (stack + {t}) == (g.bindings.Keys - stack) - {t};
    assert stack + extra + {t} == stack + {t} + extra;
    s, at := MeetsExtraParams(g, stack + {t}, extra, g.bindings[t].provider.Class?, g.bindings[t].provider.params, c);
  }

  lemma {:induction false} MeetsExtraParams(g: Graph, stack: set<Service>, extra: set<Service>, tolerant: bool,
                                           params: seq<Param>, c: Service)
    returns (s: Service, at: set<Service>)
    requires c in stack
    requires JudgeParams(g, stack, tolerant, params) != Cyclic
    requires JudgeParams(g, stack + extra, tolerant, params) == Cyclic
    ensures s in extra && c in at && Judge(g, at, s) != Cyclic
    decreases |g.bindings.Keys - stack|, |params|
  {
    var p := params[0];
    if p.annotation.None? {
      s, at := MeetsExtraParams(g, stack, extra, tolerant, params[1..], c);
    } else {
      var a := p.annotation.value;
      if Judge(g, stack + extra, a) != Cyclic {
        SmallerStack(g, stack, stack + extra, a);
        s, at := MeetsExtraParams(g, stack, extra, tolerant, params[1..], c);
      } else if a in extra {
        s, at := a, stack;
      } else {
        s, at := MeetsExtra(g, stack, extra, a, c);
      }
    }
  }

  /** A service found sound on its own stays sound below any live chain that asks for it:
      so handing out a copy cached during the walk never hides a cycle. */
  lemma {:induction false} CacheHidesNothing(g: Graph, chain: seq<Service>, c: Service)
    requires Leads(g, chain, c) && c !in chain
    requires Judge(g, {}, c) == Fine
    ensures Judge(g, Elems(chain), c) == Fine
  {
    var stack := Elems(chain);
    if Judge(g, stack, c) == Cyclic {
      assert {} + stack == stack;
      var s, at := MeetsExtra(g, {}, stack, c, c);
      ChainCloses(g, chain, c, at);
      assert false;
    } else {
      SmallerStack(g, {}, stack, c);
    }
  }

  // ---------- what a Fine verdict means on the graph ----------

  ghost predicate AsksFor(g: Graph, t: Service, next: Service) {
    && t in g.bindings && !g.Settled(t)
    && exists p :: p in g.bindings[t].provider.params && p.annotation == Some(next)
  }

  ghost predicate IsPath(g: Graph, p: seq<Service>) {
    |p| > 0 && forall i :: 0 <= i < |p| - 1 ==> AsksFor(g, p[i], p[i + 1])
  }

  /** Every parameter is either annotated and required, or un-annotated with a default, as `*args` is. */
  ghost predicate RequiredOnly(g: Graph) {
    forall t, p :: t in g.bindings && !g.bindings[t].provider.Instance? && p in g.bindings[t].provider.params
      ==> (p.annotation.Some? <==> !p.hasDefault)
  }

  ghost predicate SoundPath(g: Graph, stack: set<Service>, p: seq<Service>) {
    Distinct(p) && forall s :: s in p ==> s in g.bindings && s !in stack
  }

  lemma {:induction false} FineMakesPathsSound(g: Graph, stack: set<Service>, p: seq<Service>)
    requires RequiredOnly(g) && IsPath(g, p) && Judge(g, stack, p[0]) == Fine
    ensures SoundPath(g, stack, p)
    decreases |p|
  {
    var t := p[0];
    if |p| > 1 {
      assert AsksFor(g, t, p[1]);
      var q :| q in g.bindings[t].provider.params && q.annotation == Some(p[1]);
      FineParam(g, stack + {t}, g.bindings[t].provider.Class?, g.bindings[t].provider.params, q);
      var rest := p[1..];
      assert forall i :: 0 <= i < |rest| ==> rest[i] == p[i + 1];
      FineMakesPathsSound(g, stack + {t}, rest);
      assert p == [t] + rest;
      assert t !in rest;
    }
  }

  lemma {:induction false} FineParam(g: Graph, stack: set<Service>, tolerant: bool, params: seq<Param>, q: Param)
    requires JudgeParams(g, stack, tolerant, params) == Fine
    requires q in params && q.annotation.Some? && !q.hasDefault
    ensures Judge(g, stack, q.annotation.value) == Fine
  {
    if params[0] != q {
      assert q in params[1..];
      FineParam(g, stack, tolerant, params[1..], q);
    }
  }

  lemma {:induction false} UnsoundPath(g: Graph, stack: set<Service>, t: Service) returns (p: seq<Service>)
    requires RequiredOnly(g) && Judge(g, stack, t) != Fine
    ensures IsPath(g, p) && p[0] == t && !SoundPath(g, stack, p)
    decreases |g.bindings.Keys - stack|, 0
  {
    if t in stack || t !in g.bindings {
      p := [t];
      assert t in p;
    } else {
      var params := g.bindings[t].provider.params;
      assert Callable(params);
      assert g.bindings.Keys - (stack + {t}) == (g.bindings.Keys - stack) - {t};
      var q := FailingParam(g, stack + {t}, g.bindings[t].provider.Class?, params);
      assert AsksFor(g, t, q.annotation.value);
      var rest := UnsoundPath(g, stack + {t}, q.annotation.value);
      p := [t] + rest;
      Prepend(g, stack, t, rest);
    }
  }

  lemma Prepend(g: Graph, stack: set<Service>, t: Service, rest: seq<Service>)
    requires IsPath(g, rest) && AsksFor(g, t, rest[0]) && !SoundPath(g, stack + {t}, rest)
    ensures IsPath(g, [t] + rest) && !SoundPath(g, stack, [t] + rest)
  {
    var p := [t] + rest;
    assert forall i :: 0 <= i < |rest| ==> p[i + 1] == rest[i];
    forall i | 0 <= i < |p| - 1
      ensures AsksFor(g, p[i], p[i + 1])
    {
      if i > 0 {
        assert AsksFor(g, rest[i - 1], rest[i - 1 + 1]);
      }
    }
    assert p[1..] == rest;
    if SoundPath(g, stack, p) {
      assert forall s :: s in rest ==> s in p;
      assert false;
    }
  }

  lemma {:induction false} FailingParam(g: Graph, stack: set<Service>, tolerant: bool, params: seq<Param>)
    returns (q: Param)
    requires JudgeParams(g, stack, tolerant, params) != Fine
    ensures q in params && q.annotation.Some? && Judge(g, stack, q.annotation.value) != Fine
  {
    if params[0].annotation.Some? && Judge(g, stack, params[0].annotation.value) != Fine {
      q := params[0];
    } else {
      q := FailingParam(g, stack, tolerant, params[1..]);
    }
  }

  /** With required parameters only, a service resolves exactly when every dependency path
      from it stays on registered services and never repeats one. */
  lemma FineIffAcyclicAndRegistered(g: Graph, t: Service)
    requires RequiredOnly(g)
    ensures Judge(g, {}, t) == Fine <==>
            forall p :: IsPath(g, p) && p[0] == t ==> Distinct(p) && forall s :: s in p ==> s in g.bindings
  {
    if Judge(g, {}, t) == Fine {
      forall p | IsPath(g, p) && p[0] == t
        ensures SoundPath(g, {}, p)
      {
        FineMakesPathsSound(g, {}, p);
      }
    } else {
      var p := UnsoundPath(g, {}, t);
      assert !SoundPath(g, {}, p);
    }
  }

  // ---------- resolving, with caches that grow on the way ----------

  /** An object: one registered ready-made, or the `handle`-th one the container constructed. */
  datatype Obj = Given(tag: nat) | Made(handle: nat)

  datatype Construction = Construction(service: Service, args: map<string, Obj>)

  datatype Outcome<+T> = Done(value: T) | NotFound(service: Service) | Circular(chain: seq<Service>) | TypeError {
    function Verdict(): Verdict {
      match this
      case Done(_) => Fine
      case NotFound(_) => Missing
      case Circular(_) => Cyclic
      case TypeError => BadCall
    }
  }

  type Bindings = map<Service, Binding>

  /** The two caches, and every object constructed so far, in order. */
  datatype Caches = Caches(singletons: map<Service, Obj>, scoped: map<Service, Obj>, built: seq<Construction>) {
    function Lookup(l: Lifetime, s: Service): Option<Obj> {
      match l
      case Singleton => if s in singletons then Some(singletons[s]) else None
      case Scoped => if s in scoped then Some(scoped[s]) else None
      case Transient => None
    }

    function Store(l: Lifetime, s: Service, o: Obj): Caches {
      match l
      case Singleton => this.(singletons := singletons[s := o])
      case Scoped => this.(scoped := scoped[s := o])
      case Transient => this
    }
  }

  function ResolveSpec(b: Bindings, stack: seq<Service>, c: Caches, t: Service): (Outcome<Obj>, Caches)
    decreases |b.Keys - Elems(stack)|, 1
  {
    if t in stack then (Circular(stack + [t]), c)
    else if t !in b then (NotFound(t), c)
    else match c.Lookup(b[t].lifetime, t)
      case Some(o) => (Done(o), c)
      case None =>
        var (r, c') := CreateSpec(b, stack, c, t);
        (r, if r.Done? then c'.Store(b[t].lifetime, t, r.value) else c')
  }

  function CreateSpec(b: Bindings, stack: seq<Service>, c: Caches, t: Service): (Outcome<Obj>, Caches)
    requires t in b && t !in stack
    decreases |b.Keys - Elems(stack)|, 0
  {
    var p := b[t].provider;
    if p.Instance? then (Done(Given(p.tag)), c)
    else
      assert b.Keys - Elems(stack + [t]) == (b.Keys - Elems(stack)) - {t};
      var (args, c') := ArgumentsSpec(b, stack + [t], c, p.Class?, p.params, map[]);
      match args
      case Done(kwargs) =>
        if Callable(p.params) then (Done(Made(|c'.built|)), c'.(built := c'.built + [Construction(t, kwargs)]))
        else (TypeError, c')
      case NotFound(s) => (NotFound(s), c')
      case Circular(chain) => (Circular(chain), c')
      case TypeError => (TypeError, c')
  }

  function ArgumentsSpec(b: Bindings, stack: seq<Service>, c: Caches, tolerant: bool, params: seq<Param>,
                         kwargs: map<string, Obj>): (Outcome<map<string, Obj>>, Caches)
    decreases |b.Keys - Elems(stack)|, 2 + |params|
  {
    if params == [] then (Done(kwargs), c)
    else if params[0].annotation.None? then ArgumentsSpec(b, stack, c, tolerant, params[1..], kwargs)
    else
      var (dependency, c') := ResolveSpec(b, stack, c, params[0].annotation.value);
      match dependency
      case Done(o) => ArgumentsSpec(b, stack, c', tolerant, params[1..], kwargs[params[0].name := o])
      case NotFound(s) =>
        if tolerant && params[0].hasDefault then ArgumentsSpec(b, stack, c', tolerant, params[1..], kwargs)
        else (NotFound(s), c')
      case Circular(chain) => (Circular(chain), c')
      case TypeError => (TypeError, c')
  }

  // ---------- a resolve only adds to the caches ----------

  /** From `c` to `d` the caches and the construction log only grow, and nothing on `stack`
      becomes cached. */
  ghost predicate Grows(stack: seq<Service>, c: Caches, d: Caches) {
    && c.built <= d.built
    && (forall s :: s in c.singletons ==> s in d.singletons && d.singletons[s] == c.singletons[s])
    && (forall s :: s in c.scoped ==> s in d.scoped && d.scoped[s] == c.scoped[s])
    && (forall s :: s in stack && s in d.singletons ==> s in c.singletons)
    && (forall s :: s in stack && s in d.scoped ==> s in c.scoped)
  }

  lemma {:induction false} ResolveGrows(b: Bindings, stack: seq<Service>, c: Caches, t: Service)
    ensures var (r, d) := ResolveSpec(b, stack, c, t);
            && Grows(stack, c, d)
            && (!r.Done? ==> Grows(stack + [t], c, d))
    decreases |b.Keys - Elems(stack)|, 1
  {
    if t !in stack && t in b && c.Lookup(b[t].lifetime, t).None? {
      CreateGrows(b, stack, c, t);
    }
  }

  lemma {:induction false} CreateGrows(b: Bindings, stack: seq<Service>, c: Caches, t: Service)
    requires t in b && t !in stack
    ensures Grows(stack + [t], c, CreateSpec(b, stack, c, t).1)
    decreases |b.Keys - Elems(stack)|, 0
  {
    var p := b[t].provider;
    if !p.Instance? {
      assert b.Keys - Elems(stack + [t]) == (b.Keys - Elems(stack)) - {t};
      ArgumentsGrow(b, stack + [t], c, p.Class?, p.params, map[]);
    }
  }

  lemma {:induction false} ArgumentsGrow(b: Bindings, stack: seq<Service>, c: Caches, tolerant: bool,
                                        params: seq<Param>, kwargs: map<string, Obj>)
    ensures Grows(stack, c, ArgumentsSpec(b, stack, c, tolerant, params, kwargs).1)
    decreases |b.Keys - Elems(stack)|, 2 + |params|
  {
    if params != [] {
      if params[0].annotation.None? {
        ArgumentsGrow(b, stack, c, tolerant, params[1..], kwargs);
      } else {
        var (dependency, d) := ResolveSpec(b, stack, c, params[0].annotation.value);
        ResolveGrows(b, stack, c, params[0].annotation.value);
        match dependency {
          case Done(o) => ArgumentsGrow(b, stack, d, tolerant, params[1..], kwargs[params[0].name := o]);
          case NotFound(_) =>
            if tolerant && params[0].hasDefault { ArgumentsGrow(b, stack, d, tolerant, params[1..], kwargs); }
          case _ =>
        }
      }
    }
  }

  // ---------- the verdict is the one of the frozen graph ----------

  function CachedServices(b: Bindings, c: Caches): set<Service> {
    set s | s in b && c.Lookup(b[s].lifetime, s).Some?
  }

  function Frozen(b: Bindings, c: Caches): Graph {
    Graph(b, CachedServices(b, c))
  }

  /** `g` was frozen earlier: whatever has been cached since is sound on its own. */
  ghost predicate Covers(g: Graph, c: Caches) {
    && g.done <= CachedServices(g.bindings, c)
    && forall s :: s in CachedServices(g.bindings, c) && s !in g.done ==> Judge(g, {}, s) == Fine
  }

  lemma PushLeads(g: Graph, chain: seq<Service>, t: Service, i: nat)
    requires Leads(g, chain, t) && t !in chain
    requires t in g.bindings && !g.Settled(t)
    requires i < |g.bindings[t].provider.params| && g.bindings[t].provider.params[i].annotation.Some?
    requires AllPass(g, Elems(chain + [t]), g.bindings[t].provider.Class?, g.bindings[t].provider.params[..i])
    ensures Leads(g, chain + [t], g.bindings[t].provider.params[i].annotation.value)
  {
    assert Elems(chain + [t]) == Elems(chain) + {t};
    assert (chain + [t])[..|chain|] == chain;
  }

  /** An error names a service that really is unregistered, or a stack that really asks for
      one of its own members. */
  ghost predicate Honest<T>(g: Graph, r: Outcome<T>) {
    && (r.NotFound? ==> r.service !in g.bindings)
    && (r.Circular? ==> ClosedChain(g, r.chain))
  }

  ghost predicate ClosedChain(g: Graph, chain: seq<Service>) {
    |chain| >= 2 && var top := |chain| - 1; Leads(g, chain[..top], chain[top]) && chain[top] in chain[..top]
  }

  /** No default shadows a dependency that can be resolved. */
  ghost predicate InjectsAllFine(g: Graph, stack: set<Service>, params: seq<Param>, kwargs: map<string, Obj>) {
    forall p :: p in params && p.annotation.Some? && Judge(g, stack, p.annotation.value) == Fine ==> p.name in kwargs
  }

  lemma AppendPath(g: Graph, p: seq<Service>, next: Service)
    requires IsPath(g, p) && AsksFor(g, p[|p| - 1], next)
    ensures IsPath(g, p + [next])
  {
    forall i | 0 <= i < |p + [next]| - 1
      ensures AsksFor(g, (p + [next])[i], (p + [next])[i + 1])
    {
      if i < |p| - 1 {
        assert AsksFor(g, p[i], p[i + 1]);
      }
    }
  }

  /** A live stack, with the service its top asks for, is a path of the dependency graph. */
  lemma {:induction false} LeadsIsPath(g: Graph, chain: seq<Service>, t: Service)
    requires Leads(g, chain, t)
    ensures IsPath(g, chain + [t])
  {
    if chain != [] {
      var below, top := chain[..|chain| - 1], chain[|chain| - 1];
      DemandAsks(g, Elems(below), top, t);
      LeadsIsPath(g, below, top);
      assert chain == below + [top];
      hide Demands, AsksFor, Leads, IsPath;
      AppendPath(g, chain, t);
    }
  }

  lemma DemandAsks(g: Graph, stack: set<Service>, t: Service, next: Service)
    requires Demands(g, stack, t, next)
    ensures AsksFor(g, t, next)
  {
  }

  lemma {:induction false} ResolveAgrees(g: Graph, stack: seq<Service>, c: Caches, t: Service)
    requires Covers(g, c) && Leads(g, stack, t)
    ensures var (r, d) := ResolveSpec(g.bindings, stack, c, t);
            r.Verdict() == Judge(g, Elems(stack), t) && Covers(g, d) && Honest(g, r)
    decreases |g.bindings.Keys - Elems(stack)|, 1
  {
    if t in stack {
      assert (stack + [t])[..|stack|] == stack;
    } else if t in g.bindings {
      if c.Lookup(g.bindings[t].lifetime, t).Some? {
        assert t in CachedServices(g.bindings, c);
        if t !in g.done {
          CacheHidesNothing(g, stack, t);
        }
      } else {
        CreateAgrees(g, stack, c, t);
        var (r, d) := CreateSpec(g.bindings, stack, c, t);
        if r.Done? {
          SmallerStack(g, {}, Elems(stack), t);
          var e := d.Store(g.bindings[t].lifetime, t, r.value);
          assert CachedServices(g.bindings, e) <= CachedServices(g.bindings, d) + {t};
        }
      }
    }
  }

  lemma CoversWhateverIsBuilt(g: Graph, c: Caches, log: seq<Construction>)
    requires Covers(g, c)
    ensures Covers(g, c.(built := log))
  {
    assert CachedServices(g.bindings, c.(built := log)) == CachedServices(g.bindings, c);
  }

  lemma {:induction false} CreateAgrees(g: Graph, stack: seq<Service>, c: Caches, t: Service)
    requires Covers(g, c) && Leads(g, stack, t)
    requires t in g.bindings && t !in stack && t !in CachedServices(g.bindings, c)
    ensures var (r, d) := CreateSpec(g.bindings, stack, c, t);
            r.Verdict() == Judge(g, Elems(stack), t) && Covers(g, d) && Honest(g, r)
    decreases |g.bindings.Keys - Elems(stack)|, 0
  {
    assert t !in g.done;
    hide Covers, Leads, CachedServices;
    var p := g.bindings[t].provider;
    if !p.Instance? {
      CreateUnfolds(g, stack, c, t);
      assert g.bindings.Keys - Elems(stack + [t]) == (g.bindings.Keys - Elems(stack)) - {t};
      assert p.params[0..] == p.params;
      ArgumentsAgree(g, stack, t, c, 0, map[]);
      var (r, d) := ArgumentsSpec(g.bindings, stack + [t], c, p.Class?, p.params, map[]);
      if r.Done? {
        CoversWhateverIsBuilt(g, d, d.built + [Construction(t, r.value)]);
      }
    }
  }

  /** The two definitions side by side, one step down. */
  lemma CreateUnfolds(g: Graph, stack: seq<Service>, c: Caches, t: Service)
    requires t in g.bindings && t !in stack && !g.Settled(t)
    ensures var p := g.bindings[t].provider;
            var (args, d) := ArgumentsSpec(g.bindings, stack + [t], c, p.Class?, p.params, map[]);
            var (r, e) := CreateSpec(g.bindings, stack, c, t);
            var v := JudgeParams(g, Elems(stack + [t]), p.Class?, p.params);
            && (e == if args.Done? && Callable(p.params) then d.(built := d.built + [Construction(t, args.value)])
                     else d)
            && (r.Verdict() == if args.Done? && !Callable(p.params) then BadCall else args.Verdict())
            && (Honest(g, args) ==> Honest(g, r))
            && (Judge(g, Elems(stack), t) == if v == Fine && !Callable(p.params) then BadCall else v)
  {
    assert Elems(stack + [t]) == Elems(stack) + {t};
  }

  lemma {:induction false} ArgumentsAgree(g: Graph, below: seq<Service>, t: Service, c: Caches, i: nat,
                                         kwargs: map<string, Obj>)
    requires Covers(g, c) && Leads(g, below, t) && t !in below
    requires t in g.bindings && !g.bindings[t].provider.Instance? && t !in g.done
    requires i <= |g.bindings[t].provider.params|
    requires AllPass(g, Elems(below + [t]), g.bindings[t].provider.Class?, g.bindings[t].provider.params[..i])
    ensures var tolerant, params := g.bindings[t].provider.Class?, g.bindings[t].provider.params[i..];
            var (r, d) := ArgumentsSpec(g.bindings, below + [t], c, tolerant, params, kwargs);
            && r.Verdict() == JudgeParams(g, Elems(below + [t]), tolerant, params)
            && Covers(g, d) && Honest(g, r)
            && (r.Done? ==> kwargs.Keys <= r.value.Keys && InjectsAllFine(g, Elems(below + [t]), params, r.value))
    decreases |g.bindings.Keys - Elems(below + [t])|, 2 + |g.bindings[t].provider.params| - i
  {
    hide Leads, Covers, ClosedChain, ResolveSpec;
    var stack, params, tolerant := below + [t], g.bindings[t].provider.params, g.bindings[t].provider.Class?;
    if i < |params| {
      var p := params[i];
      var whole := ArgumentsSpec(g.bindings, stack, c, tolerant, params[i..], kwargs);
      assert params[i..][0] == p && params[i..][1..] == params[i + 1..];
      assert params[..i + 1] == params[..i] + [p];
      if p.annotation.None? {
        assert whole == ArgumentsSpec(g.bindings, stack, c, tolerant, params[i + 1..], kwargs);
        ArgumentsAgree(g, below, t, c, i + 1, kwargs);
      } else {
        var a := p.annotation.value;
        PushLeads(g, below, t, i);
        ResolveAgrees(g, stack, c, a);
        var (r, d) := ResolveSpec(g.bindings, stack, c, a);
        match r {
          case Done(o) =>
            assert whole == ArgumentsSpec(g.bindings, stack, d, tolerant, params[i + 1..], kwargs[p.name := o]);
            ArgumentsAgree(g, below, t, d, i + 1, kwargs[p.name := o]);
          case NotFound(s) =>
            if tolerant && p.hasDefault {
              assert whole == ArgumentsSpec(g.bindings, stack, d, tolerant, params[i + 1..], kwargs);
              ArgumentsAgree(g, below, t, d, i + 1, kwargs);
            } else {
              assert whole == (NotFound(s), d);
            }
          case Circular(chain) => assert whole == (Circular(chain), d);
          case TypeError => assert whole == (TypeError, d);
        }
      }
    }
  }

  /** Resolving from outside, with an empty stack: whatever is newly cached is sound on its own. */
  lemma ResolveFromOutside(b: Bindings, c: Caches, t: Service)
    ensures ResolveSpec(b, [], c, t).0.Verdict() == Judge(Frozen(b, c), {}, t)
    ensures Honest(Frozen(b, c), ResolveSpec(b, [], c, t).0)
    ensures Covers(Frozen(b, c), ResolveSpec(b, [], c, t).1)
    ensures Grows([], c, ResolveSpec(b, [], c, t).1)
    ensures !ResolveSpec(b, [], c, t).0.Done? ==> Grows([t], c, ResolveSpec(b, [], c, t).1)
  {
    var g := Frozen(b, c);
    assert Elems<Service>([]) == {};
    ResolveAgrees(g, [], c, t);
    ResolveGrows(b, [], c, t);
    assert [] + [t] == [t];
  }

  /** With required parameters only: `resolve` succeeds exactly when every dependency path from
      `t`, stopping at instances and at what was cached when the call began, is registered and
      free of repetition. */
  lemma ResolvesIffAcyclicAndRegistered(b: Bindings, c: Caches, t: Service)
    requires RequiredOnly(Frozen(b, c))
    ensures ResolveSpec(b, [], c, t).0.Done? <==>
            forall p :: IsPath(Frozen(b, c), p) && p[0] == t ==> Distinct(p) && forall s :: s in p ==> s in b
  {
    ResolveFromOutside(b, c, t);
    FineIffAcyclicAndRegistered(Frozen(b, c), t);
  }

  // ---------- what is handed out ----------

  predicate DistinctNames(params: seq<Param>) {
    forall i, j :: 0 <= i < j < |params| ==> params[i].name != params[j].name
  }

  /** `o` is an object of service `s`. */
  predicate Suits(b: Bindings, built: seq<Construction>, o: Obj, s: Service) {
    && s in b
    && match o
       case Given(tag) => b[s].provider == Instance(tag)
       case Made(h) => h < |built| && built[h].service == s
  }

  /** The argument for `p`, if given, is an object of the service `p` asks for; only a
      parameter with a default is left out. */
  predicate Fills(b: Bindings, built: seq<Construction>, args: map<string, Obj>, p: Param) {
    if p.name in args then p.annotation.Some? && Suits(b, built, args[p.name], p.annotation.value) else p.hasDefault
  }

  predicate Wired(b: Bindings, built: seq<Construction>, k: Construction) {
    && k.service in b && !b[k.service].provider.Instance?
    && forall p :: p in b[k.service].provider.params ==> Fills(b, built, k.args, p)
  }

  /** Holds as long as no service is registered twice: a cached object belongs to its service, which has
      the lifetime of the cache, every construction was wired with objects of the right services, a
      singleton was constructed at most once, and a scoped service at most once since construction number
      `since`, when the scope was last cleared; what the scope holds was constructed since then. */
  ghost predicate Consistent(b: Bindings, c: Caches, since: nat) {
    && (forall s :: s in b && !b[s].provider.Instance? ==> DistinctNames(b[s].provider.params))
    && (forall s :: s in c.singletons ==> Suits(b, c.built, c.singletons[s], s) && b[s].lifetime == Singleton)
    && (forall s :: s in c.scoped ==> Suits(b, c.built, c.scoped[s], s) && b[s].lifetime == Scoped)
    && (forall s :: s in c.scoped && c.scoped[s].Made? ==> since <= c.scoped[s].handle)
    && since <= |c.built|
    && (forall h :: 0 <= h < |c.built| ==> Wired(b, c.built, c.built[h]))
    && (forall h :: 0 <= h < |c.built| ==> CachedOnce(b, c, since, h))
  }

  ghost predicate CachedOnce(b: Bindings, c: Caches, since: nat, h: nat)
    requires h < |c.built|
  {
    var s := c.built[h].service;
    && s in b
    && (b[s].lifetime == Singleton ==> s in c.singletons && c.singletons[s] == Made(h))
    && (b[s].lifetime == Scoped && since <= h ==> s in c.scoped && c.scoped[s] == Made(h))
  }

  lemma {:induction false} ResolveConsistent(b: Bindings, stack: seq<Service>, c: Caches, t: Service, since: nat)
    requires Consistent(b, c, since)
    ensures var (r, d) := ResolveSpec(b, stack, c, t);
            Consistent(b, d, since) && (r.Done? ==> Suits(b, d.built, r.value, t))
    decreases |b.Keys - Elems(stack)|, 1
  {
    if t !in stack && t in b && c.Lookup(b[t].lifetime, t).None? {
      CreateConsistent(b, stack, c, t, since);
    }
  }

  lemma {:induction false} CreateConsistent(b: Bindings, stack: seq<Service>, c: Caches, t: Service, since: nat)
    requires Consistent(b, c, since)
    requires t in b && t !in stack && c.Lookup(b[t].lifetime, t).None?
    ensures var (r, d) := CreateSpec(b, stack, c, t);
            if r.Done? then Consistent(b, d.Store(b[t].lifetime, t, r.value), since) && Suits(b, d.built, r.value, t)
            else Consistent(b, d, since)
    decreases |b.Keys - Elems(stack)|, 0
  {
    hide Consistent, Suits, Fills;
    var p := b[t].provider;
    if p.Instance? {
      GivenConsistent(b, c, t, since);
    } else {
      assert b.Keys - Elems(stack + [t]) == (b.Keys - Elems(stack)) - {t};
      ArgumentsConsistent(b, stack + [t], c, p.Class?, p.params, map[], since);
      ArgumentsGrow(b, stack + [t], c, p.Class?, p.params, map[]);
      var (args, d) := ArgumentsSpec(b, stack + [t], c, p.Class?, p.params, map[]);
      if args.Done? && Callable(p.params) {
        forall q | q in p.params ensures Fills(b, d.built, args.value, q) {
          ArgumentsFill(b, stack + [t], c, p.Class?, p.params, map[], since, q);
        }
        AddConstruction(b, d, t, args.value, since);
      }
    }
  }

  lemma GivenConsistent(b: Bindings, c: Caches, t: Service, since: nat)
    requires Consistent(b, c, since) && t in b && b[t].provider.Instance?
    ensures var o := Given(b[t].provider.tag);
            Consistent(b, c.Store(b[t].lifetime, t, o), since) && Suits(b, c.built, o, t)
  {
    var e := c.Store(b[t].lifetime, t, Given(b[t].provider.tag));
    forall h | 0 <= h < |c.built| ensures CachedOnce(b, e, since, h) {
      assert Wired(b, c.built, c.built[h]) && CachedOnce(b, c, since, h);
    }
  }

  lemma AddConstruction(b: Bindings, c: Caches, t: Service, args: map<string, Obj>, since: nat)
    requires Consistent(b, c, since)
    requires t in b && !b[t].provider.Instance? && c.Lookup(b[t].lifetime, t).None?
    requires forall p :: p in b[t].provider.params ==> Fills(b, c.built, args, p)
    ensures var o, d := Made(|c.built|), c.(built := c.built + [Construction(t, args)]);
            Consistent(b, d.Store(b[t].lifetime, t, o), since) && Suits(b, d.built, o, t)
  {
    var k := Construction(t, args);
    var d := c.(built := c.built + [k]);
    var e := d.Store(b[t].lifetime, t, Made(|c.built|));
    forall h | 0 <= h < |e.built|
      ensures Wired(b, e.built, e.built[h]) && CachedOnce(b, e, since, h)
    {
      if h < |c.built| {
        assert e.built[h] == c.built[h];
        assert Wired(b, c.built, c.built[h]) && CachedOnce(b, c, since, h);
      }
    }
  }

  /** Arguments already collected stay, and new ones are named after the remaining parameters. */
  lemma {:induction false} ArgumentsExtend(b: Bindings, stack: seq<Service>, c: Caches, tolerant: bool,
                                          params: seq<Param>, kwargs: map<string, Obj>)
    requires forall p :: p in params ==> p.name !in kwargs
    requires DistinctNames(params)
    ensures var (r, _) := ArgumentsSpec(b, stack, c, tolerant, params, kwargs);
            r.Done? ==>
              && (forall name :: name in kwargs ==> name in r.value && r.value[name] == kwargs[name])
              && (forall name :: name in r.value && name !in kwargs ==> exists p :: p in params && p.name == name)
    decreases |params|
  {
    if params != [] {
      var p, rest := params[0], params[1..];
      assert forall q :: q in rest ==> q in params && q.name != p.name;
      ArgumentsExtend(b, stack, c, tolerant, rest, kwargs);
      if p.annotation.Some? {
        var (dependency, d) := ResolveSpec(b, stack, c, p.annotation.value);
        ArgumentsExtend(b, stack, d, tolerant, rest, kwargs);
        if dependency.Done? {
          ArgumentsExtend(b, stack, d, tolerant, rest, kwargs[p.name := dependency.value]);
        }
      }
    }
  }

  lemma {:induction false} ArgumentsConsistent(b: Bindings, stack: seq<Service>, c: Caches, tolerant: bool,
                                              params: seq<Param>, kwargs: map<string, Obj>, since: nat)
    requires Consistent(b, c, since)
    ensures Consistent(b, ArgumentsSpec(b, stack, c, tolerant, params, kwargs).1, since)
    decreases |b.Keys - Elems(stack)|, 2 + |params|
  {
    if params != [] {
      var p, rest := params[0], params[1..];
      if p.annotation.None? {
        ArgumentsConsistent(b, stack, c, tolerant, rest, kwargs, since);
      } else {
        var (dependency, d) := ResolveSpec(b, stack, c, p.annotation.value);
        ResolveConsistent(b, stack, c, p.annotation.value, since);
        if dependency.Done? {
          ArgumentsConsistent(b, stack, d, tolerant, rest, kwargs[p.name := dependency.value], since);
        } else if dependency.NotFound? && tolerant && p.hasDefault {
          ArgumentsConsistent(b, stack, d, tolerant, rest, kwargs, since);
        }
      }
    }
  }

  lemma {:induction false} ArgumentsFill(b: Bindings, stack: seq<Service>, c: Caches, tolerant: bool,
                                        params: seq<Param>, kwargs: map<string, Obj>, since: nat, p: Param)
    requires Consistent(b, c, since) && DistinctNames(params)
    requires forall q :: q in params ==> q.name !in kwargs
    requires p in params && (p.annotation.Some? || p.hasDefault)
    ensures var (r, d) := ArgumentsSpec(b, stack, c, tolerant, params, kwargs);
            r.Done? ==> Fills(b, d.built, r.value, p)
    decreases |b.Keys - Elems(stack)|, 2 + |params|
  {
    hide Consistent, ResolveSpec;
    var q, rest := params[0], params[1..];
    assert forall o :: o in rest ==> o in params && o.name != q.name;
    if q.annotation.None? {
      if p == q {
        ArgumentsExtend(b, stack, c, tolerant, rest, kwargs);
      } else {
        ArgumentsFill(b, stack, c, tolerant, rest, kwargs, since, p);
      }
    } else {
      var (dependency, d) := ResolveSpec(b, stack, c, q.annotation.value);
      ResolveConsistent(b, stack, c, q.annotation.value, since);
      var more := if dependency.Done? then kwargs[q.name := dependency.value] else kwargs;
      if p == q {
        ArgumentsExtend(b, stack, d, tolerant, rest, more);
        ArgumentsGrow(b, stack, d, tolerant, rest, more);
      } else {
        ArgumentsFill(b, stack, d, tolerant, rest, more, since, p);
      }
    }
  }

  // ---------- the three lifetimes ----------

  /** An object of `t` made just now: the registered one if there is one, else one constructed after
      everything in `built`. */
  predicate Anew(b: Bindings, built: seq<Construction>, t: Service, o: Obj)
    requires t in b
  {
    match b[t].provider
    case Instance(tag) => o == Given(tag)
    case _ => o.Made? && |built| <= o.handle
  }

  /** What a resolve hands out when the caches go from `c` to `d`: a singleton from the singletons and a
      scoped object from the scope if there is one, with nothing constructed, and otherwise one made anew,
      which is there from then on; a transient anew every time. */
  predicate HandsOut(b: Bindings, c: Caches, d: Caches, t: Service, o: Obj)
    requires t in b
  {
    match b[t].lifetime
    case Singleton =>
      && (if t in c.singletons then o == c.singletons[t] && d == c else Anew(b, c.built, t, o))
      && t in d.singletons && d.singletons[t] == o
    case Scoped =>
      && (if t in c.scoped then o == c.scoped[t] && d == c else Anew(b, c.built, t, o))
      && t in d.scoped && d.scoped[t] == o
    case Transient => Anew(b, c.built, t, o)
  }

  lemma ResolveHandsOut(b: Bindings, stack: seq<Service>, c: Caches, t: Service)
    ensures var (r, d) := ResolveSpec(b, stack, c, t);
            r.Done? ==> t in b && HandsOut(b, c, d, t, r.value)
  {
    if t !in stack && t in b && c.Lookup(b[t].lifetime, t).None? && !b[t].provider.Instance? {
      assert b.Keys - Elems(stack + [t]) == (b.Keys - Elems(stack)) - {t};
      var p := b[t].provider;
      ArgumentsGrow(b, stack + [t], c, p.Class?, p.params, map[]);
      hide ArgumentsSpec;
    }
  }

  // ---------- parameters that cannot be filled ----------

  /** Nothing fills `p`: no annotation and no default, or an unregistered dependency, for which only a class
      takes the default. */
  predicate Unmet(b: Bindings, provider: Provider, p: Param) {
    match p.annotation
    case None => !p.hasDefault
    case Some(s) => s !in b && (provider.Factory? || !p.hasDefault)
  }

  /** One such parameter makes the resolve fail. */
  lemma UnmetFails(b: Bindings, stack: seq<Service>, c: Caches, t: Service, p: Param)
    requires t in b && !b[t].provider.Instance? && t !in c.singletons && t !in c.scoped
    requires p in b[t].provider.params && Unmet(b, b[t].provider, p)
    ensures !ResolveSpec(b, stack, c, t).0.Done?
  {
    if t !in stack && p.annotation.Some? {
      assert b.Keys - Elems(stack + [t]) == (b.Keys - Elems(stack)) - {t};
      UnmetArgument(b, stack + [t], c, b[t].provider.Class?, b[t].provider.params, map[], p);
    }
  }

  lemma {:induction false} UnmetArgument(b: Bindings, stack: seq<Service>, c: Caches, tolerant: bool,
                                         params: seq<Param>, kwargs: map<string, Obj>, p: Param)
    requires p in params && p.annotation.Some? && p.annotation.value !in b && (!tolerant || !p.hasDefault)
    ensures !ArgumentsSpec(b, stack, c, tolerant, params, kwargs).0.Done?
    decreases |params|
  {
    var q, rest := params[0], params[1..];
    if p in rest {
      if q.annotation.None? {
        UnmetArgument(b, stack, c, tolerant, rest, kwargs, p);
      } else {
        var (dependency, d) := ResolveSpec(b, stack, c, q.annotation.value);
        hide ResolveSpec;
        UnmetArgument(b, stack, d, tolerant, rest, kwargs, p);
        if dependency.Done? {
          UnmetArgument(b, stack, d, tolerant, rest, kwargs[q.name := dependency.value], p);
        }
      }
    }
  }

  /** A constructor or factory is only called when all dependencies are there: if none is registered, and one
      cannot be left out, the failure is that it was not found, whatever else the call would lack. */
  lemma MissingBeforeCall(b: Bindings, stack: seq<Service>, c: Caches, t: Service, p: Param)
    requires t in b && !b[t].provider.Instance? && t !in c.singletons && t !in c.scoped && t !in stack
    requires forall q :: q in b[t].provider.params && q.annotation.Some? ==>
               q.annotation.value !in b && q.annotation.value !in stack
    requires p in b[t].provider.params && p.annotation.Some? && Unmet(b, b[t].provider, p)
    ensures ResolveSpec(b, stack, c, t).0.NotFound? && ResolveSpec(b, stack, c, t).1 == c
  {
    assert b.Keys - Elems(stack + [t]) == (b.Keys - Elems(stack)) - {t};
    NothingThere(b, stack + [t], c, b[t].provider.Class?, b[t].provider.params, map[], p);
  }

  lemma {:induction false} NothingThere(b: Bindings, stack: seq<Service>, c: Caches, tolerant: bool,
                                        params: seq<Param>, kwargs: map<string, Obj>, p: Param)
    requires forall q :: q in params && q.annotation.Some? ==> q.annotation.value !in b && q.annotation.value !in stack
    requires p in params && p.annotation.Some? && (!tolerant || !p.hasDefault)
    ensures var (r, d) := ArgumentsSpec(b, stack, c, tolerant, params, kwargs); r.NotFound? && d == c
    decreases |params|
  {
    var q, rest := params[0], params[1..];
    if p in rest {
      NothingThere(b, stack, c, tolerant, rest, kwargs, p);
    }
    if q.annotation.Some? {
      assert ResolveSpec(b, stack, c, q.annotation.value) == (NotFound(q.annotation.value), c);
    }
  }

  /** A class all of whose dependencies have a default never fails for a missing one. */
  lemma DefaultsCoverMissing(b: Bindings, stack: seq<Service>, c: Caches, t: Service)
    requires t in b && b[t].provider.Class?
    requires forall p :: p in b[t].provider.params && p.annotation.Some? ==> p.hasDefault
    ensures !ResolveSpec(b, stack, c, t).0.NotFound?
  {
    if t !in stack {
      assert b.Keys - Elems(stack + [t]) == (b.Keys - Elems(stack)) - {t};
      NothingMissing(b, stack + [t], c, b[t].provider.params, map[]);
    }
  }

  lemma {:induction false} NothingMissing(b: Bindings, stack: seq<Service>, c: Caches, params: seq<Param>,
                                          kwargs: map<string, Obj>)
    requires forall p :: p in params && p.annotation.Some? ==> p.hasDefault
    ensures !ArgumentsSpec(b, stack, c, true, params, kwargs).0.NotFound?
    decreases |params|
  {
    if params != [] {
      var q, rest := params[0], params[1..];
      if q.annotation.None? {
        NothingMissing(b, stack, c, rest, kwargs);
      } else {
        var (dependency, d) := ResolveSpec(b, stack, c, q.annotation.value);
        hide ResolveSpec;
        NothingMissing(b, stack, d, rest, kwargs);
        if dependency.Done? {
          NothingMissing(b, stack, d, rest, kwargs[q.name := dependency.value]);
        }
      }
    }
  }

  // ---------- whole runs ----------

  datatype State = State(bindings: Bindings, caches: Caches, since: nat)

  datatype Op =
    | Register(service: Service, binding: Binding)
    | RegisterInstance(service: Service, tag: nat)
    | Resolve(service: Service)
    | ClearScoped

  function Step(s: State, op: Op): State {
    match op
    case Register(t, binding) => s.(bindings := s.bindings[t := binding])
    case RegisterInstance(t, tag) =>
      s.(bindings := s.bindings[t := Binding(Instance(tag), Singleton)],
         caches := s.caches.(singletons := s.caches.singletons[t := Given(tag)]))
    case Resolve(t) => s.(caches := ResolveSpec(s.bindings, [], s.caches, t).1)
    case ClearScoped => s.(caches := s.caches.(scoped := map[]), since := |s.caches.built|)
  }

  function Run(s: State, ops: seq<Op>): State
    decreases ops
  {
    if ops == [] then s else Run(Step(s, ops[0]), ops[1..])
  }

  /** No service is registered a second time. */
  ghost predicate NoRebinding(s: State, ops: seq<Op>)
    decreases ops
  {
    ops == [] || (FreshRegistration(s, ops[0]) && NoRebinding(Step(s, ops[0]), ops[1..]))
  }

  predicate FreshRegistration(s: State, op: Op) {
    match op
    case Register(t, binding) =>
      t !in s.bindings && !binding.provider.Instance? && DistinctNames(binding.provider.params)
    case RegisterInstance(t, _) => t !in s.bindings
    case _ => true
  }

  ghost predicate ConsistentState(s: State) {
    Consistent(s.bindings, s.caches, s.since)
  }

  const EMPTY: State := State(map[], Caches(map[], map[], []), 0)

  lemma StepConsistent(s: State, op: Op)
    requires ConsistentState(s) && FreshRegistration(s, op)
    ensures ConsistentState(Step(s, op))
    ensures forall t :: t in s.bindings ==> t in Step(s, op).bindings && Step(s, op).bindings[t] == s.bindings[t]
    ensures forall t :: t in s.caches.singletons ==>
              t in Step(s, op).caches.singletons && Step(s, op).caches.singletons[t] == s.caches.singletons[t]
    ensures s.caches.built <= Step(s, op).caches.built
  {
    match op {
      case Resolve(t) =>
        ResolveConsistent(s.bindings, [], s.caches, t, s.since);
        ResolveGrows(s.bindings, [], s.caches, t);
      case ClearScoped =>
        forall h | 0 <= h < |s.caches.built| ensures CachedOnce(s.bindings, Step(s, op).caches, |s.caches.built|, h) {
          assert CachedOnce(s.bindings, s.caches, s.since, h);
        }
      case _ =>
        forall h | 0 <= h < |s.caches.built|
          ensures Wired(Step(s, op).bindings, s.caches.built, s.caches.built[h])
          ensures CachedOnce(Step(s, op).bindings, Step(s, op).caches, s.since, h)
        {
          assert Wired(s.bindings, s.caches.built, s.caches.built[h]) && CachedOnce(s.bindings, s.caches, s.since, h);
        }
    }
  }

  lemma {:induction false} RunConsistent(s: State, ops: seq<Op>)
    requires ConsistentState(s) && NoRebinding(s, ops)
    ensures ConsistentState(Run(s, ops))
    ensures forall t :: t in s.bindings ==> t in Run(s, ops).bindings && Run(s, ops).bindings[t] == s.bindings[t]
    ensures forall t :: t in s.caches.singletons ==>
              t in Run(s, ops).caches.singletons && Run(s, ops).caches.singletons[t] == s.caches.singletons[t]
    ensures s.caches.built <= Run(s, ops).caches.built
    decreases ops
  {
    if ops != [] {
      StepConsistent(s, ops[0]);
      RunConsistent(Step(s, ops[0]), ops[1..]);
    }
  }

  /** In any run without rebinding at most one object of a singleton service is constructed. */
  lemma ConstructedAtMostOnce(ops: seq<Op>, h: nat, k: nat)
    requires NoRebinding(EMPTY, ops)
    requires h < |Run(EMPTY, ops).caches.built| && k < |Run(EMPTY, ops).caches.built|
    requires Run(EMPTY, ops).caches.built[h].service == Run(EMPTY, ops).caches.built[k].service
    ensures var s := Run(EMPTY, ops); var t := s.caches.built[h].service;
            t in s.bindings && (s.bindings[t].lifetime == Singleton ==> h == k)
  {
    RunConsistent(EMPTY, ops);
    var s := Run(EMPTY, ops);
    assert CachedOnce(s.bindings, s.caches, s.since, h) && CachedOnce(s.bindings, s.caches, s.since, k);
  }

  /** Once a resolve has returned a singleton, every later one returns the same object and
      constructs nothing, whatever happens in between. */
  lemma EveryResolveReturnsIt(first: seq<Op>, t: Service, later: seq<Op>)
    requires NoRebinding(EMPTY, first)
    requires t in Run(EMPTY, first).bindings && Run(EMPTY, first).bindings[t].lifetime == Singleton
    requires NoRebinding(Step(Run(EMPTY, first), Resolve(t)), later)
    ensures var s := Run(EMPTY, first);
            var r := ResolveSpec(s.bindings, [], s.caches, t).0;
            var e := Run(Step(s, Resolve(t)), later);
            r.Done? ==> ResolveSpec(e.bindings, [], e.caches, t) == (r, e.caches)
  {
    RunConsistent(EMPTY, first);
    var s := Run(EMPTY, first);
    StepConsistent(s, Resolve(t));
    RunConsistent(Step(s, Resolve(t)), later);
  }

  /** A registered instance is what a resolve hands out, even if the type was bound or cached before. */
  lemma InstanceResolves(s: State, t: Service, tag: nat)
    ensures var e := Step(s, RegisterInstance(t, tag));
            ResolveSpec(e.bindings, [], e.caches, t) == (Done(Given(tag)), e.caches)
    ensures forall u :: u != t ==> (u in Step(s, RegisterInstance(t, tag)).bindings <==> u in s.bindings)
  {
  }

  /** Two resolves of a transient never hand out the same object, whatever happens in between. */
  lemma TransientsDiffer(first: seq<Op>, t: Service, later: seq<Op>)
    requires NoRebinding(EMPTY, first)
    requires t in Run(EMPTY, first).bindings && Run(EMPTY, first).bindings[t].lifetime == Transient
    requires NoRebinding(Step(Run(EMPTY, first), Resolve(t)), later)
    requires !Run(EMPTY, first).bindings[t].provider.Instance?
    ensures var s := Run(EMPTY, first);
            var e := Run(Step(s, Resolve(t)), later);
            var r, r' := ResolveSpec(s.bindings, [], s.caches, t).0, ResolveSpec(e.bindings, [], e.caches, t).0;
            r.Done? && r'.Done? ==> r.value != r'.value
  {
    RunConsistent(EMPTY, first);
    var s := Run(EMPTY, first);
    StepConsistent(s, Resolve(t));
    var next := Step(s, Resolve(t));
    RunConsistent(next, later);
    var e := Run(next, later);
    ResolveHandsOut(s.bindings, [], s.caches, t);
    ResolveConsistent(s.bindings, [], s.caches, t, s.since);
    ResolveHandsOut(e.bindings, [], e.caches, t);
    hide ResolveSpec, Run, NoRebinding, Consistent;
  }

  /** A scoped object is the same until the scope is cleared, and another one afterwards. */
  lemma ScopedUntilCleared(first: seq<Op>, t: Service, later: seq<Op>)
    requires NoRebinding(EMPTY, first)
    requires t in Run(EMPTY, first).bindings && Run(EMPTY, first).bindings[t].lifetime == Scoped
    requires NoRebinding(Step(Run(EMPTY, first), Resolve(t)), later)
    requires !Run(EMPTY, first).bindings[t].provider.Instance?
    ensures var s := Run(EMPTY, first);
            var e := Run(Step(s, Resolve(t)), later);
            var r, r' := ResolveSpec(s.bindings, [], s.caches, t).0, ResolveSpec(e.bindings, [], e.caches, t).0;
            r.Done? && r'.Done? ==> (r.value == r'.value <==> ClearScoped !in later)
  {
    RunConsistent(EMPTY, first);
    var s := Run(EMPTY, first);
    StepConsistent(s, Resolve(t));
    var next := Step(s, Resolve(t));
    RunConsistent(next, later);
    var e := Run(next, later);
    ResolveHandsOut(s.bindings, [], s.caches, t);
    ResolveConsistent(s.bindings, [], s.caches, t, s.since);
    ResolveHandsOut(e.bindings, [], e.caches, t);
    ResolveConsistent(e.bindings, [], e.caches, t, e.since);
    if ResolveSpec(s.bindings, [], s.caches, t).0.Done? {
      ScopeKept(next, later, t);
    }
  }

  lemma {:induction false} ScopeKept(s: State, ops: seq<Op>, t: Service)
    requires ConsistentState(s) && NoRebinding(s, ops) && t in s.caches.scoped
    ensures ClearScoped !in ops ==> t in Run(s, ops).caches.scoped && Run(s, ops).caches.scoped[t] == s.caches.scoped[t]
    ensures ClearScoped in ops ==> Run(s, ops).since >= |s.caches.built|
    decreases ops
  {
    if ops != [] {
      StepConsistent(s, ops[0]);
      if ops[0].ClearScoped? {
        SinceGrows(Step(s, ops[0]), ops[1..]);
      } else {
        if ops[0].Resolve? {
          ResolveGrows(s.bindings, [], s.caches, ops[0].service);
        }
        ScopeKept(Step(s, ops[0]), ops[1..], t);
      }
    }
  }

  lemma {:induction false} SinceGrows(s: State, ops: seq<Op>)
    requires ConsistentState(s) && NoRebinding(s, ops)
    ensures Run(s, ops).since >= s.since
    decreases ops
  {
    if ops != [] {
      StepConsistent(s, ops[0]);
      SinceGrows(Step(s, ops[0]), ops[1..]);
    }
  }

  // ---------- the container itself ----------

  /** Python's `list.remove`: drop the first occurrence. */
  function RemoveFirst(s: seq<Service>, t: Service): seq<Service>
    requires t in s
  {
    if s[0] == t then s[1..] else [s[0]] + RemoveFirst(s[1..], t)
  }

  lemma {:induction false} RemovePushed(s: seq<Service>, t: Service)
    requires t !in s
    ensures RemoveFirst(s + [t], t) == s
  {
    if s != [] {
      assert (s + [t])[1..] == s[1..] + [t];
      RemovePushed(s[1..], t);
    }
  }

  class DIContainer {
    var bindings: map<Service, Binding>
    var singletons: map<Service, Obj>
    var scoped: map<Service, Obj>
    var resolutionStack: seq<Service>
    var built: seq<Construction>
    ghost var since: nat

    ghost function Store(): Caches
      reads this
    {
      Caches(singletons, scoped, built)
    }

    ghost function Now(): State
      reads this
    {
      State(bindings, Store(), since)
    }

    constructor ()
      ensures Now() == EMPTY && resolutionStack == []
    {
      bindings, singletons, scoped, resolutionStack, built, since := map[], map[], map[], [], [], 0;
    }

    /** The class registrations and the factory registration; `singleton`, `transient` and
        `scoped` differ in the lifetime only. */
    method RegisterProvider(t: Service, provider: Provider, lifetime: Lifetime)
      requires !provider.Instance?
      modifies this`bindings
      ensures Now() == Step(old(Now()), Register(t, Binding(provider, lifetime)))
      ensures bindings == old(bindings)[t := Binding(provider, lifetime)]
    {
      bindings := bindings[t := Binding(provider, lifetime)];
    }

    method RegisterReady(t: Service, tag: nat)
      modifies this`bindings, this`singletons
      ensures Now() == Step(old(Now()), RegisterInstance(t, tag))
      ensures bindings == old(bindings)[t := Binding(Instance(tag), Singleton)]
      ensures singletons == old(singletons)[t := Given(tag)]
    {
      bindings := bindings[t := Binding(Instance(tag), Singleton)];
      singletons := singletons[t := Given(tag)];
    }

    method ClearScope()
      modifies this`scoped, this`since
      ensures Now() == Step(old(Now()), ClearScoped) && scoped == map[]
    {
      scoped := map[];
      since := |built|;
    }

    /** Whatever the outcome, the stack ends as it began. */
    method ResolveService(t: Service) returns (r: Outcome<Obj>)
      modifies this`singletons, this`scoped, this`resolutionStack, this`built
      ensures resolutionStack == old(resolutionStack)
      ensures (r, Store()) == ResolveSpec(bindings, resolutionStack, old(Store()), t)
      ensures resolutionStack == [] ==> Now() == Step(old(Now()), Resolve(t))
      decreases |bindings.Keys - Elems(resolutionStack)|, 3
    {
      if t in resolutionStack {
        return Circular(resolutionStack + [t]);
      }
      ghost var below := resolutionStack;
      resolutionStack := resolutionStack + [t];
      r := ResolveInternal(t, below);
      RemovePushed(below, t);
      resolutionStack := RemoveFirst(resolutionStack, t);
    }

    method ResolveInternal(t: Service, ghost below: seq<Service>) returns (r: Outcome<Obj>)
      requires resolutionStack == below + [t] && t !in below
      modifies this`singletons, this`scoped, this`resolutionStack, this`built
      ensures resolutionStack == old(resolutionStack)
      ensures (r, Store()) == ResolveSpec(bindings, below, old(Store()), t)
      decreases |bindings.Keys - Elems(below)|, 2
    {
      if t !in bindings {
        return NotFound(t);
      }
      var binding := bindings[t];
      match binding.lifetime {
        case Singleton =>
          if t in singletons {
            return Done(singletons[t]);
          }
          r := CreateInstance(t, binding, below);
          if r.Done? {
            singletons := singletons[t := r.value];
          }
        case Scoped =>
          if t in scoped {
            return Done(scoped[t]);
          }
          r := CreateInstance(t, binding, below);
          if r.Done? {
            scoped := scoped[t := r.value];
          }
        case Transient =>
          r := CreateInstance(t, binding, below);
      }
    }

    method CreateInstance(t: Service, binding: Binding, ghost below: seq<Service>) returns (r: Outcome<Obj>)
      requires resolutionStack == below + [t] && t !in below
      requires t in bindings && bindings[t] == binding
      modifies this`singletons, this`scoped, this`resolutionStack, this`built
      ensures resolutionStack == old(resolutionStack)
      ensures (r, Store()) == CreateSpec(bindings, below, old(Store()), t)
      decreases |bindings.Keys - Elems(below)|, 1
    {
      if binding.provider.Instance? {
        return Done(Given(binding.provider.tag));
      }
      assert bindings.Keys - Elems(resolutionStack) == (bindings.Keys - Elems(below)) - {t};
      var args := Arguments(binding.provider.params, binding.provider.Class?);
      match args {
        case NotFound(s) => r := NotFound(s);
        case Circular(chain) => r := Circular(chain);
        case TypeError => r := TypeError;
        case Done(kwargs) =>
          if Callable(binding.provider.params) {
            built := built + [Construction(t, kwargs)];
            r := Done(Made(|built| - 1));
          } else {
            r := TypeError;
          }
      }
    }

    /** The parameter loop of a constructor (`tolerant`: a missing dependency with a default is
        left out) or of a factory. */
    method Arguments(params: seq<Param>, tolerant: bool) returns (r: Outcome<map<string, Obj>>)
      modifies this`singletons, this`scoped, this`resolutionStack, this`built
      ensures resolutionStack == old(resolutionStack)
      ensures (r, Store()) == ArgumentsSpec(bindings, resolutionStack, old(Store()), tolerant, params, map[])
      decreases |bindings.Keys - Elems(resolutionStack)|, 4
    {
      hide ResolveSpec;
      var kwargs: map<string, Obj> := map[];
      assert params[0..] == params;
      for i := 0 to |params|
        invariant resolutionStack == old(resolutionStack)
        invariant ArgumentsSpec(bindings, resolutionStack, Store(), tolerant, params[i..], kwargs)
               == ArgumentsSpec(bindings, resolutionStack, old(Store()), tolerant, params, map[])
      {
        var p := params[i];
        assert params[i..][0] == p && params[i..][1..] == params[i + 1..];
        if p.annotation.Some? {
          var dependency := ResolveService(p.annotation.value);
          match dependency {
            case Done(o) =>
              kwargs := kwargs[p.name := o];
            case NotFound(s) =>
              if !(tolerant && p.hasDefault) {
                return NotFound(s);
              }
            case Circular(chain) => return Circular(chain);
            case TypeError => return TypeError;
          }
        }
      }
      r := Done(kwargs);
    }
  }
}
