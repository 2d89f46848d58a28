/** Migration of requests between API versions (app/core/api_integration/versioning.py):
    the breadth-first search for a migration path, and the loop that applies the path. */
module MigrationPaths {
  import opened Common

  type Version = string

  /** A request as far as versions are concerned: the explicit version, what the path pattern
      extracts, the `API-Version` header, the `version` query parameter, and everything else. */
  datatype Request = Request(version: Version, inPath: Option<Version>, header: Option<Version>,
                             query: Option<Version>, body: string)

  /** One entry of the inner dictionary of migrations. */
  datatype Edge = Edge(target: Version, migrate: Request -> Request)

  /** Migrations by source version; the inner dictionary keeps its insertion order. */
  type Migrations = map<Version, seq<Edge>>

  function EdgesFrom(ms: Migrations, v: Version): seq<Edge> {
    if v in ms then ms[v] else []
  }

  ghost predicate HasMigration(ms: Migrations, from: Version, to: Version) {
    exists e :: e in EdgesFrom(ms, from) && e.target == to
  }

  /** `p` walks registered migrations only. */
  ghost predicate IsRoute(ms: Migrations, p: seq<Version>) {
    |p| > 0 && forall i :: 0 < i < |p| ==> HasMigration(ms, p[i - 1], p[i])
  }

  ghost predicate RouteTo(ms: Migrations, source: Version, v: Version, p: seq<Version>) {
    IsRoute(ms, p) && p[0] == source && p[|p| - 1] == v
  }

  ghost predicate ShortestRoute(ms: Migrations, source: Version, v: Version, p: seq<Version>) {
    && RouteTo(ms, source, v, p)
    && forall q :: RouteTo(ms, source, v, q) ==> |p| <= |q|
  }

  ghost predicate Reachable(ms: Migrations, source: Version, v: Version) {
    exists p :: RouteTo(ms, source, v, p)
  }

  lemma ShortenRoute(ms: Migrations, source: Version, v: Version, p: seq<Version>)
    requires RouteTo(ms, source, v, p) && |p| > 1
    ensures RouteTo(ms, source, p[|p| - 2], p[..|p| - 1]) && HasMigration(ms, p[|p| - 2], v)
  {
    var q := p[..|p| - 1];
    forall i | 0 < i < |q| ensures HasMigration(ms, q[i - 1], q[i]) {
      assert HasMigration(ms, p[i - 1], p[i]);
    }
    assert HasMigration(ms, p[|p| - 1 - 1], p[|p| - 1]);
  }

  lemma CutLoop(ms: Migrations, p: seq<Version>, i: nat, j: nat)
    requires IsRoute(ms, p) && i < j < |p| && p[i] == p[j]
    ensures IsRoute(ms, p[..i + 1] + p[j + 1..])
    ensures var q := p[..i + 1] + p[j + 1..]; q[0] == p[0] && q[|q| - 1] == p[|p| - 1] && |q| < |p|
  {
    var q := p[..i + 1] + p[j + 1..];
    forall k | 0 < k < |q| ensures HasMigration(ms, q[k - 1], q[k]) {
      var at := if k <= i then k else k - i + j;
      assert HasMigration(ms, p[at - 1], p[at]);
      assert q[k] == p[at] && q[k - 1] == p[at - 1];
    }
  }

  /** A shortest route repeats no version: the loop could be cut out. */
  lemma ShortestIsSimple(ms: Migrations, source: Version, v: Version, p: seq<Version>)
    requires ShortestRoute(ms, source, v, p)
    ensures Distinct(p)
  {
    forall i, j | 0 <= i < j < |p| ensures p[i] != p[j] {
      if p[i] == p[j] {
        CutLoop(ms, p, i, j);
        assert RouteTo(ms, source, v, p[..i + 1] + p[j + 1..]);
        assert false;
      }
    }
  }

  // ---------- the breadth-first search ----------

  type Entry = (Version, seq<Version>)

  /** Every route from `source` of at most `n` versions ends in `seen`. */
  ghost predicate SeenWithin(ms: Migrations, source: Version, n: nat, seen: set<Version>) {
    forall v, q :: RouteTo(ms, source, v, q) && |q| <= n ==> v in seen
  }

  /** Each entry carries a shortest route to its version; routes get longer along the queue,
      by at most one version from `n`. */
  ghost predicate GoodQueue(ms: Migrations, source: Version, queue: seq<Entry>, n: nat, seen: set<Version>) {
    && (forall i :: 0 <= i < |queue| ==>
          ShortestRoute(ms, source, queue[i].0, queue[i].1) && n <= |queue[i].1| <= n + 1 && queue[i].0 in seen)
    && (forall i, j :: 0 <= i < j < |queue| ==> |queue[i].1| <= |queue[j].1|)
  }

  ghost predicate Waiting(queue: seq<Entry>, v: Version) {
    exists i :: 0 <= i < |queue| && queue[i].0 == v
  }

  ghost predicate Expanded(ms: Migrations, v: Version, seen: set<Version>) {
    forall next :: HasMigration(ms, v, next) ==> next in seen
  }

  /** Everything seen is waiting in the queue or has had its migrations followed, except
      possibly `current`, whose migrations are being followed. */
  ghost predicate Settled(ms: Migrations, queue: seq<Entry>, seen: set<Version>, current: Option<Version>) {
    forall v :: v in seen && Some(v) != current ==> Waiting(queue, v) || Expanded(ms, v, seen)
  }

  /** A version met for the first time, one migration after a shortest route, is met by a shortest route. */
  lemma FirstMet(ms: Migrations, source: Version, v: Version, n: nat, seen: set<Version>, current: Version,
                 path: seq<Version>)
    requires SeenWithin(ms, source, n, seen) && v !in seen
    requires ShortestRoute(ms, source, current, path) && |path| == n && HasMigration(ms, current, v)
    ensures ShortestRoute(ms, source, v, path + [v])
  {
  }

  lemma PushSettled(ms: Migrations, queue: seq<Entry>, seen: set<Version>, current: Version, e: Entry)
    requires Settled(ms, queue, seen, Some(current)) && e.0 !in seen
    ensures Settled(ms, queue + [e], seen + {e.0}, Some(current))
  {
    var longer := queue + [e];
    assert longer[|queue|].0 == e.0;
    forall u | u in seen && Waiting(queue, u) ensures Waiting(longer, u) {
      var i :| 0 <= i < |queue| && queue[i].0 == u;
      assert longer[i].0 == u;
    }
  }

  lemma Push(ms: Migrations, source: Version, queue: seq<Entry>, n: nat, seen: set<Version>,
             current: Version, path: seq<Version>, v: Version)
    requires GoodQueue(ms, source, queue, n, seen) && SeenWithin(ms, source, n, seen)
    requires Settled(ms, queue, seen, Some(current))
    requires ShortestRoute(ms, source, current, path) && |path| == n
    requires HasMigration(ms, current, v) && v !in seen
    ensures GoodQueue(ms, source, queue + [(v, path + [v])], n, seen + {v})
    ensures Settled(ms, queue + [(v, path + [v])], seen + {v}, Some(current))
    ensures SeenWithin(ms, source, n, seen + {v})
  {
    FirstMet(ms, source, v, n, seen, current, path);
    PushSettled(ms, queue, seen, current, (v, path + [v]));
    hide ShortestRoute, Settled, RouteTo;
  }

  /** When no entry of length `n` is left, everything one step further has been seen. */
  lemma NextLevel(ms: Migrations, source: Version, queue: seq<Entry>, n: nat, seen: set<Version>)
    requires SeenWithin(ms, source, n, seen) && source in seen
    requires GoodQueue(ms, source, queue, n, seen) && Settled(ms, queue, seen, None)
    requires forall i :: 0 <= i < |queue| ==> |queue[i].1| == n + 1
    ensures SeenWithin(ms, source, n + 1, seen)
    ensures GoodQueue(ms, source, queue, n + 1, seen)
  {
    forall v, q | RouteTo(ms, source, v, q) && |q| == n + 1
      ensures v in seen
    {
      if |q| > 1 {
        ShortenRoute(ms, source, v, q);
        var u := q[|q| - 2];
        assert u in seen;
        assert !Waiting(queue, u);
      }
    }
  }

  /** A set that holds `source` and is closed under migrations holds everything reachable. */
  lemma {:induction false} ClosedHoldsAll(ms: Migrations, source: Version, v: Version, q: seq<Version>,
                                          seen: set<Version>)
    requires source in seen && forall u :: u in seen ==> Expanded(ms, u, seen)
    requires RouteTo(ms, source, v, q)
    ensures v in seen
    decreases |q|
  {
    if |q| > 1 {
      ShortenRoute(ms, source, v, q);
      ClosedHoldsAll(ms, source, q[|q| - 2], q[..|q| - 1], seen);
    }
  }

  lemma NothingLeft(ms: Migrations, source: Version, target: Version, queue: seq<Entry>, seen: set<Version>)
    requires source in seen && target !in seen && Settled(ms, queue, seen, None) && queue == []
    ensures !Reachable(ms, source, target)
  {
    forall q | RouteTo(ms, source, target, q) ensures false {
      ClosedHoldsAll(ms, source, target, q, seen);
    }
  }

  lemma StartOfSearch(ms: Migrations, source: Version)
    ensures ShortestRoute(ms, source, source, [source])
    ensures GoodQueue(ms, source, [(source, [source])], 1, {source})
    ensures Settled(ms, [(source, [source])], {source}, None) && SeenWithin(ms, source, 1, {source})
  {
    var queue: seq<Entry> := [(source, [source])];
    assert queue[0].0 == source;
    assert RouteTo(ms, source, source, [source]);
  }

  ghost function AllTargets(ms: Migrations): set<Version> {
    set v, e | v in ms && e in ms[v] :: e.target
  }

  lemma FewerLeft(universe: set<Version>, before: set<Version>, after: set<Version>)
    requires before <= after <= universe
    ensures |universe - after| < |universe - before| || after == before
  {
    if after != before {
      var v :| v in after && v !in before;
      assert universe - after <= (universe - before) - {v};
      SubsetSize(universe - after, (universe - before) - {v});
    }
  }

  /** The invariant of the search loop: `n` is the length of the route at the front. */
  ghost predicate Searching(ms: Migrations, source: Version, target: Version, queue: seq<Entry>, n: nat,
                            seen: set<Version>)
  {
    && source in seen && target !in seen && seen <= {source} + AllTargets(ms)
    && GoodQueue(ms, source, queue, n, seen) && Settled(ms, queue, seen, None)
    && (queue != [] ==> |queue[0].1| == n && SeenWithin(ms, source, n, seen))
  }

  /** With the migrations out of `current` all followed, the search goes on, at the same
      level or at the next. */
  lemma TurnDone(ms: Migrations, source: Version, target: Version, queue: seq<Entry>, n: nat, seen: set<Version>,
                 current: Version)
    returns (m: nat)
    requires source in seen && target !in seen && seen <= {source} + AllTargets(ms)
    requires SeenWithin(ms, source, n, seen) && GoodQueue(ms, source, queue, n, seen)
    requires Settled(ms, queue, seen, Some(current)) && Followed(EdgesFrom(ms, current), seen)
    ensures Searching(ms, source, target, queue, m, seen)
  {
    m := n;
    if queue != [] && |queue[0].1| != n {
      NextLevel(ms, source, queue, n, seen);
      m := n + 1;
    }
  }

  /** What is known of the front entry, and of the queue without it. */
  lemma TurnBegins(ms: Migrations, source: Version, target: Version, queue: seq<Entry>, n: nat, seen: set<Version>)
    requires Searching(ms, source, target, queue, n, seen) && queue != []
    ensures source in seen && target !in seen && seen <= {source} + AllTargets(ms)
    ensures SeenWithin(ms, source, n, seen) && GoodQueue(ms, source, queue[1..], n, seen)
    ensures Settled(ms, queue[1..], seen, Some(queue[0].0))
    ensures ShortestRoute(ms, source, queue[0].0, queue[0].1) && |queue[0].1| == n
  {
  }

  lemma FollowedOneMore(edges: seq<Edge>, i: nat, seen: set<Version>)
    requires i < |edges| && Followed(edges[..i], seen)
    ensures edges[i].target in seen ==> Followed(edges[..i + 1], seen)
    ensures Followed(edges[..i + 1], seen + {edges[i].target})
  {
    assert edges[..i + 1] == edges[..i] + [edges[i]];
  }

  // ---------- which of the shortest routes is found ----------

  /** Where `v` stands among the targets. */
  function Position(edges: seq<Edge>, v: Version): nat {
    if edges == [] || edges[0].target == v then 0 else 1 + Position(edges[1..], v)
  }

  lemma {:induction false} PositionOf(edges: seq<Edge>, i: nat, seen: set<Version>)
    requires i < |edges| && Followed(edges[..i], seen) && edges[i].target !in seen
    ensures Position(edges, edges[i].target) == i
  {
    if i > 0 {
      assert edges[..i][0] == edges[0] && edges[..i][1..] == edges[1..][..i - 1];
      assert edges[0] in edges[..i];
      assert forall e :: e in edges[1..][..i - 1] ==> e in edges[..i];
      PositionOf(edges[1..], i - 1, seen);
    }
  }

  /** Of two routes of one length, `p` takes the migration registered earlier where they part. */
  ghost predicate Before(ms: Migrations, p: seq<Version>, q: seq<Version>) {
    |p| == |q| && exists k :: 0 < k < |p| && PartsAt(ms, p, q, k)
  }

  predicate PartsAt(ms: Migrations, p: seq<Version>, q: seq<Version>, k: nat)
    requires 0 < k < |p| == |q|
  {
    p[..k] == q[..k] && Position(EdgesFrom(ms, p[k - 1]), p[k]) < Position(EdgesFrom(ms, p[k - 1]), q[k])
  }

  lemma SamePrefix(p: seq<Version>, q: seq<Version>, i: nat, k: nat)
    requires k <= i <= |p| && i <= |q| && p[..i] == q[..i]
    ensures p[..k] == q[..k] && forall j :: 0 <= j < i ==> p[j] == q[j]
  {
    assert p[..k] == p[..i][..k] && q[..k] == q[..i][..k];
    assert forall j :: 0 <= j < i ==> p[j] == p[..i][j] && q[j] == q[..i][j];
  }

  lemma BeforeTransitive(ms: Migrations, p: seq<Version>, q: seq<Version>, r: seq<Version>)
    requires Before(ms, p, q) && Before(ms, q, r)
    ensures Before(ms, p, r)
  {
    var i :| 0 < i < |p| && PartsAt(ms, p, q, i);
    var j :| 0 < j < |q| && PartsAt(ms, q, r, j);
    var k := if i < j then i else j;
    SamePrefix(p, q, i, k);
    SamePrefix(q, r, j, k);
    hide Position;
    assert PartsAt(ms, p, r, k);
  }

  /** What comes after the point at which routes part does not matter. */
  lemma BeforeLonger(ms: Migrations, p: seq<Version>, q: seq<Version>, x: Version, y: Version)
    requires Before(ms, p, q)
    ensures Before(ms, p + [x], q + [y])
  {
    var k :| 0 < k < |p| && PartsAt(ms, p, q, k);
    assert (p + [x])[..k] == p[..k] && (q + [y])[..k] == q[..k];
    assert PartsAt(ms, p + [x], q + [y], k);
  }

  lemma BeforeSibling(ms: Migrations, p: seq<Version>, x: Version, y: Version)
    requires p != []
    requires Position(EdgesFrom(ms, p[|p| - 1]), x) < Position(EdgesFrom(ms, p[|p| - 1]), y)
    ensures Before(ms, p + [x], p + [y])
  {
    assert (p + [x])[..|p|] == p == (p + [y])[..|p|];
    assert PartsAt(ms, p + [x], p + [y], |p|);
  }

  /** A shortest route that comes before all others. */
  ghost predicate FirstRoute(ms: Migrations, source: Version, v: Version, p: seq<Version>) {
    ShortestRoute(ms, source, v, p) && forall q :: ShortestRoute(ms, source, v, q) && q != p ==> Before(ms, p, q)
  }

  ghost predicate AllFirst(ms: Migrations, source: Version, queue: seq<Entry>) {
    forall i :: 0 <= i < |queue| ==> FirstRoute(ms, source, queue[i].0, queue[i].1)
  }

  ghost predicate InOrder(ms: Migrations, queue: seq<Entry>) {
    forall i, j :: 0 <= i < j < |queue| && |queue[i].1| == |queue[j].1| ==> Before(ms, queue[i].1, queue[j].1)
  }

  /** The entries one step longer were pushed by routes before `path`, or by `path` itself on one of its first
      `i` migrations. */
  ghost predicate Pushed(ms: Migrations, queue: seq<Entry>, path: seq<Version>, i: nat)
    requires path != []
  {
    forall j :: 0 <= j < |queue| && |queue[j].1| == |path| + 1 ==>
      var r := queue[j].1;
      Before(ms, r[..|path|], path)
      || (r[..|path|] == path && Position(EdgesFrom(ms, path[|path| - 1]), r[|path|]) < i)
  }

  /** The entries of the same length come after `path`. */
  ghost predicate Behind(ms: Migrations, queue: seq<Entry>, path: seq<Version>) {
    forall j :: 0 <= j < |queue| && |queue[j].1| == |path| ==> Before(ms, path, queue[j].1)
  }

  /** The queue between two turns, and within the turn of `path`. */
  ghost predicate Ranked(ms: Migrations, source: Version, queue: seq<Entry>) {
    && AllFirst(ms, source, queue) && InOrder(ms, queue)
    && (queue != [] ==> queue[0].1 != [] && Pushed(ms, queue, queue[0].1, 0))
  }

  ghost predicate RankedIn(ms: Migrations, source: Version, queue: seq<Entry>, current: Version, path: seq<Version>,
                           i: nat)
  {
    && AllFirst(ms, source, queue) && InOrder(ms, queue) && FirstRoute(ms, source, current, path)
    && path != [] && Pushed(ms, queue, path, i) && Behind(ms, queue, path)
  }

  lemma RankedBegins(ms: Migrations, source: Version, queue: seq<Entry>)
    requires Ranked(ms, source, queue) && queue != []
    ensures RankedIn(ms, source, queue[1..], queue[0].0, queue[0].1, 0)
  {
    hide FirstRoute, Before;
    var rest := queue[1..];
    assert forall j :: 0 <= j < |rest| ==> rest[j] == queue[j + 1];
  }

  lemma RankedEnds(ms: Migrations, source: Version, queue: seq<Entry>, current: Version, path: seq<Version>, i: nat)
    requires RankedIn(ms, source, queue, current, path, i)
    requires forall j :: 0 <= j < |queue| ==> |path| <= |queue[0].1| <= |queue[j].1| <= |path| + 1
    ensures Ranked(ms, source, queue)
  {
    hide FirstRoute, Before, Position;
    if queue != [] && |queue[0].1| == |path| {
      forall j | 0 <= j < |queue| && |queue[j].1| == |path| + 1
        ensures Before(ms, queue[j].1[..|path|], queue[0].1)
      {
        if Before(ms, queue[j].1[..|path|], path) {
          BeforeTransitive(ms, queue[j].1[..|path|], path, queue[0].1);
        }
      }
    }
  }

  /** The version before the last on a shortest route has been seen, and if the last has not, it is the
      current one or still waiting. */
  lemma StepBefore(ms: Migrations, source: Version, queue: seq<Entry>, n: nat, seen: set<Version>, current: Version,
                   v: Version, q: seq<Version>)
    requires SeenWithin(ms, source, n, seen) && Settled(ms, queue, seen, Some(current)) && v !in seen
    requires ShortestRoute(ms, source, v, q) && |q| == n + 1 && n >= 1
    ensures ShortestRoute(ms, source, q[n - 1], q[..n])
    ensures q[n - 1] == current || Waiting(queue, q[n - 1])
  {
    ShortenRoute(ms, source, v, q);
    var u := q[n - 1];
    forall p | RouteTo(ms, source, u, p) ensures n <= |p| {
      var longer := p + [v];
      forall i | 0 < i < |longer| ensures HasMigration(ms, longer[i - 1], longer[i]) {
        if i < |p| {
          assert HasMigration(ms, p[i - 1], p[i]);
        }
      }
      assert RouteTo(ms, source, v, longer);
    }
  }

  lemma FirstOrBefore(ms: Migrations, source: Version, v: Version, p: seq<Version>, q: seq<Version>)
    requires FirstRoute(ms, source, v, p) && ShortestRoute(ms, source, v, q)
    ensures |p| == |q| && (p == q || Before(ms, p, q))
  {
    hide Before;
  }

  /** Shortest routes to the versions still waiting come after the current one. */
  lemma WaitingIsLater(ms: Migrations, source: Version, queue: seq<Entry>, current: Version, path: seq<Version>, i: nat,
                       u: Version, r: seq<Version>)
    requires RankedIn(ms, source, queue, current, path, i) && (u == current || Waiting(queue, u))
    requires ShortestRoute(ms, source, u, r) && |r| == |path|
    ensures r == path || Before(ms, path, r)
  {
    hide FirstRoute, ShortestRoute, Before, InOrder, Pushed;
    if u == current {
      FirstOrBefore(ms, source, u, path, r);
    } else {
      var j :| 0 <= j < |queue| && queue[j].0 == u;
      FirstOrBefore(ms, source, u, queue[j].1, r);
      if queue[j].1 != r {
        BeforeTransitive(ms, path, queue[j].1, r);
      }
    }
  }

  /** So any other shortest route to the version met does. */
  lemma OtherIsLater(ms: Migrations, source: Version, queue: seq<Entry>, n: nat, seen: set<Version>, current: Version,
                     path: seq<Version>, i: nat, v: Version, q: seq<Version>)
    requires SeenWithin(ms, source, n, seen) && Settled(ms, queue, seen, Some(current)) && v !in seen
    requires RankedIn(ms, source, queue, current, path, i) && |path| == n >= 1
    requires ShortestRoute(ms, source, v, q) && |q| == n + 1 && q != path + [v]
    ensures Before(ms, path + [v], q)
  {
    assert q[n] == v && q == q[..n] + [q[n]];
    hide RankedIn, Before, SeenWithin, Settled, ShortestRoute;
    StepBefore(ms, source, queue, n, seen, current, v, q);
    WaitingIsLater(ms, source, queue, current, path, i, q[n - 1], q[..n]);
    BeforeLonger(ms, path, q[..n], v, v);
  }

  /** The first route to the version met, by way of the current one. */
  lemma FirstMetFirst(ms: Migrations, source: Version, queue: seq<Entry>, n: nat, seen: set<Version>, current: Version,
                      path: seq<Version>, i: nat, v: Version)
    requires SeenWithin(ms, source, n, seen) && Settled(ms, queue, seen, Some(current)) && v !in seen
    requires RankedIn(ms, source, queue, current, path, i) && |path| == n && HasMigration(ms, current, v)
    ensures FirstRoute(ms, source, v, path + [v])
  {
    FirstMet(ms, source, v, n, seen, current, path);
    hide RankedIn, SeenWithin, Settled, Before, HasMigration, RouteTo;
    forall q | ShortestRoute(ms, source, v, q) && q != path + [v] ensures Before(ms, path + [v], q) {
      assert RouteTo(ms, source, v, q) && RouteTo(ms, source, v, path + [v]);
      OtherIsLater(ms, source, queue, n, seen, current, path, i, v, q);
    }
  }

  /** The new entry is the last of its length. */
  lemma PushInOrder(ms: Migrations, queue: seq<Entry>, path: seq<Version>, i: nat, v: Version)
    requires InOrder(ms, queue) && path != [] && Pushed(ms, queue, path, i)
    requires Position(EdgesFrom(ms, path[|path| - 1]), v) == i
    ensures InOrder(ms, queue + [(v, path + [v])])
  {
    var n := |path|;
    forall j | 0 <= j < |queue| && |queue[j].1| == n + 1 ensures Before(ms, queue[j].1, path + [v]) {
      var r := queue[j].1;
      assert r == r[..n] + [r[n]];
      if Before(ms, r[..n], path) {
        BeforeLonger(ms, r[..n], path, r[n], v);
      } else {
        BeforeSibling(ms, path, r[n], v);
      }
    }
    hide Before, Position, Pushed;
  }

  lemma PushPushed(ms: Migrations, queue: seq<Entry>, path: seq<Version>, i: nat, v: Version)
    requires path != [] && Pushed(ms, queue, path, i) && Position(EdgesFrom(ms, path[|path| - 1]), v) == i
    ensures Pushed(ms, queue + [(v, path + [v])], path, i + 1)
  {
    assert (path + [v])[..|path|] == path;
    hide Before, Position;
  }

  lemma PushFirst(ms: Migrations, source: Version, queue: seq<Entry>, path: seq<Version>, e: Entry)
    requires AllFirst(ms, source, queue) && Behind(ms, queue, path) && FirstRoute(ms, source, e.0, e.1)
    requires |e.1| == |path| + 1
    ensures AllFirst(ms, source, queue + [e]) && Behind(ms, queue + [e], path)
  {
    hide FirstRoute, Before;
  }

  lemma PushRanked(ms: Migrations, source: Version, queue: seq<Entry>, n: nat, seen: set<Version>, current: Version,
                   path: seq<Version>, i: nat)
    requires SeenWithin(ms, source, n, seen) && Settled(ms, queue, seen, Some(current))
    requires RankedIn(ms, source, queue, current, path, i) && |path| == n && i < |EdgesFrom(ms, current)|
    requires Followed(EdgesFrom(ms, current)[..i], seen) && EdgesFrom(ms, current)[i].target !in seen
    requires path[n - 1] == current
    ensures var v := EdgesFrom(ms, current)[i].target;
            RankedIn(ms, source, queue + [(v, path + [v])], current, path, i + 1)
  {
    var v := EdgesFrom(ms, current)[i].target;
    NextIsMigration(ms, current, i);
    FirstMetFirst(ms, source, queue, n, seen, current, path, i, v);
    PositionOf(EdgesFrom(ms, current), i, seen);
    hide AllFirst, InOrder, FirstRoute, Position, Pushed, Behind, SeenWithin, Settled, Followed;
    PushFirst(ms, source, queue, path, (v, path + [v]));
    PushInOrder(ms, queue, path, i, v);
    PushPushed(ms, queue, path, i, v);
  }

  lemma OneMoreFollowed(ms: Migrations, source: Version, queue: seq<Entry>, current: Version, path: seq<Version>,
                        i: nat)
    requires RankedIn(ms, source, queue, current, path, i)
    ensures RankedIn(ms, source, queue, current, path, i + 1)
  {
    hide FirstRoute, Before, Position;
  }

  lemma StartRanked(ms: Migrations, source: Version)
    ensures FirstRoute(ms, source, source, [source]) && Ranked(ms, source, [(source, [source])])
  {
    StartOfSearch(ms, source);
    forall q | ShortestRoute(ms, source, source, q) ensures q == [source] {
      assert RouteTo(ms, source, source, [source]);
      assert |q| == 1;
    }
  }

  /** One turn of the search loop: pop the front entry and follow every migration out of it. */
  method SearchStep(ms: Migrations, source: Version, target: Version, waiting: seq<Entry>, seen: set<Version>,
                    ghost n: nat)
    returns (found: Option<seq<Version>>, queue: seq<Entry>, visited: set<Version>, ghost m: nat)
    requires Searching(ms, source, target, waiting, n, seen) && waiting != [] && Ranked(ms, source, waiting)
    ensures found.Some? ==> FirstRoute(ms, source, target, found.value)
    ensures found.None? ==> Searching(ms, source, target, queue, m, visited) && Ranked(ms, source, queue)
    ensures found.None? ==> seen <= visited && (visited == seen ==> |queue| < |waiting|)
  {
    TurnBegins(ms, source, target, waiting, n, seen);
    RankedBegins(ms, source, waiting);
    var (current, path) := waiting[0];
    assert path[n - 1] == current;
    hide Ranked, RankedIn, FirstRoute, ShortestRoute, HasMigration;
    hide Searching, SeenWithin, GoodQueue, Settled, Followed;
    found, queue, visited, m := None, waiting[1..], seen, n;
    var next := EdgesFrom(ms, current);
    for i := 0 to |next|
      invariant target !in visited && seen <= visited <= {source} + AllTargets(ms)
      invariant visited == seen ==> queue == waiting[1..]
      invariant SeenWithin(ms, source, n, visited) && GoodQueue(ms, source, queue, n, visited)
      invariant Settled(ms, queue, visited, Some(current))
      invariant Followed(next[..i], visited) && RankedIn(ms, source, queue, current, path, i)
    {
      var v := next[i].target;
      NextIsMigration(ms, current, i);
      FollowedOneMore(next, i, visited);
      if v == target {
        FirstMetFirst(ms, source, queue, n, visited, current, path, i, target);
        found := Some(path + [v]);
        return;
      }
      if v !in visited {
        Push(ms, source, queue, n, visited, current, path, v);
        PushRanked(ms, source, queue, n, visited, current, path, i);
        visited := visited + {v};
        queue := queue + [(v, path + [v])];
      } else {
        OneMoreFollowed(ms, source, queue, current, path, i);
      }
    }
    assert next[..|next|] == next;
    QueueLengths(ms, source, queue, n, visited);
    RankedEnds(ms, source, queue, current, path, |next|);
    m := TurnDone(ms, source, target, queue, n, visited, current);
  }

  lemma NextIsMigration(ms: Migrations, v: Version, i: nat)
    requires i < |EdgesFrom(ms, v)|
    ensures HasMigration(ms, v, EdgesFrom(ms, v)[i].target)
  {
    assert EdgesFrom(ms, v)[i] in EdgesFrom(ms, v);
  }

  lemma QueueLengths(ms: Migrations, source: Version, queue: seq<Entry>, n: nat, seen: set<Version>)
    requires GoodQueue(ms, source, queue, n, seen)
    ensures forall j :: 0 <= j < |queue| ==> n <= |queue[0].1| <= |queue[j].1| <= n + 1
  {
    hide ShortestRoute;
  }

  ghost predicate Followed(edges: seq<Edge>, seen: set<Version>) {
    forall e :: e in edges ==> e.target in seen
  }

  /** `_find_migration_path`. */
  method FindMigrationPath(ms: Migrations, source: Version, target: Version) returns (r: Option<seq<Version>>)
    ensures r.Some? ==> FirstRoute(ms, source, target, r.value) && Distinct(r.value)
    ensures r.None? <==> !Reachable(ms, source, target)
  {
    StartOfSearch(ms, source);
    StartRanked(ms, source);
    if source == target {
      return Some([source]);
    }
    var queue: seq<Entry> := [(source, [source])];
    var visited := {source};
    ghost var n: nat := 1;
    r := None;
    while queue != []
      invariant r.None? && Searching(ms, source, target, queue, n, visited) && Ranked(ms, source, queue)
      decreases |{source} + AllTargets(ms) - visited|, |queue|
    {
      ghost var before := visited;
      hide Ranked, Searching;
      r, queue, visited, n := SearchStep(ms, source, target, queue, visited, n);
      if r.Some? {
        ShortestIsSimple(ms, source, target, r.value);
        return;
      }
      FewerLeft({source} + AllTargets(ms), before, visited);
    }
    NothingLeft(ms, source, target, queue, visited);
  }

  /** There is only one such route. */
  lemma FirstIsUnique(ms: Migrations, source: Version, v: Version, p: seq<Version>, q: seq<Version>)
    requires FirstRoute(ms, source, v, p) && FirstRoute(ms, source, v, q)
    ensures p == q
  {
    if p != q {
      BeforeTransitive(ms, p, q, p);
    }
  }

  // ---------- applying the path ----------

  /** The migration registered from `from` to `to`. */
  function Lookup(edges: seq<Edge>, to: Version): Option<Request -> Request> {
    if edges == [] then None
    else if edges[0].target == to then Some(edges[0].migrate)
    else Lookup(edges[1..], to)
  }

  lemma {:induction false} LookupFinds(edges: seq<Edge>, to: Version)
    ensures Lookup(edges, to).Some? <==> exists e :: e in edges && e.target == to
  {
    if edges != [] {
      LookupFinds(edges[1..], to);
      assert forall e :: e in edges <==> e == edges[0] || e in edges[1..];
    }
  }

  /** Insert into a dictionary that keeps its insertion order. */
  function Put(edges: seq<Edge>, e: Edge): seq<Edge> {
    if edges == [] then [e]
    else if edges[0].target == e.target then [e] + edges[1..]
    else [edges[0]] + Put(edges[1..], e)
  }

  function Targets(edges: seq<Edge>): seq<Version> {
    if edges == [] then [] else [edges[0].target] + Targets(edges[1..])
  }

  /** A new target goes last, a known one keeps its place. */
  lemma {:induction false} PutKeepsOrder(edges: seq<Edge>, e: Edge)
    ensures Targets(Put(edges, e)) == if e.target in Targets(edges) then Targets(edges) else Targets(edges) + [e.target]
  {
    if edges != [] && edges[0].target != e.target {
      PutKeepsOrder(edges[1..], e);
      assert Put(edges, e)[1..] == Put(edges[1..], e);
    } else if edges != [] {
      assert Put(edges, e)[1..] == edges[1..];
    }
  }

  lemma {:induction false} PutThenLookup(edges: seq<Edge>, e: Edge, to: Version)
    ensures Lookup(Put(edges, e), to) == if to == e.target then Some(e.migrate) else Lookup(edges, to)
  {
    if edges != [] && edges[0].target != e.target {
      PutThenLookup(edges[1..], e, to);
      assert Put(edges, e)[1..] == Put(edges[1..], e);
    }
  }

  /** The function registered for the pair, if any. */
  function MigrationOf(ms: Migrations, from: Version, to: Version): Option<Request -> Request> {
    Lookup(EdgesFrom(ms, from), to)
  }

  /** `q` has the request as it is at each version of the route: every hop applies the registered migration
      and labels the result with the version it leads to. */
  ghost predicate Traces(ms: Migrations, route: seq<Version>, q: seq<Request>) {
    && |q| == |route| > 0
    && forall i :: 0 < i < |route| ==>
         var f := MigrationOf(ms, route[i - 1], route[i]);
         f.Some? && q[i] == f.value(q[i - 1]).(version := route[i])
  }

  lemma HopRegistered(ms: Migrations, route: seq<Version>, i: nat)
    requires IsRoute(ms, route) && 0 < i < |route|
    ensures MigrationOf(ms, route[i - 1], route[i]).Some?
  {
    assert HasMigration(ms, route[i - 1], route[i]);
    LookupFinds(EdgesFrom(ms, route[i - 1]), route[i]);
  }

  lemma TraceGrows(ms: Migrations, route: seq<Version>, q: seq<Request>, i: nat, r: Request)
    requires i + 1 < |route| && Traces(ms, route[..i + 1], q) && MigrationOf(ms, route[i], route[i + 1]).Some?
    requires r == MigrationOf(ms, route[i], route[i + 1]).value(q[i]).(version := route[i + 1])
    ensures Traces(ms, route[..i + 2], q + [r]) && |q + [r]| == i + 2
  {
    var longer, all := q + [r], route[..i + 2];
    forall j | 0 < j < |all|
      ensures var f := MigrationOf(ms, all[j - 1], all[j]);
              f.Some? && longer[j] == f.value(longer[j - 1]).(version := all[j])
    {
      if j < i + 1 {
        assert route[..i + 1][j - 1] == all[j - 1] && route[..i + 1][j] == all[j];
      }
    }
  }

  lemma TraceEnds(ms: Migrations, request: Request, source: Version, target: Version, route: seq<Version>,
                  q: seq<Request>)
    requires FirstRoute(ms, source, target, route) && Distinct(route) && Traces(ms, route, q) && q[0] == request
    ensures Migrated(ms, request, source, target, q[|q| - 1])
    ensures source != target ==> q[|q| - 1].version == target
  {
    if source != target {
      var n := |route| - 1;
      assert n > 0 && MigrationOf(ms, route[n - 1], route[n]).Some?;
    }
  }

  class VersionManager {
    var versions: set<Version>
    var supported: set<Version>
    var defaultVersion: Version
    var migrations: Migrations

    /** Migrations run between registered versions only. */
    ghost predicate Valid()
      reads this
    {
      && supported <= versions && defaultVersion in versions
      && migrations.Keys == versions
      && forall v, w :: HasMigration(migrations, v, w) ==> w in versions
    }

    constructor ()
      ensures Valid() && versions == {"v1"} == supported && defaultVersion == "v1"
      ensures forall v, w :: !HasMigration(migrations, v, w)
    {
      versions, supported, defaultVersion, migrations := {"v1"}, {"v1"}, "v1", map["v1" := []];
    }

    method RegisterVersion(v: Version, active: bool) returns (ok: bool)
      requires Valid()
      modifies this
      ensures Valid() && defaultVersion == old(defaultVersion)
      ensures ok == (v !in old(versions))
      ensures versions == old(versions) + {v}
      ensures supported == if ok && active then old(supported) + {v} else old(supported)
      ensures forall a, b :: HasMigration(migrations, a, b) <==> HasMigration(old(migrations), a, b)
      ensures forall a, b :: Registered(a, b) == old(Registered(a, b))
    {
      if v in versions {
        assert versions + {v} == versions;
        return false;
      }
      versions := versions + {v};
      if active {
        supported := supported + {v};
      }
      ghost var before := migrations;
      if v !in migrations {
        migrations := migrations[v := []];
      }
      assert forall a :: EdgesFrom(migrations, a) == EdgesFrom(before, a);
      assert forall a, b :: HasMigration(migrations, a, b) <==> HasMigration(before, a, b);
      ok := true;
    }

    function Registered(v: Version, w: Version): Option<Request -> Request>
      reads this
    {
      MigrationOf(migrations, v, w)
    }

    /** `register_migration`: refused unless both versions are registered; registering the same
        pair again replaces the migration. */
    method RegisterMigration(source: Version, edge: Edge) returns (ok: bool)
      requires Valid()
      modifies this`migrations
      ensures Valid()
      ensures ok <==> source in versions && edge.target in versions
      ensures !ok ==> migrations == old(migrations)
      ensures var before, after := old(Targets(EdgesFrom(migrations, source))), Targets(EdgesFrom(migrations, source));
              ok ==> after == if edge.target in before then before else before + [edge.target]
      ensures ok ==> forall v, w ::
                       Registered(v, w) ==
                       if v == source && w == edge.target then Some(edge.migrate) else old(Registered(v, w))
    {
      if source !in versions || edge.target !in versions {
        return false;
      }
      ghost var before := migrations;
      PutKeepsOrder(EdgesFrom(migrations, source), edge);
      migrations := migrations[source := Put(EdgesFrom(migrations, source), edge)];
      forall v, w
        ensures Registered(v, w) ==
                (if v == source && w == edge.target then Some(edge.migrate) else Lookup(EdgesFrom(before, v), w))
        ensures HasMigration(migrations, v, w) <==> HasMigration(before, v, w) || (v == source && w == edge.target)
      {
        PutThenLookup(EdgesFrom(before, source), edge, w);
        LookupFinds(EdgesFrom(before, v), w);
        LookupFinds(EdgesFrom(migrations, v), w);
      }
      ok := true;
    }

    /** `extract_version_from_request`: the first usable one of what the request says of its version, in itself,
        its path, its header and its query, and the default if there is none. */
    function SourceVersion(r: Request): (v: Version)
      reads this
      ensures var named := [Some(r.version), r.inPath, r.header, r.query];
              || (exists i :: 0 <= i < 4 && named[i] == Some(v) && v in supported && v != ""
                              && forall j :: 0 <= j < i ==>
                                   named[j].None? || named[j].value == "" || named[j].value !in supported)
              || (v == defaultVersion
                  && forall j :: 0 <= j < 4 ==>
                       named[j].None? || named[j].value == "" || named[j].value !in supported)
    {
      var named := [Some(r.version), r.inPath, r.header, r.query];
      assert named[0] == Some(r.version) && named[1] == r.inPath && named[2] == r.header && named[3] == r.query;
      if r.version != "" && r.version in supported then r.version
      else if Usable(r.inPath) then r.inPath.value
      else if Usable(r.header) then r.header.value
      else if Usable(r.query) then r.query.value
      else defaultVersion
    }

    predicate Usable(v: Option<Version>)
      reads this
    {
      v.Some? && v.value != "" && v.value in supported
    }

    /** `migrate_request`: unchanged as far as no migration is needed or possible, and otherwise
        migrated along the first shortest route, ending labelled with the target version. */
    method MigrateRequest(request: Request, target: Version) returns (r: Request)
      ensures var source := SourceVersion(request);
              if source == target || !Reachable(migrations, source, target) then r == request
              else Migrated(migrations, request, source, target, r) && r.version == target
    {
      var source := SourceVersion(request);
      if source == target {
        return request;
      }
      var found := FindMigrationPath(migrations, source, target);
      if found.None? {
        return request;
      }
      var path := found.value;
      r := request;
      ghost var trace := [r];
      hide Traces, FirstRoute, IsRoute, MigrationOf;
      for i := 0 to |path| - 1
        invariant |trace| == i + 1 && Traces(migrations, path[..i + 1], trace) && trace[0] == request && trace[i] == r
      {
        HopRegistered(migrations, path, i + 1);
        var migration := Registered(path[i], path[i + 1]);
        if migration.Some? {
          r := migration.value(r).(version := path[i + 1]);
        }
        TraceGrows(migrations, path, trace, i, r);
        trace := trace + [r];
      }
      assert path[..|path|] == path;
      TraceEnds(migrations, request, source, target, path, trace);
    }
  }

  /** `r` is what `request` becomes along the first of the shortest routes, which repeats no version. */
  ghost predicate Migrated(ms: Migrations, request: Request, source: Version, target: Version, r: Request) {
    exists route, q ::
      && FirstRoute(ms, source, target, route) && Distinct(route)
      && Traces(ms, route, q) && q[0] == request && q[|q| - 1] == r
  }
}
