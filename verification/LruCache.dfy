/** The LRU cache with a time to live (app/core/cache.py), and the `cached` wrapper. */
module LruCache {
  import opened Common

  /** The text of a cache key. */
  datatype Key = Key(text: string)

  /** The ordered dictionary, as its keys from least to most recently used and its values, and
      the dictionary of timestamps. */
  datatype Cache<V> = Cache(order: seq<Key>, values: map<Key, V>, stamps: map<Key, real>)

  function Empty<V>(): Cache<V> { Cache([], map[], map[]) }

  /** The sequence without key `k`. */
  function Without(s: seq<Key>, k: Key): seq<Key> {
    if s == [] then []
    else if s[|s| - 1] == k then Without(s[..|s| - 1], k)
    else Without(s[..|s| - 1], k) + [s[|s| - 1]]
  }

  function MoveToEnd(s: seq<Key>, k: Key): seq<Key> { Without(s, k) + [k] }

  predicate Expired<V>(c: Cache<V>, ttl: real, k: Key, now: real) {
    k !in c.stamps || now - c.stamps[k] > ttl
  }

  function AfterDelete<V>(c: Cache<V>, k: Key): Cache<V> {
    Cache(Without(c.order, k), c.values - {k}, c.stamps - {k})
  }

  /** `k` becomes the most recently used key. */
  function Use<V>(c: Cache<V>, k: Key): Cache<V> { c.(order := MoveToEnd(c.order, k)) }

  function AfterGet<V>(c: Cache<V>, ttl: real, k: Key, now: real): (Option<V>, Cache<V>) {
    if k !in c.values then (None, c)
    else if Expired(c, ttl, k, now) then (None, AfterDelete(c, k))
    else (Some(c.values[k]), Use(c, k))
  }

  /** The cache without its oldest key, if it is full and `k` is new. */
  function MakeRoom<V>(c: Cache<V>, maxSize: nat, k: Key): Cache<V>
    requires maxSize >= 1
  {
    if |c.order| >= maxSize && k !in c.values then AfterDelete(c, c.order[0]) else c
  }

  /** The cache with `k` stored as its most recently used key. */
  function Put<V>(c: Cache<V>, k: Key, v: V, at: real): Cache<V> {
    Cache(MoveToEnd(c.order, k), c.values[k := v], c.stamps[k := at])
  }

  function AfterSet<V>(c: Cache<V>, maxSize: nat, k: Key, v: V, now: real): Cache<V>
    requires maxSize >= 1
  {
    Put(MakeRoom(c, maxSize, k), k, v, now)
  }

  datatype Op<V> = GetOp(key: Key, now: real) | SetOp(key: Key, value: V, now: real) | DeleteOp(key: Key) | ClearOp

  datatype Config = Config(maxSize: nat, ttl: real)

  function Step<V>(cfg: Config, c: Cache<V>, op: Op<V>): Cache<V>
    requires cfg.maxSize >= 1
  {
    match op
    case GetOp(k, now) => AfterGet(c, cfg.ttl, k, now).1
    case SetOp(k, v, now) => AfterSet(c, cfg.maxSize, k, v, now)
    case DeleteOp(k) => AfterDelete(c, k)
    case ClearOp => Empty()
  }

  /** The cache after a trace of operations. */
  function Run<V>(cfg: Config, ops: seq<Op<V>>): Cache<V>
    requires cfg.maxSize >= 1
  {
    if ops == [] then Empty() else Step(cfg, Run(cfg, ops[..|ops| - 1]), ops[|ops| - 1])
  }

  // ---------- the two dictionaries agree ----------

  ghost predicate Agree<V>(c: Cache<V>) {
    && Distinct(c.order)
    && (forall k :: k in c.order <==> k in c.values)
    && (forall k :: k in c.order <==> k in c.stamps)
  }

  lemma {:induction false} WithoutMembers(s: seq<Key>, k: Key)
    ensures forall x :: x in Without(s, k) <==> x in s && x != k
    ensures k !in s ==> Without(s, k) == s
    ensures |Without(s, k)| <= |s|
  {
    if s != [] {
      WithoutMembers(s[..|s| - 1], k);
      assert s == s[..|s| - 1] + [s[|s| - 1]];
    }
  }

  lemma DistinctSplit(s: seq<Key>, x: Key)
    requires Distinct(s + [x])
    ensures Distinct(s) && x !in s
  {
    forall i | 0 <= i < |s| ensures s[i] != x {
      assert (s + [x])[i] == s[i] && (s + [x])[|s|] == x;
    }
    forall i, j | 0 <= i < j < |s| ensures s[i] != s[j] {
      assert (s + [x])[i] == s[i] && (s + [x])[j] == s[j];
    }
  }

  lemma DistinctJoin(s: seq<Key>, x: Key)
    requires Distinct(s) && x !in s
    ensures Distinct(s + [x])
  {
  }

  lemma {:induction false} WithoutDistinct(s: seq<Key>, k: Key)
    requires Distinct(s)
    ensures Distinct(Without(s, k))
    ensures |Without(s, k)| == |s| - if k in s then 1 else 0
  {
    if s != [] {
      var before, last := s[..|s| - 1], s[|s| - 1];
      assert s == before + [last];
      DistinctSplit(before, last);
      WithoutDistinct(before, k);
      WithoutMembers(before, k);
      if last != k {
        DistinctJoin(Without(before, k), last);
      } else {
        assert Without(s, k) == Without(before, k);
      }
    }
  }

  lemma DeleteAgrees<V>(c: Cache<V>, k: Key)
    requires Agree(c)
    ensures Agree(AfterDelete(c, k)) && |AfterDelete(c, k).order| == |c.order| - if k in c.order then 1 else 0
  {
    WithoutDistinct(c.order, k);
    WithoutMembers(c.order, k);
  }

  lemma PutAgrees<V>(c: Cache<V>, k: Key, v: V, at: real)
    requires Agree(c)
    ensures Agree(Put(c, k, v, at)) && |Put(c, k, v, at).order| == |c.order| + if k in c.order then 0 else 1
  {
    DeleteAgrees(c, k);
    WithoutMembers(c.order, k);
  }

  lemma UseAgrees<V>(c: Cache<V>, k: Key)
    requires Agree(c) && k in c.values
    ensures k in c.stamps && Use(c, k) == Put(c, k, c.values[k], c.stamps[k])
    ensures Agree(Use(c, k)) && |Use(c, k).order| == |c.order|
  {
    PutAgrees(c, k, c.values[k], c.stamps[k]);
    assert c.values[k := c.values[k]] == c.values && c.stamps[k := c.stamps[k]] == c.stamps;
  }

  lemma RoomSize<V>(maxSize: nat, c: Cache<V>, k: Key)
    requires 1 <= maxSize && Agree(c) && |c.order| <= maxSize
    ensures Agree(MakeRoom(c, maxSize, k))
    ensures k in MakeRoom(c, maxSize, k).order <==> k in c.order
    ensures |MakeRoom(c, maxSize, k).order| == if |c.order| == maxSize && k !in c.order then maxSize - 1 else |c.order|
  {
    if |c.order| >= maxSize && k !in c.values {
      assert c.order[0] in c.order;
      DeleteAgrees(c, c.order[0]);
      WithoutMembers(c.order, c.order[0]);
    }
  }

  lemma GetAgrees<V>(c: Cache<V>, ttl: real, k: Key, now: real)
    requires Agree(c)
    ensures Agree(AfterGet(c, ttl, k, now).1)
    ensures |AfterGet(c, ttl, k, now).1.order| == |c.order| - if k in c.values && Expired(c, ttl, k, now) then 1 else 0
  {
    DeleteAgrees(c, k);
    if k in c.values {
      UseAgrees(c, k);
    }
    hide AfterDelete, Use;
  }

  lemma SetAgrees<V>(c: Cache<V>, maxSize: nat, k: Key, v: V, now: real)
    requires maxSize >= 1 && Agree(c) && |c.order| <= maxSize
    ensures Agree(AfterSet(c, maxSize, k, v, now)) && |AfterSet(c, maxSize, k, v, now).order| <= maxSize
  {
    hide Agree, MakeRoom, Put;
    RoomSize(maxSize, c, k);
    PutAgrees(MakeRoom(c, maxSize, k), k, v, now);
  }

  lemma StepAgrees<V>(cfg: Config, c: Cache<V>, op: Op<V>)
    requires cfg.maxSize >= 1 && Agree(c) && |c.order| <= cfg.maxSize
    ensures Agree(Step(cfg, c, op)) && |Step(cfg, c, op).order| <= cfg.maxSize
  {
    match op {
      case GetOp(k, now) => GetAgrees(c, cfg.ttl, k, now);
      case SetOp(k, v, now) => SetAgrees(c, cfg.maxSize, k, v, now);
      case DeleteOp(k) => DeleteAgrees(c, k);
      case ClearOp =>
    }
  }

  /** Over any trace the ordered dictionary and the timestamps have the same keys, and there are
      never more than `maxSize` of them. */
  lemma {:induction false} RunAgrees<V>(cfg: Config, ops: seq<Op<V>>)
    requires cfg.maxSize >= 1
    ensures Agree(Run(cfg, ops)) && |Run(cfg, ops).order| <= cfg.maxSize
  {
    if ops != [] {
      RunAgrees(cfg, ops[..|ops| - 1]);
      StepAgrees(cfg, Run(cfg, ops[..|ops| - 1]), ops[|ops| - 1]);
    }
  }

  // ---------- the order is the order of last use ----------

  predicate Hit<V>(cfg: Config, c: Cache<V>, k: Key, now: real) {
    k in c.values && !Expired(c, cfg.ttl, k, now)
  }

  /** An operation uses `k` when it sets it, or gets it with success. */
  predicate Uses<V>(cfg: Config, c: Cache<V>, op: Op<V>, k: Key) {
    match op
    case GetOp(j, now) => j == k && Hit(cfg, c, k, now)
    case SetOp(j, _, _) => j == k
    case _ => false
  }

  /** The position in the trace of the last successful use of `k`, or -1. */
  function LastUse<V>(cfg: Config, ops: seq<Op<V>>, k: Key): int
    requires cfg.maxSize >= 1
  {
    if ops == [] then -1
    else
      var n := |ops| - 1;
      if Uses(cfg, Run(cfg, ops[..n]), ops[n], k) then n else LastUse(cfg, ops[..n], k)
  }

  lemma {:induction false} LastUseBefore<V>(cfg: Config, ops: seq<Op<V>>, k: Key)
    requires cfg.maxSize >= 1
    ensures LastUse(cfg, ops, k) < |ops|
  {
    if ops != [] {
      LastUseBefore(cfg, ops[..|ops| - 1], k);
    }
  }

  ghost predicate ByUse<V>(cfg: Config, ops: seq<Op<V>>, order: seq<Key>)
    requires cfg.maxSize >= 1
  {
    && (forall k :: k in order ==> LastUse(cfg, ops, k) >= 0)
    && forall i, j :: 0 <= i < j < |order| ==> LastUse(cfg, ops, order[i]) < LastUse(cfg, ops, order[j])
  }

  /** Removing a key keeps the order of the others. */
  lemma {:induction false} WithoutKeepsOrder<V>(cfg: Config, ops: seq<Op<V>>, s: seq<Key>, k: Key)
    requires cfg.maxSize >= 1 && ByUse(cfg, ops, s)
    ensures ByUse(cfg, ops, Without(s, k))
  {
    if s != [] {
      WithoutKeepsOrder(cfg, ops, s[..|s| - 1], k);
      var t, last := Without(s[..|s| - 1], k), s[|s| - 1];
      WithoutMembers(s[..|s| - 1], k);
      forall x | x in t ensures LastUse(cfg, ops, x) < LastUse(cfg, ops, last) {
        assert x in s[..|s| - 1];
        var i :| 0 <= i < |s| - 1 && s[..|s| - 1][i] == x;
        assert s[i] == x;
      }
    }
  }

  /** An operation that uses no key of `order` leaves their last uses as they were. */
  lemma UseUnchanged<V>(cfg: Config, ops: seq<Op<V>>, op: Op<V>, order: seq<Key>)
    requires cfg.maxSize >= 1 && ByUse(cfg, ops, order)
    requires forall k :: k in order ==> LastUse(cfg, ops + [op], k) == LastUse(cfg, ops, k)
    ensures ByUse(cfg, ops + [op], order)
  {
    forall i, j | 0 <= i < j < |order| ensures LastUse(cfg, ops + [op], order[i]) < LastUse(cfg, ops + [op], order[j]) {
      assert order[i] in order && order[j] in order;
    }
  }

  lemma LastUseStep<V>(cfg: Config, ops: seq<Op<V>>, op: Op<V>, k: Key)
    requires cfg.maxSize >= 1
    ensures LastUse(cfg, ops + [op], k) == if Uses(cfg, Run(cfg, ops), op, k) then |ops| else LastUse(cfg, ops, k)
  {
    assert (ops + [op])[..|ops|] == ops;
  }

  /** Keys that the operation does not use keep their order. */
  lemma OthersByUse<V>(cfg: Config, ops: seq<Op<V>>, op: Op<V>, order: seq<Key>)
    requires cfg.maxSize >= 1 && ByUse(cfg, ops, order)
    requires forall k :: k in order ==> !Uses(cfg, Run(cfg, ops), op, k)
    ensures ByUse(cfg, ops + [op], order)
  {
    forall k | k in order ensures LastUse(cfg, ops + [op], k) == LastUse(cfg, ops, k) {
      LastUseStep(cfg, ops, op, k);
    }
    hide LastUse;
    UseUnchanged(cfg, ops, op, order);
  }

  /** The used key goes to the end. */
  lemma UsedLast<V>(cfg: Config, ops: seq<Op<V>>, op: Op<V>, rest: seq<Key>, k: Key)
    requires cfg.maxSize >= 1 && ByUse(cfg, ops, rest) && Uses(cfg, Run(cfg, ops), op, k)
    requires forall x :: x in rest ==> !Uses(cfg, Run(cfg, ops), op, x)
    ensures ByUse(cfg, ops + [op], rest + [k])
  {
    OthersByUse(cfg, ops, op, rest);
    LastUseStep(cfg, ops, op, k);
    hide LastUse;
    forall x | x in rest ensures LastUse(cfg, ops + [op], x) < |ops| {
      LastUseStep(cfg, ops, op, x);
      LastUseBefore(cfg, ops, x);
    }
  }

  lemma GetByUse<V>(cfg: Config, ops: seq<Op<V>>, k: Key, now: real)
    requires cfg.maxSize >= 1 && ByUse(cfg, ops, Run(cfg, ops).order)
    ensures ByUse(cfg, ops + [GetOp(k, now)], AfterGet(Run(cfg, ops), cfg.ttl, k, now).1.order)
  {
    hide ByUse, Run, LastUse;
    var c, op := Run(cfg, ops), GetOp(k, now);
    WithoutKeepsOrder(cfg, ops, c.order, k);
    WithoutMembers(c.order, k);
    if Hit(cfg, c, k, now) {
      UsedLast(cfg, ops, op, Without(c.order, k), k);
    } else {
      OthersByUse(cfg, ops, op, AfterGet(c, cfg.ttl, k, now).1.order);
    }
  }

  lemma SetByUse<V>(cfg: Config, ops: seq<Op<V>>, k: Key, v: V, now: real)
    requires cfg.maxSize >= 1 && ByUse(cfg, ops, Run(cfg, ops).order)
    ensures ByUse(cfg, ops + [SetOp(k, v, now)], AfterSet(Run(cfg, ops), cfg.maxSize, k, v, now).order)
  {
    hide ByUse, Run, LastUse;
    var room := MakeRoom(Run(cfg, ops), cfg.maxSize, k);
    if |Run(cfg, ops).order| >= cfg.maxSize {
      WithoutKeepsOrder(cfg, ops, Run(cfg, ops).order, Run(cfg, ops).order[0]);
    }
    WithoutKeepsOrder(cfg, ops, room.order, k);
    WithoutMembers(room.order, k);
    UsedLast(cfg, ops, SetOp(k, v, now), Without(room.order, k), k);
  }

  lemma StepByUse<V>(cfg: Config, ops: seq<Op<V>>, op: Op<V>)
    requires cfg.maxSize >= 1 && ByUse(cfg, ops, Run(cfg, ops).order)
    ensures ByUse(cfg, ops + [op], Step(cfg, Run(cfg, ops), op).order)
  {
    match op {
      case GetOp(k, now) =>
        GetByUse(cfg, ops, k, now);
      case SetOp(k, v, now) =>
        SetByUse(cfg, ops, k, v, now);
      case DeleteOp(k) =>
        WithoutKeepsOrder(cfg, ops, Run(cfg, ops).order, k);
        hide ByUse;
        OthersByUse(cfg, ops, op, Without(Run(cfg, ops).order, k));
      case ClearOp =>
    }
  }

  /** Over any trace, the cached keys stand exactly in the order of their last successful use. */
  lemma {:induction false} OrderIsUseOrder<V>(cfg: Config, ops: seq<Op<V>>)
    requires cfg.maxSize >= 1
    ensures ByUse(cfg, ops, Run(cfg, ops).order)
  {
    if ops != [] {
      var before := ops[..|ops| - 1];
      OrderIsUseOrder(cfg, before);
      StepByUse(cfg, before, ops[|ops| - 1]);
      assert before + [ops[|ops| - 1]] == ops;
    }
  }

  lemma SetMembers<V>(c: Cache<V>, maxSize: nat, k: Key, v: V, now: real)
    requires maxSize >= 1 && Agree(c) && |c.order| <= maxSize
    ensures var after := AfterSet(c, maxSize, k, v, now).order;
            if |c.order| == maxSize && k !in c.order then
              forall x :: x in after <==> x == k || (x in c.order && x != c.order[0])
            else
              forall x :: x in after <==> x == k || x in c.order
  {
    WithoutMembers(MakeRoom(c, maxSize, k).order, k);
    if |c.order| == maxSize {
      WithoutMembers(c.order, c.order[0]);
    }
  }

  lemma OldestFirst<V>(cfg: Config, ops: seq<Op<V>>, order: seq<Key>, x: Key)
    requires cfg.maxSize >= 1 && ByUse(cfg, ops, order) && x in order && x != order[0]
    ensures LastUse(cfg, ops, order[0]) < LastUse(cfg, ops, x)
  {
  }

  ghost predicate LeastRecentlyUsed<V>(cfg: Config, ops: seq<Op<V>>, order: seq<Key>, lru: Key)
    requires cfg.maxSize >= 1
  {
    lru in order && forall x :: x in order && x != lru ==> LastUse(cfg, ops, lru) < LastUse(cfg, ops, x)
  }

  /** A set of a new key into a full cache drops exactly the least recently used key; any other
      set drops none. */
  lemma EvictsLeastRecentlyUsed<V>(cfg: Config, ops: seq<Op<V>>, k: Key, v: V, now: real)
    requires cfg.maxSize >= 1
    ensures var before := Run(cfg, ops).order; var after := AfterSet(Run(cfg, ops), cfg.maxSize, k, v, now).order;
            if |before| == cfg.maxSize && k !in before then
              exists lru :: LeastRecentlyUsed(cfg, ops, before, lru)
                && forall x :: x in after <==> x == k || (x in before && x != lru)
            else
              forall x :: x in after <==> x == k || x in before
  {
    var c := Run(cfg, ops);
    RunAgrees(cfg, ops);
    OrderIsUseOrder(cfg, ops);
    SetMembers(c, cfg.maxSize, k, v, now);
    hide Run, LastUse, Without, AfterSet, Agree, ByUse;
    if |c.order| == cfg.maxSize && k !in c.order {
      var lru := c.order[0];
      forall x | x in c.order && x != lru ensures LastUse(cfg, ops, lru) < LastUse(cfg, ops, x) {
        OldestFirst(cfg, ops, c.order, x);
      }
      assert LeastRecentlyUsed(cfg, ops, c.order, lru);
    }
  }

  // ---------- inclusion ----------

  /** The keys of `s` that are in `keys`, in order. */
  function Only(s: seq<Key>, keys: set<Key>): seq<Key> {
    if s == [] then []
    else if s[|s| - 1] in keys then Only(s[..|s| - 1], keys) + [s[|s| - 1]]
    else Only(s[..|s| - 1], keys)
  }

  ghost predicate Within<T>(small: map<Key, T>, large: map<Key, T>) {
    forall k :: k in small ==> k in large && small[k] == large[k]
  }

  /** Every key of the small cache is in the large one with the same value and timestamp, and the
      small order is the large one restricted to the small keys. */
  ghost predicate Inside<V>(small: Cache<V>, large: Cache<V>) {
    && Agree(small) && Agree(large)
    && Within(small.values, large.values) && Within(small.stamps, large.stamps)
    && small.order == Only(large.order, small.values.Keys)
  }

  /** Moreover both caches are within their sizes, and the large one is not fuller, relative to its
      size, than the small one: when it has to evict, so has the small one. */
  ghost predicate Included<V>(m: nat, small: Cache<V>, m': nat, large: Cache<V>) {
    && Inside(small, large)
    && |small.order| <= m && |large.order| <= m'
    && |large.order| - |small.order| <= m' - m
  }

  lemma OnlyAppend(s: seq<Key>, keys: set<Key>, x: Key)
    ensures Only(s + [x], keys) == if x in keys then Only(s, keys) + [x] else Only(s, keys)
  {
    assert (s + [x])[..|s|] == s;
  }

  lemma WithoutAppend(s: seq<Key>, k: Key, x: Key)
    ensures Without(s + [x], k) == if x == k then Without(s, k) else Without(s, k) + [x]
  {
    assert (s + [x])[..|s|] == s;
  }

  /** Restricting and removing commute. */
  lemma {:induction false} OnlyWithout(s: seq<Key>, keys: set<Key>, k: Key)
    ensures Only(Without(s, k), keys - {k}) == Without(Only(s, keys), k)
  {
    hide Only, Without;
    if s == [] {
      NothingLeft(keys, k);
    } else {
      var before, x := s[..|s| - 1], s[|s| - 1];
      OnlyWithout(before, keys, k);
      WithoutAppend(before, k, x);
      OnlyAppend(before, keys, x);
      if x != k {
        OnlyAppend(Without(before, k), keys - {k}, x);
      }
      if x in keys {
        WithoutAppend(Only(before, keys), k, x);
      }
      assert before + [x] == s;
    }
  }

  lemma NothingLeft(keys: set<Key>, k: Key)
    ensures Only([], keys) == [] && Without([], k) == [] && Only([], keys - {k}) == []
  {
  }

  lemma {:induction false} OnlySameKeys(s: seq<Key>, a: set<Key>, b: set<Key>)
    requires forall x :: x in s ==> (x in a <==> x in b)
    ensures Only(s, a) == Only(s, b)
  {
    if s != [] {
      OnlySameKeys(s[..|s| - 1], a, b);
    }
  }

  lemma {:induction false} OnlyMembers(s: seq<Key>, keys: set<Key>)
    ensures forall x :: x in Only(s, keys) <==> x in s && x in keys
  {
    if s != [] {
      OnlyMembers(s[..|s| - 1], keys);
      assert s == s[..|s| - 1] + [s[|s| - 1]];
    }
  }

  /** A restricted sequence restricted again to fewer keys. */
  lemma {:induction false} OnlyFewer(s: seq<Key>, keys: set<Key>, k: Key)
    ensures Only(s, keys - {k}) == Without(Only(s, keys), k)
  {
    if s != [] {
      var before, last := s[..|s| - 1], s[|s| - 1];
      OnlyFewer(before, keys, k);
      WithoutAppend(Only(before, keys), k, last);
      if last !in keys {
        assert Only(s, keys) == Only(before, keys);
      }
    }
  }

  /** If the head of the large order is in the small cache, it heads the small order too. */
  lemma {:induction false} OnlyHead(s: seq<Key>, keys: set<Key>)
    requires s != [] && s[0] in keys
    ensures Only(s, keys) != [] && Only(s, keys)[0] == s[0]
  {
    if |s| > 1 {
      OnlyHead(s[..|s| - 1], keys);
    }
  }

  lemma DeleteBoth<V>(small: Cache<V>, large: Cache<V>, k: Key)
    requires Inside(small, large)
    ensures Inside(AfterDelete(small, k), AfterDelete(large, k))
  {
    DeleteAgrees(small, k);
    DeleteAgrees(large, k);
    OnlyWithout(large.order, small.values.Keys, k);
    assert AfterDelete(small, k).values.Keys == small.values.Keys - {k};
  }

  /** Deleting a key the cache does not have. */
  lemma DeleteAbsent<V>(c: Cache<V>, k: Key)
    requires Agree(c) && k !in c.values
    ensures AfterDelete(c, k) == c
  {
    WithoutMembers(c.order, k);
    assert c.values - {k} == c.values && c.stamps - {k} == c.stamps;
  }

  lemma DeleteFromLarge<V>(small: Cache<V>, large: Cache<V>, k: Key)
    requires Inside(small, large) && k !in small.values
    ensures Inside(small, AfterDelete(large, k))
  {
    DeleteAbsent(small, k);
    DeleteBoth(small, large, k);
  }

  lemma DeleteFromSmall<V>(small: Cache<V>, large: Cache<V>, k: Key)
    requires Inside(small, large)
    ensures Inside(AfterDelete(small, k), large)
  {
    DeleteAgrees(small, k);
    OnlyFewer(large.order, small.values.Keys, k);
    assert AfterDelete(small, k).values.Keys == small.values.Keys - {k};
  }

  lemma PutOrder(order: seq<Key>, keys: set<Key>, k: Key)
    ensures MoveToEnd(Only(order, keys), k) == Only(MoveToEnd(order, k), keys + {k})
  {
    WithoutMembers(order, k);
    OnlyWithout(order, keys, k);
    OnlySameKeys(Without(order, k), keys - {k}, keys + {k});
    OnlyAppend(Without(order, k), keys + {k}, k);
  }

  lemma PutWithin<T>(small: map<Key, T>, large: map<Key, T>, k: Key, x: T)
    requires Within(small, large)
    ensures Within(small[k := x], large[k := x])
  {
  }

  lemma PutBoth<V>(small: Cache<V>, large: Cache<V>, k: Key, v: V, at: real)
    requires Inside(small, large)
    ensures Inside(Put(small, k, v, at), Put(large, k, v, at))
  {
    hide Agree, MoveToEnd, Only, Within;
    PutAgrees(small, k, v, at);
    PutAgrees(large, k, v, at);
    PutWithin(small.values, large.values, k, v);
    PutWithin(small.stamps, large.stamps, k, at);
    PutOrder(large.order, small.values.Keys, k);
    assert Put(small, k, v, at).values.Keys == small.values.Keys + {k};
  }

  lemma UseOutside(order: seq<Key>, keys: set<Key>, k: Key)
    requires k !in keys
    ensures Only(MoveToEnd(order, k), keys) == Only(order, keys)
  {
    OnlyWithout(order, keys, k);
    OnlyMembers(order, keys);
    WithoutMembers(Only(order, keys), k);
    assert keys - {k} == keys;
    OnlyAppend(Without(order, k), keys, k);
  }

  /** A hit on the large cache alone only reorders keys the small one does not have. */
  lemma UseLarge<V>(small: Cache<V>, large: Cache<V>, k: Key)
    requires Inside(small, large) && k !in small.values && k in large.values
    ensures Inside(small, Use(large, k))
  {
    hide Agree, MoveToEnd, Only, Within;
    UseAgrees(large, k);
    UseOutside(large.order, small.values.Keys, k);
  }

  lemma UseBoth<V>(small: Cache<V>, large: Cache<V>, k: Key)
    requires Inside(small, large) && k in small.values
    ensures k in large.values && Inside(Use(small, k), Use(large, k))
  {
    UseAgrees(small, k);
    UseAgrees(large, k);
    PutBoth(small, large, k, small.values[k], small.stamps[k]);
  }

  lemma SameEntry<V>(small: Cache<V>, large: Cache<V>, k: Key)
    requires Inside(small, large) && k in small.values
    ensures k in large.values && large.values[k] == small.values[k]
    ensures k in small.stamps && k in large.stamps && large.stamps[k] == small.stamps[k]
  {
  }

  lemma GetInside<V>(small: Cache<V>, large: Cache<V>, ttl: real, k: Key, now: real)
    requires Inside(small, large)
    ensures Inside(AfterGet(small, ttl, k, now).1, AfterGet(large, ttl, k, now).1)
    ensures AfterGet(small, ttl, k, now).0.Some? ==> AfterGet(large, ttl, k, now).0 == AfterGet(small, ttl, k, now).0
  {
    hide Inside, Use, AfterDelete;
    DeleteBoth(small, large, k);
    if k in small.values {
      SameEntry(small, large, k);
      UseBoth(small, large, k);
    } else if k in large.values {
      DeleteFromLarge(small, large, k);
      UseLarge(small, large, k);
    }
  }

  lemma GetIncluded<V>(m: nat, small: Cache<V>, m': nat, large: Cache<V>, ttl: real, k: Key, now: real)
    requires Included(m, small, m', large)
    ensures Included(m, AfterGet(small, ttl, k, now).1, m', AfterGet(large, ttl, k, now).1)
    ensures AfterGet(small, ttl, k, now).0.Some? ==> AfterGet(large, ttl, k, now).0 == AfterGet(small, ttl, k, now).0
  {
    GetInside(small, large, ttl, k, now);
    GetAgrees(small, ttl, k, now);
    GetAgrees(large, ttl, k, now);
    if k in small.values {
      SameEntry(small, large, k);
    }
    hide Inside, Agree, AfterGet;
  }

  lemma RoomInside<V>(m: nat, small: Cache<V>, m': nat, large: Cache<V>, k: Key)
    requires 1 <= m && 1 <= m' && Included(m, small, m', large)
    ensures Inside(MakeRoom(small, m, k), MakeRoom(large, m', k))
  {
    var smallFull, largeFull := |small.order| >= m && k !in small.values, |large.order| >= m' && k !in large.values;
    if largeFull {
      var head := large.order[0];
      assert smallFull && head in large.order;
      if head in small.values {
        OnlyHead(large.order, small.values.Keys);
        DeleteBoth(small, large, head);
      } else {
        DeleteFromLarge(small, large, head);
        DeleteFromSmall(small, AfterDelete(large, head), small.order[0]);
      }
    } else if smallFull {
      DeleteFromSmall(small, large, small.order[0]);
    }
  }

  lemma SetIncluded<V>(m: nat, small: Cache<V>, m': nat, large: Cache<V>, k: Key, v: V, now: real)
    requires 1 <= m && 1 <= m' && Included(m, small, m', large)
    ensures Included(m, AfterSet(small, m, k, v, now), m', AfterSet(large, m', k, v, now))
  {
    RoomSize(m, small, k);
    RoomSize(m', large, k);
    RoomInside(m, small, m', large, k);
    PutBoth(MakeRoom(small, m, k), MakeRoom(large, m', k), k, v, now);
    PutAgrees(MakeRoom(small, m, k), k, v, now);
    PutAgrees(MakeRoom(large, m', k), k, v, now);
    assert k in small.order ==> k in large.order;
    hide Agree, Only, Put, MakeRoom;
  }

  lemma StepIncluded<V>(m: nat, small: Cache<V>, m': nat, large: Cache<V>, ttl: real, op: Op<V>)
    requires 1 <= m <= m' && Included(m, small, m', large)
    ensures Included(m, Step(Config(m, ttl), small, op), m', Step(Config(m', ttl), large, op))
  {
    match op {
      case GetOp(k, now) => GetIncluded(m, small, m', large, ttl, k, now);
      case SetOp(k, v, now) => SetIncluded(m, small, m', large, k, v, now);
      case DeleteOp(k) =>
        DeleteBoth(small, large, k);
        DeleteAgrees(small, k);
        DeleteAgrees(large, k);
      case ClearOp =>
    }
  }

  /** The inclusion property: over any one trace, the cache of size `m` is inside the cache of size
      `m' >= m`, in keys, values, timestamps and order. */
  lemma {:induction false} RunIncluded<V>(m: nat, m': nat, ttl: real, ops: seq<Op<V>>)
    requires 1 <= m <= m'
    ensures Included(m, Run(Config(m, ttl), ops), m', Run(Config(m', ttl), ops))
  {
    if ops != [] {
      var before := ops[..|ops| - 1];
      RunIncluded(m, m', ttl, before);
      StepIncluded(m, Run(Config(m, ttl), before), m', Run(Config(m', ttl), before), ttl, ops[|ops| - 1]);
    }
  }

  /** So after any trace a lookup that hits the smaller cache hits the larger, with the same value. */
  lemma LargerHitsWheneverSmallerDoes<V>(m: nat, m': nat, ttl: real, ops: seq<Op<V>>, k: Key, now: real)
    requires 1 <= m <= m'
    ensures var got := AfterGet(Run(Config(m, ttl), ops), ttl, k, now).0;
            got.Some? ==> AfterGet(Run(Config(m', ttl), ops), ttl, k, now).0 == got
  {
    RunIncluded(m, m', ttl, ops);
    GetIncluded(m, Run(Config(m, ttl), ops), m', Run(Config(m', ttl), ops), ttl, k, now);
  }

  // ---------- what a hit returns ----------

  /** The position of the last operation that set or removed `k` by name, or cleared the cache. */
  function LastWrite<V>(ops: seq<Op<V>>, k: Key): int {
    if ops == [] then -1
    else
      var n := |ops| - 1;
      if ops[n].ClearOp? || (!ops[n].GetOp? && ops[n].key == k) then n else LastWrite(ops[..n], k)
  }

  /** Every entry is the work of the last operation that wrote its key, which set it. */
  ghost predicate Written<V>(ops: seq<Op<V>>, c: Cache<V>) {
    forall k :: k in c.values ==>
      && k in c.stamps && 0 <= LastWrite(ops, k) < |ops|
      && ops[LastWrite(ops, k)] == SetOp(k, c.values[k], c.stamps[k])
  }

  lemma StepWritten<V>(cfg: Config, ops: seq<Op<V>>, c: Cache<V>, op: Op<V>)
    requires cfg.maxSize >= 1 && Written(ops, c)
    ensures Written(ops + [op], Step(cfg, c, op))
  {
    var next := Step(cfg, c, op);
    assert (ops + [op])[..|ops|] == ops;
    forall k | k in next.values
      ensures k in next.stamps && 0 <= LastWrite(ops + [op], k) < |ops + [op]|
      ensures (ops + [op])[LastWrite(ops + [op], k)] == SetOp(k, next.values[k], next.stamps[k])
    {
    }
  }

  lemma {:induction false} RunWritten<V>(cfg: Config, ops: seq<Op<V>>)
    requires cfg.maxSize >= 1
    ensures Written(ops, Run(cfg, ops))
  {
    if ops != [] {
      var before := ops[..|ops| - 1];
      RunWritten(cfg, before);
      StepWritten(cfg, before, Run(cfg, before), ops[|ops| - 1]);
      assert before + [ops[|ops| - 1]] == ops;
    }
  }

  // ---------- how long a value stays ----------

  /** The keys other than `k` that the operations get or set. */
  ghost function Others<V>(ops: seq<Op<V>>, k: Key): set<Key> {
    set op | op in ops && (op.GetOp? || op.SetOp?) && op.key != k :: op.key
  }

  /** No operation sets, deletes or clears `k`, or looks it up when it has expired. */
  ghost predicate Untouched<V>(ttl: real, ops: seq<Op<V>>, k: Key, at: real) {
    forall op :: op in ops ==>
      && !op.ClearOp? && ((op.SetOp? || op.DeleteOp?) ==> op.key != k)
      && (op.GetOp? && op.key == k ==> op.now - at <= ttl)
  }

  lemma {:induction false} UsedByLater<V>(cfg: Config, first: seq<Op<V>>, later: seq<Op<V>>, k: Key, x: Key)
    requires cfg.maxSize >= 1 && x != k && LastUse(cfg, first + later, x) >= |first|
    ensures x in Others(later, k)
  {
    var n := |later| - 1;
    if later == [] {
      assert first + later == first;
      LastUseBefore(cfg, first, x);
    } else {
      var ops, op := first + later[..n], later[n];
      assert first + later == ops + [op];
      LastUseStep(cfg, ops, op, x);
      if !Uses(cfg, Run(cfg, ops), op, x) {
        UsedByLater(cfg, first, later[..n], k, x);
      }
      assert op in later;
    }
  }

  /** The oldest key of a full cache is not `k`, if fewer others than fit beside it have been used since. */
  lemma OldestIsOther<V>(cfg: Config, first: seq<Op<V>>, later: seq<Op<V>>, k: Key, newest: Key)
    requires cfg.maxSize >= 1 && first != [] && Uses(cfg, Run(cfg, first[..|first| - 1]), first[|first| - 1], k)
    requires k in Run(cfg, first + later).order && |Run(cfg, first + later).order| == cfg.maxSize
    requires newest !in Run(cfg, first + later).order && |Others(later, k) + {newest}| < cfg.maxSize
    ensures Run(cfg, first + later).order[0] != k
  {
    var order := Run(cfg, first + later).order;
    if order[0] == k {
      RunAgrees(cfg, first + later);
      OrderIsUseOrder(cfg, first + later);
      UsedNoLater(cfg, first, later, k);
      var others := set x | x in order[1..];
      forall x | x in others ensures x in Others(later, k) {
        var i :| 0 <= i < |order[1..]| && order[1..][i] == x;
        assert order[i + 1] == x && LastUse(cfg, first + later, order[0]) < LastUse(cfg, first + later, order[i + 1]);
        UsedByLater(cfg, first, later, k, x);
      }
      DistinctSize(order[1..]);
      assert newest !in others && |others + {newest}| == cfg.maxSize;
      SubsetSize(others + {newest}, Others(later, k) + {newest});
      assert false;
    }
  }

  lemma {:induction false} UsedNoLater<V>(cfg: Config, first: seq<Op<V>>, later: seq<Op<V>>, k: Key)
    requires cfg.maxSize >= 1 && first != [] && Uses(cfg, Run(cfg, first[..|first| - 1]), first[|first| - 1], k)
    ensures LastUse(cfg, first + later, k) >= |first| - 1
  {
    var n := |later| - 1;
    if later == [] {
      assert first + later == first;
    } else {
      assert first + later == (first + later[..n]) + [later[n]];
      LastUseStep(cfg, first + later[..n], later[n], k);
      UsedNoLater(cfg, first, later[..n], k);
    }
  }

  lemma {:induction false} DistinctSize(s: seq<Key>)
    requires Distinct(s)
    ensures |set x | x in s| == |s|
  {
    if s != [] {
      var before, last := s[..|s| - 1], s[|s| - 1];
      assert s == before + [last];
      DistinctSplit(before, last);
      DistinctSize(before);
      assert (set x | x in s) == (set x | x in before) + {last};
    }
  }

  /** A value stays, with its timestamp, until as many other keys have been used as fit in the cache. */
  lemma {:induction false} ValueStays<V>(cfg: Config, before: seq<Op<V>>, k: Key, v: V, at: real, later: seq<Op<V>>)
    requires cfg.maxSize >= 1 && Untouched(cfg.ttl, later, k, at) && |Others(later, k)| < cfg.maxSize
    ensures var c := Run(cfg, before + [SetOp(k, v, at)] + later);
            k in c.values && c.values[k] == v && k in c.stamps && c.stamps[k] == at
  {
    var first := before + [SetOp(k, v, at)];
    assert first[..|first| - 1] == before;
    if later == [] {
      assert first + later == first;
    } else {
      var n := |later| - 1;
      var rest, op := later[..n], later[n];
      assert first + later == (first + rest) + [op] && ((first + rest) + [op])[..|first + rest|] == first + rest;
      assert later == rest + [op];
      SubsetSize(Others(rest, k), Others(later, k));
      ValueStays(cfg, before, k, v, at, rest);
      var c := Run(cfg, first + rest);
      RunAgrees(cfg, first + rest);
      if op.SetOp? && |c.order| >= cfg.maxSize && op.key !in c.values {
        assert op in later && op.key in Others(later, k);
        SubsetSize(Others(rest, k) + {op.key}, Others(later, k));
        OldestIsOther(cfg, first, rest, k, op.key);
      }
    }
  }

  /** So a lookup returns the value set if and only if it is no older than `ttl`, as long as fewer other keys
      have been used than fit in the cache. */
  lemma HitIffYoung<V>(cfg: Config, before: seq<Op<V>>, k: Key, v: V, at: real, later: seq<Op<V>>, now: real)
    requires cfg.maxSize >= 1 && Untouched(cfg.ttl, later, k, at) && |Others(later, k)| < cfg.maxSize
    ensures AfterGet(Run(cfg, before + [SetOp(k, v, at)] + later), cfg.ttl, k, now).0
         == if now - at <= cfg.ttl then Some(v) else None
  {
    ValueStays(cfg, before, k, v, at, later);
    hide Run;
  }

  /** What happens to a cache behind `cached`: a wrapped call looks its key up, a wrapped function
      returns and its result is stored, entries are invalidated.  Calls may be interleaved. */
  datatype Event<A, V> =
    | Looked(prefix: string, args: A, now: real)
    | Produced(prefix: string, args: A, result: Option<V>, now: real)
    | Dropped(dropped: Key)
    | Cleared

  function AsOp<A, V>(key: (string, A) -> Key, e: Event<A, V>): Op<Option<V>> {
    match e
    case Looked(p, a, now) => GetOp(key(p, a), now)
    case Produced(p, a, r, now) => SetOp(key(p, a), r, now)
    case Dropped(k) => DeleteOp(k)
    case Cleared => ClearOp
  }

  function AsOps<A, V>(key: (string, A) -> Key, es: seq<Event<A, V>>): seq<Op<Option<V>>> {
    seq(|es|, i requires 0 <= i < |es| => AsOp(key, es[i]))
  }

  /** A missing entry and a stored None are one and the same to `get`'s callers. */
  function Flat<V>(r: Option<Option<V>>): Option<V> {
    if r.Some? then r.value else None
  }

  /** The event replaces or removes the result for these arguments, stored under `k`. */
  predicate Writes<A(==), V(==)>(e: Event<A, V>, prefix: string, args: A, k: Key) {
    e.Cleared? || e == Dropped(k) || (e.Produced? && e.prefix == prefix && e.args == args)
  }

  lemma {:induction false} LastWriteMeans<V>(ops: seq<Op<V>>, k: Key, i: int)
    requires 0 <= i < |ops| && LastWrite(ops, k) < i
    ensures !ops[i].ClearOp? && (!ops[i].GetOp? ==> ops[i].key != k)
  {
    if i < |ops| - 1 {
      LastWriteMeans(ops[..|ops| - 1], k, i);
    }
  }

  /** What a wrapped call gets from the cache after the events `es`. */
  function Found<A, V>(cfg: Config, key: (string, A) -> Key, es: seq<Event<A, V>>, prefix: string, args: A,
                       now: real): Option<V>
    requires cfg.maxSize >= 1
  {
    Flat(AfterGet(Run(cfg, AsOps(key, es)), cfg.ttl, key(prefix, args), now).0)
  }

  /** `r` was produced for these very arguments at most `ttl` before `now`, and neither produced anew
      nor invalidated since. */
  ghost predicate Fresh<A, V>(cfg: Config, key: (string, A) -> Key, es: seq<Event<A, V>>, prefix: string, args: A,
                              now: real,
                              r: Option<V>)
  {
    exists i :: 0 <= i < |es| && es[i].Produced? && es[i].prefix == prefix && es[i].args == args && es[i].result == r
      && now - es[i].now <= cfg.ttl
      && forall j :: i < j < |es| ==> !Writes(es[j], prefix, args, key(prefix, args))
  }

  ghost predicate Injective<A(!new)>(key: (string, A) -> Key) {
    forall p, a, q, b :: key(p, a) == key(q, b) ==> p == q && a == b
  }

  /** A value `cached` returns from the cache is fresh. */
  lemma CachedValueIsFresh<A(!new), V>(cfg: Config, key: (string, A) -> Key, es: seq<Event<A, V>>, prefix: string,
                                       args: A, now: real)
    requires cfg.maxSize >= 1 && Injective(key)
    requires Found(cfg, key, es, prefix, args, now).Some?
    ensures Fresh(cfg, key, es, prefix, args, now, Found(cfg, key, es, prefix, args, now))
  {
    var ops, k := AsOps(key, es), key(prefix, args);
    RunWritten(cfg, ops);
    var i := LastWrite(ops, k);
    assert ops[i] == AsOp(key, es[i]);
    forall j | i < j < |es| ensures !Writes(es[j], prefix, args, k) {
      LastWriteMeans(ops, k, j);
      assert ops[j] == AsOp(key, es[j]);
    }
  }

  /** Two calls whose keys collide share one entry: the value produced for the one is found by the other. */
  lemma CollisionFound<A, V>(cfg: Config, key: (string, A) -> Key, p: string, a: A, q: string, b: A, v: V)
    requires cfg.maxSize >= 1 && cfg.ttl >= 0.0 && key(p, a) == key(q, b)
    ensures Found(cfg, key, [Produced(p, a, Some(v), 0.0)], q, b, 0.0) == Some(v)
  {
    var es := [Produced(p, a, Some(v), 0.0)];
    var ops := AsOps(key, es);
    assert ops == [SetOp(key(p, a), Some(v), 0.0)] && ops[..0] == [];
    assert Run(cfg, ops) == AfterSet(Empty(), cfg.maxSize, key(p, a), Some(v), 0.0);
  }

  /** In all runs every value found is one produced for the arguments asked for. */
  ghost predicate OnlyOwnResults<A(!new), V(!new)>(cfg: Config, key: (string, A) -> Key)
    requires cfg.maxSize >= 1
  {
    forall es: seq<Event<A, V>>, prefix, args, now :: Found(cfg, key, es, prefix, args, now).Some? ==>
      Fresh(cfg, key, es, prefix, args, now, Found(cfg, key, es, prefix, args, now))
  }

  /** And this holds of `cached` if and only if its keys are injective, `v` being any result. */
  lemma FreshIffInjective<A(!new), V(!new)>(cfg: Config, key: (string, A) -> Key, v: V)
    requires cfg.maxSize >= 1 && cfg.ttl >= 0.0
    ensures OnlyOwnResults<A, V>(cfg, key) <==> Injective(key)
  {
    if Injective(key) {
      forall es: seq<Event<A, V>>, prefix, args, now | Found(cfg, key, es, prefix, args, now).Some?
        ensures Fresh(cfg, key, es, prefix, args, now, Found(cfg, key, es, prefix, args, now))
      {
        CachedValueIsFresh(cfg, key, es, prefix, args, now);
      }
    } else {
      var p, a, q, b :| key(p, a) == key(q, b) && !(p == q && a == b);
      var es := [Produced(p, a, Some(v), 0.0)];
      CollisionFound(cfg, key, p, a, q, b, v);
      assert !Fresh(cfg, key, es, q, b, 0.0, Some(v));
    }
  }

  class LRUCache<V> {
    const maxSize: nat
    const ttl: real
    var order: seq<Key>
    var values: map<Key, Option<V>>
    var stamps: map<Key, real>

    ghost function Now(): Cache<Option<V>>
      reads this
    {
      Cache(order, values, stamps)
    }

    ghost predicate Valid()
      reads this
    {
      maxSize >= 1 && Agree(Now()) && |order| <= maxSize
    }

    constructor (maxSize: nat, ttl: real)
      requires maxSize >= 1
      ensures Valid() && Now() == Empty() && this.maxSize == maxSize && this.ttl == ttl
    {
      this.maxSize, this.ttl := maxSize, ttl;
      order, values, stamps := [], map[], map[];
    }

    method Delete(k: Key)
      requires Valid()
      modifies this
      ensures Valid() && Now() == AfterDelete(old(Now()), k)
    {
      ghost var was := Now();
      DeleteAgrees(was, k);
      assert k in values <==> k in stamps by {
        assert k in order <==> k in values;
      }
      if k !in values {
        DeleteAbsent(was, k);
      }
      hide Agree, Without;
      if k in values {
        order := Without(order, k);
        values := values - {k};
      }
      if k in stamps {
        stamps := stamps - {k};
      }
      assert Now() == AfterDelete(was, k);
    }

    method Get(k: Key, now: real) returns (r: Option<V>)
      requires Valid()
      modifies this
      ensures Valid() && Now() == AfterGet(old(Now()), ttl, k, now).1
      ensures r == Flat(AfterGet(old(Now()), ttl, k, now).0)
    {
      GetAgrees(Now(), ttl, k, now);
      if k !in values {
        return None;
      }
      if k !in stamps || now - stamps[k] > ttl {
        Delete(k);
        return None;
      }
      order := MoveToEnd(order, k);
      r := values[k];
    }

    method Set(k: Key, v: Option<V>, now: real)
      requires Valid()
      modifies this
      ensures Valid() && Now() == AfterSet(old(Now()), maxSize, k, v, now)
    {
      SetAgrees(Now(), maxSize, k, v, now);
      if |order| >= maxSize && k !in values {
        Delete(order[0]);
      }
      values := values[k := v];
      order := MoveToEnd(order, k);
      stamps := stamps[k := now];
    }

    method Clear()
      requires Valid()
      modifies this
      ensures Valid() && Now() == Empty()
    {
      order, values, stamps := [], map[], map[];
    }

    /** One wrapped call: a lookup at `now`, and when it finds nothing (or a stored None) the wrapped
        function, whose result `produced` is stored at `done`. */
    method Cached(k: Key, now: real, produced: Option<V>, done: real) returns (r: Option<V>, called: bool)
      requires Valid()
      modifies this
      ensures Valid()
      ensures var (found, looked) := AfterGet(old(Now()), ttl, k, now);
              && called == Flat(found).None?
              && r == (if called then produced else Flat(found))
              && Now() == if called then AfterSet(looked, maxSize, k, produced, done) else looked
    {
      r := Get(k, now);
      called := r.None?;
      if called {
        r := produced;
        Set(k, r, done);
      }
    }
  }
}
