/** The data source registry (app/core/data_sources/registry.py): a main table, and indexes by type,
    category and provider that are kept beside it. */
module SourceRegistry {
  import opened Common

  datatype SourceType = GovernmentApi | PrivateApi | Database | FileSystem | WebScraper | RssFeed | Webhook | Plugin

  datatype Status =
    | Unknown | Registering | Active | RegisteredStatus | Initializing | Inactive | Error | Maintenance | Deprecated

  datatype Info = Info(name: string, displayName: string, version: string, kind: SourceType,
                       category: string, provider: string, status: Status)

  type Table = map<string, Info>
  type Index = map<string, set<string>>

  datatype Registry = Registry(table: Table, byType: map<SourceType, set<string>>, byCategory: Index, byProvider: Index)

  const ALL_TYPES: seq<SourceType> :=
    [GovernmentApi, PrivateApi, Database, FileSystem, WebScraper, RssFeed, Webhook, Plugin]

  const ALL_STATUSES: seq<Status> :=
    [Unknown, Registering, Active, RegisteredStatus, Initializing, Inactive, Error, Maintenance, Deprecated]

  function KindOf(): Info -> SourceType { (i: Info) => i.kind }
  function CategoryOf(): Info -> string { (i: Info) => i.category }
  function ProviderOf(): Info -> string { (i: Info) => i.provider }
  function StatusOf(): Info -> Status { (i: Info) => i.status }

  /** The scan of the main table that an index stands for. */
  function Where<T(==)>(table: Table, f: Info -> T, t: T): set<string> {
    set n | n in table && f(table[n]) == t
  }

  // ---------- operations ----------

  datatype Op = Register(info: Info) | Unregister(name: string) | SetStatus(target: string, status: Status)

  function Empty(): Registry {
    Registry(map[], map t | t in ALL_TYPES :: {}, map[], map[])
  }

  predicate Accepted(r: Registry, info: Info) {
    info.name !in r.table && info.name != "" && info.displayName != "" && info.version != ""
  }

  /** An empty category or provider is not indexed. */
  function Enter(index: Index, key: string, name: string): Index {
    if key == "" then index else index[key := (if key in index then index[key] else {}) + {name}]
  }

  /** A key keeps its set when the set becomes empty. */
  function Leave(index: Index, key: string, name: string): Index {
    if key == "" || key !in index then index else index[key := index[key] - {name}]
  }

  function Step(r: Registry, op: Op): Registry
    requires AllTypes(r)
  {
    match op
    case Register(info) =>
      if !Accepted(r, info) then r
      else Registry(r.table[info.name := info.(status := RegisteredStatus)],
                    r.byType[info.kind := r.byType[info.kind] + {info.name}],
                    Enter(r.byCategory, info.category, info.name),
                    Enter(r.byProvider, info.provider, info.name))
    case Unregister(name) =>
      if name !in r.table then r
      else
        var info := r.table[name];
        Registry(r.table - {name},
                 r.byType[info.kind := r.byType[info.kind] - {name}],
                 Leave(r.byCategory, info.category, name),
                 Leave(r.byProvider, info.provider, name))
    case SetStatus(name, status) =>
      if name !in r.table then r else r.(table := r.table[name := r.table[name].(status := status)])
  }

  ghost predicate AllTypes(r: Registry) {
    forall t: SourceType :: t in r.byType
  }

  function Run(ops: seq<Op>): (r: Registry)
    ensures AllTypes(r)
  {
    if ops == [] then
      EveryType();
      Empty()
    else
      var before := Run(ops[..|ops| - 1]);
      Step(before, ops[|ops| - 1])
  }

  lemma EveryType()
    ensures forall t: SourceType :: t in ALL_TYPES
  {
    forall t: SourceType ensures t in ALL_TYPES {
      assert t.GovernmentApi? || t.PrivateApi? || t.Database? || t.FileSystem?
          || t.WebScraper? || t.RssFeed? || t.Webhook? || t.Plugin?;
      assert ALL_TYPES[0] == GovernmentApi && ALL_TYPES[1] == PrivateApi;
      assert ALL_TYPES[2] == Database && ALL_TYPES[3] == FileSystem;
      assert ALL_TYPES[4] == WebScraper && ALL_TYPES[5] == RssFeed && ALL_TYPES[6] == Webhook && ALL_TYPES[7] == Plugin;
    }
  }

  lemma EveryStatus()
    ensures forall s: Status :: s in ALL_STATUSES
  {
    forall s: Status ensures s in ALL_STATUSES {
      assert s.Unknown? || s.Registering? || s.Active? || s.RegisteredStatus? || s.Initializing?
        || s.Inactive? || s.Error? || s.Maintenance? || s.Deprecated?;
      assert ALL_STATUSES[0] == Unknown && ALL_STATUSES[1] == Registering && ALL_STATUSES[2] == Active;
      assert ALL_STATUSES[3] == RegisteredStatus && ALL_STATUSES[4] == Initializing && ALL_STATUSES[5] == Inactive;
      assert ALL_STATUSES[6] == Error && ALL_STATUSES[7] == Maintenance && ALL_STATUSES[8] == Deprecated;
    }
  }

  // ---------- the indexes are scans ----------

  /** A string index holds, for each of its keys, exactly the scan, and no source of a non-empty key
      is missing from it. */
  ghost predicate ExactIndex(table: Table, f: Info -> string, index: Index) {
    && (forall c :: c in index ==> index[c] == Where(table, f, c))
    && (forall n :: n in table && f(table[n]) != "" ==> f(table[n]) in index)
    && "" !in index
  }

  ghost predicate Exact(r: Registry) {
    && AllTypes(r)
    && (forall t: SourceType :: r.byType[t] == Where(r.table, KindOf(), t))
    && ExactIndex(r.table, CategoryOf(), r.byCategory)
    && ExactIndex(r.table, ProviderOf(), r.byProvider)
    && forall n :: n in r.table ==> r.table[n].name == n && n != ""
  }

  lemma WhereAdded<T>(table: Table, f: Info -> T, name: string, info: Info, t: T)
    requires name !in table
    ensures name !in Where(table, f, t)
    ensures Where(table[name := info], f, t) == Where(table, f, t) + if f(info) == t then {name} else {}
  {
  }

  lemma WhereRemoved<T>(table: Table, f: Info -> T, name: string, t: T)
    requires name in table
    ensures Where(table - {name}, f, t) == Where(table, f, t) - {name}
    ensures f(table[name]) != t ==> name !in Where(table, f, t)
  {
  }

  /** Replacing an entry by one of the same key changes no scan by that key. */
  lemma WhereReplaced<T>(table: Table, f: Info -> T, name: string, info: Info, t: T)
    requires name in table && f(table[name]) == f(info)
    ensures Where(table[name := info], f, t) == Where(table, f, t)
  {
  }

  lemma EnterExact(table: Table, f: Info -> string, index: Index, info: Info)
    requires ExactIndex(table, f, index) && info.name !in table
    ensures ExactIndex(table[info.name := info], f, Enter(index, f(info), info.name))
  {
    var after, key := table[info.name := info], f(info);
    var entered := Enter(index, key, info.name);
    forall c | c in entered ensures entered[c] == Where(after, f, c) {
      WhereAdded(table, f, info.name, info, c);
      if c !in index {
        assert Where(table, f, c) == {};
      }
    }
  }

  lemma LeaveExact(table: Table, f: Info -> string, index: Index, name: string)
    requires ExactIndex(table, f, index) && name in table
    ensures ExactIndex(table - {name}, f, Leave(index, f(table[name]), name))
  {
    var left := Leave(index, f(table[name]), name);
    forall c | c in left ensures left[c] == Where(table - {name}, f, c) {
      WhereRemoved(table, f, name, c);
    }
  }

  lemma ReplaceExact(table: Table, f: Info -> string, index: Index, name: string, info: Info)
    requires ExactIndex(table, f, index) && name in table && f(table[name]) == f(info)
    ensures ExactIndex(table[name := info], f, index)
  {
    forall c | c in index ensures index[c] == Where(table[name := info], f, c) {
      WhereReplaced(table, f, name, info, c);
    }
  }

  lemma StepExact(r: Registry, op: Op)
    requires Exact(r)
    ensures Exact(Step(r, op))
  {
    hide ExactIndex, Where;
    var next := Step(r, op);
    match op {
      case Register(info) =>
        if Accepted(r, info) {
          var stored := info.(status := RegisteredStatus);
          EnterExact(r.table, CategoryOf(), r.byCategory, stored);
          EnterExact(r.table, ProviderOf(), r.byProvider, stored);
          forall t: SourceType ensures next.byType[t] == Where(next.table, KindOf(), t) {
            WhereAdded(r.table, KindOf(), stored.name, stored, t);
          }
        }
      case Unregister(name) =>
        if name in r.table {
          LeaveExact(r.table, CategoryOf(), r.byCategory, name);
          LeaveExact(r.table, ProviderOf(), r.byProvider, name);
          forall t: SourceType ensures next.byType[t] == Where(next.table, KindOf(), t) {
            WhereRemoved(r.table, KindOf(), name, t);
          }
        }
      case SetStatus(name, status) =>
        if name in r.table {
          var stored := r.table[name].(status := status);
          ReplaceExact(r.table, CategoryOf(), r.byCategory, name, stored);
          ReplaceExact(r.table, ProviderOf(), r.byProvider, name, stored);
          forall t: SourceType ensures next.byType[t] == Where(next.table, KindOf(), t) {
            WhereReplaced(r.table, KindOf(), name, stored, t);
          }
        }
    }
  }

  /** After any run of registrations, unregistrations and status updates every index is exactly what
      a scan of the main table gives. */
  lemma {:induction false} RunExact(ops: seq<Op>)
    ensures Exact(Run(ops))
  {
    if ops == [] {
      EveryType();
    } else {
      RunExact(ops[..|ops| - 1]);
      StepExact(Run(ops[..|ops| - 1]), ops[|ops| - 1]);
    }
  }

  // ---------- listing ----------

  datatype Query = Query(kind: Option<SourceType>, category: Option<string>, provider: Option<string>,
                         status: Option<Status>)

  function LookUp(index: Index, key: string): set<string> {
    if key in index then index[key] else {}
  }

  /** An absent or empty key does not restrict the candidates. */
  function Narrow(candidates: set<string>, index: Index, key: Option<string>): set<string> {
    if key.GetOr("") == "" then candidates else candidates * LookUp(index, key.value)
  }

  function List(r: Registry, q: Query): set<string>
    requires AllTypes(r)
  {
    var all := r.table.Keys;
    var ofKind := if q.kind.Some? then all * r.byType[q.kind.value] else all;
    var ofProvider := Narrow(Narrow(ofKind, r.byCategory, q.category), r.byProvider, q.provider);
    if q.status.None? then ofProvider
    else set n | n in ofProvider && n in r.table && r.table[n].status == q.status.value
  }

  /** What a query asks of one source. */
  predicate Matches(info: Info, q: Query) {
    && (q.kind.Some? ==> info.kind == q.kind.value)
    && (q.category.GetOr("") != "" ==> info.category == q.category.value)
    && (q.provider.GetOr("") != "" ==> info.provider == q.provider.value)
    && (q.status.Some? ==> info.status == q.status.value)
  }

  lemma NarrowIsScan(table: Table, f: Info -> string, index: Index, candidates: set<string>, key: Option<string>)
    requires ExactIndex(table, f, index) && candidates <= table.Keys
    ensures forall n :: n in Narrow(candidates, index, key) <==>
              n in candidates && (key.GetOr("") != "" ==> f(table[n]) == key.value)
  {
  }

  /** After any run, listing through the indexes gives exactly the sources a scan finds. */
  lemma ListIsScan(ops: seq<Op>, q: Query)
    ensures forall n :: n in List(Run(ops), q) <==>
              && n in Run(ops).table
              && var info := Run(ops).table[n];
                 && (q.kind.Some? ==> info.kind == q.kind.value)
                 && (q.category.Some? && q.category.value != "" ==> info.category == q.category.value)
                 && (q.provider.Some? && q.provider.value != "" ==> info.provider == q.provider.value)
                 && (q.status.Some? ==> info.status == q.status.value)
    ensures forall n :: n in List(Run(ops), q) <==> n in Run(ops).table && Matches(Run(ops).table[n], q)
  {
    var r := Run(ops);
    RunExact(ops);
    var ofKind := if q.kind.Some? then r.table.Keys * r.byType[q.kind.value] else r.table.Keys;
    NarrowIsScan(r.table, CategoryOf(), r.byCategory, ofKind, q.category);
    NarrowIsScan(r.table, ProviderOf(), r.byProvider, Narrow(ofKind, r.byCategory, q.category), q.provider);
    hide Run, ExactIndex, Narrow;
  }

  /** The sources there are after one more operation, with their data: a registration that is accepted adds
      its source with the status registered, an unregistration takes its source away, and an update changes
      nothing but the status of its source. */
  lemma TableAfter(ops: seq<Op>, op: Op)
    ensures var before, after := Run(ops).table, Run(ops + [op]).table;
            && (op.Register? ==>
                  var info := op.info;
                  if info.name !in before && info.name != "" && info.displayName != "" && info.version != "" then
                    after == before[info.name := info.(status := RegisteredStatus)]
                  else after == before)
            && (op.Unregister? ==> after == before - {op.name})
            && (op.SetStatus? ==>
                  && after.Keys == before.Keys
                  && forall n :: n in before ==>
                       after[n] == if n == op.target then before[n].(status := op.status) else before[n])
  {
    assert (ops + [op])[..|ops|] == ops;
    assert Run(ops + [op]) == Step(Run(ops), op);
    hide Run;
  }

  /** Unregistering undoes registering: the table is as before, and so is the answer to every query. */
  lemma UnregisterUndoesRegister(ops: seq<Op>, info: Info, q: Query)
    requires Accepted(Run(ops), info)
    ensures var after := Run(ops + [Register(info), Unregister(info.name)]);
            after.table == Run(ops).table && List(after, q) == List(Run(ops), q)
  {
    var more := ops + [Register(info), Unregister(info.name)];
    assert more[..|more| - 1] == ops + [Register(info)];
    assert (ops + [Register(info)])[..|ops|] == ops;
    var r, after := Run(ops), Run(more);
    assert Run(ops + [Register(info)]) == Step(r, Register(info));
    assert after == Step(Step(r, Register(info)), Unregister(info.name));
    assert r.table[info.name := info.(status := RegisteredStatus)] - {info.name} == r.table;
    assert after.table == r.table;
    ListIsScan(ops, q);
    ListIsScan(more, q);
    assert List(after, q) == List(r, q);
  }

  // ---------- counts ----------

  /** The sizes of the scans by the given keys, added up. */
  function Total<T(==)>(table: Table, f: Info -> T, keys: seq<T>): nat {
    if keys == [] then 0 else Total(table, f, keys[..|keys| - 1]) + |Where(table, f, keys[|keys| - 1])|
  }

  function Covered<T(==)>(table: Table, f: Info -> T, keys: seq<T>): set<string> {
    set n | n in table && f(table[n]) in keys
  }

  /** Counting class by class counts every source of these classes once. */
  lemma {:induction false} TotalCountsEachOnce<T>(table: Table, f: Info -> T, keys: seq<T>)
    requires Distinct(keys)
    ensures Total(table, f, keys) == |Covered(table, f, keys)|
  {
    if keys == [] {
      assert Covered(table, f, keys) == {};
    } else {
      var before, last := keys[..|keys| - 1], keys[|keys| - 1];
      TotalCountsEachOnce(table, f, before);
      assert keys == before + [last];
      assert Covered(table, f, keys) == Covered(table, f, before) + Where(table, f, last);
      assert Covered(table, f, before) * Where(table, f, last) == {};
    }
  }

  /** The sizes of the sets an index holds, over the keys in any order. */
  function IndexTotal<T(==)>(index: map<T, set<string>>, keys: seq<T>): nat
    requires forall t :: t in keys ==> t in index
  {
    if keys == [] then 0
    else
      assert keys == keys[..|keys| - 1] + [keys[|keys| - 1]];
      IndexTotal(index, keys[..|keys| - 1]) + |index[keys[|keys| - 1]]|
  }

  lemma {:induction false} IndexTotalIsScan<T>(table: Table, f: Info -> T, index: map<T, set<string>>, keys: seq<T>)
    requires forall t :: t in keys ==> t in index && index[t] == Where(table, f, t)
    ensures IndexTotal(index, keys) == Total(table, f, keys)
  {
    if keys != [] {
      assert keys == keys[..|keys| - 1] + [keys[|keys| - 1]];
      IndexTotalIsScan(table, f, index, keys[..|keys| - 1]);
    }
  }

  /** After any run the counts by type add up to the number of sources. */
  lemma TypeCountsSum(ops: seq<Op>, keys: seq<SourceType>)
    requires Distinct(keys) && forall t: SourceType :: t in keys
    ensures IndexTotal(Run(ops).byType, keys) == |Run(ops).table|
  {
    var r := Run(ops);
    RunExact(ops);
    IndexTotalIsScan(r.table, KindOf(), r.byType, keys);
    TotalCountsEachOnce(r.table, KindOf(), keys);
    assert Covered(r.table, KindOf(), keys) == r.table.Keys;
  }

  /** And the counts by category add up to the number of sources that have one. */
  lemma CategoryCountsSum(ops: seq<Op>, keys: seq<string>)
    requires Distinct(keys) && Elems(keys) == Run(ops).byCategory.Keys
    ensures forall c :: c in keys ==> c in Run(ops).byCategory
    ensures IndexTotal(Run(ops).byCategory, keys) == |set n | n in Run(ops).table && Run(ops).table[n].category != ""|
  {
    var r := Run(ops);
    RunExact(ops);
    assert forall c :: c in keys <==> c in Elems(keys);
    IndexTotalIsScan(r.table, CategoryOf(), r.byCategory, keys);
    TotalCountsEachOnce(r.table, CategoryOf(), keys);
    assert Covered(r.table, CategoryOf(), keys) == set n | n in r.table && r.table[n].category != "";
  }

  // ---------- sorting names ----------

  /** Python's `a <= b` on strings: character by character, by code point. */
  predicate UpTo(a: string, b: string) {
    a == "" || (b != "" && (a[0] < b[0] || (a[0] == b[0] && UpTo(a[1..], b[1..]))))
  }

  /** Where two strings first differ, the smaller character decides, and a string comes after its prefixes. */
  lemma {:induction false} UpToMeans(a: string, b: string, i: nat)
    requires i <= |a| && i <= |b| && a[..i] == b[..i] && (i < |a| && i < |b| ==> a[i] != b[i])
    requires i == |a| || i == |b| || a[i] != b[i]
    ensures UpTo(a, b) <==> i == |a| || (i < |b| && a[i] < b[i])
  {
    if i > 0 {
      assert a[0] == a[..i][0] == b[..i][0] == b[0];
      assert a[1..][..i - 1] == a[..i][1..] && b[1..][..i - 1] == b[..i][1..];
      UpToMeans(a[1..], b[1..], i - 1);
    }
  }

  lemma {:induction false} UpToTotal(a: string, b: string)
    ensures UpTo(a, b) || UpTo(b, a)
  {
    if a != "" && b != "" && a[0] == b[0] {
      UpToTotal(a[1..], b[1..]);
    }
  }

  lemma {:induction false} UpToTransitive(a: string, b: string, c: string)
    requires UpTo(a, b) && UpTo(b, c)
    ensures UpTo(a, c)
  {
    if a != "" && a[0] == b[0] == c[0] {
      UpToTransitive(a[1..], b[1..], c[1..]);
    }
  }

  ghost predicate Sorted(names: seq<string>) {
    forall i, j :: 0 <= i < j < |names| ==> UpTo(names[i], names[j]) && names[i] != names[j]
  }

  function InsertName(names: seq<string>, x: string): seq<string> {
    if names == [] then [x]
    else if UpTo(x, names[0]) then [x] + names
    else [names[0]] + InsertName(names[1..], x)
  }

  lemma {:induction false} InsertSorted(names: seq<string>, x: string)
    requires Sorted(names) && x !in names
    ensures Sorted(InsertName(names, x))
    ensures forall n :: n in InsertName(names, x) <==> n == x || n in names
  {
    if names == [] {
      assert [x] + names == [x];
    } else {
      var first, rest := names[0], names[1..];
      SortedTail(names);
      hide Sorted, UpTo;
      if UpTo(x, first) {
        forall n | n in names ensures UpTo(x, n) {
          if n != first {
            UpToTransitive(x, first, n);
          }
        }
        SortedCons(x, names);
      } else {
        UpToTotal(x, first);
        InsertSorted(rest, x);
        SortedCons(first, InsertName(rest, x));
      }
    }
  }

  lemma SortedTail(names: seq<string>)
    requires Sorted(names) && names != []
    ensures Sorted(names[1..]) && forall n :: n in names <==> n == names[0] || n in names[1..]
    ensures forall n :: n in names[1..] ==> UpTo(names[0], n) && n != names[0]
  {
    hide UpTo;
    assert names == [names[0]] + names[1..];
  }

  lemma SortedCons(x: string, rest: seq<string>)
    requires Sorted(rest) && forall n :: n in rest ==> UpTo(x, n) && n != x
    ensures Sorted([x] + rest)
  {
    hide UpTo;
    var names := [x] + rest;
    forall i, j | 0 <= i < j < |names| ensures UpTo(names[i], names[j]) && names[i] != names[j] {
      assert names[j] == rest[j - 1] && rest[j - 1] in rest;
      if i > 0 {
        assert names[i] == rest[i - 1];
      }
    }
  }

  /** `sorted(list(names))`. */
  method SortNames(names: set<string>) returns (sorted: seq<string>)
    ensures Sorted(sorted) && forall n :: n in sorted <==> n in names
  {
    sorted := [];
    var todo := names;
    while todo != {}
      invariant todo <= names && Sorted(sorted)
      invariant forall n :: n in sorted <==> n in names && n !in todo
      decreases |todo|
    {
      var n :| n in todo;
      InsertSorted(sorted, n);
      sorted := InsertName(sorted, n);
      todo := todo - {n};
    }
  }

  /** The counts hold the size of the scan for every status that has sources, and no other. */
  ghost predicate Counted(table: Table, counts: map<Status, nat>) {
    forall s :: (s in counts <==> Where(table, StatusOf(), s) != {})
             && (s in counts ==> counts[s] == |Where(table, StatusOf(), s)|)
  }

  function CountTotal(counts: map<Status, nat>, keys: seq<Status>): nat {
    if keys == [] then 0
    else
      var last := keys[|keys| - 1];
      CountTotal(counts, keys[..|keys| - 1]) + if last in counts then counts[last] else 0
  }

  lemma {:induction false} CountTotalIsScan(table: Table, counts: map<Status, nat>, keys: seq<Status>)
    requires Counted(table, counts)
    ensures CountTotal(counts, keys) == Total(table, StatusOf(), keys)
  {
    if keys != [] {
      CountTotalIsScan(table, counts, keys[..|keys| - 1]);
    }
  }

  /** The counts by status add up to the number of sources. */
  lemma StatusCountsSum(table: Table, counts: map<Status, nat>)
    requires Counted(table, counts)
    ensures CountTotal(counts, ALL_STATUSES) == |table|
  {
    EveryStatus();
    assert Distinct(ALL_STATUSES);
    CountTotalIsScan(table, counts, ALL_STATUSES);
    TotalCountsEachOnce(table, StatusOf(), ALL_STATUSES);
    assert Covered(table, StatusOf(), ALL_STATUSES) == table.Keys;
  }

  lemma NoneCounted()
    ensures Counted(map[], map[])
  {
  }

  lemma StatusCounted(done: Table, counts: map<Status, nat>, name: string, info: Info)
    requires Counted(done, counts) && name !in done
    ensures Counted(done[name := info],
                    counts[info.status := (if info.status in counts then counts[info.status] else 0) + 1])
  {
    forall s ensures Where(done[name := info], StatusOf(), s)
                  == Where(done, StatusOf(), s) + if info.status == s then {name} else {}
             ensures name !in Where(done, StatusOf(), s)
    {
      WhereAdded(done, StatusOf(), name, info, s);
    }
  }

  lemma StoredTwice(table: Table, name: string, first: Info, second: Info)
    ensures table[name := first][name := second] == table[name := second]
  {
  }

  class DataSourceRegistry {
    var table: Table
    var byType: map<SourceType, set<string>>
    var byCategory: Index
    var byProvider: Index

    ghost function Now(): Registry
      reads this
    {
      Registry(table, byType, byCategory, byProvider)
    }

    ghost predicate Valid()
      reads this
    {
      Exact(Now())
    }

    constructor ()
      ensures Valid() && Now() == Empty()
    {
      EveryType();
      table, byCategory, byProvider := map[], map[], map[];
      byType := map t | t in ALL_TYPES :: {};
    }

    static method EnterName(index: Index, key: string, name: string) returns (r: Index)
      ensures r == Enter(index, key, name)
    {
      r := index;
      if key != "" {
        if key !in r {
          r := r[key := {}];
        }
        r := r[key := r[key] + {name}];
      }
    }

    method RegisterDataSource(info: Info) returns (ok: bool)
      requires Valid()
      modifies this
      ensures Valid() && Now() == Step(old(Now()), Register(info))
      ensures ok <==> info.name !in old(table) && info.name != "" && info.displayName != "" && info.version != ""
    {
      ghost var next := Step(Now(), Register(info));
      StepExact(Now(), Register(info));
      assert info.kind in byType;
      hide Exact, Enter, AllTypes;
      if info.name in table {
        return false;
      }
      if info.name == "" || info.displayName == "" || info.version == "" {
        return false;
      }
      table := table[info.name := info];
      byType := byType[info.kind := byType[info.kind] + {info.name}];
      byCategory := EnterName(byCategory, info.category, info.name);
      byProvider := EnterName(byProvider, info.provider, info.name);
      table := table[info.name := info.(status := RegisteredStatus)];
      StoredTwice(old(table), info.name, info, info.(status := RegisteredStatus));
      assert Now() == next;
      ok := true;
    }

    method UnregisterDataSource(name: string) returns (ok: bool)
      requires Valid()
      modifies this
      ensures Valid() && Now() == Step(old(Now()), Unregister(name)) && ok == (name in old(table))
    {
      StepExact(Now(), Unregister(name));
      hide ExactIndex, Where;
      if name !in table {
        return false;
      }
      var info := table[name];
      byType := byType[info.kind := byType[info.kind] - {name}];
      if info.category != "" && info.category in byCategory {
        byCategory := byCategory[info.category := byCategory[info.category] - {name}];
      }
      if info.provider != "" && info.provider in byProvider {
        byProvider := byProvider[info.provider := byProvider[info.provider] - {name}];
      }
      table := table - {name};
      ok := true;
    }

    method UpdateDataSourceStatus(name: string, status: Status)
      requires Valid()
      modifies this
      ensures Valid() && Now() == Step(old(Now()), SetStatus(name, status))
    {
      StepExact(Now(), SetStatus(name, status));
      if name in table {
        table := table[name := table[name].(status := status)];
      }
    }

    /** Exactly the matching names, each once, in order. */
    method ListDataSources(q: Query) returns (sorted: seq<string>)
      requires Valid()
      ensures Sorted(sorted) && forall n :: n in sorted <==> n in table && Matches(table[n], q)
    {
      var names := Candidates(q);
      sorted := SortNames(names);
    }

    method Candidates(q: Query) returns (names: set<string>)
      requires Valid()
      ensures forall n :: n in names <==> n in table && Matches(table[n], q)
    {
      names := table.Keys;
      if q.kind.Some? {
        names := names * byType[q.kind.value];
      }
      NarrowIsScan(table, CategoryOf(), byCategory, names, q.category);
      NarrowIsScan(table, ProviderOf(), byProvider, Narrow(names, byCategory, q.category), q.provider);
      hide ExactIndex;
      if q.category.Some? && q.category.value != "" {
        names := names * (if q.category.value in byCategory then byCategory[q.category.value] else {});
      }
      if q.provider.Some? && q.provider.value != "" {
        names := names * (if q.provider.value in byProvider then byProvider[q.provider.value] else {});
      }
      if q.status.Some? {
        names := set n | n in names && n in table && table[n].status == q.status.value;
      }
    }

    /** The counts `get_registry_stats` reports by status, in a loop over the table. */
    method CountByStatus() returns (counts: map<Status, nat>)
      ensures Counted(table, counts)
    {
      hide Where;
      counts := map[];
      var todo := table.Keys;
      ghost var done: Table := map[];
      NoneCounted();
      hide Counted;
      while todo != {}
        invariant todo <= table.Keys && done.Keys == table.Keys - todo
        invariant forall n :: n in done ==> done[n] == table[n]
        invariant Counted(done, counts)
        decreases |todo|
      {
        var name :| name in todo;
        var info := table[name];
        StatusCounted(done, counts, name, info);
        counts := counts[info.status := (if info.status in counts then counts[info.status] else 0) + 1];
        done := done[name := info];
        todo := todo - {name};
      }
      assert done == table;
    }
  }
}
