/** The registry of API versions and their order (app/shared/versioning.py). */
module VersionRegistries {
  import opened Common
  import opened ApiVersions

  // ---------- order ----------

  function Compare(v: Version, w: Version): int {
    if v.major < w.major then -1
    else if v.major == w.major && (v.minor < w.minor || (v.minor == w.minor && v.patch < w.patch)) then -1
    else if v == w then 0
    else 1
  }

  predicate Less(v: Version, w: Version) { Compare(v, w) < 0 }

  /** Major number before minor, and minor before patch. */
  lemma LessMeans(v: Version, w: Version)
    ensures Less(v, w) <==>
            || v.major < w.major
            || (v.major == w.major && v.minor < w.minor)
            || (v.major == w.major && v.minor == w.minor && v.patch < w.patch)
  {
  }

  // ---------- the registry ----------

  type Versions = map<string, Version>

  datatype Registry = Registry(versions: Versions, defaultKey: Option<string>, latestKey: Option<string>)

  /** Each version stands under its own key. */
  ghost predicate Keyed(m: Versions) {
    forall k :: k in m ==> k == ShortVersion(m[k])
  }

  ghost predicate IsMax(m: Versions, k: string) {
    k in m && forall j :: j in m ==> Compare(m[j], m[k]) <= 0
  }

  lemma {:induction false} MaxExists(m: Versions)
    requires m != map[]
    ensures exists k :: IsMax(m, k)
    decreases |m|
  {
    var j :| j in m;
    var rest := m - {j};
    if rest == map[] {
      assert forall i :: i in m && i != j ==> i in rest;
      assert IsMax(m, j);
    } else {
      MaxExists(rest);
      var k :| IsMax(rest, k);
      assert forall i :: i in m && i != j ==> i in rest && rest[i] == m[i];
      if Compare(m[j], m[k]) > 0 {
        assert IsMax(m, j);
      } else {
        assert IsMax(m, k);
      }
    }
  }

  /** The key of the greatest version. */
  ghost function MaxKey(m: Versions): (k: string)
    requires m != map[]
    ensures IsMax(m, k)
  {
    MaxExists(m);
    var k :| IsMax(m, k);
    k
  }

  datatype Op = Register(version: Version, isDefault: bool, isLatest: bool) | Remove(key: string)

  ghost predicate Named(key: Option<string>, m: Versions) {
    if m == map[] then key == None else key.Some? && key.value in m
  }

  /** Default and latest name registered versions whenever there are any. */
  ghost predicate Valid(r: Registry) {
    Keyed(r.versions) && Named(r.defaultKey, r.versions) && Named(r.latestKey, r.versions)
  }

  /** The source raises: a known key is registered, or an unknown one removed. */
  predicate Rejected(r: Registry, op: Op) {
    match op
    case Register(v, _, _) => ShortVersion(v) in r.versions
    case Remove(k) => k !in r.versions
  }

  ghost function Replacement(key: Option<string>, removed: string, left: Versions): Option<string> {
    if key != Some(removed) then key
    else if left == map[] then None
    else Some(MaxKey(left))
  }

  ghost function Step(r: Registry, op: Op): Registry
    requires Valid(r)
  {
    if Rejected(r, op) then r
    else
      match op
      case Register(v, isDefault, isLatest) =>
        var key := ShortVersion(v);
        Registry(r.versions[key := v],
                 if isDefault || r.defaultKey.None? then Some(key) else r.defaultKey,
                 if isLatest || r.latestKey.None? || Less(r.versions[r.latestKey.value], v) then Some(key)
                 else r.latestKey)
      case Remove(k) =>
        var left := r.versions - {k};
        Registry(left, Replacement(r.defaultKey, k, left), Replacement(r.latestKey, k, left))
  }

  lemma StepValid(r: Registry, op: Op)
    requires Valid(r)
    ensures Valid(Step(r, op))
  {
    var next := Step(r, op);
    match op {
      case Register(v, _, _) => assert !Rejected(r, op) ==> ShortVersion(v) in next.versions;
      case Remove(k) =>
        assert !Rejected(r, op) && r.defaultKey != Some(k) ==> r.defaultKey.value in next.versions;
        assert !Rejected(r, op) && r.latestKey != Some(k) ==> r.latestKey.value in next.versions;
    }
  }

  ghost function Run(ops: seq<Op>): (r: Registry)
    ensures Valid(r)
  {
    if ops == [] then Registry(map[], None, None)
    else
      StepValid(Run(ops[..|ops| - 1]), ops[|ops| - 1]);
      Step(Run(ops[..|ops| - 1]), ops[|ops| - 1])
  }

  /** `latest` is the greatest registered version. */
  ghost predicate LatestIsMax(r: Registry) {
    r.versions != map[] ==> r.latestKey.Some? && IsMax(r.versions, r.latestKey.value)
  }

  ghost predicate GreaterThanAll(v: Version, m: Versions) {
    forall k :: k in m ==> Less(m[k], v)
  }

  lemma CompareOrders(u: Version, v: Version, w: Version)
    ensures Compare(u, v) == -Compare(v, u)
    ensures Compare(u, v) <= 0 && Compare(v, w) <= 0 ==> Compare(u, w) <= 0
    ensures Compare(u, v) == 0 <==> u == v
  {
  }

  lemma BelowGreater(u: Version, v: Version, w: Version)
    requires Compare(u, v) <= 0 && Compare(w, v) > 0
    ensures Compare(u, w) <= 0
  {
    CompareOrders(u, v, w);
    CompareOrders(w, v, v);
  }

  /** A registration keeps `latest` the greatest exactly when it is not flagged latest, is rejected,
      or is of a version greater than all others. */
  lemma RegisterKeepsMaxIff(r: Registry, v: Version, isDefault: bool, isLatest: bool)
    requires Valid(r) && LatestIsMax(r)
    ensures var op := Register(v, isDefault, isLatest);
            LatestIsMax(Step(r, op)) <==> !isLatest || Rejected(r, op) || GreaterThanAll(v, r.versions)
  {
    var op := Register(v, isDefault, isLatest);
    var key, next := ShortVersion(v), Step(r, op);
    if !Rejected(r, op) {
      forall k | k in r.versions ensures r.versions[k] != v && next.versions[k] == r.versions[k] {
      }
      if isLatest && !GreaterThanAll(v, r.versions) {
        var k :| k in r.versions && !Less(r.versions[k], v);
        CompareOrders(r.versions[k], v, v);
        assert !IsMax(next.versions, key);
      } else if !isLatest && r.versions != map[] {
        var top := r.latestKey.value;
        forall k | k in r.versions && Less(r.versions[top], v) ensures Compare(r.versions[k], v) <= 0 {
          CompareOrders(r.versions[k], r.versions[top], v);
        }
        CompareOrders(r.versions[top], v, v);
      }
    }
  }

  lemma RemoveKeepsMax(r: Registry, k: string)
    requires Valid(r) && LatestIsMax(r)
    ensures LatestIsMax(Step(r, Remove(k)))
  {
  }

  /** The flag `is_latest` is not passed, or for a version greater than all registered ones, or in a
      registration that is rejected. */
  ghost predicate HonestFlag(r: Registry, op: Op) {
    op.Register? && op.isLatest ==> Rejected(r, op) || GreaterThanAll(op.version, r.versions)
  }

  /** All flags of a run are honest. */
  ghost predicate FlagsHonest(ops: seq<Op>) {
    ops == [] || (FlagsHonest(ops[..|ops| - 1]) && HonestFlag(Run(ops[..|ops| - 1]), ops[|ops| - 1]))
  }

  /** After the run, and after every shorter one that it begins with, `latest` is the greatest version. */
  ghost predicate AlwaysMax(ops: seq<Op>) {
    LatestIsMax(Run(ops)) && (ops == [] || AlwaysMax(ops[..|ops| - 1]))
  }

  lemma StepKeepsMaxIff(r: Registry, op: Op)
    requires Valid(r) && LatestIsMax(r)
    ensures LatestIsMax(Step(r, op)) <==> HonestFlag(r, op)
  {
    match op {
      case Register(v, d, l) => RegisterKeepsMaxIff(r, v, d, l);
      case Remove(k) => RemoveKeepsMax(r, k);
    }
  }

  /** Throughout a run of registrations and removals `latest` is the greatest version if and only if
      the flags are honest. */
  lemma {:induction false} LatestIsGreatestIff(ops: seq<Op>)
    ensures AlwaysMax(ops) <==> FlagsHonest(ops)
  {
    if ops != [] {
      var before := ops[..|ops| - 1];
      LatestIsGreatestIff(before);
      if LatestIsMax(Run(before)) {
        StepKeepsMaxIff(Run(before), ops[|ops| - 1]);
      }
      hide LatestIsMax, HonestFlag, Step;
    }
  }

  /** The key of the greatest version, if there is any. */
  ghost function TopOf(m: Versions): (top: Option<string>)
    ensures if m == map[] then top == None
            else top.Some? && top.value in m && forall j :: j in m ==> !Less(m[top.value], m[j])
  {
    if m == map[] then None else
      assert forall j :: j in m ==> Compare(m[MaxKey(m)], m[j]) == -Compare(m[j], m[MaxKey(m)]);
      Some(MaxKey(m))
  }

  class VersionRegistry {
    var versions: Versions
    var defaultKey: Option<string>
    var latestKey: Option<string>

    ghost function Now(): Registry
      reads this
    {
      Registry(versions, defaultKey, latestKey)
    }

    constructor ()
      ensures Valid(Now()) && Now() == Registry(map[], None, None)
    {
      versions, defaultKey, latestKey := map[], None, None;
    }

    method RegisterVersion(version: Version, isDefault: bool, isLatest: bool) returns (ok: bool)
      requires Valid(Now())
      modifies this
      ensures Valid(Now()) && Now() == Step(old(Now()), Register(version, isDefault, isLatest))
      ensures var key := ShortVersion(version);
              if key in old(versions) then
                !ok && versions == old(versions) && defaultKey == old(defaultKey) && latestKey == old(latestKey)
              else
                && ok && versions == old(versions)[key := version]
                && defaultKey == (if isDefault || old(versions) == map[] then Some(key) else old(defaultKey))
                && (isLatest || old(versions) == map[] ==> latestKey == Some(key))
                && (!isLatest && old(versions) != map[] ==>
                      var top := old(versions[latestKey.value]);
                      latestKey == if Less(top, version) then Some(key) else old(latestKey))
    {
      StepValid(Now(), Register(version, isDefault, isLatest));
      var key := ShortVersion(version);
      if key in versions {
        return false;
      }
      var newest := isLatest || latestKey.None? || Less(versions[latestKey.value], version);
      versions := versions[key := version];
      if isDefault || defaultKey.None? {
        defaultKey := Some(key);
      }
      if newest {
        latestKey := Some(key);
      }
      ok := true;
    }

    /** `max(self._versions.values())`, as its key. */
    method Greatest() returns (k: string)
      requires Keyed(versions) && versions != map[]
      ensures k == MaxKey(versions)
    {
      k :| k in versions;
      var todo := versions.Keys - {k};
      while todo != {}
        invariant todo <= versions.Keys && k in versions
        invariant forall j :: j in versions && j !in todo ==> Compare(versions[j], versions[k]) <= 0
        decreases |todo|
      {
        var j :| j in todo;
        if Compare(versions[j], versions[k]) > 0 {
          forall i | i in versions && i !in todo ensures Compare(versions[i], versions[j]) <= 0 {
            BelowGreater(versions[i], versions[k], versions[j]);
          }
          k := j;
        }
        todo := todo - {j};
      }
    }

    method RemoveVersion(key: string) returns (ok: bool)
      requires Valid(Now())
      modifies this
      ensures Valid(Now()) && Now() == Step(old(Now()), Remove(key))
      ensures ok == (key in old(versions)) && versions == old(versions) - {key}
      ensures defaultKey == if old(defaultKey) == Some(key) then TopOf(versions) else old(defaultKey)
      ensures latestKey == if old(latestKey) == Some(key) then TopOf(versions) else old(latestKey)
    {
      StepValid(Now(), Remove(key));
      if key !in versions {
        return false;
      }
      var wasDefault, wasLatest := defaultKey == Some(key), latestKey == Some(key);
      versions := versions - {key};
      var top := None;
      if versions != map[] && (wasDefault || wasLatest) {
        var k := Greatest();
        top := Some(k);
      }
      if wasDefault {
        defaultKey := top;
      }
      if wasLatest {
        latestKey := top;
      }
      ok := true;
    }
  }
}
