/** Nested dictionaries and dotted paths (app/core/api_integration/transformers.py): reading, writing,
    and the one tree that a set of writes describes. */
module NestedPaths {
  import opened Common

  /** A Python value: None, anything that is not a dictionary, or a dictionary. */
  datatype Value = Null | Leaf(id: int) | Dict(entries: map<string, Value>)

  type Path = seq<string>

  // ---------- dotted paths ----------

  /** `path.split('.')`. */
  function Split(path: string): (keys: Path)
    ensures keys != []
  {
    if path == "" then [""]
    else
      var rest := Split(path[1..]);
      if path[0] == '.' then [""] + rest else [[path[0]] + rest[0]] + rest[1..]
  }

  function JoinDots(keys: Path): string
    requires keys != []
  {
    if |keys| == 1 then keys[0] else keys[0] + "." + JoinDots(keys[1..])
  }

  /** Splitting loses nothing: joining the keys with dots gives the path back, and no key holds a dot. */
  lemma {:induction false} SplitRoundTrip(path: string)
    ensures JoinDots(Split(path)) == path
    ensures forall i :: 0 <= i < |Split(path)| ==> '.' !in Split(path)[i]
  {
    if path != "" {
      SplitRoundTrip(path[1..]);
      var rest := Split(path[1..]);
      if path[0] == '.' {
        assert ([""] + rest)[1..] == rest;
      } else {
        assert ([[path[0]] + rest[0]] + rest[1..])[1..] == rest[1..];
      }
    }
  }

  predicate IsPrefix(p: Path, q: Path) { p <= q }

  /** Neither path is a prefix of the other. */
  predicate Incomparable(p: Path, q: Path) { !IsPrefix(p, q) && !IsPrefix(q, p) }

  // ---------- reading and writing one path ----------

  /** What `_get_nested_value` returns; None both for a missing path and for a stored None. */
  function GetAt(d: Value, keys: Path): Value {
    if keys == [] then d
    else if d.Dict? && keys[0] in d.entries then GetAt(d.entries[keys[0]], keys[1..])
    else Null
  }

  /** The dictionary after `_set_nested_value`, or None when the walk meets something that is not a
      dictionary and an exception is raised. */
  function SetAt(d: Value, keys: Path, v: Value): Option<Value>
    requires keys != []
    decreases |keys|
  {
    if !d.Dict? then None
    else if |keys| == 1 then Some(Dict(d.entries[keys[0] := v]))
    else
      var child := if keys[0] in d.entries then d.entries[keys[0]] else Dict(map[]);
      match SetAt(child, keys[1..], v)
      case None => None
      case Some(c) => Some(Dict(d.entries[keys[0] := c]))
  }

  /** Get after set, at every extension of the path that was set. */
  lemma {:induction false} GetAfterSet(d: Value, keys: Path, v: Value, more: Path)
    requires keys != [] && SetAt(d, keys, v).Some?
    ensures GetAt(SetAt(d, keys, v).value, keys + more) == GetAt(v, more)
    decreases |keys|
  {
    assert (keys + more)[0] == keys[0] && (keys + more)[1..] == keys[1..] + more;
    if |keys| == 1 {
      assert keys[1..] + more == more;
    } else {
      var child := if keys[0] in d.entries then d.entries[keys[0]] else Dict(map[]);
      GetAfterSet(child, keys[1..], v, more);
    }
  }

  /** A path that neither leads to nor runs through the one that was set reads as before. */
  lemma {:induction false} GetElsewhere(d: Value, keys: Path, v: Value, other: Path)
    requires keys != [] && SetAt(d, keys, v).Some? && Incomparable(keys, other)
    ensures GetAt(SetAt(d, keys, v).value, other) == GetAt(d, other)
    decreases |keys|
  {
    if other[0] == keys[0] {
      assert keys == [keys[0]] + keys[1..] && other == [keys[0]] + other[1..];
      var child := if keys[0] in d.entries then d.entries[keys[0]] else Dict(map[]);
      GetElsewhere(child, keys[1..], v, other[1..]);
    }
  }

  lemma Overwritten(m: map<string, Value>, k: string, c: Value, x: Value)
    ensures m[k := c][k := x] == m[k := x]
  {
  }

  /** Setting below what was just set changes that value, and raises exactly if that is not possible. */
  lemma {:induction false} SetBelowSet(d: Value, keys: Path, v: Value, more: Path, w: Value)
    requires keys != [] && more != [] && SetAt(d, keys, v).Some?
    ensures SetAt(SetAt(d, keys, v).value, keys + more, w)
         == match SetAt(v, more, w) case None => None case Some(x) => SetAt(d, keys, x)
    decreases |keys|
  {
    var all, k := keys + more, keys[0];
    assert all[0] == k && all[1..] == keys[1..] + more;
    var child := if k in d.entries then d.entries[k] else Dict(map[]);
    var c := if |keys| == 1 then v else SetAt(child, keys[1..], v).value;
    if |keys| == 1 {
      assert keys[1..] + more == more;
    } else {
      SetBelowSet(child, keys[1..], v, more, w);
    }
    Overwritten(d.entries, k, c, SetAt(c, all[1..], w).GetOr(c));
  }

  /** Setting above what was just set replaces it: nothing is left of the earlier write. */
  lemma {:induction false} SetAboveSet(d: Value, keys: Path, v: Value, more: Path, w: Value)
    requires keys != [] && SetAt(d, keys + more, w).Some?
    ensures SetAt(SetAt(d, keys + more, w).value, keys, v) == SetAt(d, keys, v)
    decreases |keys|
  {
    var all, k := keys + more, keys[0];
    assert all[0] == k && all[1..] == keys[1..] + more;
    var child := if k in d.entries then d.entries[k] else Dict(map[]);
    var c := if |all| == 1 then w else SetAt(child, all[1..], w).value;
    if |keys| > 1 {
      SetAboveSet(child, keys[1..], v, more, w);
      Overwritten(d.entries, k, c, SetAt(c, keys[1..], v).GetOr(c));
    } else {
      Overwritten(d.entries, k, c, v);
    }
  }

  /** The walk stops at `d` along `keys`: something is stored there that is not a dictionary. */
  predicate Blocked(d: Value, keys: Path) {
    !d.Dict? || (|keys| > 1 && keys[0] in d.entries && Blocked(d.entries[keys[0]], keys[1..]))
  }

  /** Setting raises exactly when something on the way is not a dictionary: a missing key never
      stops it. */
  lemma {:induction false} SetRaisesIffBlocked(d: Value, keys: Path, v: Value)
    requires keys != []
    ensures SetAt(d, keys, v).None? <==> Blocked(d, keys)
    decreases |keys|
  {
    if d.Dict? && |keys| > 1 {
      var child := if keys[0] in d.entries then d.entries[keys[0]] else Dict(map[]);
      SetRaisesIffBlocked(child, keys[1..], v);
    }
  }

  lemma SameEntry(m: map<string, Value>, k: string, v: Value)
    ensures m[k := v] == m <==> k in m && m[k] == v
  {
    assert m[k := v][k] == v;
  }

  /** Setting changes nothing exactly when the value is there already. */
  lemma {:induction false} SetChangesNothingIff(d: Value, keys: Path, v: Value)
    requires keys != [] && !v.Null?
    ensures SetAt(d, keys, v) == Some(d) <==> GetAt(d, keys) == v
    decreases |keys|
  {
    if d.Dict? {
      var k, rest := keys[0], keys[1..];
      if |keys| == 1 {
        SameEntry(d.entries, k, v);
        assert GetAt(d, keys) == if k in d.entries then d.entries[k] else Null;
      } else {
        var child := if k in d.entries then d.entries[k] else Dict(map[]);
        SetChangesNothingIff(child, rest, v);
        if SetAt(child, rest, v).Some? {
          SameEntry(d.entries, k, SetAt(child, rest, v).value);
        }
      }
    }
  }

  // ---------- the tree that a set of writes describes ----------

  function Heads(m: map<Path, Value>): set<string> {
    set p | p in m && p != [] :: p[0]
  }

  /** The writes below key `k`, with that key removed. */
  function Under(m: map<Path, Value>, k: string): map<Path, Value> {
    var tails := set p | p in m && p != [] && p[0] == k :: p[1..];
    map q | q in tails && [k] + q in m :: m[[k] + q]
  }

  /** `d` holds what `m` says, and nothing else: its keys are the first keys of the paths in `m`,
      and below each stands the value written there, or the tree of the writes below it. */
  ghost predicate IsTree(d: Value, m: map<Path, Value>)
    decreases d
  {
    && d.Dict?
    && d.entries.Keys == Heads(m)
    && forall k :: k in d.entries ==>
         if [k] in m then d.entries[k] == m[[k]] else IsTree(d.entries[k], Under(m, k))
  }

  /** Only one tree holds what `m` says. */
  lemma {:induction false} TreeIsUnique(d: Value, e: Value, m: map<Path, Value>)
    requires IsTree(d, m) && IsTree(e, m)
    ensures d == e
    decreases d
  {
    forall k | k in d.entries ensures d.entries[k] == e.entries[k] {
      if [k] !in m {
        TreeIsUnique(d.entries[k], e.entries[k], Under(m, k));
      }
    }
    assert d.entries == e.entries;
  }

  ghost predicate PrefixFree(m: map<Path, Value>) {
    && [] !in m
    && forall p, q :: p in m && q in m && p != q ==> Incomparable(p, q)
  }

  lemma UnderMembers(m: map<Path, Value>, k: string, q: Path)
    ensures q in Under(m, k) <==> [k] + q in m
    ensures q in Under(m, k) ==> Under(m, k)[q] == m[[k] + q]
  {
    if [k] + q in m {
      assert ([k] + q)[0] == k && ([k] + q)[1..] == q;
    }
  }

  lemma UnderPrefixFree(m: map<Path, Value>, k: string)
    requires PrefixFree(m) && [k] !in m
    ensures PrefixFree(Under(m, k))
  {
    UnderMembers(m, k, []);
    assert [k] + [] == [k];
    forall p, q | p in Under(m, k) && q in Under(m, k) && p != q ensures Incomparable(p, q) {
      UnderMembers(m, k, p);
      UnderMembers(m, k, q);
      assert ([k] + p)[1..] == p && ([k] + q)[1..] == q;
      assert Incomparable([k] + p, [k] + q);
    }
  }

  /** The tree reads, at every written path, the value written there. */
  lemma {:induction false} TreeHolds(d: Value, m: map<Path, Value>, p: Path)
    requires PrefixFree(m) && IsTree(d, m) && p in m
    ensures GetAt(d, p) == m[p]
    decreases |p|
  {
    var k := p[0];
    assert p == [k] + p[1..];
    assert k in Heads(m);
    if [k] in m {
      assert p == [k] by {
        assert IsPrefix([k], p);
      }
    } else {
      UnderPrefixFree(m, k);
      UnderMembers(m, k, p[1..]);
      TreeHolds(d.entries[k], Under(m, k), p[1..]);
    }
  }

  lemma UnderUpdate(m: map<Path, Value>, p: Path, v: Value, k: string)
    requires p != []
    ensures Under(m[p := v], k) == if p[0] == k then Under(m, k)[p[1..] := v] else Under(m, k)
  {
    var after := if p[0] == k then Under(m, k)[p[1..] := v] else Under(m, k);
    assert p == [p[0]] + p[1..];
    forall q ensures q in Under(m[p := v], k) <==> q in after
             ensures q in after ==> Under(m[p := v], k)[q] == after[q]
    {
      UnderMembers(m[p := v], k, q);
      UnderMembers(m, k, q);
      assert [k] + q == p <==> k == p[0] && q == p[1..];
    }
  }

  lemma HeadsUpdate(m: map<Path, Value>, p: Path, v: Value)
    requires p != []
    ensures Heads(m[p := v]) == Heads(m) + {p[0]}
  {
    assert p in m[p := v];
    forall k | k in Heads(m) ensures k in Heads(m[p := v]) {
      var q :| q in m && q != [] && q[0] == k;
      assert q in m[p := v];
    }
  }

  ghost predicate Outside(p: Path, m: map<Path, Value>) {
    p != [] && forall q :: q in m ==> Incomparable(p, q)
  }

  lemma UnderOutside(p: Path, m: map<Path, Value>)
    requires |p| > 1 && Outside(p, m)
    ensures [p[0]] !in m && Outside(p[1..], Under(m, p[0]))
  {
    var k := p[0];
    assert p == [k] + p[1..];
    assert IsPrefix([k], p);
    forall q | q in Under(m, k) ensures Incomparable(p[1..], q) {
      UnderMembers(m, k, q);
      assert ([k] + q)[1..] == q && Incomparable(p, [k] + q);
      var t := p[1..];
      assert p == [k] + t;
      assert IsPrefix(t, q) ==> IsPrefix([k] + t, [k] + q);
      assert IsPrefix(q, t) ==> IsPrefix([k] + q, [k] + t);
    }
  }

  /** Nothing is read where nothing was written. */
  lemma {:induction false} TreeHoldsNoMore(d: Value, m: map<Path, Value>, p: Path)
    requires IsTree(d, m) && Outside(p, m)
    ensures GetAt(d, p) == Null
    decreases |p|
  {
    var k := p[0];
    if k in d.entries {
      var q :| q in m && q != [] && q[0] == k;
      assert Incomparable(p, q) && q == [k] + q[1..];
      assert |p| == 1 ==> p == [k] && IsPrefix(p, q);
      UnderOutside(p, m);
      TreeHoldsNoMore(d.entries[k], Under(m, k), p[1..]);
    }
  }

  lemma EmptyUnder(m: map<Path, Value>, k: string)
    requires k !in Heads(m)
    ensures Under(m, k) == map[]
  {
    forall q ensures q !in Under(m, k) {
      UnderMembers(m, k, q);
      assert ([k] + q)[0] == k;
    }
  }

  /** What stands below a key untouched by the write is still the tree of the writes below it. */
  lemma SiblingKept(d: Value, m: map<Path, Value>, p: Path, v: Value, k: string)
    requires IsTree(d, m) && p != [] && k in d.entries && k != p[0]
    ensures if [k] in m[p := v] then d.entries[k] == m[p := v][[k]] else IsTree(d.entries[k], Under(m[p := v], k))
  {
    assert [k] != p;
    UnderUpdate(m, p, v, k);
  }

  /** Replacing one entry of a tree by what the write makes of it. */
  lemma TreeUpdate(d: Value, m: map<Path, Value>, p: Path, v: Value, c: Value)
    requires IsTree(d, m) && p != []
    requires if [p[0]] in m[p := v] then c == m[p := v][[p[0]]] else IsTree(c, Under(m[p := v], p[0]))
    ensures IsTree(Dict(d.entries[p[0] := c]), m[p := v])
  {
    var e := Dict(d.entries[p[0] := c]);
    HeadsUpdate(m, p, v);
    forall j | j in e.entries
      ensures if [j] in m[p := v] then e.entries[j] == m[p := v][[j]] else IsTree(e.entries[j], Under(m[p := v], j))
    {
      if j != p[0] {
        SiblingKept(d, m, p, v, j);
      }
    }
  }

  /** What stands below a first key that no path consists of, a fresh dictionary if nothing does. */
  lemma ChildTree(d: Value, m: map<Path, Value>, k: string)
    requires IsTree(d, m) && [k] !in m
    ensures IsTree(if k in d.entries then d.entries[k] else Dict(map[]), Under(m, k))
  {
    if k !in d.entries {
      EmptyUnder(m, k);
    }
  }

  /** Setting a path outside the written ones always succeeds, and the result is the tree of the
      writes with this one added. */
  lemma {:induction false} SetExtendsTree(d: Value, m: map<Path, Value>, p: Path, v: Value)
    requires IsTree(d, m) && Outside(p, m)
    ensures SetAt(d, p, v).Some? && IsTree(SetAt(d, p, v).value, m[p := v])
    decreases |p|
  {
    assert p != [];
    hide Outside, Heads, Under, IsTree;
    var k := p[0];
    if |p| == 1 {
      assert [k] == p;
      TreeUpdate(d, m, p, v, v);
    } else {
      UnderOutside(p, m);
      ChildTree(d, m, k);
      var child := if k in d.entries then d.entries[k] else Dict(map[]);
      SetExtendsTree(child, Under(m, k), p[1..], v);
      UnderUpdate(m, p, v, k);
      TreeUpdate(d, m, p, v, SetAt(child, p[1..], v).value);
    }
  }
}
