/** The field mapper (app/core/api_integration/transformers.py): it reads values at dotted paths of
    one nested dictionary and writes them at dotted paths of another. */
module FieldMapping {
  import opened Common
  import opened NestedDicts
  import opened NestedPaths

  // ---------- mapping rules ----------

  /** A rule; its function may raise (None). */
  datatype Rule = Rule(source: string, target: string, transform: Option<Value -> Option<Value>>,
                       default: Value, required: bool)

  /** What a rule makes of the source: an exception, nothing to store, or a value to store. */
  datatype Outcome = Raised | Nothing | Stored(value: Value)

  function Evaluate(rule: Rule, source: Value): Outcome {
    var got := GetAt(source, Split(rule.source));
    if got.Null? && rule.required then Raised
    else
      var before := if got.Null? then rule.default else got;
      var after := if rule.transform.Some? then rule.transform.value(before) else Some(before);
      if after.None? then Raised
      else if after.value.Null? then Nothing
      else Stored(after.value)
  }

  /** The result after one rule; None when the exception is passed on, which only a required rule does. */
  function ApplyRule(rule: Rule, source: Value, result: Value): Option<Value> {
    match Evaluate(rule, source)
    case Raised => if rule.required then None else Some(result)
    case Nothing => Some(result)
    case Stored(v) =>
      match SetAt(result, Split(rule.target), v)
      case Some(next) => Some(next)
      case None => if rule.required then None else Some(result)
  }

  /** The result after the rules in order. */
  function ApplyRules(rules: seq<Rule>, source: Value): Option<Value> {
    if rules == [] then Some(Dict(map[]))
    else
      match ApplyRules(rules[..|rules| - 1], source)
      case None => None
      case Some(result) => ApplyRule(rules[|rules| - 1], source, result)
  }

  predicate Fails(rule: Rule, source: Value) { rule.required && Evaluate(rule, source).Raised? }

  /** The writes the rules describe: at each rule's target path, the value it makes of the source. */
  function Writes(rules: seq<Rule>, source: Value): map<Path, Value> {
    if rules == [] then map[]
    else
      var rule := rules[|rules| - 1];
      var before := Writes(rules[..|rules| - 1], source);
      match Evaluate(rule, source)
      case Stored(v) => before[Split(rule.target) := v]
      case _ => before
  }

  /** No target path is a prefix of another rule's. */
  ghost predicate Separate(rules: seq<Rule>) {
    forall i, j :: 0 <= i < j < |rules| ==> Incomparable(Split(rules[i].target), Split(rules[j].target))
  }

  predicate Writer(rule: Rule, source: Value, p: Path, v: Value) {
    Split(rule.target) == p && Evaluate(rule, source) == Stored(v)
  }

  ghost predicate HasWriter(rules: seq<Rule>, source: Value, p: Path, v: Value) {
    exists i :: 0 <= i < |rules| && Writer(rules[i], source, p, v)
  }

  /** Every write comes from a rule. */
  lemma {:induction false} WritesHaveWriters(rules: seq<Rule>, source: Value, p: Path)
    requires p in Writes(rules, source)
    ensures HasWriter(rules, source, p, Writes(rules, source)[p])
  {
    var n := |rules| - 1;
    var before, v := rules[..n], Writes(rules, source)[p];
    if Evaluate(rules[n], source).Stored? && Split(rules[n].target) == p {
      assert Writer(rules[n], source, p, v);
    } else {
      WritesHaveWriters(before, source, p);
      var i :| 0 <= i < |before| && Writer(before[i], source, p, v);
      assert rules[i] == before[i];
    }
  }

  lemma SeparateBefore(rules: seq<Rule>)
    requires Separate(rules) && rules != []
    ensures Separate(rules[..|rules| - 1])
  {
    hide Split;
    var before := rules[..|rules| - 1];
    forall i, j | 0 <= i < j < |before| ensures Incomparable(Split(before[i].target), Split(before[j].target)) {
      assert Incomparable(Split(rules[i].target), Split(rules[j].target));
    }
  }

  /** With separate targets every rule's value is written. */
  lemma {:induction false} WritersWrite(rules: seq<Rule>, source: Value, i: nat)
    requires Separate(rules) && i < |rules| && Evaluate(rules[i], source).Stored?
    ensures var p := Split(rules[i].target);
            p in Writes(rules, source) && Writes(rules, source)[p] == Evaluate(rules[i], source).value
  {
    hide Split, Evaluate;
    var n := |rules| - 1;
    if i < n {
      var before := rules[..n];
      assert before[i] == rules[i];
      SeparateBefore(rules);
      WritersWrite(before, source, i);
      assert Incomparable(Split(rules[i].target), Split(rules[n].target));
    }
  }

  lemma WritesOutside(rules: seq<Rule>, source: Value, rule: Rule)
    requires Separate(rules + [rule])
    ensures Outside(Split(rule.target), Writes(rules, source))
  {
    var all, w := rules + [rule], Writes(rules, source);
    forall q | q in w ensures Incomparable(Split(rule.target), q) {
      WritesHaveWriters(rules, source, q);
      var i :| 0 <= i < |rules| && Writer(rules[i], source, q, w[q]);
      assert all[i] == rules[i] && all[|rules|] == rule;
    }
  }

  /** One more rule, with a target outside the others': it raises exactly when it fails, and otherwise the
      result is the tree with its write added. */
  lemma RuleExtendsTree(rules: seq<Rule>, rule: Rule, source: Value, d: Value)
    requires Separate(rules + [rule]) && IsTree(d, Writes(rules, source))
    ensures ApplyRule(rule, source, d).None? <==> Fails(rule, source)
    ensures ApplyRule(rule, source, d).Some? ==>
              IsTree(ApplyRule(rule, source, d).value, Writes(rules + [rule], source))
  {
    WritesOutside(rules, source, rule);
    assert (rules + [rule])[..|rules|] == rules;
    if Evaluate(rule, source).Stored? {
      SetExtendsTree(d, Writes(rules, source), Split(rule.target), Evaluate(rule, source).value);
    }
    hide SetAt, Split, Evaluate, IsTree, Separate, Outside;
  }

  /** With separate targets the mapper raises exactly when some required rule fails, and otherwise
      yields the tree of the rules' values: each at its target path, and nothing else. */
  lemma {:induction false} TransformYieldsTree(rules: seq<Rule>, source: Value)
    requires Separate(rules)
    ensures ApplyRules(rules, source).None? <==> exists i :: 0 <= i < |rules| && Fails(rules[i], source)
    ensures ApplyRules(rules, source).Some? ==> IsTree(ApplyRules(rules, source).value, Writes(rules, source))
  {
    if rules != [] {
      var n := |rules| - 1;
      var before, rule := rules[..n], rules[n];
      SeparateBefore(rules);
      TransformYieldsTree(before, source);
      assert rules == before + [rule];
      hide Separate, IsTree, Fails, ApplyRule, Writes;
      if ApplyRules(before, source).Some? {
        RuleExtendsTree(before, rule, source, ApplyRules(before, source).value);
      }
      assert forall i :: 0 <= i < n ==> before[i] == rules[i];
    }
  }

  /** Each target path reads what the rule's function makes of the value at the source path, or of the default
      where nothing stands there, and that value itself if there is no function; None where the outcome is None
      or the function of an optional rule raises. */
  lemma TargetsHold(rules: seq<Rule>, source: Value, i: nat)
    requires Separate(rules) && ApplyRules(rules, source).Some? && i < |rules|
    ensures var rule := rules[i];
            var got := GetAt(source, Split(rule.source));
            var x := if got.Null? then rule.default else got;
            GetAt(ApplyRules(rules, source).value, Split(rule.target))
            == match rule.transform case None => x case Some(f) => f(x).GetOr(Null)
  {
    TransformYieldsTree(rules, source);
    assert !Fails(rules[i], source);
    var d, w, p := ApplyRules(rules, source).value, Writes(rules, source), Split(rules[i].target);
    if Evaluate(rules[i], source).Stored? {
      WritersWrite(rules, source, i);
      WritesPrefixFree(rules, source);
      TreeHolds(d, w, p);
    } else {
      NotWritten(rules, source, i);
      TreeHoldsNoMore(d, w, p);
    }
    hide ApplyRules, Writes, GetAt, Split;
  }

  lemma NotWritten(rules: seq<Rule>, source: Value, i: nat)
    requires Separate(rules) && i < |rules| && !Evaluate(rules[i], source).Stored?
    ensures Outside(Split(rules[i].target), Writes(rules, source))
  {
    var w, p := Writes(rules, source), Split(rules[i].target);
    forall q | q in w ensures Incomparable(p, q) {
      WritesHaveWriters(rules, source, q);
      var j :| 0 <= j < |rules| && Writer(rules[j], source, q, w[q]);
      if i < j {
        assert Incomparable(p, Split(rules[j].target));
      } else {
        assert Incomparable(Split(rules[j].target), p);
      }
    }
  }

  /** And the mapper raises exactly when some required rule finds nothing at its source path or has a function
      that raises on what it finds. */
  lemma RaisesIff(rules: seq<Rule>, source: Value)
    requires Separate(rules)
    ensures ApplyRules(rules, source).None? <==>
            exists i :: 0 <= i < |rules| && rules[i].required
                        && var got := GetAt(source, Split(rules[i].source));
                           got.Null? || (rules[i].transform.Some? && rules[i].transform.value(got).None?)
  {
    TransformYieldsTree(rules, source);
    forall i | 0 <= i < |rules|
      ensures Fails(rules[i], source) <==>
              rules[i].required
              && var got := GetAt(source, Split(rules[i].source));
                 got.Null? || (rules[i].transform.Some? && rules[i].transform.value(got).None?)
    {
    }
    hide ApplyRules, Fails, GetAt, Split, Separate;
  }

  lemma WritesPrefixFree(rules: seq<Rule>, source: Value)
    requires Separate(rules)
    ensures PrefixFree(Writes(rules, source))
  {
    var w := Writes(rules, source);
    forall p, q | p in w && q in w && p != q ensures Incomparable(p, q) {
      WritesHaveWriters(rules, source, p);
      var i :| 0 <= i < |rules| && Writer(rules[i], source, p, w[p]);
      WritesHaveWriters(rules, source, q);
      var j :| 0 <= j < |rules| && Writer(rules[j], source, q, w[q]);
      if i < j {
        assert Incomparable(Split(rules[i].target), Split(rules[j].target));
      } else {
        assert Incomparable(Split(rules[j].target), Split(rules[i].target));
      }
    }
    assert forall i :: 0 <= i < |rules| ==> Split(rules[i].target) != [];
  }

  /** A required rule that fails is among the rules in any order. */
  lemma FailsAgain(rules: seq<Rule>, again: seq<Rule>, source: Value)
    requires forall r :: r in rules ==> r in again
    requires exists i :: 0 <= i < |rules| && Fails(rules[i], source)
    ensures exists i :: 0 <= i < |again| && Fails(again[i], source)
  {
    var i :| 0 <= i < |rules| && Fails(rules[i], source);
    assert rules[i] in again;
  }

  /** A permutation of rules with separate targets has separate targets. */
  lemma SeparateAgain(rules: seq<Rule>, again: seq<Rule>)
    requires Separate(rules) && multiset(rules) == multiset(again)
    ensures Separate(again)
    ensures forall r :: r in rules <==> r in again
  {
    forall r ensures r in rules <==> r in again {
      assert r in multiset(rules) <==> r in multiset(again);
    }
    forall i, j | 0 <= i < j < |again| ensures Incomparable(Split(again[i].target), Split(again[j].target)) {
      assert again[i] in rules && again[j] in rules;
      var k :| 0 <= k < |rules| && rules[k] == again[i];
      var l :| 0 <= l < |rules| && rules[l] == again[j];
      if k == l {
        OccursTwice(again, i, j);
        OccursOnce(rules, k);
        assert false;
      } else if k < l {
        assert Incomparable(Split(rules[k].target), Split(rules[l].target));
      } else {
        assert Incomparable(Split(rules[l].target), Split(rules[k].target));
      }
    }
  }

  lemma OccursTwice(s: seq<Rule>, i: int, j: int)
    requires 0 <= i < j < |s| && s[i] == s[j]
    ensures multiset(s)[s[i]] >= 2
  {
    assert s == s[..j] + s[j..];
    assert s[i] in s[..j] && s[j] in s[j..];
    assert s[..j][i] == s[i] && s[j..][0] == s[j];
  }

  lemma OccursOnce(s: seq<Rule>, k: int)
    requires 0 <= k < |s| && Separate(s)
    ensures multiset(s)[s[k]] == 1
  {
    assert s == s[..k] + [s[k]] + s[k + 1..];
    forall i | 0 <= i < |s| && i != k ensures s[i] != s[k] {
      if i < k {
        assert Incomparable(Split(s[i].target), Split(s[k].target));
      } else {
        assert Incomparable(Split(s[k].target), Split(s[i].target));
      }
    }
    assert s[k] !in s[..k] && s[k] !in s[k + 1..];
  }

  /** The order of the mappings does not matter: in any other order the same rules raise too, or
      yield the same dictionary. */
  lemma OrderDoesNotMatter(rules: seq<Rule>, again: seq<Rule>, source: Value)
    requires Separate(rules) && multiset(rules) == multiset(again)
    ensures ApplyRules(rules, source) == ApplyRules(again, source)
  {
    SeparateAgain(rules, again);
    TransformYieldsTree(rules, source);
    TransformYieldsTree(again, source);
    if exists i :: 0 <= i < |rules| && Fails(rules[i], source) {
      FailsAgain(rules, again, source);
    } else if exists i :: 0 <= i < |again| && Fails(again[i], source) {
      FailsAgain(again, rules, source);
    } else {
      SameWrites(rules, again, source);
      TreeIsUnique(ApplyRules(rules, source).value, ApplyRules(again, source).value, Writes(rules, source));
    }
  }

  lemma WritesIncluded(rules: seq<Rule>, again: seq<Rule>, source: Value)
    requires Separate(again) && forall r :: r in rules ==> r in again
    ensures forall p :: p in Writes(rules, source) ==>
              p in Writes(again, source) && Writes(again, source)[p] == Writes(rules, source)[p]
  {
    var w := Writes(rules, source);
    forall p | p in w ensures p in Writes(again, source) && Writes(again, source)[p] == w[p] {
      WritesHaveWriters(rules, source, p);
      var i :| 0 <= i < |rules| && Writer(rules[i], source, p, w[p]);
      assert rules[i] in again;
      var j :| 0 <= j < |again| && again[j] == rules[i];
      WritersWrite(again, source, j);
    }
  }

  lemma SameWrites(rules: seq<Rule>, again: seq<Rule>, source: Value)
    requires Separate(rules) && Separate(again)
    requires forall r :: r in rules <==> r in again
    ensures Writes(rules, source) == Writes(again, source)
  {
    WritesIncluded(rules, again, source);
    WritesIncluded(again, rules, source);
  }

  /** When one target path is a proper prefix of another, the order of two rules does not matter if
      and only if the second value already stands below the first, or something there is in its way and
      the second rule is not required, so that its exception is swallowed. */
  lemma OverlapOrderIff(one: Rule, two: Rule, rest: Path, source: Value)
    requires rest != [] && Split(two.target) == Split(one.target) + rest
    requires Evaluate(one, source).Stored? && Evaluate(two, source).Stored?
    ensures var v, w := Evaluate(one, source).value, Evaluate(two, source).value;
            ApplyRules([one, two], source) == ApplyRules([two, one], source) <==>
            GetAt(v, rest) == w || (Blocked(v, rest) && !two.required)
  {
    var v, w, t := Evaluate(one, source).value, Evaluate(two, source).value, Split(one.target);
    var empty := Dict(map[]);
    TwoRules(one, two, source);
    TwoRules(two, one, source);
    SetRaisesIffBlocked(empty, t, v);
    SetRaisesIffBlocked(empty, t + rest, w);
    SetBelowSet(empty, t, v, rest, w);
    SetAboveSet(empty, t, v, rest, w);
    SetRaisesIffBlocked(v, rest, w);
    SetChangesNothingIff(v, rest, w);
    hide Split, ApplyRules, Evaluate, SetAt, GetAt, Blocked;
    if SetAt(v, rest, w).Some? {
      var x := SetAt(v, rest, w).value;
      SetRaisesIffBlocked(empty, t, x);
      GetAfterSet(empty, t, v, []);
      GetAfterSet(empty, t, x, []);
    }
  }

  /** With one and the same target path the later rule wins: the order does not matter if and only if
      the values are equal. */
  lemma SameTargetOrderIff(one: Rule, two: Rule, source: Value)
    requires Split(two.target) == Split(one.target)
    requires Evaluate(one, source).Stored? && Evaluate(two, source).Stored?
    ensures ApplyRules([one, two], source) == ApplyRules([two, one], source) <==>
            Evaluate(one, source) == Evaluate(two, source)
  {
    var v, w, t := Evaluate(one, source).value, Evaluate(two, source).value, Split(one.target);
    var empty := Dict(map[]);
    TwoRules(one, two, source);
    TwoRules(two, one, source);
    assert t + [] == t;
    SetRaisesIffBlocked(empty, t, v);
    SetRaisesIffBlocked(empty, t, w);
    SetAboveSet(empty, t, v, [], w);
    SetAboveSet(empty, t, w, [], v);
    GetAfterSet(empty, t, v, []);
    GetAfterSet(empty, t, w, []);
    hide Split, ApplyRules, Evaluate;
  }

  lemma TwoRules(one: Rule, two: Rule, source: Value)
    ensures ApplyRules([one, two], source) ==
            match ApplyRule(one, source, Dict(map[])) case None => None case Some(r) => ApplyRule(two, source, r)
  {
    assert [one, two][..1] == [one] && [one][..0] == [];
    NextRule([one, two], 0, source);
    NoRules(source);
    assert [one, two][..0] == [];
    assert ApplyRules([one], source) == ApplyRule(one, source, Dict(map[]));
    if ApplyRules([one], source).Some? {
      NextRule([one, two], 1, source);
      assert [one, two][..2] == [one, two];
    }
  }

  class FieldMapper {
    /** The rules in the order of the dictionary `_mappings`, keyed by source path. */
    var rules: seq<Rule>

    ghost predicate Valid()
      reads this
    {
      forall i, j :: 0 <= i < j < |rules| ==> rules[i].source != rules[j].source
    }

    constructor ()
      ensures Valid() && rules == []
    {
      rules := [];
    }

    /** A new source path goes last; a known one keeps its place and gets the new rule. */
    method AddMapping(rule: Rule)
      requires Valid()
      modifies this
      ensures Valid()
      ensures forall r :: r in rules <==> r == rule || (r in old(rules) && r.source != rule.source)
      ensures (forall r :: r in old(rules) ==> r.source != rule.source) ==> rules == old(rules) + [rule]
      ensures forall i :: 0 <= i < |old(rules)| ==> |rules| > i && rules[i].source == old(rules)[i].source
    {
      for i := 0 to |rules|
        invariant forall j :: 0 <= j < i ==> rules[j].source != rule.source
        invariant rules == old(rules)
      {
        if rules[i].source == rule.source {
          rules := rules[i := rule];
          assert rules[i] == rule;
          assert forall j :: 0 <= j < |rules| && j != i ==> rules[j] == old(rules)[j];
          forall r ensures r in rules <==> r == rule || (r in old(rules) && r.source != rule.source) {
            if r in rules {
              var j :| 0 <= j < |rules| && rules[j] == r;
            }
            if r in old(rules) && r.source != rule.source {
              var j :| 0 <= j < |rules| && old(rules)[j] == r;
              assert rules[j] == r;
            }
          }
          return;
        }
      }
      rules := rules + [rule];
    }

    method GetNestedValue(data: Value, path: string) returns (r: Value)
      ensures r == GetAt(data, Split(path))
    {
      var keys := Split(path);
      var current := data;
      for i := 0 to |keys|
        invariant GetAt(current, keys[i..]) == GetAt(data, keys)
      {
        if !(current.Dict? && keys[i] in current.entries) {
          return Null;
        }
        assert keys[i..][1..] == keys[i + 1..];
        current := current.entries[keys[i]];
      }
      r := current;
    }

    /** The loop over the mappings; `raised` when an exception is passed on. */
    method Transform(source: Value) returns (raised: bool, result: NestedDict)
      ensures raised <==> ApplyRules(rules, source).None?
      ensures fresh(result.Repr) && result.Valid()
      ensures !raised ==> result.Contents() == ApplyRules(rules, source).value
    {
      hide ApplyRules, Separate, Split, SetAt, GetAt;
      result := new NestedDict();
      NoRules(source);
      assert rules[..0] == [];
      for i := 0 to |rules|
        invariant fresh(result.Repr) && result.Valid()
        invariant ApplyRules(rules[..i], source) == Some(result.Contents())
      {
        var rule := rules[i];
        NextRule(rules, i, source);
        var value := GetNestedValue(source, rule.source);
        raised := value.Null? && rule.required;
        if !raised {
          if value.Null? {
            value := rule.default;
          }
          if rule.transform.Some? {
            var made := rule.transform.value(value);
            raised := made.None?;
            value := made.GetOr(Null);
          }
          if !raised && !value.Null? {
            var ok := result.SetNestedValue(Split(rule.target), value);
            raised := !ok;
          }
        }
        if raised && rule.required {
          RaisedStays(rules, i + 1, source);
          return true, result;
        }
      }
      assert rules[..|rules|] == rules;
      raised := false;
    }
  }

  lemma NoRules(source: Value)
    ensures ApplyRules([], source) == Some(Dict(map[]))
  {
  }

  lemma NextRule(rules: seq<Rule>, i: nat, source: Value)
    requires i < |rules| && ApplyRules(rules[..i], source).Some?
    ensures ApplyRules(rules[..i + 1], source) == ApplyRule(rules[i], source, ApplyRules(rules[..i], source).value)
  {
    assert rules[..i + 1][..i] == rules[..i];
  }

  lemma {:induction false} RaisedStays(rules: seq<Rule>, n: nat, source: Value)
    requires n <= |rules| && ApplyRules(rules[..n], source) == None
    ensures ApplyRules(rules, source) == None
  {
    if n < |rules| {
      assert rules[..|rules| - 1][..n] == rules[..n];
      RaisedStays(rules[..|rules| - 1], n, source);
    } else {
      assert rules[..n] == rules;
    }
  }
}
