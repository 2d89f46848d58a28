/** The dictionaries of the field mapper's result, which `_set_nested_value` updates in place. */
module NestedDicts {
  import opened NestedPaths

  /** An entry: a stored value, or a dictionary made on the way to a nested path. */
  datatype Slot = Plain(value: Value) | Nested(dict: NestedDict)

  /** A dictionary of the result.  `contents` is its value; `Repr` it and the dictionaries below it. */
  class NestedDict {
    var entries: map<string, Slot>
    ghost var contents: map<string, Value>
    ghost var Repr: set<object>

    ghost predicate Valid()
      reads this, Repr
      ensures Valid() ==> this in Repr
      decreases Repr
    {
      && this in Repr
      && entries.Keys == contents.Keys
      && (forall k :: k in entries && entries[k].Plain? ==> contents[k] == entries[k].value)
      && (forall k :: k in entries && entries[k].Nested? ==>
            var d := entries[k].dict;
            d in Repr && d.Repr < Repr && this !in d.Repr && d.Valid() && contents[k] == Dict(d.contents))
      && (forall j, k :: j in entries && k in entries && j != k && entries[j].Nested? && entries[k].Nested? ==>
            entries[j].dict.Repr !! entries[k].dict.Repr)
    }

    ghost function Contents(): Value
      reads this
    {
      Dict(contents)
    }

    constructor ()
      ensures Valid() && fresh(Repr) && Contents() == Dict(map[])
    {
      entries, contents, Repr := map[], map[], {this};
    }

    lemma EntryMeans(k: string)
      requires Valid()
      ensures k in entries <==> k in contents
      ensures k in entries && entries[k].Plain? ==> contents[k] == entries[k].value
    {
    }

    /** `current[key] = value`. */
    method Store(k: string, v: Value)
      requires Valid()
      modifies this
      ensures Valid() && Repr == old(Repr) && contents == old(contents)[k := v]
    {
      entries, contents := entries[k := Plain(v)], contents[k := v];
    }

    /** `current[key] = {}`. */
    method Open(k: string)
      requires Valid() && k !in entries
      modifies this
      ensures Valid() && fresh(Repr - old(Repr))
      ensures k in entries && entries[k].Nested? && contents == old(contents)[k := Dict(map[])]
    {
      var d := new NestedDict();
      entries, contents := entries[k := Nested(d)], contents[k := Dict(map[])];
      Repr := Repr + d.Repr;
    }

    /** Valid, except that the dictionary at `k` may have changed. */
    ghost predicate ValidBeside(k: string)
      requires k in entries && entries[k].Nested?
      reads this, Repr, entries[k].dict, entries[k].dict.Repr
    {
      var d := entries[k].dict;
      && this in Repr && entries.Keys == contents.Keys
      && d in Repr && d.Valid() && this !in d.Repr
      && (forall j :: j in entries && entries[j].Plain? ==> contents[j] == entries[j].value)
      && (forall j :: j in entries && j != k && entries[j].Nested? ==>
            var o := entries[j].dict;
            o in Repr && o.Repr < Repr && this !in o.Repr && o.Valid() && contents[j] == Dict(o.contents))
      && (forall i, j :: i in entries && j in entries && i != j && entries[i].Nested? && entries[j].Nested? ==>
            entries[i].dict.Repr !! entries[j].dict.Repr)
    }

    ghost method TakeIn(k: string)
      requires k in entries && entries[k].Nested? && ValidBeside(k)
      modifies this`contents, this`Repr
      ensures Valid() && Repr == old(Repr) + entries[k].dict.Repr
      ensures contents == old(contents)[k := Dict(entries[k].dict.contents)]
    {
      var d := entries[k].dict;
      contents, Repr := contents[k := Dict(d.contents)], Repr + d.Repr;
    }

    /** The walk below a dictionary stored at `k`; the dictionaries beside it are not touched. */
    method SetBelow(k: string, rest: Path, v: Value) returns (ok: bool)
      requires Valid() && rest != [] && k in entries && entries[k].Nested?
      modifies Repr
      ensures Valid() && fresh(Repr - old(Repr))
      ensures var inner := SetAt(old(contents[k]), rest, v);
              ok == inner.Some? && contents == old(contents)[k := inner.GetOr(old(contents[k]))]
      decreases |rest|, 2
    {
      hide SetAt;
      var d := entries[k].dict;
      ok := d.SetNestedValue(rest, v);
      assert ValidBeside(k) by {
        forall j | j in entries && j != k && entries[j].Nested?
          ensures var o := entries[j].dict;
                  o.Valid() && o.Repr == old(o.Repr) && o.contents == old(o.contents) && o.Repr !! d.Repr
        {
          assert old(entries[j].dict.Valid());
        }
      }
      TakeIn(k);
    }

    /** `_set_nested_value`, the walk being a recursion; false when it raises. */
    method SetNestedValue(keys: Path, v: Value) returns (ok: bool)
      requires Valid() && keys != []
      modifies Repr
      ensures Valid() && fresh(Repr - old(Repr))
      ensures ok == SetAt(old(Contents()), keys, v).Some?
      ensures Contents() == SetAt(old(Contents()), keys, v).GetOr(old(Contents()))
      decreases |keys|, 1
    {
      var k := keys[0];
      EntryMeans(k);
      hide Valid;
      if |keys| == 1 {
        Store(k, v);
        return true;
      }
      SetRaisesIffBlocked(Dict(map[]), keys[1..], v);
      assert k in contents ==> contents[k := contents[k]] == contents;
      if k !in entries {
        Open(k);
      }
      match entries[k] {
        case Plain(w) =>
          var inner := SetAt(w, keys[1..], v);
          ok := inner.Some?;
          if ok {
            Store(k, inner.value);
          }
        case Nested(d) =>
          ok := SetBelow(k, keys[1..], v);
      }
    }
  }
}
