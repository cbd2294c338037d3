/** The JSON-like values the backend keeps in its configuration, repository and task
    records, with Python's truthiness and the recursive dictionary merge that both
    `merge_dict` (prompt configuration) and `update_dict` (application configuration) use. */
module Json {
  import opened Wrappers

  datatype Value =
    | Null
    | Bool(b: bool)
    | Int(i: int)
    | Str(s: string)
    | List(items: seq<Value>)
    | Dict(fields: map<string, Value>)

  type Record = map<string, Value>

  /** Python's `bool(v)`: None, False, 0, empty strings, lists and dicts are false. */
  predicate Truthy(v: Value) {
    match v
    case Null => false
    case Bool(b) => b
    case Int(i) => i != 0
    case Str(s) => s != ""
    case List(xs) => xs != []
    case Dict(m) => m != map[]
  }

  /** `d.get(key, default)`. */
  function Get(d: Record, key: string, default: Value): (r: Value)
    ensures key in d ==> r == d[key]
    ensures key !in d ==> r == default
  {
    if key in d then d[key] else default
  }

  /** The value reached by following `path` through nested dictionaries. */
  function At(v: Value, path: seq<string>): Option<Value>
    decreases |path|
  {
    if |path| == 0 then Some(v)
    else if v.Dict? && path[0] in v.fields then At(v.fields[path[0]], path[1..])
    else None
  }

  /** Recursive merge: for each key of `over`, two dictionaries are merged, anything
      else from `over` replaces what `base` had; keys only in `base` are kept. */
  function Merge(base: Record, over: Record): (r: Record)
    ensures r.Keys == base.Keys + over.Keys
    ensures forall k :: k in base && k !in over ==> r[k] == base[k]
    decreases Dict(over)
  {
    map k | k in base.Keys + over.Keys ::
      if k in over then
        if k in base && base[k].Dict? && over[k].Dict? then Dict(Merge(base[k].fields, over[k].fields))
        else over[k]
      else base[k]
  }

  /** Merging nothing in leaves the base as it was. */
  lemma MergeEmpty(base: Record)
    ensures Merge(base, map[]) == base
  {
  }

  /** Merging into an empty dictionary copies the overrides. */
  lemma MergeIntoEmpty(over: Record)
    ensures Merge(map[], over) == over
  {
  }

  /** Merging a dictionary into itself changes nothing. */
  lemma {:induction false} MergeSelf(m: Record)
    ensures Merge(m, m) == m
    decreases Dict(m)
  {
    forall k | k in m && m[k].Dict?
      ensures Merge(m[k].fields, m[k].fields) == m[k].fields
    {
      MergeSelf(m[k].fields);
    }
  }

  /** Every value the override reaches through dictionaries, when it is not itself a
      dictionary, is what the merged result holds at the same path. */
  lemma {:induction false} MergeOverrideWins(base: Record, over: Record, path: seq<string>, x: Value)
    requires At(Dict(over), path) == Some(x) && !x.Dict?
    ensures At(Dict(Merge(base, over)), path) == Some(x)
    decreases |path|
  {
    var k := path[0];
    var r := Merge(base, over);
    assert k in over;
    if k in base && base[k].Dict? && over[k].Dict? {
      MergeOverrideWins(base[k].fields, over[k].fields, path[1..], x);
    } else {
      assert r[k] == over[k];
    }
  }

  /** Every path the base reaches is still reached after the merge unless the override
      replaces a value on the way with something that is not a dictionary. */
  lemma {:induction false} MergeKeepsBasePaths(base: Record, over: Record, path: seq<string>)
    requires At(Dict(base), path).Some?
    requires forall n :: 0 < n <= |path| ==> match At(Dict(over), path[..n]) case None => true case Some(v) => v.Dict?
    ensures At(Dict(Merge(base, over)), path).Some?
    decreases |path|
  {
    if |path| > 0 {
      var k := path[0];
      assert path[..1] == [k];
      if k in over {
        assert At(Dict(over), path[..1]) == At(over[k], []);
        if |path| > 1 {
          forall n | 0 < n <= |path| - 1
            ensures match At(over[k], path[1..][..n]) case None => true case Some(v) => v.Dict?
          {
            assert path[..n + 1][1..] == path[1..][..n];
            assert At(Dict(over), path[..n + 1]) == At(over[k], path[1..][..n]);
          }
          MergeKeepsBasePaths(base[k].fields, over[k].fields, path[1..]);
        }
      } else {
        assert Merge(base, over)[k] == base[k];
        assert At(Dict(base), path) == At(base[k], path[1..]);
      }
    }
  }
}
