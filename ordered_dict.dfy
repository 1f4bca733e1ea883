/**
 * Python dictionaries keep their keys in insertion order; `for k in d` and
 * `list(d.keys())` observe that order. An ODict is the key order together with
 * the mapping.
 */
module OrderedDict {
  import opened Wrappers

  datatype ODict<K(==,!new), V> = ODict(keys: seq<K>, vals: map<K, V>) {

    /** What every Python dict satisfies: each key once, and the order lists exactly the mapped keys. */
    ghost predicate Valid() {
      && (forall i, j :: 0 <= i < j < |keys| ==> keys[i] != keys[j])
      && (forall k :: k in vals <==> k in keys)
    }

    function Get(k: K): (r: Option<V>)
      ensures r.Some? <==> k in vals
      ensures r.Some? ==> r.value == vals[k]
    {
      if k in vals then Some(vals[k]) else None
    }

    /** `d[k] = v`: an existing key keeps its place, a new key goes last. */
    function Put(k: K, v: V): (r: ODict<K, V>)
      ensures r.vals == vals[k := v]
      ensures k in vals ==> r.keys == keys
      ensures k !in vals ==> r.keys == keys + [k]
      ensures Valid() ==> r.Valid()
    {
      if k in vals then ODict(keys, vals[k := v]) else ODict(keys + [k], vals[k := v])
    }
  }

  function Empty<K(==,!new), V>(): (r: ODict<K, V>)
    ensures r.Valid() && r.keys == [] && r.vals == map[]
  {
    ODict([], map[])
  }

  /** Each element occurs once. */
  predicate Distinct<T(==)>(s: seq<T>) {
    forall i, j :: 0 <= i < j < |s| ==> s[i] != s[j]
  }

  /** Whether `a` is a prefix of `b`. */
  predicate IsPrefix<T(==)>(a: seq<T>, b: seq<T>) {
    |a| <= |b| && b[..|a|] == a
  }

  /** The distinct elements of `s`, each at its first occurrence (how the model orders a Python set). */
  function Dedup<T(==,!new)>(s: seq<T>): (r: seq<T>)
    ensures forall x :: x in r <==> x in s
    ensures Distinct(r)
    ensures |r| <= |s|
    decreases |s|
  {
    if s == [] then []
    else
      var rest := Dedup(s[..|s| - 1]);
      var x := s[|s| - 1];
      assert s == s[..|s| - 1] + [x];
      if x in rest then rest else rest + [x]
  }
}
