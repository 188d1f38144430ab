/**
 * The values a YAML document decodes to, as far as the core looks at them:
 * `null`, booleans, integers, strings, lists and mappings with string keys.
 * A mapping keeps its keys in document order, as a Python `dict` does.
 */
module Yaml {
  import opened Wrappers

  datatype Yaml =
    | YNull
    | YBool(b: bool)
    | YInt(i: int)
    | YStr(s: string)
    | YList(items: seq<Yaml>)
    | YMap(entries: Mapping)

  /** A mapping as a sequence of key/value pairs in insertion order. */
  type Mapping = seq<(string, Yaml)>

  /** `m.get(k)`: the value stored under `k`, if any (for mappings of any value type). */
  function Lookup<V(==)>(m: seq<(string, V)>, k: string): (r: Option<V>)
    ensures r.Some? <==> exists i :: 0 <= i < |m| && m[i].0 == k
    ensures r.Some? ==> (k, r.value) in m
    ensures forall i :: 0 <= i < |m| && m[i].0 == k && (forall j :: 0 <= j < i ==> m[j].0 != k) ==> r == Some(m[i].1)
  {
    if |m| == 0 then None
    else if m[0].0 == k then Some(m[0].1)
    else Lookup(m[1..], k)
  }

  /** Python truthiness: empty and zero values are false. */
  predicate Truthy(y: Yaml) {
    match y
    case YNull => false
    case YBool(b) => b
    case YInt(i) => i != 0
    case YStr(s) => |s| > 0
    case YList(items) => |items| > 0
    case YMap(entries) => |entries| > 0
  }

  /** The keys of `m`, in insertion order. */
  function KeysOf(m: Mapping): (r: seq<string>)
    ensures |r| == |m|
  {
    if |m| == 0 then [] else [m[0].0] + KeysOf(m[1..])
  }

  lemma {:induction false} KeysAt(m: Mapping, i: nat)
    requires i < |m|
    ensures KeysOf(m)[i] == m[i].0
  {
    if i > 0 {
      KeysAt(m[1..], i - 1);
    }
  }

  /** No key occurs twice, as in a Python `dict`. */
  predicate UniqueKeys(m: Mapping) {
    forall i, j :: 0 <= i < j < |m| ==> m[i].0 != m[j].0
  }

  /**
   * Python `m[k] = v`: an existing key keeps its place and takes the new
   * value, a new key goes last.
   */
  function Put(m: Mapping, k: string, v: Yaml): (r: Mapping)
    ensures Lookup(r, k) == Some(v)
    ensures forall k' :: k' != k ==> Lookup(r, k') == Lookup(m, k')
  {
    if |m| == 0 then [(k, v)]
    else if m[0].0 == k then
      assert ([(k, v)] + m[1..])[1..] == m[1..];
      [(k, v)] + m[1..]
    else
      var rest := Put(m[1..], k, v);
      assert ([m[0]] + rest)[1..] == rest;
      [m[0]] + rest
  }

  /** `Put` keeps the order of the keys and adds a new key at the end. */
  lemma {:induction false} PutKeys(m: Mapping, k: string, v: Yaml)
    ensures KeysOf(Put(m, k, v)) == if k in KeysOf(m) then KeysOf(m) else KeysOf(m) + [k]
  {
    if |m| > 0 && m[0].0 != k {
      PutKeys(m[1..], k, v);
      if k !in KeysOf(m) {
        var h, t := [m[0].0], KeysOf(m[1..]);
        assert h + (t + [k]) == (h + t) + [k];
      }
    }
  }

  /** `Put` keeps a mapping free of repeated keys. */
  lemma PutUnique(m: Mapping, k: string, v: Yaml)
    requires UniqueKeys(m)
    ensures UniqueKeys(Put(m, k, v))
  {
    var r := Put(m, k, v);
    PutKeys(m, k, v);
    forall i, j | 0 <= i < j < |r|
      ensures r[i].0 != r[j].0
    {
      KeysAt(r, i);
      KeysAt(r, j);
      KeysAt(m, i);
      if j < |m| {
        KeysAt(m, j);
      }
    }
  }

  /** The value of the last pair of `ps` with key `k`, if any. */
  function LastValue(ps: seq<(string, Yaml)>, k: string): (r: Option<Yaml>)
    ensures r.Some? ==> (k, r.value) in ps
  {
    if |ps| == 0 then None
    else if ps[|ps| - 1].0 == k then Some(ps[|ps| - 1].1)
    else LastValue(ps[..|ps| - 1], k)
  }

  /** `m[k] = v` for every pair `(k, v)` of `ps`, in order (`{**m, **dict(ps)}`). */
  function PutAll(m: Mapping, ps: seq<(string, Yaml)>): Mapping {
    if |ps| == 0 then m
    else Put(PutAll(m, ps[..|ps| - 1]), ps[|ps| - 1].0, ps[|ps| - 1].1)
  }

  /** After `PutAll`, a key holds its last value in `ps`, or else its value in `m`. */
  lemma {:induction false} PutAllLookup(m: Mapping, ps: seq<(string, Yaml)>, k: string)
    ensures Lookup(PutAll(m, ps), k) == if LastValue(ps, k).Some? then LastValue(ps, k) else Lookup(m, k)
  {
    if |ps| > 0 {
      PutAllLookup(m, ps[..|ps| - 1], k);
    }
  }

  /** `PutAll` keeps a mapping free of repeated keys. */
  lemma {:induction false} PutAllUnique(m: Mapping, ps: seq<(string, Yaml)>)
    requires UniqueKeys(m)
    ensures UniqueKeys(PutAll(m, ps))
  {
    if |ps| > 0 {
      PutAllUnique(m, ps[..|ps| - 1]);
      PutUnique(PutAll(m, ps[..|ps| - 1]), ps[|ps| - 1].0, ps[|ps| - 1].1);
    }
  }

  /** In a mapping without repeated keys, the first pair with a key is also the last. */
  lemma {:induction false} UniqueLast(m: Mapping, k: string)
    requires UniqueKeys(m)
    ensures LastValue(m, k) == Lookup(m, k)
  {
    if |m| > 0 {
      var init := m[..|m| - 1];
      assert UniqueKeys(init);
      UniqueLast(init, k);
      LookupInit(m, k);
    }
  }

  /** Looking up in all but the last pair, unless the key is the last one. */
  lemma {:induction false} LookupInit(m: Mapping, k: string)
    requires |m| > 0
    ensures Lookup(m, k) == if Lookup(m[..|m| - 1], k).Some? then Lookup(m[..|m| - 1], k)
      else if m[|m| - 1].0 == k then Some(m[|m| - 1].1) else None
  {
    if |m| > 1 && m[0].0 != k {
      assert m[1..][..|m[1..]| - 1] == m[..|m| - 1][1..];
      LookupInit(m[1..], k);
    }
  }

  /** `m` without the pair for `k` (`{x: y for x, y in m.items() if x != k}`). */
  function Remove(m: Mapping, k: string): (r: Mapping)
    ensures Lookup(r, k).None?
    ensures forall k' :: k' != k ==> Lookup(r, k') == Lookup(m, k')
    ensures |r| <= |m|
  {
    if |m| == 0 then []
    else if m[0].0 == k then Remove(m[1..], k)
    else
      var rest := Remove(m[1..], k);
      assert ([m[0]] + rest)[1..] == rest;
      [m[0]] + rest
  }
}
