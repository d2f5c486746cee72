/**
 * A JavaScript object used as a dictionary: keys in insertion order, and
 * assigning to a key that is already present replaces its value where it
 * stands (`obj[key] = value`).
 */
module OrderedMap {
  import opened Wrappers

  type Map<V> = seq<(string, V)>

  function Keys<V>(m: Map<V>): (ks: seq<string>)
    ensures |ks| == |m|
    ensures forall i :: 0 <= i < |m| ==> ks[i] == m[i].0
  {
    if m == [] then [] else [m[0].0] + Keys(m[1..])
  }

  predicate Distinct(s: seq<string>) {
    forall i, j :: 0 <= i < j < |s| ==> s[i] != s[j]
  }

  /** `obj[k]`: the value stored under `k`, if any. */
  function Lookup<V>(m: Map<V>, k: string): (r: Option<V>)
    ensures r == None <==> k !in Keys(m)
    ensures r.Some? ==> exists i :: 0 <= i < |m| && m[i] == (k, r.value)
  {
    if m == [] then None
    else if m[0].0 == k then Some(m[0].1)
    else Lookup(m[1..], k)
  }

  /** `obj[k] = v`: a new key goes at the end, an existing key keeps its place and takes the new value. */
  function Put<V>(m: Map<V>, k: string, v: V): (r: Map<V>)
    ensures Keys(r) == if k in Keys(m) then Keys(m) else Keys(m) + [k]
  {
    if m == [] then [(k, v)]
    else if m[0].0 == k then [(k, v)] + m[1..]
    else
      assert Keys(m) == [m[0].0] + Keys(m[1..]);
      [m[0]] + Put(m[1..], k, v)
  }

  /** After `obj[k] = v`, reading `k` gives `v` and reading any other key gives what it gave before. */
  lemma {:induction false} PutLookup<V>(m: Map<V>, k: string, v: V, k': string)
    ensures Lookup(Put(m, k, v), k') == if k' == k then Some(v) else Lookup(m, k')
  {
    if m != [] && m[0].0 != k {
      PutLookup(m[1..], k, v, k');
    }
  }

  /** Assigning to a key not yet present appends the entry and leaves the others as they were. */
  lemma {:induction false} PutNew<V>(m: Map<V>, k: string, v: V)
    requires k !in Keys(m)
    ensures Put(m, k, v) == m + [(k, v)]
  {
    if m != [] {
      assert Keys(m) == [m[0].0] + Keys(m[1..]);
      PutNew(m[1..], k, v);
      assert m == [m[0]] + m[1..];
    }
  }

  /** Assignments never give a key two places. */
  lemma PutKeepsKeysDistinct<V>(m: Map<V>, k: string, v: V)
    requires Distinct(Keys(m))
    ensures Distinct(Keys(Put(m, k, v)))
  {
  }
}
