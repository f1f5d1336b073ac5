/**
 * A JavaScript object used as a dictionary: string keys in insertion order
 * (the order `Object.keys` reports), each with one value.
 */
module Dicts {
  import opened Wrappers

  type Dict<V> = seq<(string, V)>

  /** `Object.keys(d)`. */
  function Keys<V>(d: Dict<V>): (ks: seq<string>)
    ensures |ks| == |d|
    ensures forall i :: 0 <= i < |d| ==> ks[i] == d[i].0
  {
    seq(|d|, i requires 0 <= i < |d| => d[i].0)
  }

  /** No key occurs twice, as in every object a JSON parser produces. */
  predicate UniqueKeys<V>(d: Dict<V>) {
    forall i, j :: 0 <= i < j < |d| ==> d[i].0 != d[j].0
  }

  /** The position of the first entry with key `k`, or -1. */
  function KeyIndex<V>(d: Dict<V>, k: string): (i: int)
    ensures -1 <= i < |d|
    ensures i == -1 <==> k !in Keys(d)
    ensures 0 <= i ==> d[i].0 == k && forall j :: 0 <= j < i ==> d[j].0 != k
  {
    if |d| == 0 then -1
    else if d[0].0 == k then 0
    else
      var i := KeyIndex(d[1..], k);
      if i < 0 then -1 else i + 1
  }

  /** `d[k]`, or None for a key the object does not have. */
  function Get<V>(d: Dict<V>, k: string): (r: Option<V>)
    ensures r.Some? <==> k in Keys(d)
    ensures r.Some? ==> (k, r.value) in d
    ensures UniqueKeys(d) ==> forall i :: 0 <= i < |d| && d[i].0 == k ==> r == Some(d[i].1)
  {
    var i := KeyIndex(d, k);
    if i < 0 then None else Some(d[i].1)
  }

  /**
   * `d[k] = v`: an existing key keeps its position and takes the new value,
   * a new key is appended.
   */
  function Put<V>(d: Dict<V>, k: string, v: V): (r: Dict<V>)
    ensures Keys(r) == if k in Keys(d) then Keys(d) else Keys(d) + [k]
    ensures Get(r, k) == Some(v)
    ensures forall k' :: k' != k ==> Get(r, k') == Get(d, k')
    ensures UniqueKeys(d) ==> UniqueKeys(r)
  {
    var i := KeyIndex(d, k);
    var r := if i < 0 then d + [(k, v)] else d[i := (k, v)];
    assert Keys(r) == if i < 0 then Keys(d) + [k] else Keys(d);
    PutKeepsOtherKeys(d, r, k);
    r
  }

  /** Two dictionaries whose keys differ only where the key is `k` give every other key the same first position. */
  lemma {:induction false} PutKeepsOtherKeys<V>(d: Dict<V>, r: Dict<V>, k: string)
    requires |d| <= |r| <= |d| + 1
    requires forall j :: 0 <= j < |d| ==> r[j] == d[j] || r[j].0 == k == d[j].0
    requires |r| == |d| + 1 ==> r[|d|].0 == k
    ensures forall k' :: k' != k ==> KeyIndex(r, k') == KeyIndex(d, k')
  {
    forall k' | k' != k ensures KeyIndex(r, k') == KeyIndex(d, k') {
      KeyIndexAgrees(d, r, k, k');
    }
  }

  lemma {:induction false} KeyIndexAgrees<V>(d: Dict<V>, r: Dict<V>, k: string, k': string)
    requires k' != k
    requires |d| <= |r| <= |d| + 1
    requires forall j :: 0 <= j < |d| ==> r[j] == d[j] || r[j].0 == k == d[j].0
    requires |r| == |d| + 1 ==> r[|d|].0 == k
    ensures KeyIndex(r, k') == KeyIndex(d, k')
  {
    if |d| == 0 {
      if |r| == 1 { assert r[0].0 == k; }
    } else if d[0].0 == k' {
      assert r[0] == d[0];
    } else {
      assert r[0].0 != k';
      KeyIndexAgrees(d[1..], r[1..], k, k');
    }
  }

  /** The values of `d` as a map; for a repeated key the later entry wins, as an assignment loop would. */
  function ToMap<V>(d: Dict<V>): (m: map<string, V>)
    ensures m.Keys == set k | k in Keys(d)
    ensures UniqueKeys(d) ==> forall i :: 0 <= i < |d| ==> m[d[i].0] == d[i].1
  {
    if |d| == 0 then map[]
    else
      var m := ToMap(d[..|d| - 1]);
      assert Keys(d) == Keys(d[..|d| - 1]) + [d[|d| - 1].0];
      m[d[|d| - 1].0 := d[|d| - 1].1]
  }
}
