/** Python dictionaries with string keys, as association lists: a dict keeps
    its keys in insertion order, and the order of `.keys()` and `.items()` is
    observable in this model (time slots, order of diagnostics). */
module Dict {
  import opened Wrappers

  type Dict<V> = seq<(string, V)>

  /** `list(d.keys())`. */
  function Keys<V>(d: Dict<V>): (r: seq<string>)
    ensures |r| == |d| && forall i :: 0 <= i < |d| ==> r[i] == d[i].0
  {
    seq(|d|, i requires 0 <= i < |d| => d[i].0)
  }

  /** `list(d.values())`. */
  function Values<V>(d: Dict<V>): (r: seq<V>)
    ensures |r| == |d| && forall i :: 0 <= i < |d| ==> r[i] == d[i].1
  {
    seq(|d|, i requires 0 <= i < |d| => d[i].1)
  }

  predicate DistinctKeys<V>(d: Dict<V>) {
    forall i, j :: 0 <= i < j < |d| ==> d[i].0 != d[j].0
  }

  /** `d.get(k)`: the value stored under `k`, or `None` when `k` is absent. */
  function Get<V>(d: Dict<V>, k: string): (r: Option<V>)
    ensures r.None? <==> k !in Keys(d)
    ensures r.Some? ==> exists i :: 0 <= i < |d| && d[i] == (k, r.value)
  {
    if d == [] then None
    else if d[0].0 == k then Some(d[0].1)
    else Get(d[1..], k)
  }

  /** The position of key `k` in `d`. */
  function KeyIndex<V>(d: Dict<V>, k: string): (i: nat)
    requires k in Keys(d)
    ensures i < |d| && d[i].0 == k && forall j :: 0 <= j < i ==> d[j].0 != k
  {
    if d[0].0 == k then 0 else 1 + KeyIndex(d[1..], k)
  }

  /** `d[k] = v`: replaces the value of an existing key in place, otherwise
      appends the new key at the end. */
  function Set<V>(d: Dict<V>, k: string, v: V): (r: Dict<V>)
    requires DistinctKeys(d)
    ensures DistinctKeys(r)
    ensures Get(r, k) == Some(v)
    ensures k !in Keys(d) ==> r == d + [(k, v)]
    ensures k in Keys(d) ==> Keys(r) == Keys(d)
    ensures forall j :: 0 <= j < |d| && d[j].0 != k ==> r[j] == d[j]
  {
    if k in Keys(d) then
      var i := KeyIndex(d, k);
      var r := d[i := (k, v)];
      assert Keys(r) == Keys(d);
      assert r[i] == (k, v);
      GetAt(r, i);
      r
    else
      var r := d + [(k, v)];
      assert r[|d|] == (k, v);
      GetAt(r, |d|);
      r
  }

  /** In a dict with distinct keys, `Get` finds the entry at each position. */
  lemma {:induction false} GetAt<V>(d: Dict<V>, i: nat)
    requires DistinctKeys(d) && i < |d|
    ensures Get(d, d[i].0) == Some(d[i].1)
  {
    if i > 0 {
      GetAt(d[1..], i - 1);
    }
  }

  /** Setting one key leaves the value of every other key as it was. */
  lemma SetKeepsOthers<V>(d: Dict<V>, k: string, v: V, other: string)
    requires DistinctKeys(d) && other != k
    ensures Get(Set(d, k, v), other) == Get(d, other)
  {
    var r := Set(d, k, v);
    if other in Keys(d) {
      var i := KeyIndex(d, other);
      GetAt(d, i);
      assert r[i] == d[i];
      GetAt(r, i);
    }
  }
}
