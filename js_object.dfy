/** A plain JavaScript object as the source uses it: its own enumerable properties,
    in enumeration order, as a list of key/value pairs. */
module JsObject {
  import opened Outcomes

  type Dict<V> = seq<(string, V)>

  /** `Object.keys(d)`. */
  function Keys<V>(d: Dict<V>): (ks: seq<string>)
    ensures |ks| == |d|
    ensures forall i :: 0 <= i < |d| ==> ks[i] == d[i].0
  {
    seq(|d|, i requires 0 <= i < |d| => d[i].0)
  }

  /** `Object.values(d)`. */
  function Values<V>(d: Dict<V>): (vs: seq<V>)
    ensures |vs| == |d|
    ensures forall i :: 0 <= i < |d| ==> vs[i] == d[i].1
  {
    seq(|d|, i requires 0 <= i < |d| => d[i].1)
  }

  /** No key occurs twice; every object that JSON.parse builds has this property. */
  predicate DistinctKeys<V>(d: Dict<V>)
  {
    forall i, j :: 0 <= i < j < |d| ==> d[i].0 != d[j].0
  }

  /** Position i holds the first entry with key k. */
  predicate FirstWithKey<V>(d: Dict<V>, k: string, i: int)
  {
    0 <= i < |d| && d[i].0 == k && forall j :: 0 <= j < i ==> d[j].0 != k
  }

  /** `d[k]`: the value of the (first) entry with key k, or None for `undefined`. */
  function Get<V>(d: Dict<V>, k: string): (r: Option<V>)
    ensures r.None? <==> k !in Keys(d)
    ensures r.Some? ==> exists i :: FirstWithKey(d, k, i) && d[i].1 == r.value
    decreases |d|
  {
    if |d| == 0 then None
    else if d[0].0 == k then (assert FirstWithKey(d, k, 0); Some(d[0].1))
    else
      var r := Get(d[1..], k);
      assert Keys(d) == [d[0].0] + Keys(d[1..]);
      assert r.Some? ==> exists i :: FirstWithKey(d, k, i) && d[i].1 == r.value by {
        if r.Some? {
          var i :| FirstWithKey(d[1..], k, i) && d[1..][i].1 == r.value;
          assert FirstWithKey(d, k, i + 1);
        }
      }
      r
  }

  /** With distinct keys, the entry at position i is what Get finds for its key. */
  lemma GetAt<V>(d: Dict<V>, i: int)
    requires DistinctKeys(d) && 0 <= i < |d|
    ensures Get(d, d[i].0) == Some(d[i].1)
  {
    assert d[i].0 in Keys(d);
    var j :| FirstWithKey(d, d[i].0, j) && d[j].1 == Get(d, d[i].0).value;
    assert FirstWithKey(d, d[i].0, j);
    assert d[j].0 == d[i].0;
    assert !(j < i) && !(i < j);
  }

  /** `d[k] = v`: an existing key keeps its position and takes the new value;
      a new key is appended. */
  function Put<V>(d: Dict<V>, k: string, v: V): Dict<V>
    decreases |d|
  {
    if |d| == 0 then [(k, v)]
    else if d[0].0 == k then [(k, v)] + d[1..]
    else [d[0]] + Put(d[1..], k, v)
  }

  /** Assigning a key the object does not have appends it. */
  lemma {:induction false} PutNewKey<V>(d: Dict<V>, k: string, v: V)
    requires k !in Keys(d)
    ensures Put(d, k, v) == d + [(k, v)]
    decreases |d|
  {
    if |d| > 0 {
      assert Keys(d) == [d[0].0] + Keys(d[1..]);
      PutNewKey(d[1..], k, v);
      assert d == [d[0]] + d[1..];
    }
  }

  /** After `d[k] = v`, k reads v and every other key reads what it read before. */
  lemma {:induction false} GetPut<V>(d: Dict<V>, k: string, v: V, k': string)
    ensures Get(Put(d, k, v), k') == if k' == k then Some(v) else Get(d, k')
    decreases |d|
  {
    if |d| > 0 && d[0].0 != k {
      GetPut(d[1..], k, v, k');
      assert ([d[0]] + Put(d[1..], k, v))[1..] == Put(d[1..], k, v);
    } else if |d| > 0 {
      assert ([(k, v)] + d[1..])[1..] == d[1..];
    }
  }
}
