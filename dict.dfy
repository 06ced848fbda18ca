/**
 * A JavaScript object used as a dictionary: string keys in insertion order.
 * Reading finds the first entry with the key; writing an existing key keeps
 * its position, writing a new key appends it. This is the order
 * `Object.entries` sees for keys that are not array indices; integer-like
 * keys and the names of `Object.prototype` members are not modelled.
 */
module Dict {
  import opened Wrappers

  type Dict<V> = seq<(string, V)>

  function Keys<V>(d: Dict<V>): (ks: seq<string>)
    ensures |ks| == |d| && forall i | 0 <= i < |d| :: ks[i] == d[i].0
  {
    seq(|d|, i requires 0 <= i < |d| => d[i].0)
  }

  /** Position of the first occurrence of `k`, or `|ks|` when there is none. */
  function IndexOf(ks: seq<string>, k: string): (i: nat)
    ensures i <= |ks|
    ensures i < |ks| ==> ks[i] == k
    ensures forall j | 0 <= j < i :: ks[j] != k
    ensures i == |ks| <==> k !in ks
  {
    if ks == [] then 0
    else if ks[0] == k then 0
    else 1 + IndexOf(ks[1..], k)
  }

  function Get<V>(d: Dict<V>, k: string): (r: Option<V>)
    ensures r.None? <==> k !in Keys(d)
    ensures r.Some? ==> var i := IndexOf(Keys(d), k); i < |d| && d[i] == (k, r.value)
  {
    var i := IndexOf(Keys(d), k);
    if i < |d| then Some(d[i].1) else None
  }

  lemma {:induction false} IndexOfAppend(ks: seq<string>, k: string, j: string)
    requires j != k
    ensures IndexOf(ks + [k], j) == if j in ks then IndexOf(ks, j) else |ks| + 1
  {
    if ks != [] {
      assert (ks + [k])[1..] == ks[1..] + [k];
      if ks[0] != j { IndexOfAppend(ks[1..], k, j); }
    }
  }

  /** `d[k] = v`. */
  function Put<V>(d: Dict<V>, k: string, v: V): (r: Dict<V>)
    ensures Get(r, k) == Some(v)
    ensures forall j :: j != k ==> Get(r, j) == Get(d, j)
    ensures Keys(r) == if k in Keys(d) then Keys(d) else Keys(d) + [k]
  {
    var i := IndexOf(Keys(d), k);
    if i < |d| then
      var r := d[i := (k, v)];
      assert Keys(r) == Keys(d);
      r
    else
      var r := d + [(k, v)];
      assert Keys(r) == Keys(d) + [k];
      forall j | j != k ensures Get(r, j) == Get(d, j) { IndexOfAppend(Keys(d), k, j); }
      r
  }

  predicate HasKey<V>(d: Dict<V>, k: string) {
    k in Keys(d)
  }

  /** Keys appear once: true of every JavaScript object. */
  predicate DistinctKeys<V>(d: Dict<V>) {
    forall i, j | 0 <= i < j < |d| :: d[i].0 != d[j].0
  }

  lemma PutDistinct<V>(d: Dict<V>, k: string, v: V)
    requires DistinctKeys(d)
    ensures DistinctKeys(Put(d, k, v))
  {
    var r := Put(d, k, v);
    forall i, j | 0 <= i < j < |r| ensures r[i].0 != r[j].0 {
      assert Keys(r)[i] == r[i].0 && Keys(r)[j] == r[j].0;
      if j < |d| {
        assert Keys(d)[i] == d[i].0 && Keys(d)[j] == d[j].0;
      } else {
        assert Keys(d)[i] == d[i].0;
      }
    }
  }
}
