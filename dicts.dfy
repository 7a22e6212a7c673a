/** Python dictionaries as insertion-ordered association lists. */
module Dicts {

  predicate HasKey<K(==), V>(d: seq<(K, V)>, k: K)
  {
    exists i :: 0 <= i < |d| && d[i].0 == k
  }

  /** No key occurs twice. */
  predicate DistinctKeys<K(==), V>(d: seq<(K, V)>)
  {
    forall i, j :: 0 <= i < j < |d| ==> d[i].0 != d[j].0
  }

  /** `d[k] = v`: an existing key keeps its position and takes the new value; a new key
      is appended at the end. */
  function Put<K(==), V>(d: seq<(K, V)>, k: K, v: V): (r: seq<(K, V)>)
    ensures HasKey(d, k) ==> |r| == |d|
    ensures !HasKey(d, k) ==> r == d + [(k, v)]
    ensures forall i :: 0 <= i < |d| ==> r[i].0 == d[i].0
    ensures forall i :: 0 <= i < |d| && d[i].0 != k ==> r[i] == d[i]
    ensures forall i :: 0 <= i < |r| && r[i].0 == k ==> r[i].1 == v
    ensures HasKey(r, k)
    ensures DistinctKeys(d) ==> DistinctKeys(r)
  {
    if HasKey(d, k) then
      var r := seq(|d|, i requires 0 <= i < |d| => if d[i].0 == k then (k, v) else d[i]);
      assert forall i :: 0 <= i < |r| ==> r[i].0 == d[i].0;
      r
    else
      var r := d + [(k, v)];
      assert r[|d|].0 == k;
      r
  }

  /** A key is present after `Put` iff it was present before or it is the key put. */
  lemma PutKeys<K, V>(d: seq<(K, V)>, k: K, v: V, k': K)
    ensures HasKey(Put(d, k, v), k') <==> HasKey(d, k') || k' == k
  {
    var r := Put(d, k, v);
    if HasKey(r, k') && k' != k {
      var i :| 0 <= i < |r| && r[i].0 == k';
      assert i < |d| && d[i].0 == k';
    }
    if HasKey(d, k') {
      var i :| 0 <= i < |d| && d[i].0 == k';
      assert r[i].0 == k';
    }
  }
}
