/**
 * Python's `dict`, which remembers insertion order: a sequence of
 * key/value pairs. Writing an existing key replaces its value where it
 * stands; writing a new key appends it. Iterating `items()` walks the
 * sequence in order.
 */
module OrderedDict {
  import opened Wrappers

  type Dict<K, V> = seq<(K, V)>

  function Keys<K, V>(d: Dict<K, V>): (ks: seq<K>)
    ensures |ks| == |d|
    ensures forall i :: 0 <= i < |d| ==> ks[i] == d[i].0
  {
    seq(|d|, i requires 0 <= i < |d| => d[i].0)
  }

  function Values<K, V>(d: Dict<K, V>): (vs: seq<V>)
    ensures |vs| == |d|
    ensures forall i :: 0 <= i < |d| ==> vs[i] == d[i].1
  {
    seq(|d|, i requires 0 <= i < |d| => d[i].1)
  }

  /** No key is stored twice, as in every Python dict. */
  predicate UniqueKeys<K(==), V>(d: Dict<K, V>) {
    forall i, j :: 0 <= i < j < |d| ==> d[i].0 != d[j].0
  }

  /** Where `k` is stored, or `|d|` when it is not. */
  function IndexOf<K(==), V>(d: Dict<K, V>, k: K): (i: nat)
    ensures i <= |d|
    ensures i < |d| ==> d[i].0 == k
    ensures forall j :: 0 <= j < i ==> d[j].0 != k
  {
    if d == [] then 0
    else if d[0].0 == k then 0
    else 1 + IndexOf(d[1..], k)
  }

  /** `k in d` is the same as `k` being one of the keys. */
  lemma IndexOfKeys<K, V>(d: Dict<K, V>, k: K)
    ensures IndexOf(d, k) < |d| <==> k in Keys(d)
  {
    if k in Keys(d) {
      var j :| 0 <= j < |d| && Keys(d)[j] == k;
      assert d[j].0 == k;
    }
  }

  /** `d.get(k)`. */
  function Get<K(==), V>(d: Dict<K, V>, k: K): (r: Option<V>)
    ensures r.Some? <==> IndexOf(d, k) < |d|
    ensures r.Some? ==> r.value == d[IndexOf(d, k)].1
  {
    var i := IndexOf(d, k);
    if i < |d| then Some(d[i].1) else None
  }

  /** `d.get(k, dflt)`. */
  function GetOr<K(==), V>(d: Dict<K, V>, k: K, dflt: V): (v: V)
    ensures Get(d, k).Some? ==> v == Get(d, k).value
    ensures Get(d, k).None? ==> v == dflt
  {
    match Get(d, k)
    case Some(v) => v
    case None => dflt
  }

  /** `d[k] = v`. */
  function Put<K(==), V>(d: Dict<K, V>, k: K, v: V): Dict<K, V> {
    var i := IndexOf(d, k);
    if i < |d| then d[i := (k, v)] else d + [(k, v)]
  }

  /**
   * After `d[k] = v`, `k` is bound to `v` and every other key to what it was
   * bound to before.
   */
  lemma PutGet<K, V>(d: Dict<K, V>, k: K, v: V)
    ensures Get(Put(d, k, v), k) == Some(v)
    ensures forall j :: j != k ==> Get(Put(d, k, v), j) == Get(d, j)
  {
    var r := Put(d, k, v);
    var i := IndexOf(d, k);
    if i < |d| {
      forall j ensures IndexOf(r, j) == IndexOf(d, j) {
        IndexOfPrefix(d, r, j);
        IndexOfPrefix(r, d, j);
      }
    } else {
      forall j | j != k ensures Get(r, j) == Get(d, j) {
        IndexOfPrefix(d, r, j);
      }
      IndexOfPrefix(d, r, k);
      assert r[|d|].0 == k;
    }
  }

  /**
   * Writing an existing key keeps the key order; writing a new key appends
   * it. Either way no key is stored twice afterwards.
   */
  lemma PutKeys<K, V>(d: Dict<K, V>, k: K, v: V)
    ensures Keys(Put(d, k, v)) == if k in Keys(d) then Keys(d) else Keys(d) + [k]
    ensures UniqueKeys(d) ==> UniqueKeys(Put(d, k, v))
  {
    IndexOfKeys(d, k);
    var r := Put(d, k, v);
    if IndexOf(d, k) < |d| {
      assert Keys(r) == Keys(d);
    } else {
      assert Keys(r) == Keys(d) + [k];
    }
  }

  /** Extending a dict keeps every key where it was, and puts no old key's first occurrence earlier. */
  lemma {:induction false} IndexOfPrefix<K, V>(d: Dict<K, V>, e: Dict<K, V>, k: K)
    requires |d| <= |e|
    requires forall i :: 0 <= i < |d| ==> d[i].0 == e[i].0
    ensures IndexOf(d, k) < |d| ==> IndexOf(e, k) == IndexOf(d, k)
    ensures IndexOf(d, k) == |d| ==> IndexOf(e, k) >= |d|
  {
    if d != [] && d[0].0 != k {
      IndexOfPrefix(d[1..], e[1..], k);
    }
  }

  /** With unique keys, each key's first position is its only position. */
  lemma IndexOfUnique<K, V>(d: Dict<K, V>, i: nat)
    requires UniqueKeys(d) && i < |d|
    ensures IndexOf(d, d[i].0) == i
  {
  }
}
