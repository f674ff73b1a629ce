/** Python's insertion-ordered `dict`, as a list of key/value pairs: a new key
    is appended, an existing key keeps its position and takes the new value. */
module OrderedMap {
  import opened Options

  type Assoc<K, V> = seq<(K, V)>

  function Keys<K, V>(m: Assoc<K, V>): (ks: seq<K>)
    ensures |ks| == |m|
    ensures forall i :: 0 <= i < |m| ==> ks[i] == m[i].0
  {
    seq(|m|, i requires 0 <= i < |m| => m[i].0)
  }

  /** No key occurs twice. */
  predicate DistinctKeys<K(==), V>(m: Assoc<K, V>) {
    forall i, j :: 0 <= i < j < |m| ==> m[i].0 != m[j].0
  }

  /** Python `d.get(k)`: the value of the first pair with key `k`. */
  function Get<K(==), V>(m: Assoc<K, V>, k: K): Option<V> {
    if |m| == 0 then None
    else if m[0].0 == k then Some(m[0].1)
    else Get(m[1..], k)
  }

  /** `d.get(k)` is absent exactly when `k` is not a key, and otherwise
      the value of a pair with key `k`. */
  lemma {:induction false} GetSpec<K, V>(m: Assoc<K, V>, k: K)
    ensures Get(m, k).None? <==> k !in Keys(m)
    ensures Get(m, k).Some? ==> exists i :: 0 <= i < |m| && m[i] == (k, Get(m, k).value)
  {
    if |m| > 0 && m[0].0 != k {
      GetSpec(m[1..], k);
      assert Keys(m) == [m[0].0] + Keys(m[1..]);
      if Get(m, k).Some? {
        var i :| 0 <= i < |m[1..]| && m[1..][i] == (k, Get(m, k).value);
        assert m[i + 1] == m[1..][i];
      }
    }
  }

  /** Position of the first pair with key `k`. */
  function Find<K(==), V>(m: Assoc<K, V>, k: K): (r: Option<nat>)
    ensures r.Some? ==> r.value < |m|
  {
    if |m| == 0 then None
    else if m[0].0 == k then Some(0)
    else
      match Find(m[1..], k)
      case None => None
      case Some(i) => Some(i + 1)
  }

  /** `Find` gives the first position holding `k`, and fails exactly when
      `k` is not a key. */
  lemma {:induction false} FindSpec<K, V>(m: Assoc<K, V>, k: K)
    ensures Find(m, k).None? <==> k !in Keys(m)
    ensures Find(m, k).Some? ==> m[Find(m, k).value].0 == k
    ensures Find(m, k).Some? ==> forall j :: 0 <= j < Find(m, k).value ==> m[j].0 != k
  {
    if |m| > 0 && m[0].0 != k {
      FindSpec(m[1..], k);
      assert Keys(m) == [m[0].0] + Keys(m[1..]);
      if Find(m, k).Some? {
        var i := Find(m[1..], k).value;
        forall j | 0 <= j < i + 1
          ensures m[j].0 != k
        {
          if j > 0 {
            assert m[j] == m[1..][j - 1];
          }
        }
      }
    }
  }

  /** Python `d[k] = v`. */
  function Put<K(==), V>(m: Assoc<K, V>, k: K, v: V): Assoc<K, V> {
    match Find(m, k)
    case Some(i) => m[i := (k, v)]
    case None => m + [(k, v)]
  }

  /** After `d[k] = v`, `d[k]` is `v`. */
  lemma GetPutSame<K, V>(m: Assoc<K, V>, k: K, v: V)
    ensures Get(Put(m, k, v), k) == Some(v)
  {
    var m' := Put(m, k, v);
    FindSpec(m, k);
    match Find(m, k)
    case Some(i) =>
      GetFirst(m', k, i);
    case None =>
      forall j | 0 <= j < |m|
        ensures m'[j].0 != k
      {
        assert m'[j].0 == Keys(m)[j];
      }
      GetFirst(m', k, |m|);
  }

  /** After `d[k] = v`, every other key keeps its value. */
  lemma GetPutOther<K, V>(m: Assoc<K, V>, k: K, v: V, j: K)
    requires j != k
    ensures Get(Put(m, k, v), j) == Get(m, j)
  {
    var m' := Put(m, k, v);
    FindSpec(m, k);
    FindSpec(m, j);
    PutKeys(m, k, v);
    match Find(m, j)
    case Some(i) =>
      GetFirst(m, j, i);
      GetFirst(m', j, i);
    case None =>
      GetSpec(m, j);
      GetSpec(m', j);
  }

  /** A put leaves every other key as it was. */
  lemma GetPutOthers<K, V>(m: Assoc<K, V>, k: K, v: V)
    ensures forall j :: j != k ==> Get(Put(m, k, v), j) == Get(m, j)
  {
    forall j | j != k
      ensures Get(Put(m, k, v), j) == Get(m, j)
    {
      GetPutOther(m, k, v, j);
    }
  }

  /** `Get` returns the value at the first position holding the key. */
  lemma {:induction false} GetFirst<K, V>(m: Assoc<K, V>, k: K, i: nat)
    requires i < |m| && m[i].0 == k
    requires forall j :: 0 <= j < i ==> m[j].0 != k
    ensures Get(m, k) == Some(m[i].1)
  {
    if i > 0 {
      GetFirst(m[1..], k, i - 1);
    }
  }

  /** Insertion order: `d[k] = v` appends a new key and leaves the order of
      existing keys alone. */
  lemma PutKeys<K, V>(m: Assoc<K, V>, k: K, v: V)
    ensures Keys(Put(m, k, v)) == if k in Keys(m) then Keys(m) else Keys(m) + [k]
  {
    FindSpec(m, k);
  }

  /** `d[k] = v` keeps keys distinct. */
  lemma PutDistinct<K, V>(m: Assoc<K, V>, k: K, v: V)
    requires DistinctKeys(m)
    ensures DistinctKeys(Put(m, k, v))
  {
    var m' := Put(m, k, v);
    FindSpec(m, k);
    if k !in Keys(m) {
      forall i, j | 0 <= i < j < |m'|
        ensures m'[i].0 != m'[j].0
      {
        if j == |m| {
          assert m[i].0 == Keys(m)[i];
        }
      }
    }
  }
}
