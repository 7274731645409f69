/** Python's dict: key/value pairs in insertion order, no key twice. Writing to a present key
    keeps its position; a new key goes to the end. */
module OrderedDict {
  import opened Options

  datatype Pair<K, V> = Pair(key: K, value: V)

  type Dict<K, V> = seq<Pair<K, V>>

  ghost predicate Distinct<K, V>(d: Dict<K, V>) {
    forall i, j :: 0 <= i < j < |d| ==> d[i].key != d[j].key
  }

  ghost function KeySet<K, V>(d: Dict<K, V>): set<K> {
    set p | p in d :: p.key
  }

  function Find<K(==), V>(d: Dict<K, V>, key: K): (i: nat)
    ensures i <= |d|
    ensures i < |d| ==> d[i].key == key
    ensures forall j :: 0 <= j < i ==> d[j].key != key
    ensures key in KeySet(d) <==> i < |d|
  {
    if d == [] then 0
    else if d[0].key == key then
      assert d[0] in d;
      0
    else
      assert d == [d[0]] + d[1..];
      1 + Find(d[1..], key)
  }

  function Get<K(==), V>(d: Dict<K, V>, key: K): (v: Option<V>)
    ensures v.Some? <==> key in KeySet(d)
  {
    var i := Find(d, key);
    if i < |d| then Some(d[i].value) else None
  }

  function Put<K(==), V>(d: Dict<K, V>, key: K, value: V): Dict<K, V> {
    var i := Find(d, key);
    if i < |d| then d[i := Pair(key, value)] else d + [Pair(key, value)]
  }

  /** The pairs that satisfy `keep`, in their order. */
  function Filter<K, V>(d: Dict<K, V>, keep: Pair<K, V> -> bool): Dict<K, V> {
    if d == [] then []
    else (if keep(d[0]) then [d[0]] else []) + Filter(d[1..], keep)
  }

  function Without<K(==), V>(d: Dict<K, V>, key: K): Dict<K, V> {
    Filter(d, (p: Pair<K, V>) => p.key != key)
  }

  // ---- Laws ----

  lemma GetAt<K, V>(d: Dict<K, V>, i: nat)
    requires Distinct(d) && i < |d|
    ensures Find(d, d[i].key) == i && Get(d, d[i].key) == Some(d[i].value)
  {
    assert d[i] in d;
  }

  lemma ConsGet<K, V>(p: Pair<K, V>, d: Dict<K, V>, key: K)
    ensures Find([p] + d, key) == if p.key == key then 0 else 1 + Find(d, key)
    ensures Get([p] + d, key) == if p.key == key then Some(p.value) else Get(d, key)
  {
    assert ([p] + d)[1..] == d;
  }

  lemma PutLaws<K, V>(d: Dict<K, V>, key: K, value: V)
    requires Distinct(d)
    ensures Distinct(Put(d, key, value))
    ensures KeySet(Put(d, key, value)) == KeySet(d) + {key}
    ensures |Put(d, key, value)| == if key in KeySet(d) then |d| else |d| + 1
    ensures forall k :: Get(Put(d, key, value), k) == if k == key then Some(value) else Get(d, k)
  {
    var i, e := Find(d, key), Put(d, key, value);
    assert forall j :: 0 <= j < |d| ==> e[j].key == d[j].key && (j != i ==> e[j] == d[j]);
    assert forall k :: k in KeySet(d) ==> Find(d, k) < |d| && e[Find(d, k)] in e;
    assert i < |e| && e[i] == Pair(key, value) && e[i] in e;
    forall k | k in KeySet(e) ensures k in KeySet(d) + {key} {
      var j := Find(e, k);
      assert j < |d| ==> d[j] in d;
    }
    forall k ensures Get(e, k) == if k == key then Some(value) else Get(d, k) {
      if k == key {
        GetAt(e, i);
      } else if k in KeySet(d) {
        GetAt(e, Find(d, k));
      }
    }
  }

  lemma {:induction false} FilterMember<K, V>(d: Dict<K, V>, keep: Pair<K, V> -> bool, p: Pair<K, V>)
    ensures p in Filter(d, keep) <==> p in d && keep(p)
    decreases |d|
  {
    if d != [] {
      FilterMember(d[1..], keep, p);
      assert d == [d[0]] + d[1..];
    }
  }

  lemma {:induction false} FilterDistinct<K, V>(d: Dict<K, V>, keep: Pair<K, V> -> bool)
    requires Distinct(d)
    ensures Distinct(Filter(d, keep))
    decreases |d|
  {
    if d != [] {
      var rest := Filter(d[1..], keep);
      FilterDistinct(d[1..], keep);
      forall j | 0 <= j < |rest| ensures rest[j].key != d[0].key {
        FilterMember(d[1..], keep, rest[j]);
      }
    }
  }

  lemma FilterLaws<K, V>(d: Dict<K, V>, keep: Pair<K, V> -> bool)
    requires Distinct(d)
    ensures Distinct(Filter(d, keep))
    ensures forall k :: k in KeySet(Filter(d, keep)) <==> k in KeySet(d) && keep(d[Find(d, k)])
    ensures forall k :: k in KeySet(Filter(d, keep)) ==> Get(Filter(d, keep), k) == Get(d, k)
  {
    var e := Filter(d, keep);
    FilterDistinct(d, keep);
    forall k | k in KeySet(e) ensures k in KeySet(d) && keep(d[Find(d, k)]) && Get(e, k) == Get(d, k) {
      var p := e[Find(e, k)];
      FilterMember(d, keep, p);
      var i :| 0 <= i < |d| && d[i] == p;
      GetAt(d, i);
    }
    forall k | k in KeySet(d) && keep(d[Find(d, k)]) ensures k in KeySet(e) {
      FilterMember(d, keep, d[Find(d, k)]);
    }
  }

  lemma WithoutLaws<K, V>(d: Dict<K, V>, key: K)
    requires Distinct(d)
    ensures Distinct(Without(d, key)) && KeySet(Without(d, key)) == KeySet(d) - {key}
    ensures |Without(d, key)| == if key in KeySet(d) then |d| - 1 else |d|
    ensures forall k :: Get(Without(d, key), k) == if k == key then None else Get(d, k)
  {
    FilterLaws(d, (p: Pair<K, V>) => p.key != key);
    WithoutLength(d, key);
    assert forall k :: k in KeySet(d) ==> d[Find(d, k)].key == k;
  }

  lemma WithoutMember<K, V>(d: Dict<K, V>, key: K, p: Pair<K, V>)
    ensures p in Without(d, key) <==> p in d && p.key != key
  {
    FilterMember(d, (q: Pair<K, V>) => q.key != key, p);
  }

  lemma {:induction false} WithoutLength<K, V>(d: Dict<K, V>, key: K)
    requires Distinct(d)
    ensures |Without(d, key)| == if key in KeySet(d) then |d| - 1 else |d|
    decreases |d|
  {
    if d != [] {
      WithoutLength(d[1..], key);
      assert d == [d[0]] + d[1..];
      if d[0].key == key {
        assert forall p :: p in d[1..] ==> p.key != key;
      } else {
        assert key in KeySet(d) <==> key in KeySet(d[1..]);
      }
    }
  }
}
