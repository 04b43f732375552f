/** Python's insertion-ordered `dict`, as the sequence of its items in insertion order. */
module OrderedDict {
  import opened Outcomes

  function KeysOf<K, V>(d: seq<(K, V)>): (ks: seq<K>)
    ensures |ks| == |d|
    ensures forall i :: 0 <= i < |d| ==> ks[i] == d[i].0
  {
    if |d| == 0 then [] else [d[0].0] + KeysOf(d[1..])
  }

  function ValuesOf<K, V>(d: seq<(K, V)>): (vs: seq<V>)
    ensures |vs| == |d|
    ensures forall i :: 0 <= i < |d| ==> vs[i] == d[i].1
  {
    if |d| == 0 then [] else [d[0].1] + ValuesOf(d[1..])
  }

  /** `d[k]`: the value stored under `k`, if any. */
  function Lookup<K(==), V>(d: seq<(K, V)>, k: K): (r: Option<V>)
    ensures r.None? <==> k !in KeysOf(d)
  {
    if |d| == 0 then None
    else if d[0].0 == k then Some(d[0].1)
    else Lookup(d[1..], k)
  }

  /** Position of `k` among the keys, or `|d|` when it is absent. */
  function IndexOfKey<K(==), V>(d: seq<(K, V)>, k: K): (i: nat)
    ensures i <= |d|
    ensures i < |d| ==> d[i].0 == k
    ensures forall j :: 0 <= j < i ==> d[j].0 != k
  {
    if |d| == 0 then 0
    else if d[0].0 == k then 0
    else 1 + IndexOfKey(d[1..], k)
  }

  /** `d[k] = v`: an existing key keeps its place and takes the new value;
      a new key is appended after all others. */
  function Insert<K(==), V>(d: seq<(K, V)>, k: K, v: V): (r: seq<(K, V)>)
    ensures |r| == if k in KeysOf(d) then |d| else |d| + 1
  {
    var i := IndexOfKey(d, k);
    if i == |d| then d + [(k, v)] else d[i := (k, v)]
  }

  /** Assigning to a key the dict lacks appends it last. */
  lemma InsertNew<K, V>(d: seq<(K, V)>, k: K, v: V)
    requires k !in KeysOf(d)
    ensures Insert(d, k, v) == d + [(k, v)]
  {
  }

  /** Assigning to a key keeps the key order, appending the key only when it is new. */
  lemma InsertKeys<K, V>(d: seq<(K, V)>, k: K, v: V)
    ensures KeysOf(Insert(d, k, v)) == if k in KeysOf(d) then KeysOf(d) else KeysOf(d) + [k]
  {
    var r := Insert(d, k, v);
    if IndexOfKey(d, k) < |d| {
      assert KeysOf(r) == KeysOf(d);
    } else {
      assert KeysOf(r) == KeysOf(d) + [k];
    }
  }

  /** After `d[k] = v`, looking up `k` gives `v`. */
  lemma InsertLookupSame<K, V>(d: seq<(K, V)>, k: K, v: V)
    ensures Lookup(Insert(d, k, v), k) == Some(v)
  {
    var r := Insert(d, k, v);
    var i := IndexOfKey(d, k);
    assert i < |r| && r[i] == (k, v);
    assert forall j :: 0 <= j < i ==> r[j].0 != k;
    assert IndexOfKey(r, k) == i;
    LookupFirst(r, k);
  }

  /** `d[k] = v` leaves the value under every other key unchanged. */
  lemma InsertLookupOther<K, V>(d: seq<(K, V)>, k: K, v: V, k': K)
    requires k' != k
    ensures Lookup(Insert(d, k, v), k') == Lookup(d, k')
  {
    var r := Insert(d, k, v);
    var i := IndexOfKey(d, k);
    var c := IndexOfKey(d, k');
    assert forall j :: 0 <= j < |d| && j != i ==> r[j] == d[j];
    assert forall j :: 0 <= j < |r| ==> r[j].0 != k' || (j < |d| && j != i);
    if c < |d| {
      IndexOfKeyExact(r, k', c);
    } else {
      IndexOfKeyExact(r, k', |r|);
    }
    LookupFirst(r, k');
    LookupFirst(d, k');
  }

  /** The first position holding `k`, or the length when none does, is `IndexOfKey`. */
  lemma IndexOfKeyExact<K, V>(d: seq<(K, V)>, k: K, i: nat)
    requires i <= |d|
    requires i < |d| ==> d[i].0 == k
    requires forall j :: 0 <= j < i ==> d[j].0 != k
    ensures IndexOfKey(d, k) == i
  {
  }

  /** `Lookup` finds the first entry whose key matches. */
  lemma {:induction false} LookupFirst<K, V>(d: seq<(K, V)>, k: K)
    ensures var i := IndexOfKey(d, k);
      Lookup(d, k) == if i < |d| then Some(d[i].1) else None
  {
    if |d| > 0 && d[0].0 != k {
      LookupFirst(d[1..], k);
    }
  }
}
