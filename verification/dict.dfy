/** Python's insertion-ordered `dict`, as a sequence of entries with distinct keys. */
module Dict {
  import opened Wrappers

  datatype Entry<K, V> = Entry(key: K, value: V)

  function Keys<K, V>(d: seq<Entry<K, V>>): (ks: seq<K>)
    ensures |ks| == |d|
    ensures forall i :: 0 <= i < |d| ==> ks[i] == d[i].key
  {
    if |d| == 0 then [] else Keys(d[..|d| - 1]) + [d[|d| - 1].key]
  }

  predicate DistinctKeys<K(==), V>(d: seq<Entry<K, V>>) {
    forall i, j :: 0 <= i < j < |d| ==> d[i].key != d[j].key
  }

  predicate HasKey<K(==), V>(d: seq<Entry<K, V>>, k: K) {
    exists i :: 0 <= i < |d| && d[i].key == k
  }

  function KeySet<K, V>(d: seq<Entry<K, V>>): set<K> {
    set i | 0 <= i < |d| :: d[i].key
  }

  /** `d.get(k)`: the value of the entry with key `k`. */
  function Get<K(==), V>(d: seq<Entry<K, V>>, k: K): (r: Option<V>)
    ensures r.None? <==> !HasKey(d, k)
    ensures r.Some? ==> exists i :: 0 <= i < |d| && d[i] == Entry(k, r.value)
  {
    if |d| == 0 then None
    else if d[0].key == k then Some(d[0].value)
    else Get(d[1..], k)
  }

  lemma GetAt<K, V>(d: seq<Entry<K, V>>, i: int)
    requires DistinctKeys(d)
    requires 0 <= i < |d|
    ensures Get(d, d[i].key) == Some(d[i].value)
  {
    if i > 0 {
      GetAt(d[1..], i - 1);
    }
  }

  /** The position of the entry with key `k`. */
  function Position<K(==), V>(d: seq<Entry<K, V>>, k: K): (r: Option<nat>)
    ensures r.None? <==> !HasKey(d, k)
    ensures r.Some? ==> r.value < |d| && d[r.value].key == k
  {
    if |d| == 0 then None
    else if d[|d| - 1].key == k then Some(|d| - 1)
    else Position(d[..|d| - 1], k)
  }

  /** `d[k] = v`: an existing key keeps its position and takes the new value; a new key is appended. */
  function Set<K(==), V>(d: seq<Entry<K, V>>, k: K, v: V): (r: seq<Entry<K, V>>)
    ensures |r| == if HasKey(d, k) then |d| else |d| + 1
    ensures forall i :: 0 <= i < |d| ==> r[i].key == d[i].key
    ensures !HasKey(d, k) ==> r[|d|] == Entry(k, v)
    ensures forall i :: 0 <= i < |d| && d[i].key != k ==> r[i] == d[i]
    ensures DistinctKeys(d) ==> forall i :: 0 <= i < |r| && r[i].key == k ==> r[i].value == v
    ensures DistinctKeys(d) ==> DistinctKeys(r)
  {
    match Position(d, k)
    case Some(i) => d[i := Entry(k, v)]
    case None => d + [Entry(k, v)]
  }

  /** `d[k] = v` leaves the key order alone, or appends `k` when it is new. */
  lemma KeysOfSet<K, V>(d: seq<Entry<K, V>>, k: K, v: V)
    ensures Keys(Set(d, k, v)) == if HasKey(d, k) then Keys(d) else Keys(d) + [k]
  {
    var r := Set(d, k, v);
    var ks := if HasKey(d, k) then Keys(d) else Keys(d) + [k];
    assert |Keys(r)| == |ks|;
    forall i | 0 <= i < |ks| ensures Keys(r)[i] == ks[i] {
      if i < |d| {
        assert Keys(r)[i] == r[i].key == d[i].key == Keys(d)[i];
      }
    }
  }

  /** `d[k] = v` adds key `k` and no other. */
  lemma HasKeySet<K, V>(d: seq<Entry<K, V>>, k: K, v: V, k': K)
    ensures HasKey(Set(d, k, v), k') <==> k' == k || HasKey(d, k')
  {
    var r := Set(d, k, v);
    if HasKey(r, k') {
      var i :| 0 <= i < |r| && r[i].key == k';
      if i < |d| {
        assert d[i].key == k';
      }
    }
    if HasKey(d, k') {
      var i :| 0 <= i < |d| && d[i].key == k';
      assert r[i].key == k';
    } else if k' == k {
      assert r[|d|].key == k;
    }
  }

  /** `if k not in d: d[k] = v`: the first value stored under a key is never replaced. */
  function SetIfAbsent<K(==), V>(d: seq<Entry<K, V>>, k: K, v: V): (r: seq<Entry<K, V>>)
    ensures HasKey(d, k) ==> r == d
    ensures !HasKey(d, k) ==> r == d + [Entry(k, v)]
  {
    if HasKey(d, k) then d else d + [Entry(k, v)]
  }

  lemma KeySetOfKeys<K, V>(d: seq<Entry<K, V>>, k: K)
    ensures k in KeySet(d) <==> HasKey(d, k)
  {
    if HasKey(d, k) {
      var i :| 0 <= i < |d| && d[i].key == k;
      assert d[i].key in KeySet(d);
    }
  }

  /** Appending an entry changes the lookup of its own key only, and only when the key was absent. */
  lemma {:induction false} GetAppend<K, V>(d: seq<Entry<K, V>>, e: Entry<K, V>, k: K)
    ensures Get(d + [e], k) == if HasKey(d, k) then Get(d, k) else if e.key == k then Some(e.value) else None
    decreases |d|
  {
    if |d| > 0 {
      assert (d + [e])[1..] == d[1..] + [e];
      GetAppend(d[1..], e, k);
      if d[0].key != k {
        assert HasKey(d, k) <==> HasKey(d[1..], k) by {
          if HasKey(d, k) {
            var i :| 0 <= i < |d| && d[i].key == k;
            assert d[1..][i - 1].key == k;
          }
          if HasKey(d[1..], k) {
            var i :| 0 <= i < |d[1..]| && d[1..][i].key == k;
            assert d[i + 1].key == k;
          }
        }
      }
    } else {
      assert [] + [e] == [e];
    }
  }

  /** After `d[k] = v` the key reads back `v`, and every other key reads as before. */
  lemma GetSet<K, V>(d: seq<Entry<K, V>>, k: K, v: V, k': K)
    requires DistinctKeys(d)
    ensures Get(Set(d, k, v), k') == if k' == k then Some(v) else Get(d, k')
  {
    var r := Set(d, k, v);
    HasKeySet(d, k, v, k');
    if k' == k {
      var i :| 0 <= i < |r| && r[i].key == k;
      GetAt(r, i);
    } else if HasKey(d, k') {
      var i :| 0 <= i < |d| && d[i].key == k';
      GetAt(d, i);
      GetAt(r, i);
    }
  }

  /** `d[k] = v` for each entry in turn, starting from `{}`. */
  function FromEntries<K(==), V>(es: seq<Entry<K, V>>): (r: seq<Entry<K, V>>)
    ensures DistinctKeys(r)
  {
    if |es| == 0 then [] else Set(FromEntries(es[..|es| - 1]), es[|es| - 1].key, es[|es| - 1].value)
  }

  lemma HasKeyAppend<K, V>(d: seq<Entry<K, V>>, e: Entry<K, V>, k: K)
    ensures HasKey(d + [e], k) <==> HasKey(d, k) || e.key == k
  {
    var r := d + [e];
    assert r[|d|] == e;
    if HasKey(d, k) {
      var i :| 0 <= i < |d| && d[i].key == k;
      assert r[i] == d[i];
    }
    if HasKey(r, k) && e.key != k {
      var i :| 0 <= i < |r| && r[i].key == k;
      assert d[i] == r[i];
    }
  }

  /** The keys stored are exactly the keys of the entries. */
  lemma {:induction false} FromEntriesKeys<K, V>(es: seq<Entry<K, V>>, k: K)
    ensures HasKey(FromEntries(es), k) <==> HasKey(es, k)
    decreases |es|
  {
    if |es| > 0 {
      var init := es[..|es| - 1];
      var e := es[|es| - 1];
      FromEntriesKeys(init, k);
      HasKeySet(FromEntries(init), e.key, e.value, k);
      assert es == init + [e];
      HasKeyAppend(init, e, k);
    }
  }

  /** A key holds the value of its last entry. */
  lemma {:induction false} FromEntriesLastWins<K, V>(es: seq<Entry<K, V>>, i: int)
    requires 0 <= i < |es|
    requires forall j :: i < j < |es| ==> es[j].key != es[i].key
    ensures Get(FromEntries(es), es[i].key) == Some(es[i].value)
    decreases |es|
  {
    var init := es[..|es| - 1];
    GetSet(FromEntries(init), es[|es| - 1].key, es[|es| - 1].value, es[i].key);
    if i < |es| - 1 {
      assert init[i] == es[i];
      FromEntriesLastWins(init, i);
    }
  }
}
