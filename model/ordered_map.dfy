/** A JavaScript `Map` (or a Rust `HashMap` built from a list): a sequence of
    key/value entries with distinct keys, kept in insertion order.
    `set` on a present key replaces the value in its old position;
    `set` on a new key appends; `delete` removes the entry. */
module OrderedMap {
  import opened Wrappers

  type Entries<K, V> = seq<(K, V)>

  predicate DistinctKeys<K(==, !new), V>(m: Entries<K, V>) {
    forall i, j :: 0 <= i < j < |m| ==> m[i].0 != m[j].0
  }

  function Keys<K, V>(m: Entries<K, V>): (r: seq<K>)
    ensures |r| == |m| && forall i :: 0 <= i < |m| ==> r[i] == m[i].0
  {
    if |m| == 0 then [] else [m[0].0] + Keys(m[1..])
  }

  predicate Has<K(==, !new), V>(m: Entries<K, V>, k: K) {
    exists i :: 0 <= i < |m| && m[i].0 == k
  }

  /** `map.get(k)`: the value of the first entry with key `k`. */
  function Get<K(==, !new), V>(m: Entries<K, V>, k: K): (r: Option<V>)
    ensures r.None? <==> !Has(m, k)
    ensures r.Some? ==> exists i :: 0 <= i < |m| && m[i] == (k, r.value)
  {
    if |m| == 0 then None
    else if m[0].0 == k then Some(m[0].1)
    else
      var r := Get(m[1..], k);
      assert r.Some? ==> exists i :: 0 <= i < |m[1..]| && m[1..][i] == (k, r.value);
      assert Has(m[1..], k) ==> Has(m, k);
      assert Has(m, k) && m[0].0 != k ==> Has(m[1..], k) by {
        if Has(m, k) && m[0].0 != k {
          var i :| 0 <= i < |m| && m[i].0 == k;
          assert m[1..][i - 1].0 == k;
        }
      }
      r
  }

  /** `map.set(k, v)` */
  function Set<K(==, !new), V>(m: Entries<K, V>, k: K, v: V): (r: Entries<K, V>)
    ensures Get(r, k) == Some(v)
    ensures forall k' :: k' != k ==> Get(r, k') == Get(m, k')
    ensures Has(m, k) ==> |r| == |m| && forall i :: 0 <= i < |m| ==> r[i].0 == m[i].0
    ensures !Has(m, k) ==> r == m + [(k, v)]
    ensures forall e :: e in r ==> e == (k, v) || e in m
  {
    if |m| == 0 then [(k, v)]
    else if m[0].0 == k then [(k, v)] + m[1..]
    else
      var rest := Set(m[1..], k, v);
      HasTail(m, k);
      [m[0]] + rest
  }

  lemma HasTail<K(!new), V>(m: Entries<K, V>, k: K)
    requires |m| > 0 && m[0].0 != k
    ensures Has(m, k) <==> Has(m[1..], k)
  {
    if Has(m, k) {
      var i :| 0 <= i < |m| && m[i].0 == k;
      assert m[1..][i - 1].0 == k;
    }
    if Has(m[1..], k) {
      var i :| 0 <= i < |m[1..]| && m[1..][i].0 == k;
      assert m[i + 1].0 == k;
    }
  }

  /** With distinct keys, the value found for an entry's key is that entry's value. */
  lemma GetAt<K(!new), V>(m: Entries<K, V>, i: nat)
    requires DistinctKeys(m) && i < |m|
    ensures Get(m, m[i].0) == Some(m[i].1)
  {
    assert Has(m, m[i].0);
    var j :| 0 <= j < |m| && m[j] == (m[i].0, Get(m, m[i].0).value);
    assert j == i;
  }

  /** Setting a key keeps the keys distinct. */
  lemma {:induction false} SetDistinct<K(!new), V>(m: Entries<K, V>, k: K, v: V)
    requires DistinctKeys(m)
    ensures DistinctKeys(Set(m, k, v))
  {
    if |m| > 0 && m[0].0 != k {
      DistinctTail(m);
      SetDistinct(m[1..], k, v);
      var rest := Set(m[1..], k, v);
      assert Get(rest, m[0].0) == Get(m[1..], m[0].0);
      hide Set, Get, DistinctKeys;
      assert Set(m, k, v) == [m[0]] + rest;
      DistinctCons(m[0], rest);
    }
  }

  /** The tail of a map with distinct keys has distinct keys and lacks the head's key. */
  lemma DistinctTail<K(!new), V>(m: Entries<K, V>)
    requires DistinctKeys(m) && |m| > 0
    ensures DistinctKeys(m[1..]) && !Has(m[1..], m[0].0)
  {
    forall i | 0 <= i < |m[1..]| ensures m[1..][i].0 != m[0].0 {
      assert m[1..][i] == m[i + 1];
    }
  }

  /** Putting an entry with a new key in front keeps the keys distinct. */
  lemma DistinctCons<K(!new), V>(e: (K, V), m: Entries<K, V>)
    requires DistinctKeys(m) && !Has(m, e.0)
    ensures DistinctKeys([e] + m)
  {
    var r := [e] + m;
    forall i, j | 0 <= i < j < |r| ensures r[i].0 != r[j].0 {
      if i == 0 {
        assert r[j] == m[j - 1];
      } else {
        assert r[i] == m[i - 1] && r[j] == m[j - 1];
      }
    }
  }

  /** `map.delete(k)` */
  function Delete<K(==, !new), V>(m: Entries<K, V>, k: K): (r: Entries<K, V>)
    ensures !Has(r, k)
    ensures forall k' :: k' != k ==> Get(r, k') == Get(m, k')
    ensures |r| <= |m|
    ensures DistinctKeys(m) ==> DistinctKeys(r)
    ensures DistinctKeys(m) && Has(m, k) ==> |r| == |m| - 1
    ensures !Has(m, k) ==> r == m
    ensures forall e :: e in r ==> e in m
  {
    if |m| == 0 then []
    else if m[0].0 == k then Delete(m[1..], k)
    else
      var rest := Delete(m[1..], k);
      assert DistinctKeys(m) ==> !Has(rest, m[0].0) by {
        if DistinctKeys(m) {
          assert !Has(m[1..], m[0].0);
          assert Get(rest, m[0].0) == Get(m[1..], m[0].0);
        }
      }
      [m[0]] + rest
  }

  /** `new Map(entries)` or `entries.into_iter().collect::<HashMap<_, _>>()`:
      entries are set one after another, so a later duplicate key wins. */
  function FromList<K(==, !new), V>(entries: seq<(K, V)>): (r: Entries<K, V>)
    ensures DistinctKeys(r)
  {
    FromListInto([], entries)
  }

  function FromListInto<K(==, !new), V>(acc: Entries<K, V>, entries: seq<(K, V)>): (r: Entries<K, V>)
    requires DistinctKeys(acc)
    ensures DistinctKeys(r)
    decreases |entries|
  {
    if |entries| == 0 then acc
    else
      SetDistinct(acc, entries[0].0, entries[0].1);
      FromListInto(Set(acc, entries[0].0, entries[0].1), entries[1..])
  }

  /** The value `FromList` keeps for a key is the one of its LAST entry in the list. */
  lemma {:induction false} FromListIntoLastWins<K(!new), V>(acc: Entries<K, V>, entries: seq<(K, V)>, i: nat)
    requires DistinctKeys(acc)
    requires i < |entries|
    requires forall j :: i < j < |entries| ==> entries[j].0 != entries[i].0
    ensures Get(FromListInto(acc, entries), entries[i].0) == Some(entries[i].1)
    decreases |entries|
  {
    hide *;
    FromListIntoStep(acc, entries);
    var acc' := Set(acc, entries[0].0, entries[0].1);
    var rest := entries[1..];
    if i == 0 {
      forall j | 0 <= j < |rest| ensures rest[j].0 != entries[0].0 {
        assert rest[j] == entries[j + 1];
      }
      FromListIntoKeeps(acc', rest, entries[0].0);
    } else {
      assert rest[i - 1] == entries[i];
      forall j | i - 1 < j < |rest| ensures rest[j].0 != rest[i - 1].0 {
        assert rest[j] == entries[j + 1];
      }
      FromListIntoLastWins(acc', rest, i - 1);
    }
  }

  /** Keys that no later entry mentions keep the value they had. */
  lemma {:induction false} FromListIntoKeeps<K(!new), V>(acc: Entries<K, V>, entries: seq<(K, V)>, k: K)
    requires DistinctKeys(acc)
    requires forall j :: 0 <= j < |entries| ==> entries[j].0 != k
    ensures Get(FromListInto(acc, entries), k) == Get(acc, k)
    decreases |entries|
  {
    if |entries| > 0 {
      hide *;
      FromListIntoStep(acc, entries);
      assert entries[0].0 != k;
      forall j | 0 <= j < |entries[1..]| ensures entries[1..][j].0 != k {
        assert entries[1..][j] == entries[j + 1];
      }
      FromListIntoKeeps(Set(acc, entries[0].0, entries[0].1), entries[1..], k);
    }
  }

  /** One unfolding of `FromListInto`. */
  lemma FromListIntoStep<K(!new), V>(acc: Entries<K, V>, entries: seq<(K, V)>)
    requires DistinctKeys(acc) && |entries| > 0
    ensures DistinctKeys(Set(acc, entries[0].0, entries[0].1))
    ensures FromListInto(acc, entries) == FromListInto(Set(acc, entries[0].0, entries[0].1), entries[1..])
  {
    SetDistinct(acc, entries[0].0, entries[0].1);
  }

  /** A key of no entry is absent from `FromList`. */
  lemma FromListAbsent<K(!new), V>(entries: seq<(K, V)>, k: K)
    requires forall j :: 0 <= j < |entries| ==> entries[j].0 != k
    ensures Get(FromList(entries), k) == None
  {
    FromListIntoKeeps([], entries, k);
  }

  /** `FromList` keeps the value of the last entry of each key. */
  lemma FromListLastWins<K(!new), V>(entries: seq<(K, V)>, i: nat)
    requires i < |entries|
    requires forall j :: i < j < |entries| ==> entries[j].0 != entries[i].0
    ensures Get(FromList(entries), entries[i].0) == Some(entries[i].1)
  {
    FromListIntoLastWins([], entries, i);
  }
}
