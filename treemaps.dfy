/** A TreeMap from integer keys to lists, as Collectors.groupingBy(classifier,
    TreeMap::new, Collectors.toList()) builds it: `keys` is the map's ascending
    iteration order and `entries` the list stored under each key. */
module TreeMaps {
  import opened Streams

  datatype TreeMap<V> = TreeMap(keys: seq<int>, entries: map<int, seq<V>>)

  predicate StrictlyAscending(s: seq<int>)
  {
    forall i, j :: 0 <= i < j < |s| ==> s[i] < s[j]
  }

  /** A TreeMap iterates its keys in strictly ascending order, and iterates exactly the keys it holds. */
  predicate Valid<V>(t: TreeMap<V>)
  {
    && StrictlyAscending(t.keys)
    && (forall i :: 0 <= i < |t.keys| ==> t.keys[i] in t.entries)
    && (forall k :: k in t.entries ==> k in t.keys)
  }

  /** The ascending key order after a new key is put into the tree. */
  function InsertKey(keys: seq<int>, k: int): (r: seq<int>)
    requires StrictlyAscending(keys) && k !in keys
    ensures StrictlyAscending(r)
    ensures forall x :: x in r <==> x in keys || x == k
    ensures (forall i :: 0 <= i < |keys| ==> keys[i] < k) ==> r == keys + [k]
  {
    if keys == [] || k < keys[0] then [k] + keys
    else
      var rest := InsertKey(keys[1..], k);
      assert forall i :: 0 <= i < |rest| ==> keys[0] < rest[i] by {
        forall i | 0 <= i < |rest|
          ensures keys[0] < rest[i]
        {
          assert rest[i] in rest;
        }
      }
      [keys[0]] + rest
  }

  /** The groupingBy accumulator: computeIfAbsent(k, new list).add(v). */
  function Accumulate<V>(t: TreeMap<V>, k: int, v: V): (r: TreeMap<V>)
    requires Valid(t)
    ensures Valid(r)
    ensures r.entries.Keys == t.entries.Keys + {k}
    ensures r.entries[k] == (if k in t.entries then t.entries[k] else []) + [v]
    ensures forall j :: j in t.entries && j != k ==> r.entries[j] == t.entries[j]
    ensures k in t.entries ==> r.keys == t.keys
  {
    if k in t.entries then TreeMap(t.keys, t.entries[k := t.entries[k] + [v]])
    else
      var keys := InsertKey(t.keys, k);
      assert forall i :: 0 <= i < |keys| ==> keys[i] in keys;
      TreeMap(keys, t.entries[k := [v]])
  }

  /** Collectors.groupingBy into a TreeMap: the accumulator folded over `s` in encounter order. */
  function GroupingBy<V>(s: seq<V>, key: V -> int): (r: TreeMap<V>)
    ensures Valid(r)
    ensures forall k :: k in r.entries <==> exists i :: 0 <= i < |s| && key(s[i]) == k
  {
    if s == [] then TreeMap([], map[])
    else
      var t := GroupingBy(s[..|s| - 1], key);
      assert forall i :: 0 <= i < |s| - 1 ==> s[..|s| - 1][i] == s[i];
      Accumulate(t, key(s[|s| - 1]), s[|s| - 1])
  }

  /** The elements of `s` whose key is `k`, in encounter order. */
  function GroupOf<V>(s: seq<V>, key: V -> int, k: int): (r: seq<V>)
    ensures forall i :: 0 <= i < |r| ==> r[i] in s && key(r[i]) == k
    ensures forall i :: 0 <= i < |s| && key(s[i]) == k ==> s[i] in r
  {
    Filter(v => key(v) == k, s)
  }

  /** A group lists its elements in the order they had in `s`. */
  lemma GroupOfKeepsOrder<V>(s: seq<V>, key: V -> int, k: int, before: (V, V) -> bool)
    requires forall i, j :: 0 <= i < j < |s| ==> before(s[i], s[j])
    ensures forall i, j :: 0 <= i < j < |GroupOf(s, key, k)| ==> before(GroupOf(s, key, k)[i], GroupOf(s, key, k)[j])
  {
    FilterKeepsOrder((v: V) => key(v) == k, s, before);
  }

  /** Every list of a grouping holds exactly the elements with its key, in encounter order. */
  lemma {:induction false} GroupingByLists<V>(s: seq<V>, key: V -> int)
    ensures forall k :: k in GroupingBy(s, key).entries ==> GroupingBy(s, key).entries[k] == GroupOf(s, key, k)
  {
    if s != [] {
      var s', v := s[..|s| - 1], s[|s| - 1];
      assert s == s' + [v];
      GroupingByLists(s', key);
      var t, r := GroupingBy(s', key), GroupingBy(s, key);
      forall k | k in r.entries
        ensures r.entries[k] == GroupOf(s, key, k)
      {
        var p := (x: V) => key(x) == k;
        FilterAppend(p, s', [v]);
        assert Filter(p, [v]) == if p(v) then [v] else [];
        if k !in t.entries {
          assert forall i :: 0 <= i < |s'| ==> !p(s'[i]);
          FilterNone(p, s');
        }
      }
    }
  }

  /** The group of a concatenation is the concatenation of the groups. */
  lemma GroupOfAppend<V>(a: seq<V>, b: seq<V>, key: V -> int, k: int)
    ensures GroupOf(a + b, key, k) == GroupOf(a, key, k) + GroupOf(b, key, k)
  {
    FilterAppend((v: V) => key(v) == k, a, b);
  }

  /** In a sequence whose elements all have key `k0`, the group of `k0` is everything
      and every other group is empty. */
  lemma GroupOfUniform<V>(s: seq<V>, key: V -> int, k: int, k0: int)
    requires forall i :: 0 <= i < |s| ==> key(s[i]) == k0
    ensures GroupOf(s, key, k) == if k == k0 then s else []
  {
    if k == k0 {
      FilterAll((v: V) => key(v) == k, s);
    } else {
      FilterNone((v: V) => key(v) == k, s);
    }
  }

  /** The lists of `entries` under `keys`, concatenated in key order. */
  function Values<V>(keys: seq<int>, entries: map<int, seq<V>>): seq<V>
    requires forall i :: 0 <= i < |keys| ==> keys[i] in entries
  {
    if keys == [] then [] else Values(keys[..|keys| - 1], entries) + entries[keys[|keys| - 1]]
  }

  /** Every stored value, visited as the caller's nested for loops visit them: keys
      in ascending order, each key's list in order. */
  function Flatten<V>(t: TreeMap<V>): seq<V>
    requires Valid(t)
  {
    Values(t.keys, t.entries)
  }

  lemma {:induction false} ValuesAgree<V>(keys: seq<int>, e1: map<int, seq<V>>, e2: map<int, seq<V>>)
    requires forall i :: 0 <= i < |keys| ==> keys[i] in e1 && keys[i] in e2 && e1[keys[i]] == e2[keys[i]]
    ensures Values(keys, e1) == Values(keys, e2)
  {
    if keys != [] {
      ValuesAgree(keys[..|keys| - 1], e1, e2);
    }
  }

  /** Adding a value under the greatest key present appends it to the iteration. */
  lemma AccumulateLastKey<V>(t: TreeMap<V>, k: int, v: V)
    requires Valid(t) && |t.keys| > 0 && t.keys[|t.keys| - 1] == k
    ensures Flatten(Accumulate(t, k, v)) == Flatten(t) + [v]
  {
    var r, n := Accumulate(t, k, v), |t.keys|;
    var front := t.keys[..n - 1];
    forall i | 0 <= i < |front|
      ensures front[i] in t.entries && front[i] in r.entries && t.entries[front[i]] == r.entries[front[i]]
    {
      assert t.keys[i] < t.keys[n - 1];
    }
    ValuesAgree(front, t.entries, r.entries);
  }

  /** Adding a value under a new key greater than every key present appends it to the iteration. */
  lemma AccumulateNewKey<V>(t: TreeMap<V>, k: int, v: V)
    requires Valid(t) && forall i :: 0 <= i < |t.keys| ==> t.keys[i] < k
    ensures Flatten(Accumulate(t, k, v)) == Flatten(t) + [v]
  {
    var r, n := Accumulate(t, k, v), |t.keys|;
    assert k !in t.entries;
    assert r.keys == t.keys + [k];
    assert r.entries == t.entries[k := [v]];
    forall i | 0 <= i < n
      ensures t.keys[i] in t.entries && t.keys[i] in r.entries && t.entries[t.keys[i]] == r.entries[t.keys[i]]
    {
      assert t.keys[i] != k;
    }
    ValuesAgree(t.keys, t.entries, r.entries);
    assert r.keys[..n] == t.keys;
    assert Flatten(r) == Values(r.keys[..n], r.entries) + [v];
  }

  /** Adding a value under a key no smaller than any key present appends it to the iteration. */
  lemma AccumulateLast<V>(t: TreeMap<V>, k: int, v: V)
    requires Valid(t)
    requires forall j :: j in t.entries ==> j <= k
    ensures Flatten(Accumulate(t, k, v)) == Flatten(t) + [v]
  {
    var n := |t.keys|;
    if k in t.entries {
      assert t.keys[n - 1] in t.entries;
      AccumulateLastKey(t, k, v);
    } else {
      forall i | 0 <= i < n
        ensures t.keys[i] < k
      {
        assert t.keys[i] in t.entries;
      }
      AccumulateNewKey(t, k, v);
    }
  }

  /** When the keys of `s` never decrease, iterating the grouping gives back `s`:
      nothing is lost, duplicated or reordered. */
  lemma {:induction false} GroupingByFlatten<V>(s: seq<V>, key: V -> int)
    requires forall i, j :: 0 <= i < j < |s| ==> key(s[i]) <= key(s[j])
    ensures Flatten(GroupingBy(s, key)) == s
  {
    if s != [] {
      var s', v := s[..|s| - 1], s[|s| - 1];
      assert s == s' + [v];
      GroupingByFlatten(s', key);
      var t := GroupingBy(s', key);
      forall j | j in t.entries
        ensures j <= key(v)
      {
        var i :| 0 <= i < |s'| && key(s'[i]) == j;
        assert s'[i] == s[i];
      }
      AccumulateLast(t, key(v), v);
    }
  }
}
