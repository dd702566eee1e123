/** Options, duplicate-free key sequences and the insertion-ordered hash map
    (`hashlink::LinkedHashMap`) on which the recency-based caches are built. */
module LinkedMaps {

  datatype Option<+T> = None | Some(value: T)

  ghost predicate NoDup<K(!new)>(s: seq<K>) {
    forall i, j :: 0 <= i < j < |s| ==> s[i] != s[j]
  }

  /** The sequence with every occurrence of `k` taken out. */
  function Without<K(==, !new)>(s: seq<K>, k: K): (r: seq<K>)
    ensures forall x :: x in r <==> x in s && x != k
    ensures |r| <= |s|
  {
    if s == [] then []
    else if s[0] == k then Without(s[1..], k)
    else [s[0]] + Without(s[1..], k)
  }

  lemma {:induction false} WithoutAbsent<K(!new)>(s: seq<K>, k: K)
    requires k !in s
    ensures Without(s, k) == s
  {
    if s != [] {
      WithoutAbsent(s[1..], k);
    }
  }

  lemma {:induction false} WithoutConcat<K(!new)>(a: seq<K>, b: seq<K>, k: K)
    ensures Without(a + b, k) == Without(a, k) + Without(b, k)
  {
    if a == [] {
      assert a + b == b;
    } else {
      assert (a + b)[1..] == a[1..] + b;
      WithoutConcat(a[1..], b, k);
    }
  }

  lemma {:induction false} WithoutCommutes<K(!new)>(s: seq<K>, k: K, x: K)
    ensures Without(Without(s, k), x) == Without(Without(s, x), k)
  {
    if s != [] {
      WithoutCommutes(s[1..], k, x);
      WithoutConcat([s[0]], Without(s[1..], k), x);
      WithoutConcat([s[0]], Without(s[1..], x), k);
    }
  }

  lemma {:induction false} WithoutNoDup<K(!new)>(s: seq<K>, k: K)
    requires NoDup(s)
    ensures NoDup(Without(s, k))
    ensures |Without(s, k)| == if k in s then |s| - 1 else |s|
  {
    if s != [] {
      WithoutNoDup(s[1..], k);
      assert s[0] !in s[1..];
      assert s[0] !in Without(s[1..], k);
    }
  }

  /** A duplicate-free sequence is as long as the set of its elements. */
  lemma {:induction false} NoDupLength<K(!new)>(s: seq<K>, keys: set<K>)
    requires NoDup(s)
    requires forall k :: k in s <==> k in keys
    ensures |s| == |keys|
  {
    if s == [] {
      assert keys == {};
    } else {
      var rest := s[1..];
      assert s == [s[0]] + rest;
      forall k ensures k in rest <==> k in keys - {s[0]} {
      }
      NoDupLength(rest, keys - {s[0]});
    }
  }

  // Keys listed in the order of their time stamps, all of them below `bound`.
  ghost predicate SortedByUse<K(!new)>(order: seq<K>, used: map<K, nat>, bound: nat) {
    && (forall k :: k in order ==> k in used && used[k] < bound)
    && forall i, j :: 0 <= i < j < |order| ==> used[order[i]] < used[order[j]]
  }

  lemma SortedTail<K(!new)>(order: seq<K>, used: map<K, nat>, bound: nat)
    requires SortedByUse(order, used, bound) && order != []
    ensures SortedByUse(order[1..], used, bound) && order[0] in used && used[order[0]] < bound
    ensures forall x :: x in order[1..] ==> x in used && used[order[0]] < used[x]
  {
    assert order[0] in order;
  }

  lemma SortedCons<K(!new)>(k: K, rest: seq<K>, used: map<K, nat>, bound: nat)
    requires SortedByUse(rest, used, bound) && k in used && used[k] < bound
    requires forall x :: x in rest ==> x in used && used[k] < used[x]
    ensures SortedByUse([k] + rest, used, bound)
  {
  }

  lemma {:induction false} WithoutSorted<K(!new)>(order: seq<K>, used: map<K, nat>, bound: nat, k: K)
    requires SortedByUse(order, used, bound)
    ensures SortedByUse(Without(order, k), used, bound)
  {
    if order != [] {
      SortedTail(order, used, bound);
      var rest := Without(order[1..], k);
      hide SortedByUse;
      WithoutSorted(order[1..], used, bound, k);
      forall x | x in rest ensures used[order[0]] < used[x] {
        assert x in order[1..];
      }
      SortedCons(order[0], rest, used, bound);
    }
  }

  lemma TouchSorted<K(!new)>(order: seq<K>, used: map<K, nat>, bound: nat, k: K)
    requires SortedByUse(order, used, bound)
    ensures SortedByUse(Without(order, k) + [k], used[k := bound], bound + 1)
  {
    WithoutSorted(order, used, bound, k);
    hide Without;
    var w := Without(order, k);
    assert forall i :: 0 <= i < |w| ==> w[i] in w && w[i] != k;
  }

  ghost predicate UsedBefore<K(!new)>(used: map<K, nat>, a: K, b: K) {
    a in used && b in used && used[a] < used[b]
  }

  /** Everything in `small` is in `big`. */
  ghost predicate Submap<K(!new), V>(small: map<K, V>, big: map<K, V>) {
    forall k :: k in small ==> k in big && big[k] == small[k]
  }

  lemma MapSizes<K, V>(m: map<K, V>, k: K, v: V)
    ensures |m[k := v]| == if k in m then |m| else |m| + 1
    ensures |m - {k}| == if k in m then |m| - 1 else |m|
  {
    assert m[k := v].Keys == m.Keys + {k};
    assert (m - {k}).Keys == m.Keys - {k};
  }

  /** The last `n` elements, or all if there are no more. */
  function Newest<K>(s: seq<K>, n: int): seq<K> {
    if |s| <= n then s else if n <= 0 then [] else s[|s| - n..]
  }

  /** `LinkedHashMap`: the front of `order` is the oldest key, the back the newest. */
  datatype LinkedMap<K(==, !new), V> = LinkedMap(order: seq<K>, entries: map<K, V>) {

    ghost predicate Valid() {
      && NoDup(order)
      && forall k :: k in order <==> k in entries
    }

    function Len(): nat { |order| }

    /** Insert or replace; either way the key ends up at the back. */
    function Insert(k: K, v: V): (r: LinkedMap<K, V>)
      ensures Valid() ==> r.Valid()
      ensures Valid() ==> r.Len() == if k in entries then Len() else Len() + 1
    {
      assert Valid() ==> NoDup(Without(order, k)) by {
        if Valid() { WithoutNoDup(order, k); }
      }
      assert Valid() ==> |Without(order, k)| == if k in entries then |order| - 1 else |order| by {
        if Valid() { WithoutNoDup(order, k); }
      }
      LinkedMap(Without(order, k) + [k], entries[k := v])
    }

    function Remove(k: K): (r: LinkedMap<K, V>)
      ensures Valid() ==> r.Valid()
      ensures Valid() ==> r.Len() == if k in entries then Len() - 1 else Len()
    {
      assert Valid() ==> NoDup(Without(order, k)) by {
        if Valid() { WithoutNoDup(order, k); }
      }
      assert Valid() ==> |Without(order, k)| == if k in entries then |order| - 1 else |order| by {
        if Valid() { WithoutNoDup(order, k); }
      }
      LinkedMap(Without(order, k), entries - {k})
    }

    function PopFront(): (r: LinkedMap<K, V>)
      requires order != []
      ensures Valid() ==> r.Valid() && order[0] in entries
    {
      assert forall k :: k in order <==> k == order[0] || k in order[1..];
      LinkedMap(order[1..], entries - {order[0]})
    }
  }

  function EmptyLinked<K(==, !new), V>(): (r: LinkedMap<K, V>)
    ensures r.Valid() && r.Len() == 0 && r.entries == map[]
  {
    LinkedMap([], map[])
  }
}
