/** A directory without lists: each key carries the shelf it stands on and the moment it was put there, and
    the oldest key of a shelf is searched for.  The linked lists of the caches are compared with it. */
module Shelves {
  import opened LinkedMaps

  datatype Slot<L, E> = Slot(shelf: L, item: E, since: nat)

  ghost predicate Earlier<K(!new), L, E>(dir: map<K, Slot<L, E>>, a: K, b: K) {
    a in dir && b in dir && dir[a].since < dir[b].since
  }

  ghost predicate IsOldest<K(!new), L, E>(dir: map<K, Slot<L, E>>, l: L, v: K) {
    v in dir && dir[v].shelf == l && forall j :: j in dir && dir[j].shelf == l && j != v ==> Earlier(dir, v, j)
  }

  ghost function Oldest<K(!new), L, E>(dir: map<K, Slot<L, E>>, l: L): (r: Option<K>)
    ensures r.Some? ==> IsOldest(dir, l, r.value)
  {
    if v :| IsOldest(dir, l, v) then Some(v) else None
  }

  ghost function On<K(!new), L, E>(dir: map<K, Slot<L, E>>, l: L): set<K> {
    set k | k in dir && dir[k].shelf == l
  }

  /** The clock is ahead of every stamp. */
  ghost predicate Stamped<K(!new), L, E>(dir: map<K, Slot<L, E>>, clock: nat) {
    forall k :: k in dir ==> dir[k].since < clock
  }

  /** The sequence lists the shelf, oldest first. */
  ghost predicate Lists<K(!new), L, E>(order: seq<K>, dir: map<K, Slot<L, E>>, l: L) {
    && NoDup(order)
    && (forall k :: k in order <==> k in dir && dir[k].shelf == l)
    && forall i, j :: 0 <= i < j < |order| ==> Earlier(dir, order[i], order[j])
  }

  lemma OldestListed<K(!new), L, E>(order: seq<K>, dir: map<K, Slot<L, E>>, l: L)
    requires Lists(order, dir, l)
    ensures Oldest(dir, l) == if order == [] then None else Some(order[0])
  {
    if order != [] {
      var v := order[0];
      assert v in order;
      forall j | j in dir && dir[j].shelf == l && j != v ensures Earlier(dir, v, j) {
        var i :| 0 <= i < |order| && order[i] == j;
        assert 0 < i;
      }
      assert IsOldest(dir, l, v);
    }
  }

  lemma CountListed<K(!new), L, E>(order: seq<K>, dir: map<K, Slot<L, E>>, l: L)
    requires Lists(order, dir, l)
    ensures |On(dir, l)| == |order|
  {
    NoDupLength(order, On(dir, l));
  }

  // Order among the remaining keys survives taking one out.
  ghost predicate InStampOrder<K(!new), L, E>(order: seq<K>, dir: map<K, Slot<L, E>>) {
    forall i, j :: 0 <= i < j < |order| ==> Earlier(dir, order[i], order[j])
  }

  lemma {:induction false} WithoutInOrder<K(!new), L, E>(order: seq<K>, dir: map<K, Slot<L, E>>, k: K)
    requires InStampOrder(order, dir)
    ensures InStampOrder(Without(order, k), dir)
  {
    if order != [] {
      var rest := Without(order[1..], k);
      WithoutInOrder(order[1..], dir, k);
      forall j | 0 <= j < |rest| ensures Earlier(dir, order[0], rest[j]) {
        assert rest[j] in order[1..];
        var i :| 0 <= i < |order[1..]| && order[1..][i] == rest[j];
        assert Earlier(dir, order[0], order[i + 1]);
      }
      hide InStampOrder;
      ConsInOrder(order[0], rest, dir);
    }
  }

  lemma ConsInOrder<K(!new), L, E>(k: K, rest: seq<K>, dir: map<K, Slot<L, E>>)
    requires InStampOrder(rest, dir) && forall j :: 0 <= j < |rest| ==> Earlier(dir, k, rest[j])
    ensures InStampOrder([k] + rest, dir)
  {
  }

  /** A key that leaves the directory leaves its list. */
  lemma TakeListed<K(!new), L, E>(order: seq<K>, dir: map<K, Slot<L, E>>, l: L, k: K)
    requires Lists(order, dir, l)
    ensures Lists(Without(order, k), dir - {k}, l)
  {
    WithoutNoDup(order, k);
    assert InStampOrder(order, dir);
    WithoutInOrder(order, dir, k);
    var w := Without(order, k);
    hide Without;
    assert forall i :: 0 <= i < |w| ==> w[i] in w && w[i] != k;
  }

  /** A key put on a shelf with the newest stamp is last there and nowhere else. */
  lemma PlaceListed<K(!new), L, E>(order: seq<K>, dir: map<K, Slot<L, E>>, l: L, k: K, to: L, item: E, clock: nat)
    requires Lists(order, dir, l) && Stamped(dir, clock)
    ensures var placed := dir[k := Slot(to, item, clock)];
            Stamped(placed, clock + 1) &&
            Lists(if l == to then Without(order, k) + [k] else Without(order, k), placed, l)
  {
    var placed, w := dir[k := Slot(to, item, clock)], Without(order, k);
    TakeListed(order, dir, l, k);
    assert forall i :: 0 <= i < |w| ==> w[i] in w && w[i] != k && w[i] in dir;
    hide Without;
    assert InStampOrder(w, placed) && NoDup(w);
    if l == to { SnocListed(w, placed, l, k); }
  }

  lemma SnocListed<K(!new), L, E>(w: seq<K>, dir: map<K, Slot<L, E>>, l: L, k: K)
    requires NoDup(w) && InStampOrder(w, dir) && k in dir && dir[k].shelf == l && k !in w
    requires forall x :: x in w <==> x in dir && dir[x].shelf == l && x != k
    requires forall x :: x in w ==> Earlier(dir, x, k)
    ensures Lists(w + [k], dir, l)
  {
    assert forall i :: 0 <= i < |w| ==> w[i] in w;
  }

  lemma FrontWithout<K(!new)>(order: seq<K>)
    requires NoDup(order) && order != []
    ensures Without(order, order[0]) == order[1..]
  {
    WithoutAbsent(order[1..], order[0]);
  }

  // ---------------------------------------------------------------------
  // Linked maps
  // ---------------------------------------------------------------------

  /** The linked map holds the shelf, keys and items. */
  ghost predicate Holds<K(!new), L, E>(m: LinkedMap<K, E>, dir: map<K, Slot<L, Option<E>>>, l: L) {
    && m.Valid() && Lists(m.order, dir, l)
    && forall k :: k in m.entries ==> k in dir && dir[k].item == Some(m.entries[k])
  }

  lemma RemoveAbsent<K(!new), E>(m: LinkedMap<K, E>, k: K)
    requires m.Valid() && k !in m.entries
    ensures m.Remove(k) == m
  {
    WithoutAbsent(m.order, k);
    assert m.entries - {k} == m.entries;
  }

  lemma PopIsRemove<K(!new), E>(m: LinkedMap<K, E>)
    requires m.Valid() && m.order != []
    ensures m.PopFront() == m.Remove(m.order[0])
  {
    FrontWithout(m.order);
  }

  lemma TakeHeld<K(!new), L, E>(m: LinkedMap<K, E>, dir: map<K, Slot<L, Option<E>>>, l: L, k: K)
    requires Holds(m, dir, l)
    ensures Holds(m.Remove(k), dir - {k}, l)
  {
    TakeListed(m.order, dir, l, k);
    hide Lists, Without;
  }

  lemma PlaceHeld<K(!new), L, E>(m: LinkedMap<K, E>, dir: map<K, Slot<L, Option<E>>>, l: L, k: K, e: E, clock: nat)
    requires Holds(m, dir, l) && Stamped(dir, clock)
    ensures Holds(m.Insert(k, e), dir[k := Slot(l, Some(e), clock)], l)
  {
    PlaceListed(m.order, dir, l, k, l, Some(e), clock);
    hide Lists, Without;
  }

  lemma PlaceElsewhere<K(!new), L, E>(
    m: LinkedMap<K, E>, dir: map<K, Slot<L, Option<E>>>, l: L, k: K, to: L, item: Option<E>, clock: nat)
    requires Holds(m, dir, l) && Stamped(dir, clock) && to != l
    ensures Holds(m.Remove(k), dir[k := Slot(to, item, clock)], l)
  {
    PlaceListed(m.order, dir, l, k, to, item, clock);
    hide Lists, Without;
  }
}
