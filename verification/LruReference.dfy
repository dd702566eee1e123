/** LRU without a list: each key carries the moment of its last use, and an eviction searches for the
    oldest one.  The cache of module `Lru` gives the same answers in every run. */
module LruReference {
  import opened LinkedMaps
  import opened Caches
  import opened Shelves
  import Lru

  datatype Shelf = Cached

  type Dir<K(!new), V> = map<K, Slot<Shelf, Option<CacheEntry<V>>>>

  datatype Ref<K(==, !new), V> = Ref(cap: nat, clock: nat, dir: Dir<K, V>)

  /** The value under a key, expired or not. */
  ghost function Value<K(!new), V>(r: Ref<K, V>, k: K): Option<V> {
    if k in r.dir && r.dir[k].item.Some? then Some(r.dir[k].item.value.value) else None
  }

  ghost predicate Overdue<K(!new), V>(r: Ref<K, V>, k: K, now: nat) {
    && k in r.dir && r.dir[k].item.Some? && r.dir[k].item.value.expiresAt.Some?
    && r.dir[k].item.value.expiresAt.value <= now
  }

  ghost function Use<K(!new), V>(r: Ref<K, V>, k: K, item: Option<CacheEntry<V>>): Ref<K, V> {
    Ref(r.cap, r.clock + 1, r.dir[k := Slot(Cached, item, r.clock)])
  }

  ghost function Lose<K(!new), V>(r: Ref<K, V>, k: K): Ref<K, V> {
    r.(dir := r.dir - {k})
  }

  /** Loses the least recently used key. */
  ghost function Evict<K(!new), V>(r: Ref<K, V>): (Ref<K, V>, Option<V>) {
    match Oldest(r.dir, Cached)
    case None => (r, None)
    case Some(v) => (Lose(r, v), Value(r, v))
  }

  ghost function EvictTimes<K(!new), V>(r: Ref<K, V>, n: nat): Ref<K, V>
    decreases n
  {
    if n == 0 then r else EvictTimes(Evict(r).0, n - 1)
  }

  ghost function Insert<K(!new), V>(r: Ref<K, V>, k: K, e: CacheEntry<V>): (Ref<K, V>, Option<V>) {
    var (t, evicted) := if k !in r.dir && 0 < r.cap <= |r.dir| then Evict(r) else (r, None);
    (Use(t, k, Some(e)), evicted)
  }

  ghost function Step<K(!new), V>(r: Ref<K, V>, ev: Event<K, V>): (Ref<K, V>, Option<V>) {
    match ev.op
    case Put(k, v) => Insert(r, k, CacheEntry(v, None))
    case PutWithTtl(k, v, ttl) => Insert(r, k, CacheEntry(v, Some(ev.now + ttl)))
    case Get(k) =>
      if k !in r.dir then (r, None)
      else if Overdue(r, k, ev.now) then (Lose(r, k), None)
      else (Use(r, k, r.dir[k].item), Value(r, k))
    case Remove(k) => (Lose(r, k), Value(r, k))
    case Clear => (r.(dir := map[]), None)
    case Resize(n) => (EvictTimes(r.(cap := n), if 0 < n < |r.dir| then |r.dir| - n else 0), None)
  }

  ghost function Run<K(!new), V>(cap: nat, evs: seq<Event<K, V>>): Ref<K, V> {
    if evs == [] then Ref(cap, 0, map[]) else Step(Run(cap, evs[..|evs| - 1]), evs[|evs| - 1]).0
  }

  // ---------------------------------------------------------------------
  // Simulation
  // ---------------------------------------------------------------------

  ghost predicate Simulates<K(!new), V>(s: Lru.State<K, V>, r: Ref<K, V>) {
    s.Valid() && s.cap == r.cap && Holds(s.items, r.dir, Cached) && Stamped(r.dir, r.clock)
  }

  lemma Contents<K(!new), V>(s: Lru.State<K, V>, r: Ref<K, V>)
    requires Simulates(s, r)
    ensures s.items.Len() == |r.dir|
    ensures forall k :: k in s.items.entries <==> k in r.dir
    ensures forall k :: k in r.dir ==> r.dir[k].item == Some(s.items.entries[k])
    ensures Oldest(r.dir, Cached) == if s.items.order == [] then None else Some(s.items.order[0])
  {
    OldestListed(s.items.order, r.dir, Cached);
    assert forall k :: k in r.dir ==> r.dir[k].shelf == Cached;
    NoDupLength(s.items.order, r.dir.Keys);
  }

  lemma UseSimulates<K(!new), V>(s: Lru.State<K, V>, r: Ref<K, V>, k: K, e: CacheEntry<V>)
    requires Simulates(s, r) && (s.cap > 0 ==> s.items.Insert(k, e).Len() <= s.cap)
    ensures Simulates(s.(items := s.items.Insert(k, e)), Use(r, k, Some(e)))
  {
    PlaceHeld(s.items, r.dir, Cached, k, e, r.clock);
    hide Holds;
  }

  lemma LoseSimulates<K(!new), V>(s: Lru.State<K, V>, r: Ref<K, V>, k: K)
    requires Simulates(s, r)
    ensures Simulates(s.(items := s.items.Remove(k)), Lose(r, k))
  {
    TakeHeld(s.items, r.dir, Cached, k);
    hide Holds;
  }

  lemma EvictSimulates<K(!new), V>(s: Lru.State<K, V>, r: Ref<K, V>)
    requires Simulates(s, r) && s.items.order != []
    ensures var v := s.items.order[0];
            Simulates(s.(items := s.items.PopFront()), Evict(r).0) && v in s.items.entries
            && Evict(r).1 == Some(s.items.entries[v].value)
  {
    Contents(s, r);
    assert s.items.order[0] in s.items.order;
    PopIsRemove(s.items);
    LoseSimulates(s, r, s.items.order[0]);
    hide Simulates, Oldest;
  }

  lemma InsertSimulates<K(!new), V>(s: Lru.State<K, V>, r: Ref<K, V>, k: K, e: CacheEntry<V>)
    requires Simulates(s, r)
    ensures Simulates(Lru.InsertEntry(s, k, e).0, Insert(r, k, e).0)
    ensures Lru.InsertEntry(s, k, e).1 == Insert(r, k, e).1
  {
    Contents(s, r);
    if k !in s.items.entries && 0 < s.cap <= s.items.Len() {
      EvictSimulates(s, r);
      UseSimulates(s.(items := s.items.PopFront()), Evict(r).0, k, e);
    } else {
      UseSimulates(s, r, k, e);
    }
    hide Holds, Evict, Use;
  }

  lemma {:induction false} ResizeSimulates<K(!new), V>(s: Lru.State<K, V>, r: Ref<K, V>, n: nat)
    requires Holds(s.items, r.dir, Cached) && Stamped(r.dir, r.clock) && n <= s.items.Len()
    ensures var t := EvictTimes(r, n);
            Holds(Lru.DropFront(s.items, n), t.dir, Cached) && Stamped(t.dir, t.clock) && t.cap == r.cap
    decreases n
  {
    if n == 0 {
      Lru.DropNone(s.items);
    } else {
      var free := s.(cap := 0);
      EvictSimulates(free, r.(cap := 0));
      assert Evict(r).0 == Evict(r.(cap := 0)).0.(cap := r.cap);
      hide Evict, Holds, Lru.DropFront;
      Lru.PopThenDrop(s.items, n - 1);
      ResizeSimulates(s.(items := s.items.PopFront()), Evict(r).0, n - 1);
    }
  }

  lemma ValidOf<K(!new), V>(s: Lru.State<K, V>, r: Ref<K, V>)
    requires Simulates(s, r)
    ensures s.Valid()
  {
  }

  lemma LookupSimulates<K(!new), V>(s: Lru.State<K, V>, r: Ref<K, V>, k: K, now: nat)
    requires Simulates(s, r)
    ensures Simulates(Lru.Lookup(s, k, now).0, Step(r, Event(now, Get(k))).0)
    ensures Lru.Lookup(s, k, now).1 == Step(r, Event(now, Get(k))).1
  {
    hide Holds, Simulates, Lose, Use, LinkedMap.Valid, LinkedMap.Insert, LinkedMap.Remove;
    Contents(s, r);
    ValidOf(s, r);
    if k in s.items.entries {
      LoseSimulates(s, r, k);
      UseSimulates(s, r, k, s.items.entries[k]);
    }
  }

  lemma StepSimulates<K(!new), V>(s: Lru.State<K, V>, r: Ref<K, V>, ev: Event<K, V>)
    requires Simulates(s, r)
    ensures Simulates(Lru.Step(s, ev).0, Step(r, ev).0) && Lru.Step(s, ev).1 == Step(r, ev).1
  {
    hide Holds, Lru.InsertEntry, Insert, Lru.Lookup, Lru.DropFront, EvictTimes, Lru.State.Valid, Stamped;
    Contents(s, r);
    match ev.op {
      case Put(k, _) => InsertSimulates(s, r, k, ev.Entry());
      case PutWithTtl(k, _, _) => InsertSimulates(s, r, k, ev.Entry());
      case Get(k) => LookupSimulates(s, r, k, ev.now);
      case Remove(k) => LoseSimulates(s, r, k);
      case Clear => ClearSimulates(s, r);
      case Resize(n) =>
        ResizeSimulates(s.(cap := n), r.(cap := n), if 0 < n < |r.dir| then |r.dir| - n else 0);
    }
  }

  lemma ClearSimulates<K(!new), V>(s: Lru.State<K, V>, r: Ref<K, V>)
    requires Simulates(s, r)
    ensures Simulates(Lru.State(EmptyLinked(), s.cap), r.(dir := map[]))
  {
  }

  lemma {:induction false} RunSimulates<K(!new), V>(cap: nat, evs: seq<Event<K, V>>)
    ensures Simulates(Lru.Run(Lru.New(cap), evs), Run(cap, evs))
    decreases |evs|
  {
    hide Step, Lru.Step;
    if evs != [] {
      hide Simulates;
      var before := evs[..|evs| - 1];
      RunSimulates<K, V>(cap, before);
      StepSimulates(Lru.Run(Lru.New(cap), before), Run(cap, before), evs[|evs| - 1]);
    }
  }

  /** After every run, the next call of whatever kind is answered as the reference answers it, and both
      hold the same keys with the same entries. */
  lemma RefinesReference<K(!new), V>(cap: nat, evs: seq<Event<K, V>>, ev: Event<K, V>)
    ensures var s, r := Lru.Run(Lru.New(cap), evs), Run(cap, evs);
            && Lru.Step(s, ev).1 == Step(r, ev).1
            && s.items.entries.Keys == r.dir.Keys
            && forall k :: k in r.dir ==> r.dir[k].item == Some(s.items.entries[k])
  {
    RunSimulates<K, V>(cap, evs);
    var s, r := Lru.Run(Lru.New(cap), evs), Run(cap, evs);
    StepSimulates(s, r, ev);
    Contents(s, r);
    hide Step, Lru.Step, Run, Lru.Run, Simulates;
    assert s.items.entries.Keys == r.dir.Keys;
  }
}
