/** `LruCache` as the mutable object of the source, method by method against `Lru`. */
module LruCaches {
  import opened LinkedMaps
  import opened Caches
  import Lru

  class LruCache<K(==, !new), V> {
    var items: LinkedMap<K, CacheEntry<V>>
    var cap: nat

    ghost function State(): Lru.State<K, V>
      reads this
    {
      Lru.State(items, cap)
    }

    constructor (cap: nat)
      ensures State() == Lru.New(cap)
    {
      this.items := EmptyLinked();
      this.cap := cap;
    }

    method InsertEntry(key: K, entry: CacheEntry<V>) returns (evicted: Option<V>)
      requires State().Valid()
      modifies this
      ensures (State(), evicted) == Lru.InsertEntry(old(State()), key, entry)
    {
      if key in items.entries {
        items := items.Insert(key, entry);
        return None;
      }
      evicted := None;
      if cap > 0 && items.Len() >= cap {
        evicted := Some(items.entries[items.order[0]].value);
        items := items.PopFront();
      }
      items := items.Insert(key, entry);
    }

    method Put(key: K, value: V) returns (evicted: Option<V>)
      requires State().Valid()
      modifies this
      ensures (State(), evicted) == Lru.Step(old(State()), Event(0, Op.Put(key, value)))
    {
      evicted := InsertEntry(key, CacheEntry(value, None));
    }

    method PutWithTtl(key: K, value: V, ttl: nat, now: nat) returns (evicted: Option<V>)
      requires State().Valid()
      modifies this
      ensures (State(), evicted) == Lru.Step(old(State()), Event(now, Op.PutWithTtl(key, value, ttl)))
    {
      evicted := InsertEntry(key, CacheEntry(value, Some(now + ttl)));
    }

    method Get(key: K, now: nat) returns (hit: Option<V>)
      requires State().Valid()
      modifies this
      ensures (State(), hit) == Lru.Step(old(State()), Event(now, Op.Get(key)))
    {
      if key in items.entries && items.entries[key].Expired(now) {
        items := items.Remove(key);
        return None;
      }
      if key in items.entries {
        var entry := items.entries[key];
        items := items.Insert(key, entry);
        hit := Some(entry.value);
      } else {
        hit := None;
      }
    }

    method Remove(key: K) returns (removed: Option<V>)
      requires State().Valid()
      modifies this
      ensures (State(), removed) == Lru.Step(old(State()), Event(0, Op.Remove(key)))
    {
      removed := if key in items.entries then Some(items.entries[key].value) else None;
      items := items.Remove(key);
    }

    method Resize(newCap: nat)
      requires State().Valid()
      modifies this
      ensures State() == Lru.Resized(old(State()), newCap)
    {
      cap := newCap;
      ghost var target := Lru.Resized(old(State()), newCap).items;
      hide Lru.DropFront;
      while cap > 0 && items.Len() > cap
        invariant items.Valid() && cap == newCap
        invariant target == Lru.DropFront(items, if cap > 0 && items.Len() > cap then items.Len() - cap else 0)
        decreases items.Len()
      {
        Lru.PopThenDrop(items, items.Len() - cap - 1);
        items := items.PopFront();
      }
      Lru.DropNone(items);
    }

    /** `Cache::get_or_insert`; `None` stands for the panic of its `expect`. The two clock
        readings are those of `contains_key` and of the final `peek`. The call panics
        exactly when a live entry reaches its deadline between the two readings. */
    method GetOrInsert(key: K, value: V, checkedAt: nat, readAt: nat) returns (r: Option<V>)
      requires State().Valid() && checkedAt <= readAt
      modifies this
      ensures State().Valid()
      ensures r.None? <==>
              Peek(old(items).entries, key, checkedAt).Some? && Peek(old(items).entries, key, readAt).None?
      ensures r.Some? ==> r == Peek(items.entries, key, readAt)
      ensures r.Some? ==> r.value == if Peek(old(items).entries, key, checkedAt).Some?
                                     then old(items).entries[key].value else value
    {
      if Peek(items.entries, key, checkedAt).None? {
        var _ := Put(key, value);
      }
      r := Peek(items.entries, key, readAt);
    }
  }
}
