/** `BoundedCache` as the mutable object of the source, over an `LruCache` object. */
module BoundedCaches {
  import opened LinkedMaps
  import opened Caches
  import Lru
  import opened LruCaches
  import B = Bounded

  class BoundedCache {
    const inner: LruCache<B.Bytes, B.Bytes>
    const maxBytes: nat
    var currentBytes: nat
    var order: seq<B.Bytes>

    ghost function State(): B.State
      reads this, inner
    {
      B.State(inner.State(), maxBytes, currentBytes, order)
    }

    constructor (inner: LruCache<B.Bytes, B.Bytes>, maxBytes: nat)
      ensures this.inner == inner && State() == B.State(inner.State(), maxBytes, 0, [])
    {
      this.inner, this.maxBytes := inner, maxBytes;
      this.currentBytes, this.order := 0, [];
    }

    method EvictUntilFits(needed: nat)
      requires inner.State().Valid()
      modifies this, inner
      ensures State() == B.EvictUntilFits(old(State()), needed)
    {
      ghost var target := B.EvictUntilFits(State(), needed);
      while currentBytes + needed > maxBytes
        invariant inner.State().Valid()
        invariant B.EvictUntilFits(State(), needed) == target
        decreases |order|
      {
        if order == [] { break; }
        var oldest := order[0];
        order := order[1..];
        var removed := inner.Remove(oldest);
        hide Lru.Delete;
        if removed.Some? {
          currentBytes := B.Saturating(currentBytes, B.Size(oldest, removed.value));
        }
      }
    }

    method Insert(key: B.Bytes, entry: CacheEntry<B.Bytes>, now: nat) returns (evicted: Option<B.Bytes>)
      requires B.Inv(State())
      modifies this, inner
      ensures B.Inv(State()) && State() == B.Put(old(State()), key, entry, now)
      ensures evicted == B.Evicted(old(State()), key, entry)
    {
      B.PutKeeps(State(), key, entry, now);
      hide B.EvictUntilFits, Lru.InsertEntry, B.Tracked, B.RealBytes, LinkedMap.Valid;
      var size := B.Size(key, entry.value);
      EvictUntilFits(size);
      var existing := Peek(inner.items.entries, key, now);
      if existing.Some? {
        currentBytes := B.Saturating(currentBytes, B.Size(key, existing.value));
        order := Without(order, key);
      }
      currentBytes := currentBytes + size;
      order := order + [key];
      evicted := inner.InsertEntry(key, entry);
    }

    /** The budget is a budget: after a put the bytes held fit it if the entry itself does. */
    method Put(key: B.Bytes, value: B.Bytes, now: nat) returns (evicted: Option<B.Bytes>)
      requires B.Inv(State())
      modifies this, inner
      ensures B.Inv(State()) && State() == B.Put(old(State()), key, CacheEntry(value, None), now)
      ensures B.RealBytes(State()) <= maxBytes <==> B.Size(key, value) <= maxBytes
      ensures evicted == B.Evicted(old(State()), key, CacheEntry(value, None))
    {
      B.PutWithinBudgetIff(State(), key, CacheEntry(value, None), now);
      evicted := Insert(key, CacheEntry(value, None), now);
    }

    method Get(key: B.Bytes, now: nat) returns (hit: Option<B.Bytes>)
      requires B.Inv(State())
      modifies inner
      ensures B.Inv(State()) && (State(), hit) == B.Get(old(State()), key, now)
    {
      B.GetKeeps(State(), key, now);
      hit := inner.Get(key, now);
    }

    method Remove(key: B.Bytes) returns (removed: Option<B.Bytes>)
      requires B.Inv(State())
      modifies this, inner
      ensures B.Inv(State()) && (State(), removed) == B.Remove(old(State()), key)
    {
      B.RemoveKeeps(State(), key);
      removed := inner.Remove(key);
      if removed.Some? {
        currentBytes := B.Saturating(currentBytes, B.Size(key, removed.value));
        order := Without(order, key);
      }
    }
  }
}
