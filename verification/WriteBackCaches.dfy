/** `WriteBackCache` as the mutable object of the source, over an `LruCache` object and a store
    that does not fail. */
module WriteBackCaches {
  import opened LinkedMaps
  import opened Caches
  import opened LruCaches
  import WriteBack

  class WriteBackCache<K(==, !new), V(==)> {
    var store: map<K, V>
    const cache: LruCache<K, V>
    var dirty: set<K>

    ghost function State(): WriteBack.State<K, V>
      reads this, cache
    {
      WriteBack.State(store, cache.State(), dirty)
    }

    constructor (store: map<K, V>, cache: LruCache<K, V>)
      ensures this.cache == cache && State() == WriteBack.State(store, cache.State(), {})
    {
      this.store, this.cache, this.dirty := store, cache, {};
    }

    method Get(key: K, now: nat) returns (value: Option<V>)
      requires WriteBack.Inv(State())
      modifies this, cache
      ensures WriteBack.Inv(State())
      ensures (State(), value) == WriteBack.Get(old(State()), key, now)
    {
      WriteBack.GetIsLookup(State(), key, now);
      value := cache.Get(key, now);
      if value.None? && key in store {
        value := Some(store[key]);
      }
    }

    /** Write every dirty value that is still cached. */
    method FlushDirty(now: nat)
      requires WriteBack.Inv(State())
      modifies this`store
      ensures store == WriteBack.Flushed(old(State()))
    {
      var keys := dirty;
      ghost var values := WriteBack.Values(cache.items.entries);
      while keys != {}
        invariant keys <= dirty
        invariant store == WriteBack.FlushDirty(old(store), values, dirty - keys)
        decreases |keys|
      {
        var key :| key in keys;
        var value := Peek(cache.items.entries, key, now);
        if value.Some? {
          store := store[key := value.value];
        }
        assert dirty - (keys - {key}) == (dirty - keys) + {key};
        WriteBack.FlushOneMore(old(store), values, dirty - keys, key);
        keys := keys - {key};
      }
      assert dirty - {} == dirty;
    }

    method Put(key: K, value: V, now: nat)
      requires WriteBack.Inv(State())
      modifies this, cache
      ensures WriteBack.Inv(State())
      ensures State() == WriteBack.Put(old(State()), key, value)
    {
      WriteBack.PutIsUpdate(State(), key, value);
      if Peek(cache.items.entries, key, now).None? && cache.items.Len() >= cache.cap {
        FlushDirty(now);
      }
      dirty := dirty + {key};
      var _ := cache.Put(key, value);
    }

    method Remove(key: K)
      requires WriteBack.Inv(State())
      modifies this, cache
      ensures WriteBack.Inv(State())
      ensures State() == WriteBack.Remove(old(State()), key)
    {
      WriteBack.RemoveIsDelete(State(), key);
      var _ := cache.Remove(key);
      dirty := dirty - {key};
      store := store - {key};
    }

    method Flush(now: nat)
      requires WriteBack.Inv(State())
      modifies this
      ensures WriteBack.Inv(State())
      ensures State() == WriteBack.Flush(old(State()))
      ensures store == WriteBack.Abs(old(State())) && dirty == {}
    {
      WriteBack.FlushIsSync(State());
      FlushDirty(now);
      dirty := {};
    }
  }
}
