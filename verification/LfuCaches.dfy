/** `LfuCache` as the mutable object of the source, method by method against `Lfu`. */
module LfuCaches {
  import opened LinkedMaps
  import opened Caches
  import Lfu

  class LfuCache<K(==, !new), V> {
    var cap: nat
    var minFreq: nat
    var entries: map<K, Lfu.Counted<V>>
    var buckets: Lfu.Buckets<K>

    ghost function State(): Lfu.State<K, V>
      reads this
    {
      Lfu.State(cap, minFreq, entries, buckets)
    }

    constructor (cap: nat)
      ensures State() == Lfu.New(cap)
    {
      this.cap, this.minFreq := cap, 0;
      this.entries, this.buckets := map[], map[];
    }

    method IncrementFreq(key: K)
      modifies this
      ensures key !in old(entries) ==> State() == old(State())
      ensures key in old(entries) ==> State() == Lfu.Increment(old(State()), key, old(entries)[key].entry)
    {
      if key !in entries { return; }
      var was := entries[key].freq;
      entries := entries[key := Lfu.Counted(was + 1, entries[key].entry)];
      if was in buckets {
        var bucket := Without(buckets[was], key);
        if bucket == [] {
          buckets := buckets - {was};
          if was == minFreq { minFreq := was + 1; }
        } else {
          buckets := buckets[was := bucket];
        }
      }
      buckets := Lfu.Link(buckets, was + 1, key);
    }

    method Evict() returns (evicted: Option<V>)
      requires Lfu.Agree(entries, buckets)
      modifies this
      ensures (State(), evicted) == Lfu.Evict(old(State()))
    {
      if minFreq !in buckets { return None; }
      var bucket := buckets[minFreq];
      var key := bucket[0];
      assert key in bucket;
      bucket := bucket[1..];
      buckets := if bucket == [] then buckets - {minFreq} else buckets[minFreq := bucket];
      evicted := Some(entries[key].entry.value);
      entries := entries - {key};
    }

    method InsertEntry(key: K, entry: CacheEntry<V>) returns (evicted: Option<V>)
      requires Lfu.Agree(entries, buckets)
      modifies this
      ensures (State(), evicted) == Lfu.InsertEntry(old(State()), key, entry)
    {
      hide Lfu.Evict, Lfu.Link, Lfu.Unlink;
      if cap == 0 { return Some(entry.value); }
      if key in entries {
        Lfu.ReplaceThenIncrement(State(), key, entry);
        entries := entries[key := Lfu.Counted(entries[key].freq, entry)];
        IncrementFreq(key);
        return None;
      }
      evicted := None;
      if |entries| >= cap {
        evicted := Evict();
      }
      entries := entries[key := Lfu.Counted(1, entry)];
      buckets := Lfu.Link(buckets, 1, key);
      minFreq := 1;
    }

    method Put(key: K, value: V) returns (evicted: Option<V>)
      requires State().Inv()
      modifies this
      ensures State().Inv()
      ensures (State(), evicted) == Lfu.Step(old(State()), Event(0, Op.Put(key, value)))
    {
      hide Lfu.Agree, Lfu.InsertEntry;
      Lfu.StepInv(State(), Event(0, Op.Put(key, value)));
      evicted := InsertEntry(key, CacheEntry(value, None));
    }

    method PutWithTtl(key: K, value: V, ttl: nat, now: nat) returns (evicted: Option<V>)
      requires State().Inv()
      modifies this
      ensures State().Inv()
      ensures (State(), evicted) == Lfu.Step(old(State()), Event(now, Op.PutWithTtl(key, value, ttl)))
    {
      hide Lfu.Agree, Lfu.InsertEntry, Lfu.Lookup, Lfu.Delete, Lfu.Resized;
      Lfu.StepInv(State(), Event(now, Op.PutWithTtl(key, value, ttl)));
      evicted := InsertEntry(key, CacheEntry(value, Some(now + ttl)));
    }

    method Get(key: K, now: nat) returns (hit: Option<V>)
      requires State().Inv()
      modifies this
      ensures State().Inv()
      ensures (State(), hit) == Lfu.Step(old(State()), Event(now, Op.Get(key)))
    {
      Lfu.LookupInv(State(), key, now);
      assert Lfu.Agree(entries, buckets);
      hide Lfu.Link, Lfu.Unlink, Lfu.InsertEntry, Lfu.Resized, Lfu.State.Inv;
      if key in entries && entries[key].entry.Expired(now) {
        var _ := Remove(key);
        return None;
      }
      if key !in entries { return None; }
      IncrementFreq(key);
      hit := Some(entries[key].entry.value);
    }

    method Remove(key: K) returns (removed: Option<V>)
      requires State().Inv()
      modifies this
      ensures State().Inv()
      ensures (State(), removed) == Lfu.Step(old(State()), Event(0, Op.Remove(key)))
    {
      hide Lfu.Agree;
      Lfu.DeleteInv(State(), key);
      if key !in entries { return None; }
      var freq := entries[key].freq;
      removed := Some(entries[key].entry.value);
      entries := entries - {key};
      if freq in buckets {
        var bucket := Without(buckets[freq], key);
        buckets := if bucket == [] then buckets - {freq} else buckets[freq := bucket];
      }
    }

    /** The loop needs `ResizeStops`: by `Lfu.ResizeTerminatesIff` it does not end otherwise. */
    method Resize(newCap: nat)
      requires State().Inv() && Lfu.ResizeStops(State(), newCap)
      modifies this
      ensures State() == Lfu.Resized(old(State()), newCap)
    {
      cap := newCap;
      ghost var target := Lfu.Resized(old(State()), newCap);
      assert Lfu.ResizeStops(State(), newCap);
      hide Lfu.Agree, Lfu.Evict, Lfu.EvictTimes, Lfu.ResizeStops, Lfu.Resized;
      while cap > 0 && |entries| > cap
        invariant Lfu.Agree(entries, buckets) && cap == newCap
        invariant Lfu.ResizeStops(State(), newCap)
        invariant Lfu.EvictTimes(State(), Lfu.Excess(State(), newCap)) == target
        decreases |entries|
      {
        Lfu.EvictRound(State(), newCap);
        var _ := Evict();
      }
      Lfu.NoExcess(State(), newCap);
    }

    /** `Cache::get_or_insert`; `None` stands for the panic of its `expect`. At capacity 0 the put is handed
        back, so the call panics for every key it does not find; otherwise it panics exactly when a live
        entry reaches its deadline between the two clock readings. */
    method GetOrInsert(key: K, value: V, checkedAt: nat, readAt: nat) returns (r: Option<V>)
      requires State().Inv() && checkedAt <= readAt
      modifies this
      ensures State().Inv()
      ensures r.None? <==> if Lfu.PeekIn(old(entries), key, checkedAt).Some?
                           then Lfu.PeekIn(old(entries), key, readAt).None? else cap == 0
      ensures r.Some? ==> r.value == if Lfu.PeekIn(old(entries), key, checkedAt).Some?
                                     then old(entries)[key].entry.value else value
    {
      if Lfu.PeekIn(entries, key, checkedAt).None? {
        Lfu.PutIsKept(State(), key, CacheEntry(value, None));
        hide Lfu.InsertEntry, Lfu.Agree;
        var _ := Put(key, value);
      }
      r := Lfu.PeekIn(entries, key, readAt);
    }
  }
}
