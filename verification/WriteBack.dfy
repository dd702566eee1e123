/** The write-back adapter: writes stay in the cache and are marked dirty; the store is updated
    by `flush`, or just before a put that may make the cache evict. Its specification is a
    plain map. */
module WriteBack {
  import opened LinkedMaps
  import opened Caches
  import Lru

  // ---------------------------------------------------------------------
  // The argument, for any inner cache seen as a map of its live values
  // ---------------------------------------------------------------------

  /** What a reader sees: the cached value if there is one, else the stored one. */
  function Merge<K, V>(store: map<K, V>, cached: map<K, V>): map<K, V> {
    store + cached
  }

  /** A clean cached value is in the store too. */
  ghost predicate Coherent<K(!new), V>(store: map<K, V>, cached: map<K, V>, dirty: set<K>) {
    forall k :: k in cached && k !in dirty ==> k in store && store[k] == cached[k]
  }

  function FlushDirty<K, V>(store: map<K, V>, cached: map<K, V>, dirty: set<K>): map<K, V> {
    store + (map k | k in dirty && k in cached :: cached[k])
  }

  /** Flushing hides nothing and leaves the store with every cached value. */
  lemma FlushKeepsMerge<K(!new), V>(store: map<K, V>, cached: map<K, V>, dirty: set<K>)
    requires Coherent(store, cached, dirty)
    ensures Merge(FlushDirty(store, cached, dirty), cached) == Merge(store, cached)
    ensures Coherent(FlushDirty(store, cached, dirty), cached, {})
    ensures FlushDirty(store, cached, dirty) == Merge(store, cached)
  {
  }

  /** The flush loop, one key at a time. */
  lemma FlushOneMore<K(!new), V>(store: map<K, V>, cached: map<K, V>, done: set<K>, k: K)
    ensures FlushDirty(store, cached, done + {k}) ==
            if k in cached then FlushDirty(store, cached, done)[k := cached[k]] else FlushDirty(store, cached, done)
  {
  }

  /** Losing a cached value goes unnoticed exactly when the store has it. */
  lemma LossUnnoticedIff<K(!new), V>(store: map<K, V>, cached: map<K, V>, k: K)
    requires k in cached
    ensures Merge(store, cached - {k}) == Merge(store, cached) <==> k in store && store[k] == cached[k]
  {
    if Merge(store, cached - {k}) == Merge(store, cached) {
      assert k in Merge(store, cached - {k});
    }
  }

  /** A cache transition for `put(k, v)`: it may lose other values only if `mayEvict`. */
  ghost predicate PutEffect<K(!new), V>(before: map<K, V>, after: map<K, V>, k: K, v: V, mayEvict: bool) {
    && k in after && after[k] == v
    && (forall j :: j in after && j != k ==> j in before && after[j] == before[j])
    && (!mayEvict ==> forall j :: j in before ==> j in after)
  }

  /** Whatever the cache evicts, a put that flushed first is a map update. */
  lemma PutRefines<K(!new), V>(store: map<K, V>, before: map<K, V>, after: map<K, V>, dirty: set<K>,
                               k: K, v: V, mayEvict: bool)
    requires Coherent(store, before, dirty) && PutEffect(before, after, k, v, mayEvict)
    ensures var store' := if mayEvict then FlushDirty(store, before, dirty) else store;
            && Merge(store', after) == Merge(store, before)[k := v]
            && Coherent(store', after, dirty + {k})
  {
    if mayEvict {
      FlushKeepsMerge(store, before, dirty);
    }
  }

  lemma RemoveRefines<K(!new), V>(store: map<K, V>, cached: map<K, V>, dirty: set<K>, k: K)
    requires Coherent(store, cached, dirty)
    ensures Merge(store - {k}, cached - {k}) == Merge(store, cached) - {k}
    ensures Coherent(store - {k}, cached - {k}, dirty - {k})
  {
  }

  // ---------------------------------------------------------------------
  // The specification and the calls
  // ---------------------------------------------------------------------

  datatype Call<K, V> = CPut(key: K, value: V) | CGet(key: K, now: nat) | CRemove(key: K) | CFlush

  function SpecStep<K(==), V>(m: map<K, V>, c: Call<K, V>): map<K, V> {
    match c
    case CPut(k, v) => m[k := v]
    case CGet(_, _) => m
    case CRemove(k) => m - {k}
    case CFlush => m
  }

  /** The specification: puts and removes act on a plain map, gets and flushes leave it alone. */
  function Spec<K(==), V>(m: map<K, V>, calls: seq<Call<K, V>>): map<K, V> {
    if calls == [] then m else SpecStep(Spec(m, calls[..|calls| - 1]), calls[|calls| - 1])
  }

  function Find<K(==), V>(m: map<K, V>, k: K): Option<V> {
    if k in m then Some(m[k]) else None
  }

  /** What a get answers: the cache's hit, else the stored value. */
  function Answer<K(==), V>(store: map<K, V>, hit: Option<V>, k: K): Option<V> {
    if hit.Some? then hit else Find(store, k)
  }

  // ---------------------------------------------------------------------
  // The adapter over an LRU cache
  // ---------------------------------------------------------------------

  datatype State<K(==, !new), V> = State(store: map<K, V>, cache: Lru.State<K, V>, dirty: set<K>)

  function Values<K, V>(entries: map<K, CacheEntry<V>>): map<K, V> {
    map k | k in entries :: entries[k].value
  }

  ghost predicate Inv<K(!new), V>(s: State<K, V>) {
    && s.cache.Valid()
    && (forall k :: k in s.cache.items.entries ==> s.cache.items.entries[k].expiresAt.None?)
    && Coherent(s.store, Values(s.cache.items.entries), s.dirty)
  }

  /** The map that the adapter implements. */
  function Abs<K(==, !new), V>(s: State<K, V>): map<K, V> {
    Merge(s.store, Values(s.cache.items.entries))
  }

  /** `flush_if_eviction_imminent`: the cache is full and the key is new to it. */
  predicate Imminent<K(==, !new), V>(s: State<K, V>, k: K) {
    k !in s.cache.items.entries && s.cache.items.Len() >= s.cache.cap
  }

  function Flushed<K(==, !new), V>(s: State<K, V>): map<K, V> {
    FlushDirty(s.store, Values(s.cache.items.entries), s.dirty)
  }

  function Put<K(==, !new), V>(s: State<K, V>, k: K, v: V): State<K, V>
    requires s.cache.Valid()
  {
    State(if Imminent(s, k) then Flushed(s) else s.store,
          Lru.InsertEntry(s.cache, k, CacheEntry(v, None)).0,
          s.dirty + {k})
  }

  function Get<K(==, !new), V>(s: State<K, V>, k: K, now: nat): (State<K, V>, Option<V>)
    requires s.cache.Valid()
  {
    var (cache, hit) := Lru.Lookup(s.cache, k, now);
    (s.(cache := cache), Answer(s.store, hit, k))
  }

  function Remove<K(==, !new), V>(s: State<K, V>, k: K): State<K, V>
    requires s.cache.Valid()
  {
    State(s.store - {k}, Lru.Delete(s.cache, k).0, s.dirty - {k})
  }

  function Flush<K(==, !new), V>(s: State<K, V>): State<K, V> {
    State(Flushed(s), s.cache, {})
  }

  lemma InsertEffect<K(!new), V>(c: Lru.State<K, V>, k: K, v: V)
    requires c.Valid()
    ensures PutEffect(Values(c.items.entries), Values(Lru.InsertEntry(c, k, CacheEntry(v, None)).0.items.entries),
                      k, v, k !in c.items.entries && c.items.Len() >= c.cap)
  {
  }

  lemma NoDeadlinesAfterPut<K(!new), V>(c: Lru.State<K, V>, k: K, v: V)
    requires c.Valid() && forall j :: j in c.items.entries ==> c.items.entries[j].expiresAt.None?
    ensures var t := Lru.InsertEntry(c, k, CacheEntry(v, None)).0;
            t.Valid() && forall j :: j in t.items.entries ==> t.items.entries[j].expiresAt.None?
  {
  }

  lemma LookupKeepsEntries<K(!new), V>(c: Lru.State<K, V>, k: K, now: nat)
    requires c.Valid() && forall j :: j in c.items.entries ==> c.items.entries[j].expiresAt.None?
    ensures Lru.Lookup(c, k, now).0.items.entries == c.items.entries && Lru.Lookup(c, k, now).0.Valid()
    ensures Lru.Lookup(c, k, now).1 == Find(Values(c.items.entries), k)
  {
    if k in c.items.entries { assert c.items.entries[k := c.items.entries[k]] == c.items.entries; }
  }

  lemma DeleteKeepsEntries<K(!new), V>(c: Lru.State<K, V>, k: K)
    requires c.Valid() && forall j :: j in c.items.entries ==> c.items.entries[j].expiresAt.None?
    ensures var t := Lru.Delete(c, k).0;
            && t.Valid() && (forall j :: j in t.items.entries ==> t.items.entries[j].expiresAt.None?)
            && Values(t.items.entries) == Values(c.items.entries) - {k}
  {
    assert Lru.Delete(c, k).0.items.entries == c.items.entries - {k};
  }

  lemma PutIsUpdate<K(!new), V>(s: State<K, V>, k: K, v: V)
    requires Inv(s)
    ensures Inv(Put(s, k, v)) && Abs(Put(s, k, v)) == Abs(s)[k := v]
  {
    InsertEffect(s.cache, k, v);
    NoDeadlinesAfterPut(s.cache, k, v);
    hide Lru.InsertEntry, Values, Coherent, PutEffect, FlushDirty, Merge;
    PutRefines(s.store, Values(s.cache.items.entries), Values(Put(s, k, v).cache.items.entries), s.dirty,
               k, v, Imminent(s, k));
  }

  lemma GetIsLookup<K(!new), V>(s: State<K, V>, k: K, now: nat)
    requires Inv(s)
    ensures Inv(Get(s, k, now).0) && Abs(Get(s, k, now).0) == Abs(s)
    ensures Get(s, k, now).1 == if k in Abs(s) then Some(Abs(s)[k]) else None
  {
    LookupKeepsEntries(s.cache, k, now);
    hide Lru.Lookup;
  }

  lemma RemoveIsDelete<K(!new), V>(s: State<K, V>, k: K)
    requires Inv(s)
    ensures Inv(Remove(s, k)) && Abs(Remove(s, k)) == Abs(s) - {k}
  {
    DeleteKeepsEntries(s.cache, k);
    hide Lru.Delete, Values, Coherent, Merge;
    RemoveRefines(s.store, Values(s.cache.items.entries), s.dirty, k);
  }

  lemma FlushIsSync<K(!new), V>(s: State<K, V>)
    requires Inv(s)
    ensures Inv(Flush(s)) && Abs(Flush(s)) == Abs(s) && Flush(s).store == Abs(s) && Flush(s).dirty == {}
  {
    FlushKeepsMerge(s.store, Values(s.cache.items.entries), s.dirty);
  }

  // ---------------------------------------------------------------------
  // Runs
  // ---------------------------------------------------------------------

  function Step<K(==, !new), V>(s: State<K, V>, c: Call<K, V>): State<K, V>
    requires s.cache.Valid()
  {
    match c
    case CPut(k, v) => Put(s, k, v)
    case CGet(k, now) => Get(s, k, now).0
    case CRemove(k) => Remove(s, k)
    case CFlush => Flush(s)
  }

  lemma StepInv<K(!new), V>(s: State<K, V>, c: Call<K, V>)
    requires Inv(s)
    ensures Inv(Step(s, c))
  {
    match c {
      case CPut(k, v) => PutIsUpdate(s, k, v);
      case CGet(k, now) => GetIsLookup(s, k, now);
      case CRemove(k) => RemoveIsDelete(s, k);
      case CFlush => FlushIsSync(s);
    }
  }

  ghost function Run<K(!new), V>(store: map<K, V>, cap: nat, calls: seq<Call<K, V>>): (s: State<K, V>)
    ensures Inv(s)
  {
    if calls == [] then State(store, Lru.New(cap), {})
    else
      var before := Run(store, cap, calls[..|calls| - 1]);
      StepInv(before, calls[|calls| - 1]);
      Step(before, calls[|calls| - 1])
  }

  lemma {:induction false} RunRefines<K(!new), V>(store: map<K, V>, cap: nat, calls: seq<Call<K, V>>)
    ensures Abs(Run(store, cap, calls)) == Spec(store, calls)
    decreases |calls|
  {
    if calls == [] {
      assert Values(Lru.New<K, V>(cap).items.entries) == map[];
    } else {
      var s := Run(store, cap, calls[..|calls| - 1]);
      RunRefines(store, cap, calls[..|calls| - 1]);
      match calls[|calls| - 1] {
        case CPut(k, v) => PutIsUpdate(s, k, v);
        case CGet(k, now) => GetIsLookup(s, k, now);
        case CRemove(k) => RemoveIsDelete(s, k);
        case CFlush => FlushIsSync(s);
      }
    }
  }

  /** From an empty cache of any capacity over any store, after any calls, a get returns the last
      written value, evicted or not. */
  lemma GetReturnsLastWrite<K(!new), V>(store: map<K, V>, cap: nat, calls: seq<Call<K, V>>, k: K, now: nat)
    ensures var m := Spec(store, calls);
            Get(Run(store, cap, calls), k, now).1 == if k in m then Some(m[k]) else None
  {
    RunRefines(store, cap, calls);
    GetIsLookup(Run(store, cap, calls), k, now);
  }

  /** After a flush the store itself is the specification map and nothing is dirty. */
  lemma FlushPersistsEverything<K(!new), V>(store: map<K, V>, cap: nat, calls: seq<Call<K, V>>)
    ensures var s := Flush(Run(store, cap, calls)); s.store == Spec(store, calls) && s.dirty == {}
  {
    RunRefines(store, cap, calls);
    FlushIsSync(Run(store, cap, calls));
  }

  /** What has reached the store: everything written before the last flush, or before the last put of a new key
      into a full cache; a removed key is gone at once. */
  ghost function Persisted<K(!new), V>(store: map<K, V>, cap: nat, calls: seq<Call<K, V>>): map<K, V> {
    if calls == [] then store
    else
      var before := calls[..|calls| - 1];
      var cache := Run(store, cap, before).cache;
      match calls[|calls| - 1]
      case CPut(k, _) =>
        if k in cache.items.entries || cache.items.Len() < cache.cap then Persisted(store, cap, before)
        else Spec(store, before)
      case CGet(_, _) => Persisted(store, cap, before)
      case CRemove(k) => Persisted(store, cap, before) - {k}
      case CFlush => Spec(store, before)
  }

  /** Writes are written back and no earlier: in every run the store holds exactly what has been flushed. */
  lemma {:induction false} StoreIsPersisted<K(!new), V>(store: map<K, V>, cap: nat, calls: seq<Call<K, V>>)
    ensures Run(store, cap, calls).store == Persisted(store, cap, calls)
    decreases |calls|
  {
    if calls != [] {
      var before := calls[..|calls| - 1];
      StoreIsPersisted(store, cap, before);
      RunRefines(store, cap, before);
      FlushIsSync(Run(store, cap, before));
      hide Spec, Abs, Values, FlushDirty, Lru.InsertEntry, Lru.Lookup, Lru.Delete;
    }
  }

  /** A key written and not yet flushed is dirty and cached, so that a flush still finds it. */
  lemma DirtyIsCached<K(!new), V>(store: map<K, V>, cap: nat, calls: seq<Call<K, V>>, k: K)
    ensures var s := Run(store, cap, calls);
            Find(s.store, k) != Find(Spec(store, calls), k) ==> k in s.dirty && k in s.cache.items.entries
  {
    RunRefines(store, cap, calls);
    hide Run, Spec;
  }
}
