/** The write-back adapter over an LFU cache: at capacity 0 the cache hands a put back and the adapter
    drops it. */
module WriteBackOverLfu {
  import opened LinkedMaps
  import opened Caches
  import Lfu
  import opened WB = WriteBack

  datatype LfuBack<K(==, !new), V> = LfuBack(store: map<K, V>, cache: Lfu.State<K, V>, dirty: set<K>)

  function LiveValues<K(==, !new), V>(c: Lfu.State<K, V>): map<K, V> {
    map k | k in c.entries :: c.entries[k].entry.value
  }

  ghost predicate NoDeadlines<K(!new), V>(c: Lfu.State<K, V>) {
    forall k :: k in c.entries ==> c.entries[k].entry.expiresAt.None?
  }

  ghost predicate LfuInv<K(!new), V>(s: LfuBack<K, V>) {
    NoDeadlines(s.cache) && Coherent(s.store, LiveValues(s.cache), s.dirty)
  }

  function Shown<K(==, !new), V>(s: LfuBack<K, V>): map<K, V> {
    Merge(s.store, LiveValues(s.cache))
  }

  predicate LfuImminent<K(==, !new), V>(c: Lfu.State<K, V>, k: K) {
    k !in c.entries && |c.entries| >= c.cap
  }

  function LfuPut<K(==, !new), V>(s: LfuBack<K, V>, k: K, v: V): LfuBack<K, V> {
    LfuBack(if LfuImminent(s.cache, k) then FlushDirty(s.store, LiveValues(s.cache), s.dirty) else s.store,
            Lfu.InsertEntry(s.cache, k, CacheEntry(v, None)).0,
            s.dirty + {k})
  }

  function LfuGet<K(==, !new), V>(s: LfuBack<K, V>, k: K, now: nat): (LfuBack<K, V>, Option<V>) {
    var (cache, hit) := Lfu.Lookup(s.cache, k, now);
    (s.(cache := cache), Answer(s.store, hit, k))
  }

  function LfuStep<K(==, !new), V>(s: LfuBack<K, V>, c: Call<K, V>): LfuBack<K, V> {
    match c
    case CPut(k, v) => LfuPut(s, k, v)
    case CGet(k, now) => LfuGet(s, k, now).0
    case CRemove(k) => LfuBack(s.store - {k}, Lfu.Delete(s.cache, k).0, s.dirty - {k})
    case CFlush => LfuBack(FlushDirty(s.store, LiveValues(s.cache), s.dirty), s.cache, {})
  }

  // ---------------------------------------------------------------------
  // One call
  // ---------------------------------------------------------------------

  lemma EntriesAfterPut<K(!new), V>(c: Lfu.State<K, V>, k: K, e: CacheEntry<V>)
    requires c.cap >= 1
    ensures var t := Lfu.InsertEntry(c, k, e).0.entries;
            && k in t && t[k].entry == e
            && (forall j :: j in t && j != k ==> j in c.entries && t[j] == c.entries[j])
            && (!LfuImminent(c, k) ==> forall j :: j in c.entries ==> j in t)
  {
  }

  lemma LfuPutEffect<K(!new), V>(c: Lfu.State<K, V>, k: K, v: V)
    requires NoDeadlines(c) && c.cap >= 1
    ensures var c' := Lfu.InsertEntry(c, k, CacheEntry(v, None)).0;
            PutEffect(LiveValues(c), LiveValues(c'), k, v, LfuImminent(c, k)) && NoDeadlines(c') && c'.cap == c.cap
  {
    EntriesAfterPut(c, k, CacheEntry(v, None));
    assert Lfu.InsertEntry(c, k, CacheEntry(v, None)).0.cap == c.cap;
    hide Lfu.InsertEntry;
  }

  lemma LfuGetEffect<K(!new), V>(c: Lfu.State<K, V>, k: K, now: nat)
    requires NoDeadlines(c)
    ensures var (c', hit) := Lfu.Lookup(c, k, now);
            && NoDeadlines(c') && hit == Find(LiveValues(c), k) && LiveValues(c') == LiveValues(c) && c'.cap == c.cap
  {
  }

  lemma LfuRemoveEffect<K(!new), V>(c: Lfu.State<K, V>, k: K)
    requires NoDeadlines(c)
    ensures var c' := Lfu.Delete(c, k).0;
            LiveValues(c') == LiveValues(c) - {k} && NoDeadlines(c') && c'.cap == c.cap
  {
  }

  /** The cache takes nothing in and the put would have changed something. */
  predicate DropsWrite<K(==, !new), V(==)>(s: LfuBack<K, V>, c: Call<K, V>) {
    c.CPut? && s.cache.cap == 0 && Find(Shown(s), c.key) != Some(c.value)
  }

  lemma CoherentMore<K(!new), V>(store: map<K, V>, cached: map<K, V>, dirty: set<K>, k: K)
    requires Coherent(store, cached, dirty)
    ensures Coherent(store, cached, dirty + {k})
  {
  }

  lemma CoherentAll<K(!new), V>(store: map<K, V>, cached: map<K, V>, dirty: set<K>)
    requires Coherent(store, cached, {})
    ensures Coherent(store, cached, dirty)
  {
  }

  lemma UpdateIdle<K(!new), V>(m: map<K, V>, k: K, v: V)
    ensures m[k := v] == m <==> Find(m, k) == Some(v)
  {
    if m[k := v] == m { assert k in m; }
  }

  lemma LfuPutStep<K(!new), V>(s: LfuBack<K, V>, k: K, v: V)
    requires LfuInv(s)
    ensures LfuInv(LfuPut(s, k, v)) && LfuPut(s, k, v).cache.cap == s.cache.cap
    ensures Shown(LfuPut(s, k, v)) == Shown(s)[k := v] <==> !DropsWrite(s, CPut(k, v))
  {
    if s.cache.cap == 0 {
      FlushKeepsMerge(s.store, LiveValues(s.cache), s.dirty);
      assert LfuPut(s, k, v).cache == s.cache;
      hide Lfu.InsertEntry, LiveValues, FlushDirty;
      CoherentMore(s.store, LiveValues(s.cache), s.dirty, k);
      CoherentMore(FlushDirty(s.store, LiveValues(s.cache), s.dirty), LiveValues(s.cache), {}, k);
      CoherentAll(FlushDirty(s.store, LiveValues(s.cache), s.dirty), LiveValues(s.cache), s.dirty + {k});
      UpdateIdle(Shown(s), k, v);
      hide Merge, Coherent;
    } else {
      LfuPutEffect(s.cache, k, v);
      PutRefines(s.store, LiveValues(s.cache), LiveValues(LfuPut(s, k, v).cache), s.dirty, k, v,
                 LfuImminent(s.cache, k));
      hide Lfu.InsertEntry;
    }
  }

  lemma LfuStepIff<K(!new), V>(s: LfuBack<K, V>, c: Call<K, V>)
    requires LfuInv(s)
    ensures LfuInv(LfuStep(s, c)) && LfuStep(s, c).cache.cap == s.cache.cap
    ensures Shown(LfuStep(s, c)) == SpecStep(Shown(s), c) <==> !DropsWrite(s, c)
  {
    match c
    case CPut(k, v) => LfuPutStep(s, k, v); hide LfuPut;
    case CGet(k, now) => LfuGetEffect(s.cache, k, now); hide Lfu.Lookup;
    case CRemove(k) =>
      LfuRemoveEffect(s.cache, k);
      RemoveRefines(s.store, LiveValues(s.cache), s.dirty, k);
      hide Lfu.Delete;
    case CFlush => FlushKeepsMerge(s.store, LiveValues(s.cache), s.dirty);
  }

  // ---------------------------------------------------------------------
  // Runs
  // ---------------------------------------------------------------------

  ghost function LfuRun<K(!new), V>(store: map<K, V>, cap: nat, calls: seq<Call<K, V>>): (s: LfuBack<K, V>)
    ensures LfuInv(s) && s.cache.cap == cap
  {
    if calls == [] then LfuBack(store, Lfu.New(cap), {})
    else
      var before := LfuRun(store, cap, calls[..|calls| - 1]);
      LfuStepIff(before, calls[|calls| - 1]);
      LfuStep(before, calls[|calls| - 1])
  }

  ghost predicate NoDrop<K(!new), V>(store: map<K, V>, cap: nat, calls: seq<Call<K, V>>) {
    calls == [] ||
    (NoDrop(store, cap, calls[..|calls| - 1]) &&
     !DropsWrite(LfuRun(store, cap, calls[..|calls| - 1]), calls[|calls| - 1]))
  }

  ghost predicate AlwaysRefines<K(!new), V>(store: map<K, V>, cap: nat, calls: seq<Call<K, V>>) {
    && (calls == [] || AlwaysRefines(store, cap, calls[..|calls| - 1]))
    && Shown(LfuRun(store, cap, calls)) == Spec(store, calls)
  }

  /** Over an LFU cache the adapter refines the map, all along a run, if and only if no put of a new value
      meets capacity 0. */
  lemma {:induction false} RefinesIff<K(!new), V>(store: map<K, V>, cap: nat, calls: seq<Call<K, V>>)
    ensures AlwaysRefines(store, cap, calls) <==> NoDrop(store, cap, calls)
    decreases |calls|
  {
    if calls == [] {
      assert LiveValues(Lfu.New<K, V>(cap)) == map[];
    } else {
      var front := calls[..|calls| - 1];
      RefinesIff(store, cap, front);
      LfuStepIff(LfuRun(store, cap, front), calls[|calls| - 1]);
      hide Shown, DropsWrite, LfuStep, SpecStep;
    }
  }

  /** From capacity 1 on every run refines the map. */
  lemma {:induction false} CapacityOneSuffices<K(!new), V>(store: map<K, V>, cap: nat, calls: seq<Call<K, V>>)
    requires cap >= 1
    ensures NoDrop(store, cap, calls) && AlwaysRefines(store, cap, calls)
    decreases |calls|
  {
    if calls != [] { CapacityOneSuffices(store, cap, calls[..|calls| - 1]); }
    RefinesIff(store, cap, calls);
  }

  lemma GetAnswers<K(!new), V>(store: map<K, V>, cap: nat, calls: seq<Call<K, V>>, k: K, now: nat)
    requires NoDrop(store, cap, calls)
    ensures LfuGet(LfuRun(store, cap, calls), k, now).1 == Find(Spec(store, calls), k)
  {
    RefinesIff(store, cap, calls);
    LfuGetEffect(LfuRun(store, cap, calls).cache, k, now);
  }

  /** At capacity 0 a single put over a store without the key is lost. */
  lemma PutIsDropped<K(!new), V>(store: map<K, V>, k: K, v: V, now: nat)
    requires k !in store
    ensures LfuGet(LfuRun(store, 0, [CPut(k, v)]), k, now).1 == None && Spec(store, [CPut(k, v)]) == store[k := v]
  {
    var calls := [CPut(k, v)];
    assert calls[..0] == [];
    var s0 := LfuBack(store, Lfu.New<K, V>(0), {});
    assert LfuRun(store, 0, []) == s0;
    assert LfuRun(store, 0, calls) == LfuPut(s0, k, v);
    hide LfuRun;
    DroppedPut(store, k, v, now);
  }

  lemma DroppedPut<K(!new), V>(store: map<K, V>, k: K, v: V, now: nat)
    requires k !in store
    ensures LfuGet(LfuPut(LfuBack(store, Lfu.New<K, V>(0), {}), k, v), k, now).1 == None
  {
    var s0 := LfuBack(store, Lfu.New<K, V>(0), {});
    assert LiveValues(s0.cache) == map[];
    assert FlushDirty(store, map[], {}) == store;
    hide LiveValues, FlushDirty;
  }
}
