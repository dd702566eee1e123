/** The write-back adapter over a W-TinyLFU cache: no write is ever lost, but at capacity 2 a get misses a
    live probation key and answers from the store. */
module WriteBackOverTinyLfu {
  import opened LinkedMaps
  import opened Caches
  import Sketch
  import T = TinyLfu
  import opened WB = WriteBack

  datatype TinyBack<K(==, !new), V> = TinyBack(store: map<K, V>, cache: T.State<K, V>, dirty: set<K>)

  /** All entries, whatever their segment. */
  function All<K(==, !new), V>(c: T.State<K, V>): map<K, CacheEntry<V>> {
    c.window.entries + c.probation.entries + c.protect.entries
  }

  function LiveValues<K(==, !new), V>(c: T.State<K, V>): map<K, V> {
    Values(All(c))
  }

  ghost predicate NoDeadlines<K(!new), V>(entries: map<K, CacheEntry<V>>) {
    forall k :: k in entries ==> entries[k].expiresAt.None?
  }

  ghost predicate TinyInv<K(!new), V>(s: TinyBack<K, V>) {
    s.cache.Valid() && NoDeadlines(All(s.cache)) && Coherent(s.store, LiveValues(s.cache), s.dirty)
  }

  function Shown<K(==, !new), V>(s: TinyBack<K, V>): map<K, V> {
    Merge(s.store, LiveValues(s.cache))
  }

  predicate TinyImminent<K(==, !new), V>(c: T.State<K, V>, k: K) {
    k !in All(c) && c.Len() >= c.totalCap
  }

  // ---------------------------------------------------------------------
  // What each move does to the entries
  // ---------------------------------------------------------------------

  lemma EntryIsAll<K(!new), V>(c: T.State<K, V>, k: K)
    requires c.Valid()
    ensures k in All(c) <==> k in c.index
    ensures T.Entry(c, k) == if k in All(c) then Some(All(c)[k]) else None
  {
  }

  lemma SumPut<K(!new), E>(a: map<K, E>, b: map<K, E>, c: map<K, E>, k: K, e: E)
    ensures a + b + c[k := e] == (a + b + c)[k := e]
    ensures k !in c ==> a + b[k := e] + c == (a + b + c)[k := e]
    ensures k !in b && k !in c ==> a[k := e] + b + c == (a + b + c)[k := e]
  {
    PairPut(a + b, c, k, e);
    PairPut(a, b, k, e);
  }

  lemma PairPut<K(!new), E>(a: map<K, E>, b: map<K, E>, k: K, e: E)
    ensures a + b[k := e] == (a + b)[k := e]
    ensures k !in b ==> a[k := e] + b == (a + b)[k := e]
  {
  }

  lemma SumMinus<K(!new), E>(a: map<K, E>, b: map<K, E>, c: map<K, E>, k: K)
    ensures k !in a && k !in b ==> a + b + (c - {k}) == (a + b + c) - {k}
    ensures k !in a && k !in c ==> a + (b - {k}) + c == (a + b + c) - {k}
    ensures k !in b && k !in c ==> (a - {k}) + b + c == (a + b + c) - {k}
  {
    PairMinus(a + b, c, k);
    PairMinus(a, b, k);
  }

  lemma PairMinus<K(!new), E>(a: map<K, E>, b: map<K, E>, k: K)
    ensures k !in a ==> a + (b - {k}) == (a + b) - {k}
    ensures k !in b ==> (a - {k}) + b == (a + b) - {k}
  {
  }

  lemma SumMove<K(!new), E>(a: map<K, E>, b: map<K, E>, c: map<K, E>, k: K, e: E)
    ensures a + (b - {k}) + c[k := e] == (a + b + c)[k := e]
    ensures k in c ==> a + b[k := c[k]] + (c - {k}) == a + b + c
  {
  }

  lemma AllMoveUp<K(!new), V>(c: T.State<K, V>, k: K, e: CacheEntry<V>)
    ensures All(T.MoveUp(c, k, e)) == All(c)[k := e]
  {
    SumMove(c.window.entries, c.probation.entries, c.protect.entries, k, e);
  }

  lemma AllDemote<K(!new), V>(c: T.State<K, V>)
    requires c.protect.Valid() && c.protect.order != []
    ensures All(T.Demote(c)) == All(c)
  {
    var d := c.protect.order[0];
    assert d in c.protect.order;
    SumMove(c.window.entries, c.probation.entries, c.protect.entries, d, c.protect.entries[d]);
  }

  lemma AllPromote<K(!new), V>(c: T.State<K, V>, k: K, e: CacheEntry<V>)
    requires c.Valid() && k in c.probation.entries
    ensures All(T.Promote(c, k, e)) == All(c)[k := e]
  {
    var t := T.MoveUp(c, k, e);
    AllMoveUp(c, k, e);
    T.MoveUpShape(c, k, e);
    hide T.MoveUp, T.Demote, All;
    if t.protect.Len() > c.protectedCap { AllDemote(t); }
  }

  lemma AllUpdate<K(!new), V>(c: T.State<K, V>, k: K, e: CacheEntry<V>)
    requires c.Valid() && k in c.index
    ensures All(T.Update(c, k, e)) == All(c)[k := e]
  {
    SumPut(c.window.entries, c.probation.entries, c.protect.entries, k, e);
    if c.index[k] == T.Window {
      assert k !in c.probation.entries && k !in c.protect.entries;
    } else if c.index[k] == T.Probation {
      AllPromote(c, k, e);
    }
    hide T.Promote, T.State.Valid, T.State.Indexed;
  }

  lemma AllDrop<K(!new), V>(c: T.State<K, V>, k: K)
    requires c.Valid()
    ensures All(T.Drop(c, k)) == All(c) - {k}
  {
    EntryIsAll(c, k);
    var w, p, q := c.window.entries, c.probation.entries, c.protect.entries;
    SumMinus(w, p, q, k);
    if k in c.index {
      match c.index[k]
      case Window => assert k !in p && k !in q;
      case Probation => assert k !in w && k !in q;
      case Protected => assert k !in w && k !in p;
    } else {
      AbsentMinus(All(c), k);
    }
    hide T.State.Valid, T.State.Indexed;
  }

  lemma AbsentMinus<K(!new), E>(m: map<K, E>, k: K)
    requires k !in m
    ensures m - {k} == m
  {
  }

  lemma MinusPutSubmap<K(!new), V>(m: map<K, CacheEntry<V>>, x: K, k: K, e: CacheEntry<V>)
    requires k !in m
    ensures Submap((m - {x})[k := e], m[k := e]) && Submap(m, m[k := e])
  {
  }

  lemma AllEnter<K(!new), V>(c: T.State<K, V>, k: K, e: CacheEntry<V>)
    requires k !in c.protect.entries
    ensures All(T.Enter(c, k, e)) == All(c)[k := e]
  {
    SumPut(c.window.entries, c.probation.entries, c.protect.entries, k, e);
  }

  lemma AllExpel<K(!new), V>(c: T.State<K, V>)
    requires c.probation.order != [] && c.Indexed() && c.probation.Valid()
    ensures All(T.Expel(c)) == All(c) - {c.probation.order[0]}
  {
    var x := c.probation.order[0];
    assert x in c.probation.order;
    assert x !in c.window.entries && x !in c.protect.entries;
    SumMinus(c.window.entries, c.probation.entries, c.protect.entries, x);
  }

  lemma ChallengeEffect<K(!new), V>(c: T.State<K, V>, k: K, e: CacheEntry<V>, admit: bool, rng: bv64)
    requires c.Linked() && c.Indexed() && k !in c.index && c.probation.order != []
    ensures Submap(All(T.Challenge(c, k, e, admit, rng)), All(c)[k := e])
  {
    var c' := c.(rng := rng);
    assert k !in c.protect.entries && k !in All(c);
    AllExpel(c');
    AllEnter(T.Expel(c'), k, e);
    MinusPutSubmap(All(c), c.probation.order[0], k, e);
    hide T.Enter, T.Expel, Submap, T.State.Indexed;
  }

  lemma GateEffect<K(!new), V>(c: T.State<K, V>, k: K, e: CacheEntry<V>, hash: K -> Sketch.Hash)
    requires c.Linked() && c.Indexed() && k !in c.index
    ensures Submap(All(T.Gate(c, k, e, hash)), All(c)[k := e])
    ensures c.probation.Len() + c.protect.Len() < c.mainCap ==> All(T.Gate(c, k, e, hash)) == All(c)[k := e]
  {
    assert k !in c.protect.entries && k !in All(c);
    AllEnter(c, k, e);
    MinusPutSubmap(All(c), k, k, e);
    if c.probation.order != [] {
      var (admit, rng) := T.Admits(c, hash(k), hash(c.probation.order[0]));
      ChallengeEffect(c, k, e, admit, rng);
    }
    SubmapSelf(All(c)[k := e]);
    hide T.Enter, T.Challenge, T.Admits, Submap, All, T.State.Indexed;
  }

  lemma SubmapSelf<K(!new), V>(m: map<K, CacheEntry<V>>)
    ensures Submap(m, m)
  {
  }

  /** The cache with the new key in its window. */
  function Opened<K(==, !new), V>(c: T.State<K, V>, k: K, e: CacheEntry<V>): T.State<K, V> {
    c.(index := c.index[k := T.Window], window := c.window.Insert(k, e))
  }

  lemma AllOpened<K(!new), V>(c: T.State<K, V>, k: K, e: CacheEntry<V>)
    requires c.Valid() && k !in c.index
    ensures All(Opened(c, k, e)) == All(c)[k := e]
  {
    assert k !in c.probation.entries && k !in c.protect.entries;
    SumPut(c.window.entries, c.probation.entries, c.protect.entries, k, e);
    hide T.State.Valid;
  }

  lemma AllPopWindow<K(!new), V>(c: T.State<K, V>)
    requires c.window.Valid() && c.window.order != [] && c.Indexed()
    ensures var x := c.window.order[0];
            x in All(c) && All(c)[x] == c.window.entries[x] && All(T.PopWindow(c)) == All(c) - {x}
  {
    var x := c.window.order[0];
    assert x in c.window.order;
    assert x !in c.probation.entries && x !in c.protect.entries;
    SumMinus(c.window.entries, c.probation.entries, c.protect.entries, x);
    hide T.State.Indexed, LinkedMap.Valid;
  }

  lemma PutBack<K(!new), V>(m: map<K, CacheEntry<V>>, x: K)
    requires x in m
    ensures (m - {x})[x := m[x]] == m
  {
  }

  lemma InsertNewEffect<K(!new), V>(c: T.State<K, V>, k: K, e: CacheEntry<V>, hash: K -> Sketch.Hash)
    requires c.Valid() && k !in c.index
    ensures Submap(All(T.InsertNew(c, k, e, hash)), All(c)[k := e])
    ensures c.Len() < c.totalCap ==> All(T.InsertNew(c, k, e, hash)) == All(c)[k := e]
  {
    var t := Opened(c, k, e);
    AllOpened(c, k, e);
    T.OpenShape(c, k, e);
    if t.window.Len() > t.windowCap {
      var x := t.window.order[0];
      AllPopWindow(t);
      T.PopWindowShape(t, c.window.Len() + 1, c.probation.Len(), c.protect.Len());
      PutBack(All(t), x);
      GateEffect(T.PopWindow(t), x, t.window.entries[x], hash);
      hide T.Gate, All, T.PopWindow;
    }
  }

  lemma RecordKeepsAll<K(!new), V>(c: T.State<K, V>, h: Sketch.Hash)
    requires c.Valid()
    ensures All(T.Record(c, h)) == All(c)
  {
  }

  lemma TinyPutEffect<K(!new), V>(c: T.State<K, V>, k: K, v: V, hash: K -> Sketch.Hash)
    requires c.Valid() && NoDeadlines(All(c))
    ensures var c' := T.InsertEntry(c, k, CacheEntry(v, None), hash);
            PutEffect(LiveValues(c), LiveValues(c'), k, v, TinyImminent(c, k)) && NoDeadlines(All(c'))
  {
    var e, r := CacheEntry(v, None), T.Record(c, hash(k));
    var c' := T.InsertEntry(c, k, e, hash);
    T.RecordValid(c, hash(k));
    RecordKeepsAll(c, hash(k));
    EntryIsAll(c, k);
    T.PutIsKept(c, k, e, hash);
    T.InsertValid(c, k, e, hash);
    EntryIsAll(c', k);
    if k in c.index { AllUpdate(r, k, e); } else { InsertNewEffect(r, k, e, hash); }
    assert Submap(All(c'), All(c)[k := e]) && (!TinyImminent(c, k) ==> All(c') == All(c)[k := e]);
    hide T.InsertEntry, All, T.Record, T.Entry;
    SubmapPut(All(c), All(c'), k, e, TinyImminent(c, k));
  }

  lemma SubmapPut<K(!new), V>(
    before: map<K, CacheEntry<V>>, after: map<K, CacheEntry<V>>, k: K, e: CacheEntry<V>, mayLose: bool)
    requires Submap(after, before[k := e]) && (!mayLose ==> after == before[k := e])
    requires k in after && NoDeadlines(before) && e.expiresAt.None?
    ensures PutEffect(Values(before), Values(after), k, e.value, mayLose) && NoDeadlines(after)
  {
  }

  // ---------------------------------------------------------------------
  // The adapter
  // ---------------------------------------------------------------------

  function TinyPut<K(==, !new), V>(s: TinyBack<K, V>, k: K, v: V, hash: K -> Sketch.Hash): TinyBack<K, V>
    requires s.cache.Valid()
  {
    TinyBack(if TinyImminent(s.cache, k) then FlushDirty(s.store, LiveValues(s.cache), s.dirty) else s.store,
             T.InsertEntry(s.cache, k, CacheEntry(v, None), hash),
             s.dirty + {k})
  }

  function TinyGet<K(==, !new), V>(s: TinyBack<K, V>, k: K, now: nat, hash: K -> Sketch.Hash)
    : (TinyBack<K, V>, Option<V>)
    requires s.cache.Valid()
  {
    var (cache, hit) := T.Lookup(s.cache, k, now, hash);
    (s.(cache := cache), Answer(s.store, hit, k))
  }

  function TinyStep<K(==, !new), V>(s: TinyBack<K, V>, c: Call<K, V>, hash: K -> Sketch.Hash): TinyBack<K, V>
    requires s.cache.Valid()
  {
    match c
    case CPut(k, v) => TinyPut(s, k, v, hash)
    case CGet(k, now) => TinyGet(s, k, now, hash).0
    case CRemove(k) => TinyBack(s.store - {k}, T.Delete(s.cache, k).0, s.dirty - {k})
    case CFlush => TinyBack(FlushDirty(s.store, LiveValues(s.cache), s.dirty), s.cache, {})
  }

  /** A live key that the cache's `get` does not find and the store does not have as it is. */
  predicate AnswersStale<K(==, !new), V(==)>(s: TinyBack<K, V>, k: K) {
    s.cache.totalCap == 2 && k in s.cache.index && s.cache.index[k] == T.Probation &&
    Find(s.store, k) != Find(LiveValues(s.cache), k)
  }

  lemma LookupKeepsAll<K(!new), V>(c: T.State<K, V>, k: K, now: nat, hash: K -> Sketch.Hash)
    requires c.Valid() && NoDeadlines(All(c))
    ensures All(T.Lookup(c, k, now, hash).0) == All(c)
    ensures T.Lookup(c, k, now, hash).1 ==
            if k !in c.index || (c.totalCap == 2 && c.index[k] == T.Probation) then None else Some(All(c)[k].value)
  {
    hide T.Update, All, T.Entry, T.Lookup, T.Record, T.State.Indexed, T.State.Split, LinkedMap.Valid;
    EntryIsAll(c, k);
    LookupUpdates(c, k, now, hash);
    if k in c.index {
      T.HitIff(c, k, now, hash);
      T.RecordValid(c, hash(k));
      RecordKeepsAll(c, hash(k));
      AllUpdate(T.Record(c, hash(k)), k, All(c)[k]);
      assert All(c)[k := All(c)[k]] == All(c);
    }
  }

  lemma LookupUpdates<K(!new), V>(c: T.State<K, V>, k: K, now: nat, hash: K -> Sketch.Hash)
    requires c.Valid()
    ensures k !in c.index ==> T.Lookup(c, k, now, hash) == (c, None)
    ensures k in c.index && T.Entry(c, k).Some? && !T.Entry(c, k).value.Expired(now) ==>
              && T.Record(c, hash(k)).Valid() && T.Record(c, hash(k)).index == c.index
              && T.Lookup(c, k, now, hash).0 == T.Update(T.Record(c, hash(k)), k, T.Entry(c, k).value)
  {
    T.RecordValid(c, hash(k));
    hide T.Update, T.Entry, Sketch.Record;
  }

  lemma TinyGetKeeps<K(!new), V>(s: TinyBack<K, V>, k: K, now: nat, hash: K -> Sketch.Hash)
    requires TinyInv(s)
    ensures TinyInv(TinyGet(s, k, now, hash).0) && Shown(TinyGet(s, k, now, hash).0) == Shown(s)
  {
    LookupKeepsAll(s.cache, k, now, hash);
    T.LookupValid(s.cache, k, now, hash);
    hide T.Lookup, All, T.State.Valid, NoDeadlines, Coherent, Merge;
  }

  lemma TinyGetStep<K(!new), V>(s: TinyBack<K, V>, k: K, now: nat, hash: K -> Sketch.Hash)
    requires TinyInv(s)
    ensures TinyInv(TinyGet(s, k, now, hash).0) && Shown(TinyGet(s, k, now, hash).0) == Shown(s)
    ensures TinyGet(s, k, now, hash).1 == Find(Shown(s), k) <==> !AnswersStale(s, k)
  {
    TinyGetKeeps(s, k, now, hash);
    LookupKeepsAll(s.cache, k, now, hash);
    EntryIsAll(s.cache, k);
    hide T.Lookup, All, TinyInv, NoDeadlines;
  }

  lemma TinyPutStep<K(!new), V>(s: TinyBack<K, V>, k: K, v: V, hash: K -> Sketch.Hash)
    requires TinyInv(s)
    ensures TinyInv(TinyPut(s, k, v, hash)) && Shown(TinyPut(s, k, v, hash)) == Shown(s)[k := v]
  {
    TinyPutEffect(s.cache, k, v, hash);
    T.InsertValid(s.cache, k, CacheEntry(v, None), hash);
    hide T.InsertEntry, All;
    PutRefines(s.store, LiveValues(s.cache), LiveValues(TinyPut(s, k, v, hash).cache), s.dirty, k, v,
               TinyImminent(s.cache, k));
  }

  lemma TinyRemoveEffect<K(!new), V>(c: T.State<K, V>, k: K)
    requires c.Valid() && NoDeadlines(All(c))
    ensures T.Delete(c, k).0.Valid() && NoDeadlines(All(T.Delete(c, k).0))
    ensures LiveValues(T.Delete(c, k).0) == LiveValues(c) - {k}
  {
    AllDrop(c, k);
    T.DropValid(c, k);
    hide T.Drop, All, T.State.Valid;
    ValuesMinus(All(c), k);
  }

  lemma ValuesMinus<K(!new), V>(m: map<K, CacheEntry<V>>, k: K)
    ensures Values(m - {k}) == Values(m) - {k}
  {
  }

  lemma CapacityKept<K(!new), V>(s: TinyBack<K, V>, c: Call<K, V>, hash: K -> Sketch.Hash)
    requires s.cache.Valid()
    ensures TinyStep(s, c, hash).cache.totalCap == s.cache.totalCap
  {
    match c
    case CPut(k, v) => T.InsertCap(s.cache, k, CacheEntry(v, None), hash); hide T.InsertEntry;
    case CGet(k, now) => T.LookupCap(s.cache, k, now, hash); hide T.Lookup;
    case CRemove(k) =>
    case CFlush =>
  }

  lemma TinyStepRefines<K(!new), V>(s: TinyBack<K, V>, c: Call<K, V>, hash: K -> Sketch.Hash)
    requires TinyInv(s)
    ensures TinyInv(TinyStep(s, c, hash)) && Shown(TinyStep(s, c, hash)) == SpecStep(Shown(s), c)
    ensures TinyStep(s, c, hash).cache.totalCap == s.cache.totalCap
  {
    CapacityKept(s, c, hash);
    match c
    case CPut(k, v) => TinyPutStep(s, k, v, hash); hide TinyPut;
    case CGet(k, now) => TinyGetStep(s, k, now, hash); hide TinyGet;
    case CRemove(k) =>
      TinyRemoveEffect(s.cache, k);
      RemoveRefines(s.store, LiveValues(s.cache), s.dirty, k);
      hide T.Delete, LiveValues;
    case CFlush => FlushKeepsMerge(s.store, LiveValues(s.cache), s.dirty);
  }

  // ---------------------------------------------------------------------
  // Runs
  // ---------------------------------------------------------------------

  ghost function TinyRun<K(!new), V>(store: map<K, V>, cap: nat, calls: seq<Call<K, V>>, hash: K -> Sketch.Hash)
    : (s: TinyBack<K, V>)
    ensures TinyInv(s) && s.cache.totalCap == if cap < 2 then 2 else cap
  {
    if calls == [] then TinyBack(store, T.New(cap), {})
    else
      var before := TinyRun(store, cap, calls[..|calls| - 1], hash);
      TinyStepRefines(before, calls[|calls| - 1], hash);
      TinyStep(before, calls[|calls| - 1], hash)
  }

  lemma NothingCached<K(!new), V>(store: map<K, V>, cap: nat)
    ensures Shown(TinyBack(store, T.New<K, V>(cap), {})) == store
  {
    NothingLive<K, V>(cap);
    hide LiveValues, T.New;
  }

  lemma NothingLive<K(!new), V>(cap: nat)
    ensures LiveValues(T.New<K, V>(cap)) == map[]
  {
    hide Sketch.NewCounter, T.State.Valid;
  }

  /** In every run, at every capacity, cache and store together are the specification map. */
  lemma {:induction false} RunRefines<K(!new), V>(
    store: map<K, V>, cap: nat, calls: seq<Call<K, V>>, hash: K -> Sketch.Hash)
    ensures Shown(TinyRun(store, cap, calls, hash)) == Spec(store, calls)
    decreases |calls|
  {
    if calls == [] {
      NothingCached<K, V>(store, cap);
      hide Shown, T.New, TinyInv;
    } else {
      hide Shown, TinyStep, SpecStep, TinyInv;
      var front := calls[..|calls| - 1];
      RunRefines(store, cap, front, hash);
      TinyStepRefines(TinyRun(store, cap, front, hash), calls[|calls| - 1], hash);
    }
  }

  /** A get answers the last written value if and only if the key is not an unflushed probation key of a
      cache of capacity 2. */
  lemma GetAnswersIff<K(!new), V>(
    store: map<K, V>, cap: nat, calls: seq<Call<K, V>>, k: K, now: nat, hash: K -> Sketch.Hash)
    ensures TinyGet(TinyRun(store, cap, calls, hash), k, now, hash).1 == Find(Spec(store, calls), k)
            <==> !AnswersStale(TinyRun(store, cap, calls, hash), k)
  {
    RunRefines(store, cap, calls, hash);
    TinyGetStep(TinyRun(store, cap, calls, hash), k, now, hash);
  }

  /** From capacity 3 on every get answers the last written value. */
  lemma CapacityThreeSuffices<K(!new), V>(
    store: map<K, V>, cap: nat, calls: seq<Call<K, V>>, k: K, now: nat, hash: K -> Sketch.Hash)
    requires cap >= 3
    ensures TinyGet(TinyRun(store, cap, calls, hash), k, now, hash).1 == Find(Spec(store, calls), k)
  {
    GetAnswersIff(store, cap, calls, k, now, hash);
  }

  lemma RunSnoc<K(!new), V>(store: map<K, V>, cap: nat, calls: seq<Call<K, V>>, c: Call<K, V>, hash: K -> Sketch.Hash)
    ensures TinyRun(store, cap, calls + [c], hash) == TinyStep(TinyRun(store, cap, calls, hash), c, hash)
    ensures Spec(store, calls + [c]) == SpecStep(Spec(store, calls), c)
  {
    hide TinyStep, SpecStep, TinyInv;
    assert (calls + [c])[..|calls|] == calls;
  }

  /** Two puts. */
  function Puts(): seq<Call<nat, nat>> { [] + [CPut(1, 10)] + [CPut(2, 20)] }

  lemma UnflushedPut<K(!new), V>(s: TinyBack<K, V>, k: K, v: V, hash: K -> Sketch.Hash)
    requires s.cache.Valid() && s.cache.Len() < s.cache.totalCap
    ensures TinyPut(s, k, v, hash) ==
            TinyBack(s.store, T.InsertEntry(s.cache, k, CacheEntry(v, None), hash), s.dirty + {k})
  {
    hide T.InsertEntry;
  }

  lemma PutTwice(hash: nat -> Sketch.Hash)
    ensures var s := TinyPut(TinyBack(map[], T.New<nat, nat>(2), {}), 1, 10, hash);
            && s.cache.Valid() && TinyPut(s, 2, 20, hash).store == map[]
            && T.Lookup(TinyPut(s, 2, 20, hash).cache, 1, 0, hash).1 == None
  {
    T.FirstPut(hash);
    T.MissAtCapacityTwo(hash);
    var s0: TinyBack<nat, nat> := TinyBack(map[], T.New<nat, nat>(2), {});
    UnflushedPut(s0, 1, 10, hash);
    var s1 := TinyPut(s0, 1, 10, hash);
    hide T.InsertEntry, T.Lookup, TinyPut;
    UnflushedPut(s1, 2, 20, hash);
  }

  lemma TwoPuts(hash: nat -> Sketch.Hash)
    ensures var s := TinyRun(map[], 2, Puts(), hash); s.store == map[] && T.Lookup(s.cache, 1, 0, hash).1 == None
    ensures Spec(map[], Puts()) == map[1 := 10, 2 := 20]
  {
    var s0: TinyBack<nat, nat> := TinyBack(map[], T.New<nat, nat>(2), {});
    assert TinyRun<nat, nat>(map[], 2, [], hash) == s0 && Spec<nat, nat>(map[], []) == map[];
    hide TinyPut, T.Lookup, TinyRun, Spec;
    RunSnoc<nat, nat>(map[], 2, [], CPut(1, 10), hash);
    RunSnoc<nat, nat>(map[], 2, [] + [CPut(1, 10)], CPut(2, 20), hash);
    PutTwice(hash);
  }

  /** At capacity 2: put 1, put 2, get 1. The value of key 1 is in the cache and the get answers None. */
  lemma StaleAnswer(hash: nat -> Sketch.Hash)
    ensures var s := TinyRun(map[], 2, Puts(), hash);
            TinyGet(s, 1, 0, hash).1 == None && Find(Shown(s), 1) == Find(Spec(map[], Puts()), 1) == Some(10)
  {
    hide TinyRun, T.Lookup, Spec, Shown, Puts, TinyInv;
    TwoPuts(hash);
    RunRefines(map[], 2, Puts(), hash);
  }
}
