/** The write-back adapter over an ARC cache, which evicts on a ghost hit of `get`: the adapter does not
    flush before a `get`, so an unflushed write can disappear. */
module WriteBackOverArc {
  import opened LinkedMaps
  import opened Caches
  import Arc
  import opened WB = WriteBack

  datatype ArcBack<K(==, !new), V> = ArcBack(store: map<K, V>, cache: Arc.State<K, V>, dirty: set<K>)

  function LiveValues<K(==, !new), V>(c: Arc.State<K, V>): map<K, V> {
    Values(c.t1.entries) + Values(c.t2.entries)
  }

  ghost predicate NoDeadlines<K(!new), V>(c: Arc.State<K, V>) {
    && (forall k :: k in c.t1.entries ==> c.t1.entries[k].expiresAt.None?)
    && (forall k :: k in c.t2.entries ==> c.t2.entries[k].expiresAt.None?)
  }

  ghost predicate ArcInv<K(!new), V>(s: ArcBack<K, V>) {
    s.cache.Valid() && NoDeadlines(s.cache) && Coherent(s.store, LiveValues(s.cache), s.dirty)
  }

  function Shown<K(==, !new), V>(s: ArcBack<K, V>): map<K, V> {
    Merge(s.store, LiveValues(s.cache))
  }

  predicate ArcImminent<K(==, !new), V>(c: Arc.State<K, V>, k: K) {
    !c.Live(k) && c.Len() >= c.cap
  }

  function ArcPut<K(==, !new), V>(s: ArcBack<K, V>, k: K, v: V): ArcBack<K, V> {
    ArcBack(if ArcImminent(s.cache, k) then FlushDirty(s.store, LiveValues(s.cache), s.dirty) else s.store,
            Arc.InsertEntry(s.cache, k, CacheEntry(v, None)).0,
            s.dirty + {k})
  }

  function ArcGet<K(==, !new), V>(s: ArcBack<K, V>, k: K, now: nat): (ArcBack<K, V>, Option<V>) {
    var (cache, hit) := Arc.Lookup(s.cache, k, now);
    (s.(cache := cache), Answer(s.store, hit, k))
  }

  function ArcStep<K(==, !new), V>(s: ArcBack<K, V>, c: Call<K, V>): ArcBack<K, V> {
    match c
    case CPut(k, v) => ArcPut(s, k, v)
    case CGet(k, now) => ArcGet(s, k, now).0
    case CRemove(k) => ArcBack(s.store - {k}, Arc.Delete(s.cache, k).0, s.dirty - {k})
    case CFlush => ArcBack(FlushDirty(s.store, LiveValues(s.cache), s.dirty), s.cache, {})
  }

  // ---------------------------------------------------------------------
  // What each call does to the live values
  // ---------------------------------------------------------------------

  /** The key that `replace` would turn into a ghost. */
  function Victim<K(==, !new), V>(c: Arc.State<K, V>): Option<K> {
    if c.t1.Len() >= Arc.Max(c.p, 1) then Some(c.t1.order[0])
    else if c.t2.order != [] then Some(c.t2.order[0])
    else if c.t1.order != [] then Some(c.t1.order[0])
    else None
  }

  lemma MergeMinusLeft<K(!new), V>(a: map<K, CacheEntry<V>>, b: map<K, CacheEntry<V>>, x: K)
    requires x !in b
    ensures Values(a - {x}) + Values(b) == (Values(a) + Values(b)) - {x}
  {
  }

  lemma MergeMinusRight<K(!new), V>(a: map<K, CacheEntry<V>>, b: map<K, CacheEntry<V>>, x: K)
    requires x !in a
    ensures Values(a) + Values(b - {x}) == (Values(a) + Values(b)) - {x}
  {
  }

  lemma MergePlusRight<K(!new), V>(a: map<K, CacheEntry<V>>, b: map<K, CacheEntry<V>>, x: K, e: CacheEntry<V>)
    ensures Values(a - {x}) + Values(b[x := e]) == (Values(a) + Values(b))[x := e.value]
    ensures Values(a) + Values(b[x := e]) == (Values(a) + Values(b))[x := e.value]
    ensures x !in b ==> Values(a[x := e]) + Values(b) == (Values(a) + Values(b))[x := e.value]
  {
    ValuesPut(a, x, e);
    ValuesPut(b, x, e);
    hide Values;
  }

  lemma ValuesPut<K(!new), V>(m: map<K, CacheEntry<V>>, x: K, e: CacheEntry<V>)
    ensures Values(m[x := e]) == Values(m)[x := e.value] && Values(m - {x}) == Values(m) - {x}
    ensures x in Values(m) <==> x in m
  {
  }

  lemma ReplaceLosesVictim<K(!new), V>(c: Arc.State<K, V>)
    requires c.Valid()
    ensures match Victim(c)
            case None => LiveValues(Arc.Replace(c)) == LiveValues(c)
            case Some(x) => x in LiveValues(c) && LiveValues(Arc.Replace(c)) == LiveValues(c) - {x}
  {
    if Victim(c).Some? {
      var x := Victim(c).value;
      if c.t1.order != [] && x == c.t1.order[0] {
        assert x in c.t1.order;
        MergeMinusLeft(c.t1.entries, c.t2.entries, x);
      } else {
        assert x in c.t2.order;
        MergeMinusRight(c.t1.entries, c.t2.entries, x);
      }
    }
  }

  /** `after` holds nothing that `before` does not, and everything unless `mayLose`. */
  ghost predicate Shrinks<K(!new), V>(before: map<K, V>, after: map<K, V>, mayLose: bool) {
    && (forall j :: j in after ==> j in before && after[j] == before[j])
    && (!mayLose ==> after == before)
  }

  lemma ReplaceShrinks<K(!new), V>(c: Arc.State<K, V>)
    requires c.Valid() && NoDeadlines(c)
    ensures Shrinks(LiveValues(c), LiveValues(Arc.Replace(c)), true) && NoDeadlines(Arc.Replace(c))
  {
    ReplaceLosesVictim(c);
  }

  lemma DropGhostKeepsLive<K(!new), V>(c: Arc.State<K, V>)
    ensures LiveValues(Arc.DropGhost(c)) == LiveValues(c) && (NoDeadlines(c) ==> NoDeadlines(Arc.DropGhost(c)))
  {
  }

  lemma AdmitShrinks<K(!new), V>(c: Arc.State<K, V>)
    requires c.Valid() && NoDeadlines(c)
    ensures Shrinks(LiveValues(c), LiveValues(Arc.AdmitMiss(c)), c.Len() >= c.cap) && NoDeadlines(Arc.AdmitMiss(c))
  {
    hide Arc.Replace, Arc.DropGhost, LiveValues, NoDeadlines, Shrinks;
    DropGhostKeepsLive(c);
    Arc.DropGhostValid(c);
    ReplaceShrinks(c);
    ReplaceShrinks(Arc.DropGhost(c));
    ShrinkNot(LiveValues(c), c.Len() >= c.cap);
    if c.b1 != [] { SameLive(c, c.(b1 := c.b1[1..])); }
  }

  lemma ShrinkNot<K(!new), V>(live: map<K, V>, mayLose: bool)
    ensures Shrinks(live, live, mayLose)
  {
  }

  lemma SameLive<K(!new), V>(c: Arc.State<K, V>, c': Arc.State<K, V>)
    requires c'.t1 == c.t1 && c'.t2 == c.t2
    ensures LiveValues(c') == LiveValues(c) && NoDeadlines(c') == NoDeadlines(c)
  {
  }

  lemma RoomShrinks<K(!new), V>(c: Arc.State<K, V>)
    requires c.Valid() && NoDeadlines(c)
    ensures Shrinks(LiveValues(c), LiveValues(Arc.MakeRoom(c)), c.Len() >= c.cap) && NoDeadlines(Arc.MakeRoom(c))
  {
    hide Arc.Replace, LiveValues, NoDeadlines, Shrinks;
    ReplaceShrinks(c);
    ShrinkNot(LiveValues(c), false);
  }

  lemma ShrinkThenPut<K(!new), V>(before: map<K, V>, mid: map<K, V>, after: map<K, V>, k: K, v: V, mayLose: bool)
    requires Shrinks(before, mid, mayLose) && after == mid[k := v]
    ensures PutEffect(before, after, k, v, mayLose)
  {
  }

  lemma PutLive<K(!new), V>(c: Arc.State<K, V>, k: K, v: V)
    requires c.Valid() && NoDeadlines(c) && c.Live(k)
    ensures LiveValues(Arc.InsertEntry(c, k, CacheEntry(v, None)).0) == LiveValues(c)[k := v]
    ensures NoDeadlines(Arc.InsertEntry(c, k, CacheEntry(v, None)).0)
  {
    MergePlusRight(c.t1.entries, c.t2.entries, k, CacheEntry(v, None));
  }

  lemma InsertLive<K(!new), V>(r: Arc.State<K, V>, k: K, v: V)
    requires NoDeadlines(r)
    ensures var e := CacheEntry(v, None);
            && LiveValues(r.(t2 := r.t2.Insert(k, e))) == LiveValues(r)[k := v]
            && NoDeadlines(r.(t2 := r.t2.Insert(k, e)))
            && NoDeadlines(r.(t1 := r.t1.Insert(k, e)))
            && (k !in LiveValues(r) ==> LiveValues(r.(t1 := r.t1.Insert(k, e))) == LiveValues(r)[k := v])
  {
    assert k in r.t2.entries ==> k in LiveValues(r);
    hide Values;
    MergePlusRight(r.t1.entries, r.t2.entries, k, CacheEntry(v, None));
  }

  lemma PutGhost<K(!new), V>(c: Arc.State<K, V>, c': Arc.State<K, V>, k: K, v: V)
    requires c'.Valid() && NoDeadlines(c') && c'.cap == c.cap && c'.t1 == c.t1 && c'.t2 == c.t2
    ensures var r := Arc.MakeRoom(c');
            var t := r.(t2 := r.t2.Insert(k, CacheEntry(v, None)));
            PutEffect(LiveValues(c), LiveValues(t), k, v, c.Len() >= c.cap) && NoDeadlines(t)
  {
    hide Arc.MakeRoom, Shrinks, PutEffect, LiveValues, NoDeadlines, Arc.State.Valid;
    RoomShrinks(c');
    SameLive(c, c');
    var r := Arc.MakeRoom(c');
    InsertLive(r, k, v);
    ShrinkThenPut(LiveValues(c), LiveValues(r), LiveValues(r)[k := v], k, v, c.Len() >= c.cap);
  }

  lemma PutMiss<K(!new), V>(c: Arc.State<K, V>, k: K, v: V)
    requires c.Valid() && NoDeadlines(c) && !c.Live(k)
    ensures var r := Arc.AdmitMiss(c);
            var t := r.(t1 := r.t1.Insert(k, CacheEntry(v, None)));
            PutEffect(LiveValues(c), LiveValues(t), k, v, c.Len() >= c.cap) && NoDeadlines(t)
  {
    assert k !in LiveValues(c);
    hide Arc.AdmitMiss, PutEffect, LiveValues, NoDeadlines, Arc.State.Valid;
    AdmitShrinks(c);
    var r := Arc.AdmitMiss(c);
    InsertLive(r, k, v);
    ShrinkThenPut(LiveValues(c), LiveValues(r), LiveValues(r)[k := v], k, v, c.Len() >= c.cap);
  }

  lemma PutAlone<K(!new), V>(live: map<K, V>, k: K, v: V)
    ensures PutEffect(live, live[k := v], k, v, false)
  {
  }

  lemma ArcPutEffect<K(!new), V>(c: Arc.State<K, V>, k: K, v: V)
    requires c.Valid() && NoDeadlines(c)
    ensures var c' := Arc.InsertEntry(c, k, CacheEntry(v, None)).0;
            PutEffect(LiveValues(c), LiveValues(c'), k, v, ArcImminent(c, k)) && NoDeadlines(c')
  {
    if c.Live(k) {
      PutLive(c, k, v);
      PutAlone(LiveValues(c), k, v);
      hide Arc.InsertEntry, PutEffect, LiveValues, NoDeadlines;
    } else if k in c.b1 {
      var p := Arc.Raise(c.p, |Without(c.b1, k)|, |c.b2|, c.cap);
      Arc.ForgetB1(c, k, p);
      SameLive(c, c.(b1 := Without(c.b1, k), p := p));
      PutGhost(c, c.(b1 := Without(c.b1, k), p := p), k, v);
      hide Arc.MakeRoom, Arc.AdmitMiss, PutEffect, LiveValues, NoDeadlines;
    } else if k in c.b2 {
      var p := Arc.Lower(c.p, |c.b1|, |Without(c.b2, k)|);
      Arc.ForgetB2(c, k, p);
      SameLive(c, c.(b2 := Without(c.b2, k), p := p));
      PutGhost(c, c.(b2 := Without(c.b2, k), p := p), k, v);
      hide Arc.MakeRoom, Arc.AdmitMiss, PutEffect, LiveValues, NoDeadlines;
    } else {
      PutMiss(c, k, v);
      hide Arc.MakeRoom, Arc.AdmitMiss, PutEffect, LiveValues, NoDeadlines;
    }
  }

  /** The cache after the target has moved for a ghost hit of `get`, just before `replace`. */
  function Adapted<K(==, !new), V>(c: Arc.State<K, V>, k: K): Arc.State<K, V> {
    if k in c.b1 then c.(p := Arc.Raise(c.p, |c.b1|, |c.b2|, c.cap)) else c.(p := Arc.Lower(c.p, |c.b1|, |c.b2|))
  }

  predicate GhostHit<K(==, !new), V>(c: Arc.State<K, V>, k: K) {
    !c.Live(k) && (k in c.b1 || k in c.b2)
  }

  lemma ArcGetEffect<K(!new), V>(c: Arc.State<K, V>, k: K, now: nat)
    requires c.Valid() && NoDeadlines(c)
    ensures var (c', hit) := Arc.Lookup(c, k, now);
            && NoDeadlines(c') && hit == Find(LiveValues(c), k)
            && (if GhostHit(c, k) then c' == Arc.Replace(Adapted(c, k)) else LiveValues(c') == LiveValues(c))
  {
    if c.Live(k) {
      LiveGetEffect(c, k, now);
    } else if GhostHit(c, k) {
      ReplaceShrinks(Adapted(c, k));
    }
    hide Arc.Replace;
  }

  lemma LiveGetEffect<K(!new), V>(c: Arc.State<K, V>, k: K, now: nat)
    requires c.Valid() && NoDeadlines(c) && c.Live(k)
    ensures var (c', hit) := Arc.Lookup(c, k, now);
            NoDeadlines(c') && hit == Find(LiveValues(c), k) && LiveValues(c') == LiveValues(c)
  {
    if k in c.t1.entries { T1GetEffect(c, k, now); } else { T2GetEffect(c, k, now); }
    hide Arc.Lookup, LiveValues, NoDeadlines;
  }

  lemma T1GetMoves<K(!new), V>(c: Arc.State<K, V>, k: K, now: nat)
    requires c.Valid() && NoDeadlines(c) && k in c.t1.entries
    ensures var (c', hit) := Arc.Lookup(c, k, now);
            var e := c.t1.entries[k];
            && c'.t1.entries == c.t1.entries - {k} && c'.t2.entries == c.t2.entries[k := e]
            && hit == Some(e.value) && k in LiveValues(c) && LiveValues(c)[k] == e.value
  {
    assert k !in c.t2.entries && !c.t1.entries[k].Expired(now);
    hide LinkedMap.Valid;
  }

  lemma T1GetEffect<K(!new), V>(c: Arc.State<K, V>, k: K, now: nat)
    requires c.Valid() && NoDeadlines(c) && k in c.t1.entries
    ensures var (c', hit) := Arc.Lookup(c, k, now);
            NoDeadlines(c') && hit == Find(LiveValues(c), k) && LiveValues(c') == LiveValues(c)
  {
    var e := c.t1.entries[k];
    T1GetMoves(c, k, now);
    hide Arc.State.Valid, Arc.Lookup, Values;
    MergePlusRight(c.t1.entries, c.t2.entries, k, e);
    PutSame(LiveValues(c), k);
  }

  lemma T2GetEffect<K(!new), V>(c: Arc.State<K, V>, k: K, now: nat)
    requires c.Valid() && NoDeadlines(c) && k !in c.t1.entries && k in c.t2.entries
    ensures var (c', hit) := Arc.Lookup(c, k, now);
            NoDeadlines(c') && hit == Find(LiveValues(c), k) && LiveValues(c') == LiveValues(c)
  {
    PutSame(c.t2.entries, k);
    var c' := Arc.Lookup(c, k, now).0;
    assert c'.t1 == c.t1 && c'.t2.entries == c.t2.entries;
    hide Arc.State.Valid;
  }

  lemma PutSame<K(!new), V>(m: map<K, V>, k: K)
    requires k in m
    ensures m[k := m[k]] == m
  {
  }

  lemma ArcRemoveEffect<K(!new), V>(c: Arc.State<K, V>, k: K)
    requires c.Valid() && NoDeadlines(c)
    ensures LiveValues(Arc.Delete(c, k).0) == LiveValues(c) - {k} && NoDeadlines(Arc.Delete(c, k).0)
  {
    if k in c.t1.entries {
      MergeMinusLeft(c.t1.entries, c.t2.entries, k);
    } else {
      MergeMinusRight(c.t1.entries, c.t2.entries, k);
      assert c.t2.entries - {k} == c.t2.entries || k in c.t2.entries;
    }
  }

  // ---------------------------------------------------------------------
  // One call
  // ---------------------------------------------------------------------

  /** The call is a get that hits a ghost whose victim is not in the store with its current value. */
  predicate LosesWrite<K(==, !new), V(==)>(s: ArcBack<K, V>, c: Call<K, V>) {
    c.CGet? && GhostHit(s.cache, c.key) &&
    var x := Victim(Adapted(s.cache, c.key));
    x.Some? && Find(s.store, x.value) != Find(LiveValues(s.cache), x.value)
  }

  lemma AdaptedKeeps<K(!new), V>(c: Arc.State<K, V>, k: K)
    requires c.Valid()
    ensures Adapted(c, k).Valid() && Adapted(c, k).t1 == c.t1 && Adapted(c, k).t2 == c.t2
  {
  }

  lemma GhostGetKeepsWritesIff<K(!new), V>(s: ArcBack<K, V>, k: K, now: nat)
    requires ArcInv(s) && GhostHit(s.cache, k)
    ensures Shown(ArcGet(s, k, now).0) == Shown(s) <==> !LosesWrite(s, CGet(k, now))
    ensures Coherent(s.store, LiveValues(ArcGet(s, k, now).0.cache), s.dirty)
  {
    hide Arc.Replace, Arc.Lookup, LiveValues, Victim, Adapted, Arc.State.Valid, NoDeadlines, Merge, Coherent;
    var c := Adapted(s.cache, k);
    ArcGetEffect(s.cache, k, now);
    AdaptedKeeps(s.cache, k);
    SameLive(s.cache, c);
    ReplaceLosesVictim(c);
    if Victim(c).Some? {
      var x := Victim(c).value;
      LossUnnoticedIff(s.store, LiveValues(c), x);
      CoherentMinus(s.store, LiveValues(c), s.dirty, x);
    }
  }

  lemma CoherentMinus<K(!new), V>(store: map<K, V>, cached: map<K, V>, dirty: set<K>, x: K)
    requires Coherent(store, cached, dirty)
    ensures Coherent(store, cached - {x}, dirty)
  {
  }

  lemma ArcGetStep<K(!new), V>(s: ArcBack<K, V>, k: K, now: nat)
    requires ArcInv(s)
    ensures ArcInv(ArcGet(s, k, now).0) && ArcGet(s, k, now).1 == Find(Shown(s), k)
    ensures Shown(ArcGet(s, k, now).0) == Shown(s) <==> !LosesWrite(s, CGet(k, now))
  {
    ArcGetEffect(s.cache, k, now);
    Arc.LookupValid(s.cache, k, now);
    if GhostHit(s.cache, k) { GhostGetKeepsWritesIff(s, k, now); }
    hide Arc.Lookup;
  }

  lemma ArcPutStep<K(!new), V>(s: ArcBack<K, V>, k: K, v: V)
    requires ArcInv(s)
    ensures ArcInv(ArcPut(s, k, v)) && Shown(ArcPut(s, k, v)) == Shown(s)[k := v]
  {
    ArcPutEffect(s.cache, k, v);
    Arc.InsertValid(s.cache, k, CacheEntry(v, None));
    PutRefines(s.store, LiveValues(s.cache), LiveValues(ArcPut(s, k, v).cache), s.dirty, k, v, ArcImminent(s.cache, k));
    hide Arc.InsertEntry;
  }

  /** Every call keeps the invariant, and every call acts as on a plain map except a get that loses a
      write. */
  lemma ArcStepIff<K(!new), V>(s: ArcBack<K, V>, c: Call<K, V>)
    requires ArcInv(s)
    ensures ArcInv(ArcStep(s, c))
    ensures Shown(ArcStep(s, c)) == SpecStep(Shown(s), c) <==> !LosesWrite(s, c)
  {
    match c
    case CPut(k, v) => ArcPutStep(s, k, v);
    case CGet(k, now) => ArcGetStep(s, k, now);
    case CRemove(k) =>
      ArcRemoveEffect(s.cache, k);
      Arc.DeleteValid(s.cache, k);
      RemoveRefines(s.store, LiveValues(s.cache), s.dirty, k);
      hide Arc.Delete;
    case CFlush => FlushKeepsMerge(s.store, LiveValues(s.cache), s.dirty);
  }

  // ---------------------------------------------------------------------
  // Runs
  // ---------------------------------------------------------------------

  ghost function ArcRun<K(!new), V>(store: map<K, V>, cap: nat, calls: seq<Call<K, V>>): (s: ArcBack<K, V>)
    ensures ArcInv(s)
  {
    if calls == [] then ArcBack(store, Arc.New(cap), {})
    else
      var before := ArcRun(store, cap, calls[..|calls| - 1]);
      ArcStepIff(before, calls[|calls| - 1]);
      ArcStep(before, calls[|calls| - 1])
  }

  /** No get of the run hits a ghost whose victim is unflushed. */
  ghost predicate NoLoss<K(!new), V>(store: map<K, V>, cap: nat, calls: seq<Call<K, V>>) {
    calls == [] ||
    (NoLoss(store, cap, calls[..|calls| - 1]) &&
     !LosesWrite(ArcRun(store, cap, calls[..|calls| - 1]), calls[|calls| - 1]))
  }

  /** Along the whole run the adapter shows the specification map. */
  ghost predicate AlwaysRefines<K(!new), V>(store: map<K, V>, cap: nat, calls: seq<Call<K, V>>) {
    && (calls == [] || AlwaysRefines(store, cap, calls[..|calls| - 1]))
    && Shown(ArcRun(store, cap, calls)) == Spec(store, calls)
  }

  /** Over an ARC cache the adapter refines the map, all along a run, if and only if no get of the run
      hits a ghost whose victim is unflushed. */
  lemma {:induction false} RefinesIff<K(!new), V>(store: map<K, V>, cap: nat, calls: seq<Call<K, V>>)
    ensures AlwaysRefines(store, cap, calls) <==> NoLoss(store, cap, calls)
    decreases |calls|
  {
    if calls == [] {
      assert LiveValues(Arc.New<K, V>(cap)) == map[];
    } else {
      var front := calls[..|calls| - 1];
      RefinesIff(store, cap, front);
      ArcStepIff(ArcRun(store, cap, front), calls[|calls| - 1]);
      hide Shown, LosesWrite, ArcStep, SpecStep;
    }
  }

  /** While nothing is lost every get answers the last written value. */
  lemma GetAnswers<K(!new), V>(store: map<K, V>, cap: nat, calls: seq<Call<K, V>>, k: K, now: nat)
    requires NoLoss(store, cap, calls)
    ensures ArcGet(ArcRun(store, cap, calls), k, now).1 == Find(Spec(store, calls), k)
  {
    RefinesIff(store, cap, calls);
    ArcGetStep(ArcRun(store, cap, calls), k, now);
  }

  // ---------------------------------------------------------------------
  // A lost write
  // ---------------------------------------------------------------------

  lemma TwoPuts()
    ensures var s0 := ArcBack(map[], Arc.New<nat, nat>(1), {});
            var s2 := ArcPut(ArcPut(s0, 0, 0), 1, 0);
            && s2.store == map[0 := 0] && s2.dirty == {0, 1}
            && s2.cache == Arc.New<nat, nat>(1).(t1 := LinkedMap([1], map[1 := CacheEntry(0, None)]), b1 := [0])
  {
    Arc.GrowStartPuts();
    hide Arc.InsertEntry;
    FirstTwoPuts(Arc.New<nat, nat>(1), Arc.New<nat, nat>(1).(t1 := LinkedMap([0], map[0 := CacheEntry(0, None)])));
  }

  lemma FirstTwoPuts(c0: Arc.State<nat, nat>, c1: Arc.State<nat, nat>)
    requires c0 == Arc.New<nat, nat>(1) && c1 == c0.(t1 := LinkedMap([0], map[0 := CacheEntry(0, None)]))
    ensures !ArcImminent(c0, 0) && ArcImminent(c1, 1) && FlushDirty(map[], LiveValues(c1), {} + {0}) == map[0 := 0]
  {
    assert LiveValues(c1) == map[0 := 0];
    hide LiveValues;
  }

  /** Over capacity 1: put 0, put 1, get 0. The write to key 1 is gone for good. */
  lemma WriteIsLost()
    ensures var s0 := ArcBack(map[], Arc.New<nat, nat>(1), {});
            var s3 := ArcGet(ArcPut(ArcPut(s0, 0, 0), 1, 0), 0, 0).0;
            && ArcGet(s3, 1, 0).1 == None
            && 1 !in FlushDirty(s3.store, LiveValues(s3.cache), s3.dirty)
  {
    TwoPuts();
    var c := Arc.New<nat, nat>(1).(t1 := LinkedMap([1], map[1 := CacheEntry(0, None)]), b1 := [0]);
    assert Arc.Raise(0, 1, 0, 1) == 1;
    var c' := Arc.Lookup(c, 0, 0).0;
    assert c'.t1 == EmptyLinked<nat, CacheEntry<nat>>();
  }
}
