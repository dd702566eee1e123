/** The O(1) LFU cache: entries with frequencies, one FIFO bucket of keys per
    frequency, and `min_freq`, the bucket that evictions look at. */
module Lfu {
  import opened LinkedMaps
  import opened Caches

  datatype Counted<V> = Counted(freq: nat, entry: CacheEntry<V>)

  type Buckets<K> = map<nat, seq<K>>

  datatype State<K(==, !new), V> = State(cap: nat, minFreq: nat, entries: map<K, Counted<V>>, buckets: Buckets<K>) {

    /** How many keys the next evictions can find without another change. */
    function MinBucket(): seq<K> {
      if minFreq in buckets then buckets[minFreq] else []
    }

    /** `min_freq` may lag behind after a removal, but never when the cache is full. */
    ghost predicate Inv() {
      && Agree(entries, buckets)
      && (forall k :: k in entries ==> minFreq <= entries[k].freq)
      && |entries| <= cap
      && (|entries| == cap && entries != map[] ==> minFreq in buckets)
    }
  }

  /** Buckets and entries describe the same frequencies, and no bucket is empty. */
  ghost predicate Agree<K(!new), V>(entries: map<K, Counted<V>>, buckets: Buckets<K>) {
    && (forall f :: f in buckets ==> f >= 1 && buckets[f] != [] && NoDup(buckets[f]))
    && (forall f, k :: f in buckets && k in buckets[f] ==> k in entries && entries[k].freq == f)
    && (forall k :: k in entries ==> entries[k].freq in buckets && k in buckets[entries[k].freq])
  }

  // Take `k` out of bucket `f`, dropping the bucket when it becomes empty.
  function Unlink<K(==, !new)>(buckets: Buckets<K>, f: nat, k: K): Buckets<K> {
    if f !in buckets then buckets
    else
      var b := Without(buckets[f], k);
      if b == [] then buckets - {f} else buckets[f := b]
  }

  // Put `k` at the back of bucket `f`.
  function Link<K(==, !new)>(buckets: Buckets<K>, f: nat, k: K): Buckets<K> {
    var b := if f in buckets then buckets[f] else [];
    buckets[f := Without(b, k) + [k]]
  }

  lemma UnlinkAgree<K(!new), V>(entries: map<K, Counted<V>>, buckets: Buckets<K>, k: K)
    requires Agree(entries, buckets) && k in entries
    ensures Agree(entries - {k}, Unlink(buckets, entries[k].freq, k))
  {
    WithoutNoDup(buckets[entries[k].freq], k);
    hide Without, NoDup;
  }

  lemma LinkAgree<K(!new), V>(entries: map<K, Counted<V>>, buckets: Buckets<K>, k: K, c: Counted<V>)
    requires Agree(entries, buckets) && k !in entries && c.freq >= 1
    ensures Agree(entries[k := c], Link(buckets, c.freq, k))
  {
    if c.freq in buckets {
      WithoutAbsent(buckets[c.freq], k);
    }
  }

  function New<K(==, !new), V>(cap: nat): (s: State<K, V>)
    ensures s.Inv()
  {
    State(cap, 0, map[], map[])
  }

  /** `increment_freq`, with the entry to be kept under `k` (a put has just replaced it). */
  function Increment<K(==, !new), V>(s: State<K, V>, k: K, e: CacheEntry<V>): State<K, V>
    requires k in s.entries
  {
    var f := s.entries[k].freq;
    var unlinked := Unlink(s.buckets, f, k);
    var min := if f in s.buckets && f !in unlinked && f == s.minFreq then f + 1 else s.minFreq;
    State(s.cap, min, s.entries[k := Counted(f + 1, e)], Link(unlinked, f + 1, k))
  }

  /** `evict`: the front of bucket `min_freq`; nothing at all when that bucket is missing. */
  function Evict<K(==, !new), V>(s: State<K, V>): (State<K, V>, Option<V>) {
    if s.minFreq !in s.buckets || s.buckets[s.minFreq] == [] then (s, None)
    else
      var b := s.buckets[s.minFreq];
      var s' := s.(entries := s.entries - {b[0]},
                   buckets := if |b| == 1 then s.buckets - {s.minFreq} else s.buckets[s.minFreq := b[1..]]);
      (s', if b[0] in s.entries then Some(s.entries[b[0]].entry.value) else None)
  }

  function InsertEntry<K(==, !new), V>(s: State<K, V>, k: K, e: CacheEntry<V>): (State<K, V>, Option<V>) {
    if s.cap == 0 then (s, Some(e.value))
    else if k in s.entries then
      (Increment(s, k, e), None)
    else
      var (t, evicted) := if |s.entries| >= s.cap then Evict(s) else (s, None);
      (State(t.cap, 1, t.entries[k := Counted(1, e)], Link(t.buckets, 1, k)), evicted)
  }

  /** `peek`: the value unless absent or expired. */
  function PeekIn<K(==, !new), V>(entries: map<K, Counted<V>>, k: K, now: nat): Option<V> {
    if k in entries && !entries[k].entry.Expired(now) then Some(entries[k].entry.value) else None
  }

  lemma PeekServes<K(!new), V>(entries: map<K, Counted<V>>, k: K, now: nat, v: V)
    ensures PeekIn(entries, k, now) == Some(v) <==> k in entries && Serves(Some(entries[k].entry), v, now)
  {
  }

  function Delete<K(==, !new), V>(s: State<K, V>, k: K): (State<K, V>, Option<V>) {
    if k !in s.entries then (s, None)
    else
      (s.(entries := s.entries - {k}, buckets := Unlink(s.buckets, s.entries[k].freq, k)),
       Some(s.entries[k].entry.value))
  }

  function Lookup<K(==, !new), V>(s: State<K, V>, k: K, now: nat): (State<K, V>, Option<V>) {
    if k !in s.entries then (s, None)
    else if s.entries[k].entry.Expired(now) then (Delete(s, k).0, None)
    else (Increment(s, k, s.entries[k].entry), Some(s.entries[k].entry.value))
  }

  /** `n` rounds of the loop in `resize`. */
  function EvictTimes<K(==, !new), V>(s: State<K, V>, n: nat): State<K, V>
    decreases n
  {
    if n == 0 then s else EvictTimes(Evict(s).0, n - 1)
  }

  /** How far `resize` has to shrink the cache; a capacity of 0 evicts nothing. */
  function Excess<K(==, !new), V>(s: State<K, V>, cap: nat): nat {
    if cap > 0 && |s.entries| > cap then |s.entries| - cap else 0
  }

  /** The state in which the loop of `resize` stops, if it stops. */
  function Resized<K(==, !new), V>(s: State<K, V>, cap: nat): State<K, V> {
    EvictTimes(s.(cap := cap), Excess(s, cap))
  }

  function Step<K(==, !new), V>(s: State<K, V>, ev: Event<K, V>): (State<K, V>, Option<V>) {
    match ev.op
    case Put(k, _) => InsertEntry(s, k, ev.Entry())
    case PutWithTtl(k, _, _) => InsertEntry(s, k, ev.Entry())
    case Get(k) => Lookup(s, k, ev.now)
    case Remove(k) => Delete(s, k)
    case Clear => (New(s.cap), None)
    case Resize(n) => (Resized(s, n), None)
  }

  // ---------------------------------------------------------------------
  // The invariant
  // ---------------------------------------------------------------------

  lemma IncrementAgree<K(!new), V>(s: State<K, V>, k: K, e: CacheEntry<V>)
    requires Agree(s.entries, s.buckets) && k in s.entries
    ensures Agree(Increment(s, k, e).entries, Increment(s, k, e).buckets)
  {
    var f := s.entries[k].freq;
    var c := Counted(f + 1, e);
    var entries, buckets := s.entries - {k}, Unlink(s.buckets, f, k);
    assert Agree(entries, buckets) by { UnlinkAgree(s.entries, s.buckets, k); }
    assert Agree(entries[k := c], Link(buckets, c.freq, k)) by { LinkAgree(entries, buckets, k, c); }
    assert entries[k := c] == Increment(s, k, e).entries;
  }

  lemma ReplaceThenIncrement<K(!new), V>(s: State<K, V>, k: K, e: CacheEntry<V>)
    requires k in s.entries
    ensures Increment(s.(entries := s.entries[k := Counted(s.entries[k].freq, e)]), k, e) == Increment(s, k, e)
  {
  }

  lemma IncrementMin<K(!new), V>(s: State<K, V>, k: K, e: CacheEntry<V>)
    requires s.Inv() && k in s.entries
    ensures var t := Increment(s, k, e);
            && (forall j :: j in t.entries ==> t.minFreq <= t.entries[j].freq)
            && (s.minFreq in s.buckets ==> t.minFreq in t.buckets)
  {
    var f := s.entries[k].freq;
    if f !in Unlink(s.buckets, f, k) {
      assert Without(s.buckets[f], k) == [];
      assert forall j :: j in s.entries && j != k && s.entries[j].freq == f ==> j in Without(s.buckets[f], k);
    }
  }

  lemma IncrementInv<K(!new), V>(s: State<K, V>, k: K, e: CacheEntry<V>)
    requires s.Inv() && k in s.entries
    ensures Increment(s, k, e).Inv()
  {
    IncrementAgree(s, k, e);
    IncrementMin(s, k, e);
    MapSizes(s.entries, k, Counted(s.entries[k].freq + 1, e));
  }

  /** Popping the front of the minimum bucket is unlinking that key. */
  lemma EvictUnlinks<K(!new), V>(s: State<K, V>)
    requires Agree(s.entries, s.buckets) && s.minFreq in s.buckets
    ensures var victim := s.buckets[s.minFreq][0];
            && victim in s.entries && s.entries[victim].freq == s.minFreq
            && Evict(s) == (s.(entries := s.entries - {victim}, buckets := Unlink(s.buckets, s.minFreq, victim)),
                            Some(s.entries[victim].entry.value))
  {
    var b := s.buckets[s.minFreq];
    assert b[0] in b && b[0] !in b[1..];
    WithoutAbsent(b[1..], b[0]);
  }

  lemma EvictInv<K(!new), V>(s: State<K, V>)
    requires Agree(s.entries, s.buckets) && s.minFreq in s.buckets
    ensures Agree(Evict(s).0.entries, Evict(s).0.buckets)
    ensures |Evict(s).0.entries| == |s.entries| - 1
  {
    EvictUnlinks(s);
    var victim := s.buckets[s.minFreq][0];
    hide Evict, Unlink;
    UnlinkAgree(s.entries, s.buckets, victim);
    MapSizes(s.entries, victim, s.entries[victim]);
  }

  lemma InsertNewInv<K(!new), V>(t: State<K, V>, k: K, e: CacheEntry<V>)
    requires Agree(t.entries, t.buckets) && |t.entries| < t.cap && k !in t.entries
    ensures State(t.cap, 1, t.entries[k := Counted(1, e)], Link(t.buckets, 1, k)).Inv()
  {
    LinkAgree(t.entries, t.buckets, k, Counted(1, e));
    MapSizes(t.entries, k, Counted(1, e));
  }

  lemma InsertInv<K(!new), V>(s: State<K, V>, k: K, e: CacheEntry<V>)
    requires s.Inv()
    ensures InsertEntry(s, k, e).0.Inv()
  {
    if s.cap == 0 {
    } else if k in s.entries {
      IncrementInv(s, k, e);
    } else if |s.entries| >= s.cap {
      EvictInv(s);
      InsertNewInv(Evict(s).0, k, e);
    } else {
      InsertNewInv(s, k, e);
    }
  }

  lemma DeleteInv<K(!new), V>(s: State<K, V>, k: K)
    requires s.Inv()
    ensures Delete(s, k).0.Inv()
  {
    if k in s.entries {
      UnlinkAgree(s.entries, s.buckets, k);
      MapSizes(s.entries, k, s.entries[k]);
    }
  }

  lemma LookupInv<K(!new), V>(s: State<K, V>, k: K, now: nat)
    requires s.Inv()
    ensures Lookup(s, k, now).0.Inv()
  {
    if k in s.entries {
      if s.entries[k].entry.Expired(now) {
        DeleteInv(s, k);
      } else {
        IncrementInv(s, k, s.entries[k].entry);
      }
    }
  }

  // ---------------------------------------------------------------------
  // Shrinking: `resize` never moves `min_freq` on
  // ---------------------------------------------------------------------

  /** Evictions leave everything but the front of the minimum bucket where it is. */
  lemma {:induction false} EvictTimesBucket<K(!new), V>(s: State<K, V>, n: nat)
    requires n <= |s.MinBucket()|
    ensures EvictTimes(s, n).cap == s.cap && EvictTimes(s, n).minFreq == s.minFreq
    ensures EvictTimes(s, n).MinBucket() == s.MinBucket()[n..]
    decreases n
  {
    if n > 0 { EvictTimesBucket(Evict(s).0, n - 1); }
  }

  lemma EvictAgree<K(!new), V>(s: State<K, V>)
    requires Agree(s.entries, s.buckets)
    ensures Agree(Evict(s).0.entries, Evict(s).0.buckets)
  {
    hide Agree;
    if s.minFreq in s.buckets { EvictInv(s); }
  }

  lemma {:induction false} EvictTimesAgree<K(!new), V>(s: State<K, V>, n: nat)
    requires Agree(s.entries, s.buckets)
    ensures Agree(EvictTimes(s, n).entries, EvictTimes(s, n).buckets)
    decreases n
  {
    hide Agree, Evict;
    if n > 0 {
      EvictAgree(s);
      EvictTimesAgree(Evict(s).0, n - 1);
    }
  }

  lemma EvictShrinks<K(!new), V>(s: State<K, V>)
    requires Agree(s.entries, s.buckets) && s.MinBucket() != []
    ensures Agree(Evict(s).0.entries, Evict(s).0.buckets) && |Evict(s).0.entries| == |s.entries| - 1
    ensures Evict(s).0.cap == s.cap && |Evict(s).0.MinBucket()| == |s.MinBucket()| - 1
  {
    EvictInv(s);
    hide Agree;
  }

  lemma {:induction false} EvictTimesSize<K(!new), V>(s: State<K, V>, n: nat)
    requires Agree(s.entries, s.buckets) && n <= |s.MinBucket()|
    ensures |EvictTimes(s, n).entries| == |s.entries| - n
    decreases n
  {
    hide Agree, Evict;
    if n > 0 {
      EvictShrinks(s);
      EvictTimesSize(Evict(s).0, n - 1);
    }
  }

  lemma {:induction false} EvictTimesSubmap<K(!new), V>(s: State<K, V>, n: nat)
    ensures Submap(EvictTimes(s, n).entries, s.entries)
    decreases n
  {
    if n > 0 { EvictTimesSubmap(Evict(s).0, n - 1); }
  }

  lemma {:induction false} EvictTimesStuck<K(!new), V>(s: State<K, V>, n: nat)
    requires s.minFreq !in s.buckets
    ensures EvictTimes(s, n) == s
    decreases n
  {
    if n > 0 { EvictTimesStuck(s, n - 1); }
  }

  lemma {:induction false} EvictTimesSplit<K(!new), V>(s: State<K, V>, m: nat, n: nat)
    ensures EvictTimes(s, m + n) == EvictTimes(EvictTimes(s, m), n)
    decreases m
  {
    if m > 0 { EvictTimesSplit(Evict(s).0, m - 1, n); }
  }

  /** The minimum bucket alone can bring the cache down to `cap`. */
  ghost predicate ResizeStops<K(!new), V>(s: State<K, V>, cap: nat) {
    Excess(s, cap) <= |s.MinBucket()|
  }

  lemma ResizeNeverStops<K(!new), V>(s: State<K, V>, cap: nat, m: nat)
    requires Agree(s.entries, s.buckets) && !ResizeStops(s, cap)
    ensures Excess(EvictTimes(s, m), cap) != 0
  {
    hide Evict, EvictTimes;
    var b := |s.MinBucket()|;
    EvictTimesSize(s, if m <= b then m else b);
    EvictTimesBucket(s, b);
    EvictTimesAgree(s, b);
    if m > b {
      EvictTimesSplit(s, b, m - b);
      EvictTimesStuck(EvictTimes(s, b), m - b);
    }
  }

  /** The loop of `resize` reaches its exit after some number of rounds exactly when the
      minimum bucket holds enough keys; otherwise it runs for ever. */
  lemma ResizeTerminatesIff<K(!new), V>(s: State<K, V>, cap: nat)
    requires Agree(s.entries, s.buckets)
    ensures ResizeStops(s, cap) <==> exists m: nat :: Excess(EvictTimes(s, m), cap) == 0
  {
    if ResizeStops(s, cap) {
      EvictTimesSize(s, Excess(s, cap));
      assert Excess(EvictTimes(s, Excess(s, cap)), cap) == 0;
    } else {
      forall m: nat ensures Excess(EvictTimes(s, m), cap) != 0 {
        ResizeNeverStops(s, cap, m);
      }
    }
  }

  lemma NoExcess<K(!new), V>(s: State<K, V>, cap: nat)
    requires Excess(s, cap) == 0
    ensures EvictTimes(s, Excess(s, cap)) == s
  {
  }

  /** One round of the loop brings the cache one entry closer and stays on course. */
  lemma EvictRound<K(!new), V>(s: State<K, V>, cap: nat)
    requires Agree(s.entries, s.buckets) && Excess(s, cap) > 0 && ResizeStops(s, cap)
    ensures Agree(Evict(s).0.entries, Evict(s).0.buckets) && |Evict(s).0.entries| == |s.entries| - 1
    ensures Evict(s).0.cap == s.cap && ResizeStops(Evict(s).0, cap)
    ensures EvictTimes(Evict(s).0, Excess(Evict(s).0, cap)) == EvictTimes(s, Excess(s, cap))
  {
    hide Evict, Agree;
    EvictShrinks(s);
    assert Excess(Evict(s).0, cap) == Excess(s, cap) - 1;
  }

  /** Resizes after which every promise of the cache still holds. */
  ghost predicate SafeResize<K(!new), V>(s: State<K, V>, cap: nat) {
    || |s.entries| < cap
    || |s.entries| == 0
    || (cap >= 1 && |s.entries| - cap < |s.MinBucket()|)
  }

  /** A resize that stops keeps the invariant exactly when the minimum bucket outlives it;
      emptying it leaves a full cache whose next eviction finds nothing. */
  lemma ResizeKeepsInvIff<K(!new), V>(s: State<K, V>, cap: nat)
    requires s.Inv() && ResizeStops(s, cap)
    ensures Resized(s, cap).Inv() <==> SafeResize(s, cap)
  {
    var n := Excess(s, cap);
    var s0, t := s.(cap := cap), Resized(s, cap);
    EvictTimesSize(s0, n);
    EvictTimesBucket(s0, n);
    hide EvictTimes;
    assert Agree(t.entries, t.buckets) by { EvictTimesAgree(s0, n); }
    assert forall k :: k in t.entries ==> t.minFreq <= t.entries[k].freq by { EvictTimesSubmap(s0, n); }
    assert t.minFreq in t.buckets <==> n < |s.MinBucket()|;
    hide Agree;
    EmptyIffZero(s.entries);
    EmptyIffZero(t.entries);
  }

  lemma EmptyIffZero<K, V>(m: map<K, V>)
    ensures m == map[] <==> |m| == 0
  {
    if |m| == 0 { assert m.Keys == {}; }
  }

  lemma GrowingResizeIsSafe<K(!new), V>(s: State<K, V>, cap: nat)
    requires s.Inv() && cap >= s.cap
    ensures SafeResize(s, cap) && ResizeStops(s, cap)
  {
    EmptyIffZero(s.entries);
  }

  /** After a resize that stops, the put of a new key stays within the capacity exactly if the resize was
      safe; otherwise it evicts nothing and leaves one entry too many. */
  lemma OverfillsIff<K(!new), V>(s: State<K, V>, cap: nat, k: K, e: CacheEntry<V>)
    requires s.Inv() && ResizeStops(s, cap) && cap >= 1 && k !in Resized(s, cap).entries
    ensures var (t, evicted) := InsertEntry(Resized(s, cap), k, e);
            if SafeResize(s, cap) then |t.entries| <= cap else |t.entries| == cap + 1 && evicted.None?
  {
    hide Agree, Resized, InsertEntry, SafeResize, ResizeStops;
    var t := Resized(s, cap);
    ResizedShape(s, cap);
    if SafeResize(s, cap) {
      ResizeKeepsInvIff(s, cap);
      InsertInv(t, k, e);
      InsertKeepsCap(t, k, e);
    } else {
      InsertWhenStuck(t, k, e);
    }
  }

  lemma ResizedShape<K(!new), V>(s: State<K, V>, cap: nat)
    requires s.Inv() && ResizeStops(s, cap) && cap >= 1
    ensures Resized(s, cap).cap == cap
    ensures !SafeResize(s, cap) ==> Resized(s, cap).MinBucket() == [] && |Resized(s, cap).entries| == cap
  {
    hide EvictTimes, Agree;
    EvictTimesSize(s.(cap := cap), Excess(s, cap));
    EvictTimesBucket(s.(cap := cap), Excess(s, cap));
  }

  lemma InsertKeepsCap<K(!new), V>(s: State<K, V>, k: K, e: CacheEntry<V>)
    ensures InsertEntry(s, k, e).0.cap == s.cap
  {
    hide Link, Unlink;
  }

  lemma InsertWhenStuck<K(!new), V>(s: State<K, V>, k: K, e: CacheEntry<V>)
    requires 1 <= s.cap == |s.entries| && s.MinBucket() == [] && k !in s.entries
    ensures |InsertEntry(s, k, e).0.entries| == s.cap + 1 && InsertEntry(s, k, e).1.None?
  {
    hide Link;
    assert Evict(s) == (s, None);
    MapSizes(s.entries, k, Counted(1, e));
  }

  /** A removal makes `min_freq` stale: bucket 1 is gone and the only key sits in bucket 2. */
  lemma RemovalLeavesStaleMinimum()
    ensures Step(Step(Step(Step(New<nat, nat>(3), Event(0, Put(1, 1))).0, Event(0, Get(1))).0,
                      Event(0, Put(2, 2))).0, Event(0, Remove(2))).0 ==
            State(3, 1, map[1 := Counted(2, CacheEntry(1, None))], map[2 := [1]])
  {
    var s0 := New<nat, nat>(3);
    FirstPutGet(s0);
    var s2 := State(3, 2, map[1 := Counted(2, CacheEntry(1, None))], map[2 := [1]]);
    hide InsertEntry, Lookup, Delete;
    PutRemove(s2);
  }

  lemma FirstPutGet(s: State<nat, nat>)
    requires s == New<nat, nat>(3)
    ensures Lookup(InsertEntry(s, 1, CacheEntry(1, None)).0, 1, 0).0 ==
            State(3, 2, map[1 := Counted(2, CacheEntry(1, None))], map[2 := [1]])
  {
    var e1 := CacheEntry(1, None);
    var s1 := InsertEntry(s, 1, e1).0;
    LinkNew(s.buckets, 1, 1);
    assert s1 == State(3, 1, map[1 := Counted(1, e1)], map[1 := [1]]);
    UnlinkLast(s1.buckets, 1, 1);
    LinkNew(s1.buckets - {1}, 2, 1);
  }

  lemma PutRemove(s: State<nat, nat>)
    requires s == State(3, 2, map[1 := Counted(2, CacheEntry(1, None))], map[2 := [1]])
    ensures Delete(InsertEntry(s, 2, CacheEntry(2, None)).0, 2).0 ==
            State(3, 1, map[1 := Counted(2, CacheEntry(1, None))], map[2 := [1]])
  {
    var s3 := InsertEntry(s, 2, CacheEntry(2, None)).0;
    LinkNew(s.buckets, 1, 2);
    UnlinkLast(s3.buckets, 1, 2);
    assert s3.buckets - {1} == s.buckets && s3.entries - {2} == s.entries;
  }

  /** Shrinking that cache to its current length freezes the stale minimum: the next put
      of a new key evicts nothing and overfills the cache. */
  lemma StaleMinimumOverfills(s: State<nat, nat>)
    requires s == State(3, 1, map[1 := Counted(2, CacheEntry(1, None))], map[2 := [1]])
    ensures ResizeStops(s, 1) && !SafeResize(s, 1)
    ensures Resized(s, 1).cap == 1 && |InsertEntry(Resized(s, 1), 3, CacheEntry(3, None)).0.entries| == 2
  {
    var t := Resized(s, 1);
    assert t == s.(cap := 1);
    MapSizes(t.entries, 3, Counted(1, CacheEntry(3, None)));
  }

  lemma LinkNew<K(!new)>(buckets: Buckets<K>, f: nat, k: K)
    requires f !in buckets
    ensures Link(buckets, f, k) == buckets[f := [k]]
  {
    assert Without([], k) + [k] == [k];
  }

  lemma UnlinkLast<K(!new)>(buckets: Buckets<K>, f: nat, k: K)
    requires f in buckets && buckets[f] == [k]
    ensures Unlink(buckets, f, k) == buckets - {f}
  {
  }

  // ---------------------------------------------------------------------
  // Runs
  // ---------------------------------------------------------------------

  /** A run from an empty cache in which every resize is safe. */
  ghost predicate Tame<K(!new), V>(cap: nat, evs: seq<Event<K, V>>) {
    evs == [] ||
    var before, ev := evs[..|evs| - 1], evs[|evs| - 1];
    Tame(cap, before) && (ev.op.Resize? ==> SafeResize(Run(cap, before), ev.op.cap))
  }

  function Run<K(==, !new), V>(cap: nat, evs: seq<Event<K, V>>): State<K, V> {
    if evs == [] then New(cap) else Step(Run(cap, evs[..|evs| - 1]), evs[|evs| - 1]).0
  }

  lemma RunSnoc<K(!new), V>(cap: nat, evs: seq<Event<K, V>>, ev: Event<K, V>)
    ensures Run(cap, evs + [ev]) == Step(Run(cap, evs), ev).0
  {
    assert (evs + [ev])[..|evs|] == evs;
    hide Step;
  }

  /** Put 1, get 1, put 2, get 2, put 3. */
  function UsedTwice(): seq<Event<nat, nat>> {
    [] + [Event(0, Put(1, 0))] + [Event(0, Get(1))] + [Event(0, Put(2, 0))] + [Event(0, Get(2))] + [Event(0, Put(3, 0))]
  }

  const ZERO: CacheEntry<nat> := CacheEntry(0, None)

  lemma PutGet(s: State<nat, nat>, k: nat)
    requires s.cap == 3 && |s.entries| < 3 && k !in s.entries && 1 !in s.buckets
    requires 2 in s.buckets ==> k !in s.buckets[2]
    ensures var t := Lookup(InsertEntry(s, k, ZERO).0, k, 0).0;
            t == State(3, 2, s.entries[k := Counted(2, ZERO)],
                       s.buckets[2 := (if 2 in s.buckets then s.buckets[2] else []) + [k]])
  {
    LinkNew(s.buckets, 1, k);
    var p := InsertEntry(s, k, ZERO).0;
    assert p == State(3, 1, s.entries[k := Counted(1, ZERO)], s.buckets[1 := [k]]);
    UnlinkLast(p.buckets, 1, k);
    assert p.buckets - {1} == s.buckets;
    if 2 in s.buckets { WithoutAbsent(s.buckets[2], k); }
    assert Without([], k) == [];
  }

  lemma RunPutGet(evs: seq<Event<nat, nat>>, s: State<nat, nat>, k: nat)
    requires Run(3, evs) == s
    requires s.cap == 3 && |s.entries| < 3 && k !in s.entries && 1 !in s.buckets
    requires 2 in s.buckets ==> k !in s.buckets[2]
    ensures Run(3, evs + [Event(0, Put(k, 0))] + [Event(0, Get(k))]) ==
            State(3, 2, s.entries[k := Counted(2, ZERO)],
                  s.buckets[2 := (if 2 in s.buckets then s.buckets[2] else []) + [k]])
  {
    hide Run, InsertEntry, Lookup;
    RunSnoc<nat, nat>(3, evs, Event(0, Put(k, 0)));
    RunSnoc<nat, nat>(3, evs + [Event(0, Put(k, 0))], Event(0, Get(k)));
    PutGet(s, k);
  }

  lemma UsedTwiceState()
    ensures Run(3, UsedTwice()) ==
            State(3, 1, map[1 := Counted(2, ZERO), 2 := Counted(2, ZERO), 3 := Counted(1, ZERO)],
                  map[2 := [1, 2], 1 := [3]])
  {
    var b := [] + [Event(0, Put(1, 0))] + [Event(0, Get(1))];
    var d := b + [Event(0, Put(2, 0))] + [Event(0, Get(2))];
    assert Run<nat, nat>(3, []) == New(3);
    hide Run, InsertEntry, Lookup;
    RunPutGet([], New(3), 1);
    var s := State(3, 2, map[1 := Counted(2, ZERO)], map[2 := [1]]);
    assert Run(3, b) == s by { assert [] + [1] == [1]; }
    RunSecond(b, s);
    RunSnoc<nat, nat>(3, d, Event(0, Put(3, 0)));
    LastPut(Run(3, d));
  }

  lemma RunSecond(evs: seq<Event<nat, nat>>, s: State<nat, nat>)
    requires Run(3, evs) == s == State(3, 2, map[1 := Counted(2, ZERO)], map[2 := [1]])
    ensures Run(3, evs + [Event(0, Put(2, 0))] + [Event(0, Get(2))]) ==
            State(3, 2, map[1 := Counted(2, ZERO), 2 := Counted(2, ZERO)], map[2 := [1, 2]])
  {
    hide Run, InsertEntry, Lookup;
    RunPutGet(evs, s, 2);
    assert [1] + [2] == [1, 2];
  }

  lemma LastPut(t: State<nat, nat>)
    requires t == State(3, 2, map[1 := Counted(2, ZERO), 2 := Counted(2, ZERO)], map[2 := [1, 2]])
    ensures InsertEntry(t, 3, ZERO).0 ==
            State(3, 1, map[1 := Counted(2, ZERO), 2 := Counted(2, ZERO), 3 := Counted(1, ZERO)],
                  map[2 := [1, 2], 1 := [3]])
  {
    assert |t.entries| == 2 by { MapSizes(map[1 := Counted(2, ZERO)], 2, Counted(2, ZERO)); }
    LinkNew(t.buckets, 1, 3);
  }

  /** A cache that a run of puts and gets reaches and that no number of rounds of the loop in `resize`
      brings down to capacity 1. */
  lemma ResizeLoopsForEver(m: nat)
    ensures Tame(3, UsedTwice()) && Excess(EvictTimes(Run(3, UsedTwice()), m), 1) > 0
  {
    TameWithoutResize(3, UsedTwice());
    UsedTwiceState();
    hide Run, UsedTwice, EvictTimes, Tame;
    RunInv(3, UsedTwice());
    StuckAt(Run(3, UsedTwice()));
    ResizeTerminatesIff(Run(3, UsedTwice()), 1);
  }

  lemma StuckAt(s: State<nat, nat>)
    requires s == State(3, 1, map[1 := Counted(2, ZERO), 2 := Counted(2, ZERO), 3 := Counted(1, ZERO)],
                        map[2 := [1, 2], 1 := [3]])
    ensures !ResizeStops(s, 1)
  {
    assert |s.entries| == 3 by { MapSizes(map[1 := Counted(2, ZERO), 2 := Counted(2, ZERO)], 3, Counted(1, ZERO)); }
    assert |s.MinBucket()| == 1;
  }

  lemma {:induction false} TameWithoutResize<K(!new), V>(cap: nat, evs: seq<Event<K, V>>)
    requires forall i :: 0 <= i < |evs| ==> !evs[i].op.Resize?
    ensures Tame(cap, evs)
    decreases |evs|
  {
    if evs != [] { TameWithoutResize(cap, evs[..|evs| - 1]); }
  }

  lemma StepInv<K(!new), V>(s: State<K, V>, ev: Event<K, V>)
    requires s.Inv() && (ev.op.Resize? ==> SafeResize(s, ev.op.cap))
    ensures Step(s, ev).0.Inv()
  {
    hide InsertEntry, Lookup, Delete, Resized, Agree;
    match ev.op {
      case Put(k, _) => InsertInv(s, k, ev.Entry());
      case PutWithTtl(k, _, _) => InsertInv(s, k, ev.Entry());
      case Get(k) => LookupInv(s, k, ev.now);
      case Remove(k) => DeleteInv(s, k);
      case Clear =>
      case Resize(n) => ResizeKeepsInvIff(s, n);
    }
  }

  /** In every tame run buckets and entries agree, `min_freq` bounds all frequencies from
      below, the capacity is respected and a full cache can always name its victim. */
  lemma {:induction false} RunInv<K(!new), V>(cap: nat, evs: seq<Event<K, V>>)
    requires Tame(cap, evs)
    ensures Run(cap, evs).Inv()
    decreases |evs|
  {
    if evs != [] {
      RunInv(cap, evs[..|evs| - 1]);
      StepInv(Run(cap, evs[..|evs| - 1]), evs[|evs| - 1]);
    }
  }

  // ---------------------------------------------------------------------
  // Freshness
  // ---------------------------------------------------------------------

  ghost predicate FreshCounted<K(!new), V>(entries: map<K, Counted<V>>, w: map<K, CacheEntry<V>>) {
    forall k :: k in entries ==> k in w && w[k] == entries[k].entry
  }

  /** A put keeps freshness unless the capacity is 0 and an entry survived the resize to 0:
      that put is dropped and the old value stays. */
  lemma InsertFresh<K(!new), V>(s: State<K, V>, w: map<K, CacheEntry<V>>, k: K, e: CacheEntry<V>)
    requires FreshCounted(s.entries, w)
    ensures FreshCounted(InsertEntry(s, k, e).0.entries, w[k := e])
            <==> s.cap >= 1 || k !in s.entries || s.entries[k].entry == e
  {
    if s.cap >= 1 {
      InsertEntries(s, k, e);
    } else if k in s.entries && s.entries[k].entry != e {
      assert w[k := e][k] != InsertEntry(s, k, e).0.entries[k].entry;
    }
  }

  lemma InsertEntries<K(!new), V>(s: State<K, V>, k: K, e: CacheEntry<V>)
    requires s.cap >= 1
    ensures forall j :: j in InsertEntry(s, k, e).0.entries ==>
              if j == k then InsertEntry(s, k, e).0.entries[j].entry == e
              else j in s.entries && InsertEntry(s, k, e).0.entries[j] == s.entries[j]
  {
  }

  lemma StepFresh<K(!new), V>(s: State<K, V>, w: map<K, CacheEntry<V>>, ev: Event<K, V>)
    requires FreshCounted(s.entries, w)
    requires s.cap >= 1 || s.entries == map[]
    ensures FreshCounted(Step(s, ev).0.entries, Written(w, ev))
  {
    match ev.op {
      case Put(k, _) => InsertFresh(s, w, k, ev.Entry());
      case PutWithTtl(k, _, _) => InsertFresh(s, w, k, ev.Entry());
      case Get(k) =>
      case Remove(k) =>
      case Clear =>
      case Resize(n) => EvictTimesSubmap(s.(cap := n), Excess(s, n));
    }
  }

  /** In every tame run each cached entry is the last one written for its key. */
  lemma {:induction false} RunFresh<K(!new), V>(cap: nat, evs: seq<Event<K, V>>)
    requires Tame(cap, evs)
    ensures FreshCounted(Run(cap, evs).entries, WrittenAll(evs))
    decreases |evs|
  {
    if evs != [] {
      var before := evs[..|evs| - 1];
      RunFresh(cap, before);
      RunInv(cap, before);
      EmptyIffZero(Run(cap, before).entries);
      StepFresh(Run(cap, before), WrittenAll(before), evs[|evs| - 1]);
    }
  }

  /** What was just put is there whenever the capacity is not 0; at capacity 0 it is handed back. */
  lemma PutIsKept<K(!new), V>(s: State<K, V>, k: K, e: CacheEntry<V>)
    ensures s.cap >= 1 ==> k in InsertEntry(s, k, e).0.entries && InsertEntry(s, k, e).0.entries[k].entry == e
    ensures s.cap == 0 ==> InsertEntry(s, k, e) == (s, Some(e.value))
  {
  }
}
