/** LFU without buckets: each key carries its frequency and the moment it reached it, and an
    eviction searches all keys for the least frequent, earliest arrived one. The O(1) cache
    of module `Lfu` gives the same answers in every run. */
module LfuReference {
  import opened LinkedMaps
  import opened Caches
  import Lfu

  datatype Ref<K(==, !new), V> =
    Ref(cap: nat, clock: nat, entries: map<K, Lfu.Counted<V>>, since: map<K, nat>)

  /** `v` is less frequent than every other key, or as frequent and there for longer. */
  ghost predicate IsVictim<K(!new), V>(r: Ref<K, V>, v: K) {
    && v in r.entries
    && forall j :: j in r.entries && j != v ==>
         || r.entries[v].freq < r.entries[j].freq
         || (r.entries[v].freq == r.entries[j].freq && UsedBefore(r.since, v, j))
  }

  lemma VictimUnique<K(!new), V>(r: Ref<K, V>, v: K, u: K)
    requires IsVictim(r, v) && IsVictim(r, u)
    ensures v == u
  {
  }

  ghost function Evict<K(!new), V>(r: Ref<K, V>): (Ref<K, V>, Option<V>) {
    if exists v :: IsVictim(r, v) then
      var v :| IsVictim(r, v);
      (r.(entries := r.entries - {v}), Some(r.entries[v].entry.value))
    else (r, None)
  }

  ghost function EvictTimes<K(!new), V>(r: Ref<K, V>, n: nat): Ref<K, V>
    decreases n
  {
    if n == 0 then r else EvictTimes(Evict(r).0, n - 1)
  }

  ghost function Store<K(!new), V>(r: Ref<K, V>, k: K, freq: nat, e: CacheEntry<V>): Ref<K, V> {
    Ref(r.cap, r.clock + 1, r.entries[k := Lfu.Counted(freq, e)], r.since[k := r.clock])
  }

  ghost function Insert<K(!new), V>(r: Ref<K, V>, k: K, e: CacheEntry<V>): (Ref<K, V>, Option<V>) {
    if r.cap == 0 then (r, Some(e.value))
    else if k in r.entries then (Store(r, k, r.entries[k].freq + 1, e), None)
    else
      var (t, evicted) := if |r.entries| >= r.cap then Evict(r) else (r, None);
      (Store(t, k, 1, e), evicted)
  }

  ghost function Delete<K(!new), V>(r: Ref<K, V>, k: K): (Ref<K, V>, Option<V>) {
    (r.(entries := r.entries - {k}), if k in r.entries then Some(r.entries[k].entry.value) else None)
  }

  ghost function Lookup<K(!new), V>(r: Ref<K, V>, k: K, now: nat): (Ref<K, V>, Option<V>) {
    if k !in r.entries then (r, None)
    else if r.entries[k].entry.Expired(now) then (Delete(r, k).0, None)
    else (Store(r, k, r.entries[k].freq + 1, r.entries[k].entry), Some(r.entries[k].entry.value))
  }

  ghost function Step<K(!new), V>(r: Ref<K, V>, ev: Event<K, V>): (Ref<K, V>, Option<V>) {
    match ev.op
    case Put(k, _) => Insert(r, k, ev.Entry())
    case PutWithTtl(k, _, _) => Insert(r, k, ev.Entry())
    case Get(k) => Lookup(r, k, ev.now)
    case Remove(k) => Delete(r, k)
    case Clear => (r.(entries := map[]), None)
    case Resize(n) =>
      (EvictTimes(r.(cap := n), if n > 0 && |r.entries| > n then |r.entries| - n else 0), None)
  }

  ghost function Run<K(!new), V>(cap: nat, evs: seq<Event<K, V>>): Ref<K, V> {
    if evs == [] then Ref(cap, 0, map[], map[]) else Step(Run(cap, evs[..|evs| - 1]), evs[|evs| - 1]).0
  }

  // ---------------------------------------------------------------------
  // Simulation
  // ---------------------------------------------------------------------

  /** Every bucket lists its keys in order of arrival. */
  ghost predicate Ordered<K(!new)>(buckets: Lfu.Buckets<K>, since: map<K, nat>, clock: nat) {
    forall f :: f in buckets ==> SortedByUse(buckets[f], since, clock)
  }

  ghost predicate Simulates<K(!new), V>(s: Lfu.State<K, V>, r: Ref<K, V>) {
    s.cap == r.cap && s.entries == r.entries && Ordered(s.buckets, r.since, r.clock)
  }

  lemma UnlinkOrdered<K(!new)>(buckets: Lfu.Buckets<K>, since: map<K, nat>, clock: nat, f: nat, k: K)
    requires Ordered(buckets, since, clock)
    ensures Ordered(Lfu.Unlink(buckets, f, k), since, clock)
  {
    if f in buckets { WithoutSorted(buckets[f], since, clock, k); }
  }

  /** A key that is in no bucket may take the newest stamp and join the back of one. */
  lemma LinkOrdered<K(!new)>(buckets: Lfu.Buckets<K>, since: map<K, nat>, clock: nat, f: nat, k: K)
    requires Ordered(buckets, since, clock)
    requires forall g :: g in buckets ==> k !in buckets[g]
    ensures Ordered(Lfu.Link(buckets, f, k), since[k := clock], clock + 1)
  {
    forall g | g in buckets ensures SortedByUse(buckets[g], since[k := clock], clock + 1) {
      StampOther(buckets[g], since, clock, k);
    }
    TouchSorted(if f in buckets then buckets[f] else [], since, clock, k);
  }

  lemma StampOther<K(!new)>(b: seq<K>, since: map<K, nat>, clock: nat, k: K)
    requires SortedByUse(b, since, clock) && k !in b
    ensures SortedByUse(b, since[k := clock], clock + 1)
  {
    assert forall i :: 0 <= i < |b| ==> b[i] in b;
  }

  lemma NotInAnyBucket<K(!new), V>(entries: map<K, Lfu.Counted<V>>, buckets: Lfu.Buckets<K>, k: K)
    requires Lfu.Agree(entries, buckets) && k !in entries
    ensures forall g :: g in buckets ==> k !in buckets[g]
  {
  }

  lemma UnlinkedNowhere<K(!new), V>(entries: map<K, Lfu.Counted<V>>, buckets: Lfu.Buckets<K>, k: K)
    requires Lfu.Agree(entries, buckets) && k in entries
    ensures var unlinked := Lfu.Unlink(buckets, entries[k].freq, k);
            forall g :: g in unlinked ==> k !in unlinked[g]
  {
    hide Lfu.Unlink, Lfu.Agree;
    Lfu.UnlinkAgree(entries, buckets, k);
    NotInAnyBucket(entries - {k}, Lfu.Unlink(buckets, entries[k].freq, k), k);
  }

  lemma RelinkOrdered<K(!new)>(buckets: Lfu.Buckets<K>, since: map<K, nat>, clock: nat, f: nat, k: K)
    requires Ordered(buckets, since, clock)
    requires forall g :: g in Lfu.Unlink(buckets, f, k) ==> k !in Lfu.Unlink(buckets, f, k)[g]
    ensures Ordered(Lfu.Link(Lfu.Unlink(buckets, f, k), f + 1, k), since[k := clock], clock + 1)
  {
    hide Lfu.Unlink, Lfu.Link, Ordered;
    UnlinkOrdered(buckets, since, clock, f, k);
    LinkOrdered(Lfu.Unlink(buckets, f, k), since, clock, f + 1, k);
  }

  lemma StoreSimulates<K(!new), V>(s: Lfu.State<K, V>, r: Ref<K, V>, k: K, e: CacheEntry<V>)
    requires Lfu.Agree(s.entries, s.buckets) && Simulates(s, r) && k in s.entries
    ensures Simulates(Lfu.Increment(s, k, e), Store(r, k, r.entries[k].freq + 1, e))
  {
    hide Lfu.Agree, Ordered, Lfu.Link, Lfu.Unlink;
    UnlinkedNowhere(s.entries, s.buckets, k);
    RelinkOrdered(s.buckets, r.since, r.clock, s.entries[k].freq, k);
  }

  /** The front of the minimum bucket is the key the reference would pick. */
  lemma FrontIsVictim<K(!new), V>(s: Lfu.State<K, V>, r: Ref<K, V>)
    requires Lfu.Agree(s.entries, s.buckets) && Simulates(s, r) && s.MinBucket() != []
    requires forall k :: k in s.entries ==> s.minFreq <= s.entries[k].freq
    ensures IsVictim(r, s.MinBucket()[0])
  {
    var b := s.MinBucket();
    assert b[0] in b;
    forall j | j in r.entries && j != b[0] && r.entries[j].freq == s.minFreq
      ensures UsedBefore(r.since, b[0], j)
    {
      var i :| 0 <= i < |b| && b[i] == j;
    }
  }

  lemma EvictSimulates<K(!new), V>(s: Lfu.State<K, V>, r: Ref<K, V>)
    requires Lfu.Agree(s.entries, s.buckets) && Simulates(s, r) && s.MinBucket() != []
    requires forall k :: k in s.entries ==> s.minFreq <= s.entries[k].freq
    ensures Simulates(Lfu.Evict(s).0, Evict(r).0) && Lfu.Evict(s).1 == Evict(r).1
  {
    var victim := s.MinBucket()[0];
    FrontIsVictim(s, r);
    forall v | IsVictim(r, v) ensures v == victim { VictimUnique(r, v, victim); }
    Lfu.EvictUnlinks(s);
    UnlinkOrdered(s.buckets, r.since, r.clock, s.minFreq, victim);
  }

  /** The next `n` evictions all find the least frequent keys in the minimum bucket. */
  ghost predicate Evictable<K(!new), V>(s: Lfu.State<K, V>, n: nat) {
    && Lfu.Agree(s.entries, s.buckets) && n <= |s.MinBucket()|
    && forall k :: k in s.entries ==> s.minFreq <= s.entries[k].freq
  }

  lemma EvictEvictable<K(!new), V>(s: Lfu.State<K, V>, n: nat)
    requires Evictable(s, n) && n > 0
    ensures Evictable(Lfu.Evict(s).0, n - 1)
  {
    assert Lfu.Evict(s).0 == Lfu.EvictTimes(s, 1);
    Lfu.EvictTimesBucket(s, 1);
    Lfu.EvictTimesSubmap(s, 1);
    Lfu.EvictInv(s);
  }

  lemma EvictStep<K(!new), V>(s: Lfu.State<K, V>, r: Ref<K, V>, n: nat) returns (t: Lfu.State<K, V>, u: Ref<K, V>)
    requires Evictable(s, n) && n > 0 && Simulates(s, r)
    ensures Evictable(t, n - 1) && Simulates(t, u)
    ensures Lfu.EvictTimes(s, n) == Lfu.EvictTimes(t, n - 1) && EvictTimes(r, n) == EvictTimes(u, n - 1)
  {
    t, u := Lfu.Evict(s).0, Evict(r).0;
    EvictSimulates(s, r);
    EvictEvictable(s, n);
  }

  lemma {:induction false} EvictTimesSimulates<K(!new), V>(s: Lfu.State<K, V>, r: Ref<K, V>, n: nat)
    requires Evictable(s, n) && Simulates(s, r)
    ensures Simulates(Lfu.EvictTimes(s, n), EvictTimes(r, n))
    decreases n
  {
    hide Evictable, Simulates, Lfu.EvictTimes, EvictTimes;
    if n == 0 {
      NoEvictions(s, r);
    } else {
      var t, u := EvictStep(s, r, n);
      EvictTimesSimulates(t, u, n - 1);
    }
  }

  lemma NoEvictions<K(!new), V>(s: Lfu.State<K, V>, r: Ref<K, V>)
    ensures Lfu.EvictTimes(s, 0) == s && EvictTimes(r, 0) == r
  {
  }

  lemma StoreNewSimulates<K(!new), V>(s: Lfu.State<K, V>, r: Ref<K, V>, k: K, e: CacheEntry<V>)
    requires Lfu.Agree(s.entries, s.buckets) && Simulates(s, r) && k !in s.entries
    ensures Simulates(Lfu.State(s.cap, 1, s.entries[k := Lfu.Counted(1, e)], Lfu.Link(s.buckets, 1, k)),
                      Store(r, k, 1, e))
  {
    NotInAnyBucket(s.entries, s.buckets, k);
    LinkOrdered(s.buckets, r.since, r.clock, 1, k);
  }

  lemma InsertSimulates<K(!new), V>(s: Lfu.State<K, V>, r: Ref<K, V>, k: K, e: CacheEntry<V>)
    requires s.Inv() && Simulates(s, r)
    ensures Simulates(Lfu.InsertEntry(s, k, e).0, Insert(r, k, e).0)
    ensures Lfu.InsertEntry(s, k, e).1 == Insert(r, k, e).1
  {
    hide Lfu.Agree, Ordered, Lfu.Evict, Evict, Lfu.Increment, Lfu.Link;
    if s.cap == 0 {
    } else if k in s.entries {
      StoreSimulates(s, r, k, e);
    } else if |s.entries| >= s.cap {
      EvictedFront(s);
      EvictSimulates(s, r);
      StoreNewSimulates(Lfu.Evict(s).0, Evict(r).0, k, e);
    } else {
      StoreNewSimulates(s, r, k, e);
    }
  }

  lemma EvictedFront<K(!new), V>(s: Lfu.State<K, V>)
    requires s.Inv() && |s.entries| >= s.cap >= 1
    ensures s.minFreq in s.buckets && s.MinBucket() != []
    ensures var t := Lfu.Evict(s).0;
            Lfu.Agree(t.entries, t.buckets) && t.cap == s.cap && Submap(t.entries, s.entries)
  {
    Lfu.EmptyIffZero(s.entries);
    Lfu.EvictInv(s);
    Lfu.EvictUnlinks(s);
    hide Lfu.Agree;
  }

  lemma DeleteSimulates<K(!new), V>(s: Lfu.State<K, V>, r: Ref<K, V>, k: K)
    requires s.Inv() && Simulates(s, r)
    ensures Simulates(Lfu.Delete(s, k).0, Delete(r, k).0) && Lfu.Delete(s, k).1 == Delete(r, k).1
  {
    if k in s.entries {
      UnlinkOrdered(s.buckets, r.since, r.clock, s.entries[k].freq, k);
    } else {
      assert s.entries - {k} == s.entries;
    }
  }

  lemma LookupSimulates<K(!new), V>(s: Lfu.State<K, V>, r: Ref<K, V>, k: K, now: nat)
    requires s.Inv() && Simulates(s, r)
    ensures Simulates(Lfu.Lookup(s, k, now).0, Lookup(r, k, now).0)
    ensures Lfu.Lookup(s, k, now).1 == Lookup(r, k, now).1
  {
    hide Lfu.Agree, Ordered, Lfu.Delete, Delete, Lfu.Increment;
    if k in s.entries {
      if s.entries[k].entry.Expired(now) {
        DeleteSimulates(s, r, k);
      } else {
        StoreSimulates(s, r, k, s.entries[k].entry);
      }
    }
  }

  lemma ResizeSimulates<K(!new), V>(s: Lfu.State<K, V>, r: Ref<K, V>, n: nat)
    requires s.Inv() && Simulates(s, r) && Lfu.SafeResize(s, n)
    ensures Simulates(Lfu.Resized(s, n), EvictTimes(r.(cap := n), Lfu.Excess(s, n)))
  {
    EvictTimesSimulates(s.(cap := n), r.(cap := n), Lfu.Excess(s, n));
  }

  lemma ClearSimulates<K(!new), V>(s: Lfu.State<K, V>, r: Ref<K, V>)
    requires Simulates(s, r)
    ensures Simulates(Lfu.New(s.cap), r.(entries := map[]))
  {
  }

  lemma ChangeSimulates<K(!new), V>(s: Lfu.State<K, V>, r: Ref<K, V>, ev: Event<K, V>)
    requires s.Inv() && Simulates(s, r) && (ev.op.Put? || ev.op.PutWithTtl? || ev.op.Remove?)
    ensures Simulates(Lfu.Step(s, ev).0, Step(r, ev).0) && Lfu.Step(s, ev).1 == Step(r, ev).1
  {
    hide Simulates, Lfu.InsertEntry, Insert, Lfu.Delete, Delete;
    if ev.op.Remove? { DeleteSimulates(s, r, ev.op.key); } else { InsertSimulates(s, r, ev.op.key, ev.Entry()); }
  }

  lemma ResizeStepSimulates<K(!new), V>(s: Lfu.State<K, V>, r: Ref<K, V>, ev: Event<K, V>)
    requires s.Inv() && Simulates(s, r) && ev.op.Resize? && Lfu.SafeResize(s, ev.op.cap)
    ensures Simulates(Lfu.Step(s, ev).0, Step(r, ev).0) && Lfu.Step(s, ev).1 == Step(r, ev).1
  {
    assert s.entries == r.entries;
    ResizeSimulates(s, r, ev.op.cap);
    hide Simulates, Lfu.Resized, EvictTimes;
  }

  lemma StepSimulates<K(!new), V>(s: Lfu.State<K, V>, r: Ref<K, V>, ev: Event<K, V>)
    requires s.Inv() && Simulates(s, r)
    requires ev.op.Resize? ==> Lfu.SafeResize(s, ev.op.cap)
    ensures Simulates(Lfu.Step(s, ev).0, Step(r, ev).0) && Lfu.Step(s, ev).1 == Step(r, ev).1
  {
    match ev.op {
      case Get(k) => LookupSimulates(s, r, k, ev.now); hide Simulates, Lfu.Lookup, Lookup;
      case Clear => ClearSimulates(s, r); hide Simulates;
      case Resize(_) => ResizeStepSimulates(s, r, ev); hide Simulates, Lfu.Step, Step;
      case _ => ChangeSimulates(s, r, ev); hide Simulates, Lfu.Step, Step;
    }
  }

  lemma {:induction false} RunSimulates<K(!new), V>(cap: nat, evs: seq<Event<K, V>>)
    requires Lfu.Tame(cap, evs)
    ensures Simulates(Lfu.Run(cap, evs), Run(cap, evs))
    decreases |evs|
  {
    if evs != [] {
      var before := evs[..|evs| - 1];
      RunSimulates(cap, before);
      Lfu.RunInv(cap, before);
      StepSimulates(Lfu.Run(cap, before), Run(cap, before), evs[|evs| - 1]);
    }
  }

  /** After any tame run, the next call is answered as by the searching reference: same hit or
      miss, same evicted value, same contents afterwards. */
  lemma RefinesReference<K(!new), V>(cap: nat, evs: seq<Event<K, V>>, ev: Event<K, V>)
    requires Lfu.Tame(cap, evs) && (ev.op.Resize? ==> Lfu.SafeResize(Lfu.Run(cap, evs), ev.op.cap))
    ensures Lfu.Step(Lfu.Run(cap, evs), ev).1 == Step(Run(cap, evs), ev).1
    ensures Lfu.Step(Lfu.Run(cap, evs), ev).0.entries == Step(Run(cap, evs), ev).0.entries
  {
    RunSimulates(cap, evs);
    Lfu.RunInv(cap, evs);
    StepSimulates(Lfu.Run(cap, evs), Run(cap, evs), ev);
  }

  /** A put of a new key into a full cache evicts exactly the reference's victim. */
  lemma EvictsLeastFrequentEarliest<K(!new), V>(cap: nat, evs: seq<Event<K, V>>, k: K, e: CacheEntry<V>)
    requires Lfu.Tame(cap, evs)
    requires |Lfu.Run(cap, evs).entries| == Lfu.Run(cap, evs).cap >= 1 && k !in Lfu.Run(cap, evs).entries
    ensures var s := Lfu.Run(cap, evs);
            s.MinBucket() != [] && IsVictim(Run(cap, evs), s.MinBucket()[0]) &&
            Lfu.InsertEntry(s, k, e).0.entries == (s.entries - {s.MinBucket()[0]})[k := Lfu.Counted(1, e)]
  {
    var s := Lfu.Run(cap, evs);
    RunSimulates(cap, evs);
    Lfu.RunInv(cap, evs);
    Lfu.EmptyIffZero(s.entries);
    FrontIsVictim(s, Run(cap, evs));
    Lfu.EvictUnlinks(s);
  }
}
