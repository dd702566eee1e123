/** The byte-budget wrapper while the inner cache loses nothing on its own: the count is exact, the list that
    evictions follow holds the keys in the order of their last put, and room is made by the oldest of them. */
module BoundedOrder {
  import opened LinkedMaps
  import opened Caches
  import Lru
  import B = Bounded

  /** The list holds each key of the inner cache once, and the count is their bytes. */
  ghost predicate Exact(s: B.State) {
    && s.inner.Valid() && NoDup(s.order)
    && (forall k :: k in s.order <==> k in s.inner.items.entries)
    && s.current == B.Real(s.order, s.inner.items.entries)
  }

  lemma {:induction false} RealPermuted(a: seq<B.Bytes>, b: seq<B.Bytes>, entries: B.Entries)
    requires NoDup(a) && NoDup(b) && (forall k :: k in a <==> k in b) && forall k :: k in a ==> k in entries
    ensures B.Real(a, entries) == B.Real(b, entries)
  {
    if a == [] {
      assert forall i :: 0 <= i < |b| ==> b[i] in b;
    } else {
      var rest := Without(b, a[0]);
      assert a[0] in b;
      B.RealWithout(b, entries, a[0]);
      WithoutNoDup(b, a[0]);
      assert forall k :: k in a[1..] <==> k in a && k != a[0] by { assert a == [a[0]] + a[1..]; }
      RealPermuted(a[1..], rest, entries);
    }
  }

  lemma ExactCounts(s: B.State)
    requires Exact(s)
    ensures B.Inv(s) && B.Overcount(s) == 0
  {
    RealPermuted(s.order, s.inner.items.order, s.inner.items.entries);
  }

  // ---------------------------------------------------------------------
  // Making room
  // ---------------------------------------------------------------------

  function PopOldest(s: B.State): B.State
    requires s.inner.Valid() && s.order != []
  {
    var (inner, removed) := Lru.Delete(s.inner, s.order[0]);
    var freed := if removed.Some? then B.Size(s.order[0], removed.value) else 0;
    B.State(inner, s.max, B.Saturating(s.current, freed), s.order[1..])
  }

  lemma PopExact(s: B.State)
    requires Exact(s) && s.order != []
    ensures Exact(PopOldest(s)) && Submap(PopOldest(s).inner.items.entries, s.inner.items.entries)
    ensures PopOldest(s).order == s.order[1..] && PopOldest(s).max == s.max && PopOldest(s).inner.cap == s.inner.cap
  {
    var k, rest, entries := s.order[0], s.order[1..], s.inner.items.entries;
    assert s.order == [k] + rest;
    assert k in s.order && k !in rest;
    B.RealSame(rest, entries, entries - {k});
  }

  /** `t` is `s` without its `n` oldest keys, which is as many as it takes and no more. */
  ghost predicate MakesRoom(s: B.State, t: B.State, needed: nat, n: nat)
    requires Exact(s)
  {
    && n <= |s.order| && t.order == s.order[n..] && Submap(t.inner.items.entries, s.inner.items.entries)
    && (n == |s.order| || B.Real(s.order[n..], s.inner.items.entries) + needed <= s.max)
    && forall i :: 0 <= i < n ==> B.Real(s.order[i..], s.inner.items.entries) + needed > s.max
  }

  lemma SameSuffix(s: B.State, i: nat)
    requires Exact(s) && 0 < i <= |s.order|
    ensures var p := PopOldest(s);
            && Exact(p) && p.order[i - 1..] == s.order[i..]
            && B.Real(p.order[i - 1..], p.inner.items.entries) == B.Real(s.order[i..], s.inner.items.entries)
  {
    PopExact(s);
    var p := PopOldest(s);
    hide PopOldest, NoDup;
    assert p.order[i - 1..] == s.order[i..];
    assert forall k :: k in p.order[i - 1..] ==> k in p.order;
    B.RealSame(s.order[i..], p.inner.items.entries, s.inner.items.entries);
  }

  lemma PopMakesRoom(s: B.State, t: B.State, needed: nat, n: nat)
    requires Exact(s) && s.order != [] && s.current + needed > s.max
    requires Exact(PopOldest(s)) && MakesRoom(PopOldest(s), t, needed, n)
    ensures MakesRoom(s, t, needed, n + 1)
  {
    hide PopOldest, NoDup, B.Real;
    PopExact(s);
    SameSuffix(s, n + 1);
    assert s.order[0..] == s.order;
    forall i | 0 <= i < n + 1 ensures B.Real(s.order[i..], s.inner.items.entries) + needed > s.max {
      if i > 0 { SameSuffix(s, i); }
    }
  }

  /** Room is made by removing the oldest keys of the list, as many as it takes and no more. */
  lemma {:induction false} EvictsOldest(s: B.State, needed: nat) returns (n: nat)
    requires Exact(s)
    ensures var t := B.EvictUntilFits(s, needed);
            MakesRoom(s, t, needed, n) && Exact(t) && t.inner.cap == s.inner.cap
    decreases |s.order|
  {
    if s.current + needed <= s.max || s.order == [] {
      n := 0;
      assert s.order[0..] == s.order;
    } else {
      PopExact(s);
      n := EvictsOldest(PopOldest(s), needed);
      PopMakesRoom(s, B.EvictUntilFits(s, needed), needed, n);
      n := n + 1;
      hide MakesRoom, Exact;
    }
  }

  // ---------------------------------------------------------------------
  // Steps and runs
  // ---------------------------------------------------------------------

  /** The inner cache takes nothing away that the wrapper does not hear of: it meets no expired entry, has room for
      a new key, and is not made smaller than its contents. */
  ghost predicate Quiet(s: B.State, ev: Event<B.Bytes, B.Bytes>)
    requires s.inner.Valid()
  {
    match ev.op
    case Put(k, _) => QuietPut(s, k, ev.Entry(), ev.now)
    case PutWithTtl(k, _, _) => QuietPut(s, k, ev.Entry(), ev.now)
    case Get(k) => k in s.inner.items.entries ==> !s.inner.items.entries[k].Expired(ev.now)
    case Remove(_) => true
    case Clear => true
    case Resize(n) => n == 0 || s.inner.items.Len() <= n
  }

  ghost predicate QuietPut(s: B.State, k: B.Bytes, e: CacheEntry<B.Bytes>, now: nat)
    requires s.inner.Valid()
  {
    var inner := B.EvictUntilFits(s, B.Size(k, e.value)).inner;
    if k in inner.items.entries then !inner.items.entries[k].Expired(now)
    else inner.cap == 0 || inner.items.Len() < inner.cap
  }

  /** The put once room is made. */
  function Placed(t: B.State, k: B.Bytes, e: CacheEntry<B.Bytes>, now: nat): B.State
    requires t.inner.Valid()
  {
    var existing := Peek(t.inner.items.entries, k, now);
    var current := if existing.Some? then B.Saturating(t.current, B.Size(k, existing.value)) else t.current;
    B.State(Lru.InsertEntry(t.inner, k, e).0, t.max, current + B.Size(k, e.value),
            (if existing.Some? then Without(t.order, k) else t.order) + [k])
  }

  lemma OverwriteLive(t: B.State, k: B.Bytes, e: CacheEntry<B.Bytes>, now: nat)
    requires Exact(t) && k in t.inner.items.entries && !t.inner.items.entries[k].Expired(now)
    ensures Exact(Placed(t, k, e, now)) && Placed(t, k, e, now).order == Without(t.order, k) + [k]
  {
    hide Without, B.Real, B.Size, NoDup, Lru.InsertEntry, Lru.State.Valid;
    RealMoved(t.order, t.inner.items.entries, k, e);
    MovedNoDup(t.order, k);
    InsertKept(t.inner, k, e);
  }

  lemma InsertKept(c: Lru.State<B.Bytes, B.Bytes>, k: B.Bytes, e: CacheEntry<B.Bytes>)
    requires c.Valid() && (k in c.items.entries || c.cap == 0 || c.items.Len() < c.cap)
    ensures Lru.InsertEntry(c, k, e).0.items.entries == c.items.entries[k := e]
  {
    hide Without;
  }

  lemma RealMoved(order: seq<B.Bytes>, entries: B.Entries, k: B.Bytes, e: CacheEntry<B.Bytes>)
    requires NoDup(order) && forall j :: j in order ==> j in entries
    ensures B.Real(Without(order, k) + [k], entries[k := e]) ==
            B.Real(order, entries) - (if k in order then B.Size(k, entries[k].value) else 0) + B.Size(k, e.value)
    ensures k in order ==> B.Size(k, entries[k].value) <= B.Real(order, entries)
  {
    var kept := Without(order, k);
    B.RealWithout(order, entries, k);
    hide Without;
    B.RealSame(kept, entries, entries[k := e]);
    B.RealAppend(kept, [k], entries[k := e]);
    assert B.Real([k], entries[k := e]) == B.Size(k, e.value);
  }

  lemma MovedNoDup(order: seq<B.Bytes>, k: B.Bytes)
    requires NoDup(order)
    ensures NoDup(Without(order, k) + [k])
  {
    WithoutNoDup(order, k);
    hide Without;
  }

  lemma InsertEntries(items: LinkedMap<B.Bytes, CacheEntry<B.Bytes>>, k: B.Bytes, e: CacheEntry<B.Bytes>)
    ensures items.Insert(k, e).entries == items.entries[k := e]
  {
  }

  /** An expired entry is overwritten as if it were not there, and its key listed twice. */
  lemma OverwriteExpired(t: B.State, k: B.Bytes, e: CacheEntry<B.Bytes>, now: nat)
    requires Exact(t) && k in t.inner.items.entries && t.inner.items.entries[k].Expired(now)
    ensures !Exact(Placed(t, k, e, now))
  {
    var i :| 0 <= i < |t.order| && t.order[i] == k;
    var order := t.order + [k];
    assert order[i] == order[|order| - 1] && i != |order| - 1;
    assert Placed(t, k, e, now).order == order;
    hide Without, B.Real;
  }

  lemma NewKeyFits(t: B.State, k: B.Bytes, e: CacheEntry<B.Bytes>, now: nat)
    requires Exact(t) && k !in t.inner.items.entries && (t.inner.cap == 0 || t.inner.items.Len() < t.inner.cap)
    ensures Exact(Placed(t, k, e, now)) && Placed(t, k, e, now).order == Without(t.order, k) + [k]
  {
    hide Without, B.Real, B.Size, NoDup, Lru.InsertEntry, Lru.State.Valid;
    WithoutAbsent(t.order, k);
    RealMoved(t.order, t.inner.items.entries, k, e);
    MovedNoDup(t.order, k);
    InsertKept(t.inner, k, e);
  }

  /** The key that the inner cache evicts stays in the list. */
  lemma NewKeyEvicts(t: B.State, k: B.Bytes, e: CacheEntry<B.Bytes>, now: nat)
    requires Exact(t) && k !in t.inner.items.entries && t.inner.items.Len() >= t.inner.cap > 0
    ensures !Exact(Placed(t, k, e, now))
  {
    var victim := t.inner.items.order[0];
    assert victim in t.inner.items.order;
    hide Without, B.Real, NoDup, LinkedMap.Insert;
    InsertEntries(t.inner.items.PopFront(), k, e);
    assert victim in t.order + [k];
    assert victim !in Placed(t, k, e, now).inner.items.entries;
  }

  lemma PutIsPlaced(s: B.State, k: B.Bytes, e: CacheEntry<B.Bytes>, now: nat)
    requires s.inner.Valid()
    ensures B.Put(s, k, e, now) == Placed(B.EvictUntilFits(s, B.Size(k, e.value)), k, e, now)
  {
    hide B.EvictUntilFits, Without, Lru.InsertEntry;
  }

  lemma PutExactIff(s: B.State, k: B.Bytes, e: CacheEntry<B.Bytes>, now: nat)
    requires Exact(s)
    ensures Exact(B.Put(s, k, e, now)) <==> QuietPut(s, k, e, now)
    ensures QuietPut(s, k, e, now) ==>
              exists n: nat :: n <= |s.order| && B.Put(s, k, e, now).order == Without(s.order[n..], k) + [k]
  {
    hide B.EvictUntilFits, B.Put, Placed, Without, B.Real, B.Size, NoDup, Lru.State.Valid, Submap;
    var n := EvictsOldest(s, B.Size(k, e.value));
    var t := B.EvictUntilFits(s, B.Size(k, e.value));
    PutIsPlaced(s, k, e, now);
    if k in t.inner.items.entries {
      if t.inner.items.entries[k].Expired(now) { OverwriteExpired(t, k, e, now); } else { OverwriteLive(t, k, e, now); }
    } else if t.inner.cap == 0 || t.inner.items.Len() < t.inner.cap {
      NewKeyFits(t, k, e, now);
    } else {
      NewKeyEvicts(t, k, e, now);
    }
  }

  lemma GetExactIff(s: B.State, k: B.Bytes, now: nat)
    requires Exact(s)
    ensures Exact(B.Get(s, k, now).0) <==>
            (k in s.inner.items.entries ==> !s.inner.items.entries[k].Expired(now))
  {
    var entries := s.inner.items.entries;
    if k in entries {
      assert entries[k := entries[k]] == entries;
      assert k in s.order;
    }
  }

  lemma RemoveExact(s: B.State, k: B.Bytes)
    requires Exact(s)
    ensures Exact(B.Remove(s, k).0) && B.Remove(s, k).0.order == Without(s.order, k)
  {
    hide Without, B.Real, B.Size, NoDup;
    var entries, kept := s.inner.items.entries, Without(s.order, k);
    WithoutNoDup(s.order, k);
    if k !in s.order { WithoutAbsent(s.order, k); }
    B.RealWithout(s.order, entries, k);
    B.RealSame(kept, entries, entries - {k});
  }

  lemma ResizeExactIff(s: B.State, n: nat)
    requires Exact(s)
    ensures Exact(s.(inner := Lru.Resized(s.inner, n))) <==> n == 0 || s.inner.items.Len() <= n
  {
    var items := s.inner.items;
    B.ResizedItems(s.inner, n);
    if n == 0 || items.Len() <= n {
      Lru.DropNone(items);
    } else {
      assert items.order[0] in items.order && items.order[0] in s.order;
      assert items.order[0] !in items.order[items.Len() - n..];
    }
  }

  /** From an exact state a call leaves an exact one if and only if the inner cache loses nothing by it unheard. */
  lemma StepExactIff(s: B.State, ev: Event<B.Bytes, B.Bytes>)
    requires Exact(s)
    ensures Exact(B.Step(s, ev)) <==> Quiet(s, ev)
  {
    hide Exact, B.Put, QuietPut, B.Get, B.Remove, Lru.Resized;
    match ev.op {
      case Put(k, _) => PutExactIff(s, k, ev.Entry(), ev.now);
      case PutWithTtl(k, _, _) => PutExactIff(s, k, ev.Entry(), ev.now);
      case Get(k) => GetExactIff(s, k, ev.now);
      case Remove(k) => RemoveExact(s, k);
      case Clear => NewExact(s.inner.cap, s.max);
      case Resize(n) => ResizeExactIff(s, n);
    }
  }

  lemma NewExact(cap: nat, max: nat)
    ensures Exact(B.New(cap, max))
  {
  }

  /** When each key was last put. */
  function PutTimes(evs: seq<Event<B.Bytes, B.Bytes>>): map<B.Bytes, nat> {
    if evs == [] then map[] else
      var n := |evs| - 1;
      if evs[n].op.IsPut() then PutTimes(evs[..n])[evs[n].op.key := n] else PutTimes(evs[..n])
  }

  ghost predicate QuietRun(cap: nat, max: nat, evs: seq<Event<B.Bytes, B.Bytes>>) {
    forall i :: 0 <= i < |evs| ==> Quiet(B.Run(B.New(cap, max), evs[..i]), evs[i])
  }

  lemma SuffixSorted(order: seq<B.Bytes>, used: map<B.Bytes, nat>, bound: nat, n: nat)
    requires n <= |order| && SortedByUse(order, used, bound)
    ensures SortedByUse(order[n..], used, bound)
  {
    assert forall k :: k in order[n..] ==> k in order;
  }

  lemma LaterBound(order: seq<B.Bytes>, used: map<B.Bytes, nat>, bound: nat)
    requires SortedByUse(order, used, bound)
    ensures SortedByUse(order, used, bound + 1)
  {
  }

  lemma StepSorted(s: B.State, ev: Event<B.Bytes, B.Bytes>, used: map<B.Bytes, nat>, now: nat)
    requires Exact(s) && Quiet(s, ev) && SortedByUse(s.order, used, now)
    ensures SortedByUse(B.Step(s, ev).order, if ev.op.IsPut() then used[ev.op.key := now] else used, now + 1)
  {
    hide Exact, B.Put, QuietPut, B.Remove, Lru.Resized, SortedByUse;
    LaterBound(s.order, used, now);
    match ev.op {
      case Put(k, _) => PutSorted(s, k, ev.Entry(), ev.now, used, now);
      case PutWithTtl(k, _, _) => PutSorted(s, k, ev.Entry(), ev.now, used, now);
      case Get(k) =>
      case Remove(k) => RemoveExact(s, k); WithoutSorted(s.order, used, now + 1, k);
      case Clear => SortedNone(used, now + 1);
      case Resize(n) =>
    }
  }

  lemma SortedNone(used: map<B.Bytes, nat>, bound: nat)
    ensures SortedByUse([], used, bound)
  {
  }

  lemma PutSorted(s: B.State, k: B.Bytes, e: CacheEntry<B.Bytes>, at: nat, used: map<B.Bytes, nat>, now: nat)
    requires Exact(s) && QuietPut(s, k, e, at) && SortedByUse(s.order, used, now)
    ensures SortedByUse(B.Put(s, k, e, at).order, used[k := now], now + 1)
  {
    hide B.Put, B.Real, QuietPut, SortedByUse;
    PutExactIff(s, k, e, at);
    var n: nat :| n <= |s.order| && B.Put(s, k, e, at).order == Without(s.order[n..], k) + [k];
    SuffixSorted(s.order, used, now, n);
    TouchSorted(s.order[n..], used, now, k);
  }

  /** As long as nothing was lost unheard, the count is the bytes held, and the list holds the keys of the cache,
      each once, in the order of their last put. */
  lemma {:induction false} RunExact(cap: nat, max: nat, evs: seq<Event<B.Bytes, B.Bytes>>)
    requires QuietRun(cap, max, evs)
    ensures var s := B.Run(B.New(cap, max), evs);
            Exact(s) && B.Overcount(s) == 0 && SortedByUse(s.order, PutTimes(evs), |evs|)
    decreases |evs|
  {
    hide Exact, SortedByUse, B.Overcount, B.Step, Quiet, B.Inv;
    if evs == [] {
      NewExact(cap, max);
      SortedNone(PutTimes(evs), 0);
    } else {
      var n := |evs| - 1;
      assert forall i :: 0 <= i < n ==> evs[..n][..i] == evs[..i];
      RunExact(cap, max, evs[..n]);
      var s := B.Run(B.New(cap, max), evs[..n]);
      StepExactIff(s, evs[n]);
      StepSorted(s, evs[n], PutTimes(evs[..n]), n);
    }
    ExactCounts(B.Run(B.New(cap, max), evs));
  }
}
