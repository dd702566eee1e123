/** The byte-budget wrapper over an LRU cache. The inner cache evicts and expires entries without
    telling the wrapper, so `current` may overcount the bytes that are really held. */
module Bounded {
  import opened LinkedMaps
  import opened Caches
  import Lru

  type Bytes = seq<bv8>
  type Entries = map<Bytes, CacheEntry<Bytes>>

  function Size(k: Bytes, v: Bytes): nat { |k| + |v| }

  datatype State = State(inner: Lru.State<Bytes, Bytes>, max: nat, current: nat, order: seq<Bytes>)

  /** The bytes of the listed keys and their values. */
  ghost function Real(keys: seq<Bytes>, entries: Entries): nat
    requires forall k :: k in keys ==> k in entries
  {
    if keys == [] then 0 else Size(keys[0], entries[keys[0]].value) + Real(keys[1..], entries)
  }

  ghost function RealBytes(s: State): nat
    requires s.inner.Valid()
  {
    Real(s.inner.items.order, s.inner.items.entries)
  }

  ghost predicate Inv(s: State) {
    && s.inner.Valid()
    && Tracked(s.inner.items.entries, s.order)
    && RealBytes(s) <= s.current
  }

  /** Every key held is in the list that evictions follow. */
  ghost predicate Tracked(entries: Entries, order: seq<Bytes>) {
    forall k :: k in entries ==> k in order
  }

  function Saturating(a: nat, b: nat): nat { if a < b then 0 else a - b }

  /** `evict_until_fits`. */
  function EvictUntilFits(s: State, needed: nat): (t: State)
    requires s.inner.Valid()
    ensures t.inner.Valid() && t.max == s.max
    decreases |s.order|
  {
    if s.current + needed <= s.max || s.order == [] then s
    else
      var (inner, removed) := Lru.Delete(s.inner, s.order[0]);
      var freed := if removed.Some? then Size(s.order[0], removed.value) else 0;
      EvictUntilFits(State(inner, s.max, Saturating(s.current, freed), s.order[1..]), needed)
  }

  /** `put` and `put_with_ttl`: make room, forget the old size of a live key, insert. */
  function Put(s: State, k: Bytes, e: CacheEntry<Bytes>, now: nat): State
    requires s.inner.Valid()
  {
    var t := EvictUntilFits(s, Size(k, e.value));
    var existing := Peek(t.inner.items.entries, k, now);
    var current := if existing.Some? then Saturating(t.current, Size(k, existing.value)) else t.current;
    var order := if existing.Some? then Without(t.order, k) else t.order;
    State(Lru.InsertEntry(t.inner, k, e).0, s.max, current + Size(k, e.value), order + [k])
  }

  /** What the inner cache hands back: the value it evicts for the new key, if it is full even so. */
  function Evicted(s: State, k: Bytes, e: CacheEntry<Bytes>): Option<Bytes>
    requires s.inner.Valid()
  {
    Lru.InsertEntry(EvictUntilFits(s, Size(k, e.value)).inner, k, e).1
  }

  function Get(s: State, k: Bytes, now: nat): (State, Option<Bytes>)
    requires s.inner.Valid()
  {
    var (inner, hit) := Lru.Lookup(s.inner, k, now);
    (s.(inner := inner), hit)
  }

  function Remove(s: State, k: Bytes): (State, Option<Bytes>)
    requires s.inner.Valid()
  {
    var (inner, removed) := Lru.Delete(s.inner, k);
    if removed.Some? then
      (State(inner, s.max, Saturating(s.current, Size(k, removed.value)), Without(s.order, k)), removed)
    else (s.(inner := inner), None)
  }

  // ---------------------------------------------------------------------
  // Byte sums under list operations
  // ---------------------------------------------------------------------

  lemma {:induction false} RealAppend(a: seq<Bytes>, b: seq<Bytes>, entries: Entries)
    requires forall k :: k in a + b ==> k in entries
    ensures Real(a + b, entries) == Real(a, entries) + Real(b, entries)
  {
    if a == [] {
      assert a + b == b;
    } else {
      assert (a + b)[1..] == a[1..] + b;
      RealAppend(a[1..], b, entries);
    }
  }

  lemma {:induction false} RealSame(keys: seq<Bytes>, m: Entries, n: Entries)
    requires forall k :: k in keys ==> k in m && k in n && m[k] == n[k]
    ensures Real(keys, m) == Real(keys, n)
  {
    if keys != [] { RealSame(keys[1..], m, n); }
  }

  lemma {:induction false} RealWithout(keys: seq<Bytes>, entries: Entries, k: Bytes)
    requires NoDup(keys) && forall j :: j in keys ==> j in entries
    ensures Real(Without(keys, k), entries) ==
            Real(keys, entries) - if k in keys then Size(k, entries[k].value) else 0
  {
    if keys != [] {
      RealWithout(keys[1..], entries, k);
      if keys[0] == k {
        assert k !in keys[1..];
      } else {
        var rest := Without(keys[1..], k);
        assert ([keys[0]] + rest)[1..] == rest;
      }
    }
  }

  /** The size of the entry stored under `k`, 0 if there is none. */
  ghost function Held(items: LinkedMap<Bytes, CacheEntry<Bytes>>, k: Bytes): nat {
    if k in items.entries then Size(k, items.entries[k].value) else 0
  }

  lemma RemoveBytes(items: LinkedMap<Bytes, CacheEntry<Bytes>>, k: Bytes)
    requires items.Valid()
    ensures Real(items.Remove(k).order, items.Remove(k).entries) == Real(items.order, items.entries) - Held(items, k)
  {
    RealWithout(items.order, items.entries, k);
    RealSame(Without(items.order, k), items.entries, items.entries - {k});
  }

  lemma InsertBytes(items: LinkedMap<Bytes, CacheEntry<Bytes>>, k: Bytes, e: CacheEntry<Bytes>)
    requires items.Valid()
    ensures Real(items.Insert(k, e).order, items.Insert(k, e).entries) ==
            Real(items.order, items.entries) - Held(items, k) + Size(k, e.value)
  {
    RealWithout(items.order, items.entries, k);
    var keys := Without(items.order, k);
    RealSame(keys, items.entries, items.entries[k := e]);
    RealAppend(keys, [k], items.entries[k := e]);
    assert Real([k], items.entries[k := e]) == Size(k, e.value);
  }

  lemma PopBytes(items: LinkedMap<Bytes, CacheEntry<Bytes>>)
    requires items.Valid() && items.order != []
    ensures Real(items.PopFront().order, items.PopFront().entries) ==
            Real(items.order, items.entries) - Held(items, items.order[0])
  {
    assert items.order[0] in items.order;
    RealSame(items.order[1..], items.entries, items.entries - {items.order[0]});
  }

  /** What an inner put silently drops: the front of a full cache, for a key it does not hold. */
  ghost function Dropped(c: Lru.State<Bytes, Bytes>, k: Bytes): nat
    requires c.Valid()
  {
    if k !in c.items.entries && c.cap > 0 && c.items.Len() >= c.cap then Held(c.items, c.items.order[0]) else 0
  }

  lemma InnerPutBytes(c: Lru.State<Bytes, Bytes>, k: Bytes, e: CacheEntry<Bytes>)
    requires c.Valid()
    ensures var d := Lru.InsertEntry(c, k, e).0;
            Real(d.items.order, d.items.entries) ==
            Real(c.items.order, c.items.entries) - Held(c.items, k) - Dropped(c, k) + Size(k, e.value)
  {
    if k !in c.items.entries && c.cap > 0 && c.items.Len() >= c.cap {
      PopBytes(c.items);
      InsertBytes(c.items.PopFront(), k, e);
    } else {
      InsertBytes(c.items, k, e);
    }
  }

  // ---------------------------------------------------------------------
  // The budget
  // ---------------------------------------------------------------------

  /** Bytes counted that are no longer there. */
  ghost function Overcount(s: State): int
    requires s.inner.Valid()
  {
    s.current - RealBytes(s)
  }

  lemma {:induction false} EvictKeeps(s: State, needed: nat)
    requires Inv(s)
    ensures var t := EvictUntilFits(s, needed);
            && Inv(t) && Overcount(t) == Overcount(s)
            && (t.current + needed <= s.max || (t.order == [] && t.inner.items.order == []))
    decreases |s.order|
  {
    if s.current + needed > s.max && s.order != [] {
      var (inner, removed) := Lru.Delete(s.inner, s.order[0]);
      var freed := if removed.Some? then Size(s.order[0], removed.value) else 0;
      RemoveBytes(s.inner.items, s.order[0]);
      EvictKeeps(State(inner, s.max, Saturating(s.current, freed), s.order[1..]), needed);
    } else if s.order == [] {
      NoKeysNoOrder(s.inner.items);
    }
  }

  lemma NoKeysNoOrder(items: LinkedMap<Bytes, CacheEntry<Bytes>>)
    requires items.Valid()
    ensures (forall k :: k !in items.entries) ==> items.order == []
  {
    if items.order != [] { assert items.order[0] in items.order; }
  }

  lemma PutKeeps(s: State, k: Bytes, e: CacheEntry<Bytes>, now: nat)
    requires Inv(s)
    ensures Inv(Put(s, k, e, now))
    ensures var t := EvictUntilFits(s, Size(k, e.value));
            Overcount(Put(s, k, e, now)) == Overcount(s) + Dropped(t.inner, k)
              + if Peek(t.inner.items.entries, k, now).Some? then 0 else Held(t.inner.items, k)
  {
    var size := Size(k, e.value);
    EvictKeeps(s, size);
    var t := EvictUntilFits(s, size);
    InnerPutBytes(t.inner, k, e);
    HeldBound(t.inner.items, k);
    PutKeys(t, k, e, now);
  }

  lemma HeldBound(items: LinkedMap<Bytes, CacheEntry<Bytes>>, k: Bytes)
    requires items.Valid()
    ensures Held(items, k) <= Real(items.order, items.entries)
  {
    RealWithout(items.order, items.entries, k);
  }

  lemma PutKeys(t: State, k: Bytes, e: CacheEntry<Bytes>, now: nat)
    requires Inv(t)
    ensures forall j :: j in Lru.InsertEntry(t.inner, k, e).0.items.entries ==>
              j in (if Peek(t.inner.items.entries, k, now).Some? then Without(t.order, k) else t.order) + [k]
  {
  }

  /** The real contents fit the budget after a put exactly when the new entry alone fits it. */
  lemma PutWithinBudgetIff(s: State, k: Bytes, e: CacheEntry<Bytes>, now: nat)
    requires Inv(s)
    ensures RealBytes(Put(s, k, e, now)) <= s.max <==> Size(k, e.value) <= s.max
  {
    var size := Size(k, e.value);
    var t := EvictUntilFits(s, size);
    EvictKeeps(s, size);
    InnerPutBytes(t.inner, k, e);
    HeldBound(t.inner.items, k);
    PutHolds(t.inner, k, e);
    HeldBound(Put(s, k, e, now).inner.items, k);
    if t.inner.items.order == [] {
      assert Real(t.inner.items.order, t.inner.items.entries) == 0;
    }
  }

  lemma PutHolds(c: Lru.State<Bytes, Bytes>, k: Bytes, e: CacheEntry<Bytes>)
    requires c.Valid()
    ensures Held(Lru.InsertEntry(c, k, e).0.items, k) == Size(k, e.value)
  {
  }

  lemma GetKeeps(s: State, k: Bytes, now: nat)
    requires Inv(s)
    ensures Inv(Get(s, k, now).0)
    ensures RealBytes(Get(s, k, now).0) <= RealBytes(s) && Overcount(Get(s, k, now).0) >= Overcount(s)
  {
    if k in s.inner.items.entries {
      RemoveBytes(s.inner.items, k);
      InsertBytes(s.inner.items, k, s.inner.items.entries[k]);
    }
  }

  lemma RemoveKeeps(s: State, k: Bytes)
    requires Inv(s)
    ensures Inv(Remove(s, k).0)
    ensures RealBytes(Remove(s, k).0) <= RealBytes(s) && Overcount(Remove(s, k).0) == Overcount(s)
  {
    RemoveBytes(s.inner.items, k);
    HeldBound(s.inner.items, k);
  }

  lemma DropFrontBytes(items: LinkedMap<Bytes, CacheEntry<Bytes>>, n: nat)
    requires items.Valid() && n <= items.Len()
    ensures Real(Lru.DropFront(items, n).order, Lru.DropFront(items, n).entries) <= Real(items.order, items.entries)
  {
    var order := items.order;
    assert order == order[..n] + order[n..];
    RealAppend(order[..n], order[n..], items.entries);
    RealSame(order[n..], items.entries, Lru.DropFront(items, n).entries);
  }

  lemma ResizeKeeps(s: State, n: nat)
    requires Inv(s)
    ensures var t := s.(inner := Lru.Resized(s.inner, n));
            Inv(t) && RealBytes(t) <= RealBytes(s) && Overcount(t) >= Overcount(s)
  {
    var c := s.inner;
    var m := if n > 0 && c.items.Len() > n then c.items.Len() - n else 0;
    DropFrontBytes(c.items, m);
    ResizedItems(c, n);
    hide Lru.Resized, Tracked, Real, LinkedMap.Valid, Lru.State.Valid;
    DropFrontTracked(c.items, m, s.order);
    hide Lru.DropFront;
  }

  lemma ResizedItems(c: Lru.State<Bytes, Bytes>, n: nat)
    requires c.Valid()
    ensures Lru.Resized(c, n).items ==
            Lru.DropFront(c.items, if n > 0 && c.items.Len() > n then c.items.Len() - n else 0)
  {
    hide Lru.DropFront;
  }

  lemma DropFrontTracked(items: LinkedMap<Bytes, CacheEntry<Bytes>>, n: nat, order: seq<Bytes>)
    requires items.Valid() && n <= items.Len() && Tracked(items.entries, order)
    ensures Tracked(Lru.DropFront(items, n).entries, order)
  {
    assert forall k :: k in items.order[n..] ==> k in items.order;
  }

  // ---------------------------------------------------------------------
  // Runs
  // ---------------------------------------------------------------------

  function Step(s: State, ev: Event<Bytes, Bytes>): State
    requires s.inner.Valid()
  {
    match ev.op
    case Put(k, _) => Put(s, k, ev.Entry(), ev.now)
    case PutWithTtl(k, _, _) => Put(s, k, ev.Entry(), ev.now)
    case Get(k) => Get(s, k, ev.now).0
    case Remove(k) => Remove(s, k).0
    case Clear => State(Lru.New(s.inner.cap), s.max, 0, [])
    case Resize(n) => s.(inner := Lru.Resized(s.inner, n))
  }

  lemma StepInv(s: State, ev: Event<Bytes, Bytes>)
    requires Inv(s)
    ensures Inv(Step(s, ev))
    ensures !ev.op.Clear? ==> Overcount(Step(s, ev)) >= Overcount(s)
  {
    match ev.op {
      case Put(k, _) => PutKeeps(s, k, ev.Entry(), ev.now);
      case PutWithTtl(k, _, _) => PutKeeps(s, k, ev.Entry(), ev.now);
      case Get(k) => GetKeeps(s, k, ev.now);
      case Remove(k) => RemoveKeeps(s, k);
      case Clear =>
      case Resize(n) => ResizeKeeps(s, n);
    }
  }

  /** Every inner key is tracked and the real bytes never exceed the count. */
  ghost function Run(s: State, evs: seq<Event<Bytes, Bytes>>): (r: State)
    requires Inv(s)
    ensures Inv(r)
  {
    if evs == [] then s else
      var before := Run(s, evs[..|evs| - 1]);
      StepInv(before, evs[|evs| - 1]);
      Step(before, evs[|evs| - 1])
  }

  ghost function New(cap: nat, max: nat): (s: State)
    ensures Inv(s)
  {
    State(Lru.New(cap), max, 0, [])
  }

  ghost predicate EveryPutFits(evs: seq<Event<Bytes, Bytes>>, max: nat) {
    forall i :: 0 <= i < |evs| && evs[i].op.IsPut() ==> Size(evs[i].op.key, evs[i].op.value) <= max
  }

  lemma StepWithinBudget(s: State, ev: Event<Bytes, Bytes>)
    requires Inv(s) && RealBytes(s) <= s.max
    requires ev.op.IsPut() ==> Size(ev.op.key, ev.op.value) <= s.max
    ensures Step(s, ev).max == s.max && Step(s, ev).inner.Valid() && RealBytes(Step(s, ev)) <= s.max
  {
    StepInv(s, ev);
    match ev.op {
      case Put(k, _) => PutWithinBudgetIff(s, k, ev.Entry(), ev.now);
      case PutWithTtl(k, _, _) => PutWithinBudgetIff(s, k, ev.Entry(), ev.now);
      case Get(k) => GetKeeps(s, k, ev.now);
      case Remove(k) => RemoveKeeps(s, k);
      case Clear =>
      case Resize(n) => ResizeKeeps(s, n);
    }
  }

  /** If every inserted entry fits the budget by itself, the bytes really held never exceed it,
      whatever the inner cache evicts or expires and however far the count has drifted. */
  lemma {:induction false} RunWithinBudget(cap: nat, max: nat, evs: seq<Event<Bytes, Bytes>>)
    requires EveryPutFits(evs, max)
    ensures Run(New(cap, max), evs).max == max && RealBytes(Run(New(cap, max), evs)) <= max
    decreases |evs|
  {
    if evs == [] {
    } else {
      var before := evs[..|evs| - 1];
      RunWithinBudget(cap, max, before);
      StepWithinBudget(Run(New(cap, max), before), evs[|evs| - 1]);
    }
  }

  // ---------------------------------------------------------------------
  // The price of the overcount
  // ---------------------------------------------------------------------

  /** Of the live keys, the one whose turn to be evicted comes last. */
  ghost function LastOut(order: seq<Bytes>, entries: Entries): Option<Bytes> {
    if order == [] then None
    else
      var later := LastOut(order[1..], entries - {order[0]});
      if later.Some? then later else if order[0] in entries then Some(order[0]) else None
  }

  lemma {:induction false} LastOutIs(order: seq<Bytes>, entries: Entries)
    requires forall k :: k in entries ==> k in order
    ensures LastOut(order, entries).None? <==> entries == map[]
    ensures LastOut(order, entries).Some? ==> LastOut(order, entries).value in entries
  {
    if order != [] {
      LastOutIs(order[1..], entries - {order[0]});
      if entries - {order[0]} == map[] && order[0] !in entries { assert entries == map[]; }
    }
  }

  lemma EmptyItems(items: LinkedMap<Bytes, CacheEntry<Bytes>>)
    requires items.Valid()
    ensures items.order == [] <==> items.entries == map[]
  {
    if items.order != [] { assert items.order[0] in items.entries; }
    if items.order == [] { assert forall k :: k !in items.entries; }
  }

  /** One round of the loop. */
  function EvictOne(s: State): State
    requires s.inner.Valid() && s.order != []
  {
    var (inner, removed) := Lru.Delete(s.inner, s.order[0]);
    var freed := if removed.Some? then Size(s.order[0], removed.value) else 0;
    State(inner, s.max, Saturating(s.current, freed), s.order[1..])
  }

  lemma EvictOneKeeps(s: State)
    requires Inv(s) && s.order != []
    ensures Inv(EvictOne(s)) && Overcount(EvictOne(s)) == Overcount(s)
    ensures EvictOne(s).inner.items.entries == s.inner.items.entries - {s.order[0]}
  {
    RemoveBytes(s.inner.items, s.order[0]);
    HeldBound(s.inner.items, s.order[0]);
  }

  lemma OneLeft(items: LinkedMap<Bytes, CacheEntry<Bytes>>, k: Bytes)
    requires items.Valid() && k in items.entries && items.entries - {k} == map[]
    ensures Real(items.order, items.entries) == Held(items, k)
  {
    RemoveBytes(items, k);
    EmptyItems(items.Remove(k));
  }

  /** Making room empties the cache exactly when it holds nothing, or when the bytes overcounted, the last
      entry to go and the room needed exceed the budget together. */
  lemma {:induction false} EvictionEmptiesIff(s: State, needed: nat)
    requires Inv(s)
    ensures EvictUntilFits(s, needed).inner.items.order == [] <==>
            var last := LastOut(s.order, s.inner.items.entries);
            last.None? || Overcount(s) + Held(s.inner.items, last.value) + needed > s.max
    decreases |s.order|
  {
    var entries := s.inner.items.entries;
    LastOutIs(s.order, entries);
    EmptyItems(s.inner.items);
    if s.current + needed > s.max && s.order != [] {
      var t := EvictOne(s);
      EvictOneKeeps(s);
      EvictionEmptiesIff(t, needed);
      LastOutIs(t.order, t.inner.items.entries);
      if t.inner.items.entries == map[] && s.order[0] in entries { OneLeft(s.inner.items, s.order[0]); }
      hide EvictOne, Real;
    } else if LastOut(s.order, entries).Some? {
      HeldBound(s.inner.items, LastOut(s.order, entries).value);
    }
  }

  /** In particular a put empties the cache once overcount and entry exceed the budget. */
  lemma CrowdedPut(s: State, k: Bytes, e: CacheEntry<Bytes>, now: nat)
    requires Inv(s) && Overcount(s) + Size(k, e.value) > s.max
    ensures Put(s, k, e, now).inner.items.order == [k]
  {
    var size := Size(k, e.value);
    EvictionEmptiesIff(s, size);
    var t := EvictUntilFits(s, size);
    assert t.inner.items.order == [];
    assert k !in t.inner.items.entries;
    assert Without<Bytes>([], k) == [];
  }

  lemma {:induction false} NoBytesNoKeys(keys: seq<Bytes>, entries: Entries)
    requires NoDup(keys) && (forall k :: k in keys ==> k in entries) && Real(keys, entries) == 0
    ensures keys == [] || keys == [[]]
  {
    if keys != [] {
      assert |keys[0]| == 0;
      NoBytesNoKeys(keys[1..], entries);
      assert keys == [keys[0]] + keys[1..];
    }
  }

  /** When the whole budget is overcounted a put leaves at most the entry put. */
  lemma FullyCrowdedPut(s: State, k: Bytes, e: CacheEntry<Bytes>, now: nat)
    requires Inv(s) && Overcount(s) >= s.max
    ensures Put(s, k, e, now).inner.items.Len() <= 1
  {
    var size := Size(k, e.value);
    if size > 0 {
      CrowdedPut(s, k, e, now);
    } else {
      EvictKeeps(s, 0);
      var t := EvictUntilFits(s, 0);
      NoBytesNoKeys(t.inner.items.order, t.inner.items.entries);
      assert k == [];
      EmptyKeyPut(t.inner, e);
    }
  }

  lemma EmptyKeyPut(c: Lru.State<Bytes, Bytes>, e: CacheEntry<Bytes>)
    requires c.Valid() && (c.items.order == [] || c.items.order == [[]])
    ensures Lru.InsertEntry(c, [], e).0.items.Len() <= 1
  {
    if c.items.order == [[]] { assert [] in c.items.order; }
    EmptyItems(c.items);
  }

  lemma CrowdedStep(s: State, ev: Event<Bytes, Bytes>)
    requires Inv(s) && Overcount(s) >= s.max && s.inner.items.Len() <= 1 && !ev.op.Clear?
    ensures Step(s, ev).max == s.max && Step(s, ev).inner.items.Len() <= 1
    ensures Inv(Step(s, ev)) && Overcount(Step(s, ev)) >= s.max
  {
    StepInv(s, ev);
    match ev.op {
      case Put(k, _) => FullyCrowdedPut(s, k, ev.Entry(), ev.now);
      case PutWithTtl(k, _, _) => FullyCrowdedPut(s, k, ev.Entry(), ev.now);
      case Get(k) =>
      case Remove(k) =>
      case Resize(n) =>
    }
  }

  ghost predicate NoClear(evs: seq<Event<Bytes, Bytes>>) {
    forall i :: 0 <= i < |evs| ==> !evs[i].op.Clear?
  }

  /** The overcount never heals: from then on, until a `clear`, the cache holds at most one entry. */
  lemma {:induction false} CrowdedForGood(s: State, evs: seq<Event<Bytes, Bytes>>)
    requires Inv(s) && Overcount(s) >= s.max && s.inner.items.Len() <= 1 && NoClear(evs)
    ensures Run(s, evs).max == s.max && Overcount(Run(s, evs)) >= s.max && Run(s, evs).inner.items.Len() <= 1
    decreases |evs|
  {
    if evs != [] {
      var before, ev := evs[..|evs| - 1], evs[|evs| - 1];
      CrowdedForGood(s, before);
      CrowdedStep(Run(s, before), ev);
    }
  }

  lemma RunSnoc(s: State, evs: seq<Event<Bytes, Bytes>>, ev: Event<Bytes, Bytes>)
    requires Inv(s)
    ensures Run(s, evs + [ev]) == Step(Run(s, evs), ev)
  {
    assert (evs + [ev])[..|evs|] == evs;
    hide Step;
  }

  const NOTHING: CacheEntry<Bytes> := CacheEntry([], None)

  /** Below the threshold two small entries fit side by side. */
  lemma RoomForTwo(s: State)
    requires Inv(s) && Overcount(s) < s.max && s.inner.cap != 1 && s.inner.items.order == []
    ensures var t := Put(s, [], NOTHING, 0); t.inner.Valid() && Put(t, [0], NOTHING, 0).inner.items.Len() == 2
  {
    EmptyItems(s.inner.items);
    assert s.current < s.max by { assert Real(s.inner.items.order, s.inner.items.entries) == 0; }
    var t := Put(s, [], NOTHING, 0);
    FittingPut(s, [], NOTHING);
    InsertInto(s.inner, [], NOTHING);
    hide Put, Lru.InsertEntry, EvictUntilFits, Inv;
    FittingPut(t, [0], NOTHING);
    assert [0] !in t.inner.items.order;
    InsertInto(t.inner, [0], NOTHING);
  }

  lemma FittingPut(s: State, k: Bytes, e: CacheEntry<Bytes>)
    requires s.inner.Valid() && s.current + Size(k, e.value) <= s.max && k !in s.inner.items.entries
    ensures var t := Put(s, k, e, 0);
            t.inner == Lru.InsertEntry(s.inner, k, e).0 && t.max == s.max && t.current == s.current + Size(k, e.value)
  {
    hide Lru.InsertEntry;
  }

  lemma InsertInto(c: Lru.State<Bytes, Bytes>, k: Bytes, e: CacheEntry<Bytes>)
    requires c.Valid() && k !in c.items.order && (c.cap == 0 || c.items.Len() < c.cap)
    ensures Lru.InsertEntry(c, k, e).0.items.order == c.items.order + [k] && Lru.InsertEntry(c, k, e).0.cap == c.cap
  {
    WithoutAbsent(c.items.order, k);
  }

  /** The calls that empty the cache and then put two small entries. */
  function Probe(s: State): seq<Event<Bytes, Bytes>> {
    var empty := if s.inner.items.order == [] then [] else [] + [Event(0, Op.Remove(s.inner.items.order[0]))];
    empty + [Event(0, Op.Put([], []))] + [Event(0, Op.Put([0], []))]
  }

  lemma ProbeFinds(s: State)
    requires Inv(s) && Overcount(s) < s.max && s.inner.cap != 1 && s.inner.items.Len() <= 1
    ensures NoClear(Probe(s)) && Run(s, Probe(s)).inner.items.Len() == 2
  {
    assert Run(s, []) == s;
    hide Run, Put, Remove, NoClear, Lru.State.Valid, RealBytes, Tracked;
    if s.inner.items.order == [] {
      TwoMore(s, []);
    } else {
      var k := s.inner.items.order[0];
      RemoveOnly(s, k);
      RemoveKeeps(s, k);
      RunSnoc(s, [], Event(0, Op.Remove(k)));
      TwoMore(s, [] + [Event(0, Op.Remove(k))]);
    }
    ProbePlain(s);
  }

  lemma ProbePlain(s: State)
    ensures NoClear(Probe(s))
  {
  }

  lemma TwoMore(s: State, evs: seq<Event<Bytes, Bytes>>)
    requires Inv(s)
    requires var t := Run(s, evs); Overcount(t) < t.max && t.inner.cap != 1 && t.inner.items.order == []
    ensures Run(s, evs + [Event(0, Op.Put([], []))] + [Event(0, Op.Put([0], []))]).inner.items.Len() == 2
  {
    hide Run, Put;
    RoomForTwo(Run(s, evs));
    RunSnoc(s, evs, Event(0, Op.Put([], [])));
    RunSnoc(s, evs + [Event(0, Op.Put([], []))], Event(0, Op.Put([0], [])));
  }

  lemma RemoveOnly(s: State, k: Bytes)
    requires Inv(s) && s.inner.items.order == [k]
    ensures var t := Remove(s, k).0;
            t.inner.items.order == [] && t.max == s.max && t.inner.cap == s.inner.cap
  {
    assert k in s.inner.items.order;
    assert Without([k], k) == [];
  }

  /** A cache of at most one entry is confined to one for good exactly when the whole budget is
      overcounted. */
  lemma CrowdedForGoodIff(s: State)
    requires Inv(s) && s.inner.items.Len() <= 1 && s.inner.cap != 1
    ensures (forall evs :: NoClear(evs) ==> Run(s, evs).inner.items.Len() <= 1) <==> Overcount(s) >= s.max
  {
    if Overcount(s) >= s.max {
      forall evs | NoClear(evs) ensures Run(s, evs).inner.items.Len() <= 1 { CrowdedForGood(s, evs); }
    } else {
      ProbeFinds(s);
    }
    hide Run;
  }

  /** Two calls reach that state from any new cache: an entry of the size of the budget is put, expires
      and is looked up. */
  function Drift(max: nat): seq<Event<Bytes, Bytes>> {
    [] + [Event(0, Op.PutWithTtl([], seq(max, _ => 0), 0))] + [Event(0, Op.Get([]))]
  }

  lemma CrowdReached(cap: nat, max: nat)
    ensures var s := Run(New(cap, max), Drift(max)); s.max == max && Overcount(s) >= max && s.inner.items.Len() == 0
  {
    var s0 := New(cap, max);
    assert Run(s0, []) == s0;
    var v: Bytes := seq(max, _ => 0);
    RunSnoc(s0, [], Event(0, Op.PutWithTtl([], v, 0)));
    RunSnoc(s0, [] + [Event(0, Op.PutWithTtl([], v, 0))], Event(0, Op.Get([])));
    var s1 := Put(s0, [], CacheEntry(v, Some(0)), 0);
    FirstPut(cap, max, v);
    assert Get(s1, [], 0).0.inner.items.order == [] by { assert Without<Bytes>([[]], []) == []; }
    hide Run;
  }

  lemma FirstPut(cap: nat, max: nat, v: Bytes)
    ensures var s := Put(New(cap, max), [], CacheEntry(v, Some(0)), 0);
            s.max == max && s.current == |v| && s.inner.items == LinkedMap([[]], map[[] := CacheEntry(v, Some(0))])
  {
    assert Without<Bytes>([], []) == [];
  }
}
