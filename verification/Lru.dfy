/** The LRU cache: recency list with lazy expiry. */
module Lru {
  import opened LinkedMaps
  import opened Caches

  datatype State<K(==, !new), V> = State(items: LinkedMap<K, CacheEntry<V>>, cap: nat) {
    /** A capacity of 0 never evicts, so it bounds nothing. */
    ghost predicate Valid() {
      items.Valid() && (cap > 0 ==> items.Len() <= cap)
    }
  }

  function New<K(==, !new), V>(cap: nat): (s: State<K, V>)
    ensures s.Valid()
  {
    State(EmptyLinked(), cap)
  }

  /** `insert_entry`: an update promotes, a new key evicts the front of a full cache. */
  function InsertEntry<K(==, !new), V>(s: State<K, V>, k: K, e: CacheEntry<V>): (r: (State<K, V>, Option<V>))
    requires s.Valid()
    ensures r.0.Valid()
  {
    if k in s.items.entries then
      (s.(items := s.items.Insert(k, e)), None)
    else if s.cap > 0 && s.items.Len() >= s.cap then
      var victim := s.items.order[0];
      var rest := s.items.PopFront();
      (s.(items := rest.Insert(k, e)), Some(s.items.entries[victim].value))
    else
      (s.(items := s.items.Insert(k, e)), None)
  }

  function Lookup<K(==, !new), V>(s: State<K, V>, k: K, now: nat): (r: (State<K, V>, Option<V>))
    requires s.Valid()
    ensures r.0.Valid()
  {
    if k !in s.items.entries then (s, None)
    else if s.items.entries[k].Expired(now) then (s.(items := s.items.Remove(k)), None)
    else (s.(items := s.items.Insert(k, s.items.entries[k])), Some(s.items.entries[k].value))
  }

  function Delete<K(==, !new), V>(s: State<K, V>, k: K): (r: (State<K, V>, Option<V>))
    requires s.Valid()
    ensures r.0.Valid()
  {
    (s.(items := s.items.Remove(k)),
     if k in s.items.entries then Some(s.items.entries[k].value) else None)
  }

  /** The `n` oldest entries gone. */
  function DropFront<K(==, !new), V>(items: LinkedMap<K, CacheEntry<V>>, n: nat): (r: LinkedMap<K, CacheEntry<V>>)
    requires items.Valid() && n <= items.Len()
    ensures r.Valid() && r.Len() == items.Len() - n
  {
    LinkedMap(items.order[n..], map k | k in items.order[n..] :: items.entries[k])
  }

  lemma PopThenDrop<K(!new), V>(items: LinkedMap<K, CacheEntry<V>>, n: nat)
    requires items.Valid() && n < items.Len()
    ensures DropFront(items.PopFront(), n) == DropFront(items, n + 1)
  {
    var rest := items.order[n + 1..];
    assert items.order[1..][n..] == rest;
    assert items.order[0] !in rest;
  }

  lemma DropNone<K(!new), V>(items: LinkedMap<K, CacheEntry<V>>)
    requires items.Valid()
    ensures DropFront(items, 0) == items
  {
    assert items.order[0..] == items.order;
  }

  function Resized<K(==, !new), V>(s: State<K, V>, cap: nat): (r: State<K, V>)
    requires s.Valid()
    ensures r.Valid()
  {
    var excess := if cap > 0 && s.items.Len() > cap then s.items.Len() - cap else 0;
    State(DropFront(s.items, excess), cap)
  }

  function Step<K(==, !new), V>(s: State<K, V>, ev: Event<K, V>): (r: (State<K, V>, Option<V>))
    requires s.Valid()
    ensures r.0.Valid()
  {
    match ev.op
    case Put(k, _) => InsertEntry(s, k, ev.Entry())
    case PutWithTtl(k, _, _) => InsertEntry(s, k, ev.Entry())
    case Get(k) => Lookup(s, k, ev.now)
    case Remove(k) => Delete(s, k)
    case Clear => (State(EmptyLinked(), s.cap), None)
    case Resize(n) => (Resized(s, n), None)
  }

  function Run<K(==, !new), V>(s: State<K, V>, evs: seq<Event<K, V>>): (r: State<K, V>)
    requires s.Valid()
    ensures r.Valid()
  {
    if evs == [] then s else Step(Run(s, evs[..|evs| - 1]), evs[|evs| - 1]).0
  }

  // ---------------------------------------------------------------------
  // Inclusion: a larger cache holds everything a smaller one holds
  // ---------------------------------------------------------------------

  /** The recency list after `InsertEntry`. */
  function OrderAfterInsert<K(==, !new)>(order: seq<K>, cap: nat, k: K): seq<K> {
    if k in order then Without(order, k) + [k]
    else if cap > 0 && |order| >= cap then order[1..] + [k]
    else order + [k]
  }

  lemma InsertOrder<K(!new), V>(s: State<K, V>, k: K, e: CacheEntry<V>)
    requires s.Valid()
    ensures InsertEntry(s, k, e).0.items.order == OrderAfterInsert(s.items.order, s.cap, k)
    ensures InsertEntry(s, k, e).0.cap == s.cap
  {
    WithoutAbsentAll(s.items.order, k);
  }

  lemma WithoutAbsentAll<K(!new)>(s: seq<K>, k: K)
    ensures k !in s ==> Without(s, k) == s
    ensures k !in s && s != [] ==> Without(s[1..], k) == s[1..]
  {
    if k !in s {
      WithoutAbsent(s, k);
      if s != [] { WithoutAbsent(s[1..], k); }
    }
  }

  /** `s` is `b`, or `b` without the key `extra`. */
  ghost predicate OneFewer<K(!new)>(s: seq<K>, b: seq<K>, extra: Option<K>) {
    match extra
    case None => s == b
    case Some(x) => x in b && s == Without(b, x)
  }

  lemma UpdateOneFewer<K(!new)>(s: seq<K>, b: seq<K>, x: K, k: K)
    requires OneFewer(s, b, Some(x)) && k != x
    ensures OneFewer(Without(s, k) + [k], Without(b, k) + [k], Some(x))
  {
    WithoutCommutes(b, k, x);
    WithoutConcat(Without(b, k), [k], x);
  }

  /** Appending a new key to `s` and dropping its front is appending to the rest. */
  lemma EvictedIsExtra<K(!new)>(s: seq<K>, k: K)
    requires s != [] && NoDup(s) && k !in s
    ensures OneFewer(s[1..] + [k], s + [k], Some(s[0]))
  {
    WithoutConcat(s, [k], s[0]);
    WithoutAbsent(s[1..], s[0]);
  }

  lemma AppendOneFewer<K(!new)>(s: seq<K>, b: seq<K>, x: K, k: K)
    requires OneFewer(s, b, Some(x)) && k != x
    ensures OneFewer(s + [k], b + [k], Some(x))
  {
    WithoutConcat(b, [k], x);
  }

  lemma EvictBoth<K(!new)>(s: seq<K>, b: seq<K>, x: K, k: K) returns (extra: Option<K>)
    requires OneFewer(s, b, Some(x)) && NoDup(b) && k !in b && s != []
    ensures OneFewer(s[1..] + [k], b[1..] + [k], extra)
  {
    if b[0] == x {
      assert x !in b[1..];
      WithoutAbsent(b[1..], x);
      assert NoDup(b[1..]);
      EvictedIsExtra(b[1..], k);
      extra := Some(s[0]);
    } else {
      assert s[1..] == Without(b[1..], x);
      AppendOneFewer(s[1..], b[1..], x, k);
      extra := Some(x);
    }
  }

  lemma InsertOneFewer<K(!new)>(s: seq<K>, b: seq<K>, extra: Option<K>, cap: nat, k: K) returns (extra': Option<K>)
    requires OneFewer(s, b, extra) && NoDup(b) && 1 <= cap && |s| <= cap && |b| <= cap + 1
    ensures OneFewer(OrderAfterInsert(s, cap, k), OrderAfterInsert(b, cap + 1, k), extra')
  {
    match extra {
      case None =>
        if k !in s && |s| == cap {
          EvictedIsExtra(s, k);
          extra' := Some(s[0]);
        } else {
          extra' := None;
        }
      case Some(x) =>
        WithoutNoDup(b, x);
        if k == x {
          WithoutNoDup(b, k);
          if |s| == cap {
            EvictedIsExtra(s, k);
            extra' := Some(s[0]);
          } else {
            extra' := None;
          }
        } else if k in b {
          UpdateOneFewer(s, b, x, k);
          extra' := Some(x);
        } else if |s| == cap {
          extra' := EvictBoth(s, b, x, k);
        } else {
          AppendOneFewer(s, b, x, k);
          extra' := Some(x);
        }
    }
  }

  /** The smaller cache is the larger one short of at most one key, with equal entries. */
  ghost predicate Below<K(!new), V>(small: State<K, V>, big: State<K, V>, extra: Option<K>) {
    && small.Valid() && big.Valid()
    && 1 <= small.cap && big.cap == small.cap + 1
    && OneFewer(small.items.order, big.items.order, extra)
    && forall k :: k in small.items.entries ==>
         k in big.items.entries && big.items.entries[k] == small.items.entries[k]
  }

  lemma InsertedValue<K(!new), V>(s: State<K, V>, k: K, e: CacheEntry<V>, j: K)
    requires s.Valid() && j in InsertEntry(s, k, e).0.items.entries
    ensures j == k || j in s.items.entries
    ensures InsertEntry(s, k, e).0.items.entries[j] == if j == k then e else s.items.entries[j]
  {
  }

  lemma InsertBelow<K(!new), V>(small: State<K, V>, big: State<K, V>, extra: Option<K>, k: K, e: CacheEntry<V>)
    returns (extra': Option<K>)
    requires Below(small, big, extra)
    ensures Below(InsertEntry(small, k, e).0, InsertEntry(big, k, e).0, extra')
  {
    hide InsertEntry, OneFewer, OrderAfterInsert;
    InsertOrder(small, k, e);
    InsertOrder(big, k, e);
    extra' := InsertOneFewer(small.items.order, big.items.order, extra, small.cap, k);
    OneFewerHas(InsertEntry(small, k, e).0.items.order, InsertEntry(big, k, e).0.items.order, extra');
    InsertValues(small, big, k, e);
  }

  lemma OneFewerHas<K(!new)>(s: seq<K>, b: seq<K>, extra: Option<K>)
    requires OneFewer(s, b, extra)
    ensures forall j :: j in s ==> j in b
  {
  }

  lemma InsertValues<K(!new), V>(small: State<K, V>, big: State<K, V>, k: K, e: CacheEntry<V>)
    requires small.Valid() && big.Valid()
    requires forall j :: j in small.items.entries ==>
               j in big.items.entries && big.items.entries[j] == small.items.entries[j]
    requires forall j :: j in InsertEntry(small, k, e).0.items.order ==> j in InsertEntry(big, k, e).0.items.order
    ensures var s', b' := InsertEntry(small, k, e).0.items.entries, InsertEntry(big, k, e).0.items.entries;
            forall j :: j in s' ==> j in b' && b'[j] == s'[j]
  {
    hide InsertEntry;
    var s', b' := InsertEntry(small, k, e).0, InsertEntry(big, k, e).0;
    forall j | j in s'.items.entries
      ensures j in b'.items.entries && b'.items.entries[j] == s'.items.entries[j]
    {
      assert j in s'.items.order;
      InsertedValue(small, k, e, j);
      InsertedValue(big, k, e, j);
    }
  }

  lemma RemoveBelow<K(!new), V>(small: State<K, V>, big: State<K, V>, extra: Option<K>, k: K)
    returns (extra': Option<K>)
    requires Below(small, big, extra)
    ensures Below(Delete(small, k).0, Delete(big, k).0, extra')
  {
    var b := big.items.order;
    extra' := if extra == Some(k) then None else extra;
    if extra.Some? {
      WithoutCommutes(b, k, extra.value);
      WithoutAbsent(Without(b, k), k);
    }
  }

  lemma LookupBelow<K(!new), V>(small: State<K, V>, big: State<K, V>, extra: Option<K>, k: K, now: nat)
    returns (extra': Option<K>)
    requires Below(small, big, extra)
    ensures Below(Lookup(small, k, now).0, Lookup(big, k, now).0, extra')
    ensures Lookup(small, k, now).1.Some? ==> Lookup(big, k, now).1 == Lookup(small, k, now).1
  {
    var b := big.items.order;
    extra' := extra;
    if k in big.items.entries && big.items.entries[k].Expired(now) {
      extra' := RemoveBelow(small, big, extra, k);
      WithoutAbsentAll(small.items.order, k);
    } else if k in small.items.entries {
      if extra.Some? { UpdateOneFewer(small.items.order, b, extra.value, k); }
    } else if k in big.items.entries {
      assert extra == Some(k);
      WithoutConcat(Without(b, k), [k], k);
      WithoutAbsent(Without(b, k), k);
    }
  }

  ghost predicate NoResize<K(!new), V(!new)>(evs: seq<Event<K, V>>) {
    forall i :: 0 <= i < |evs| ==> !evs[i].op.Resize?
  }

  lemma StepBelow<K(!new), V>(small: State<K, V>, big: State<K, V>, extra: Option<K>, ev: Event<K, V>)
    returns (extra': Option<K>)
    requires Below(small, big, extra) && !ev.op.Resize?
    ensures Below(Step(small, ev).0, Step(big, ev).0, extra')
    ensures ev.op.Get? && Step(small, ev).1.Some? ==> Step(big, ev).1 == Step(small, ev).1
  {
    match ev.op {
      case Put(k, _) => extra' := InsertBelow(small, big, extra, k, ev.Entry());
      case PutWithTtl(k, _, _) => extra' := InsertBelow(small, big, extra, k, ev.Entry());
      case Get(k) => extra' := LookupBelow(small, big, extra, k, ev.now);
      case Remove(k) => extra' := RemoveBelow(small, big, extra, k);
      case Clear => extra' := None;
      case Resize(_) =>
    }
  }

  lemma {:induction false} RunBelow<K(!new), V(!new)>(cap: nat, evs: seq<Event<K, V>>) returns (extra: Option<K>)
    requires 1 <= cap && NoResize(evs)
    ensures Below(Run(New(cap), evs), Run(New(cap + 1), evs), extra)
    decreases |evs|
  {
    if evs == [] {
      extra := None;
    } else {
      var before := evs[..|evs| - 1];
      var x := RunBelow(cap, before);
      extra := StepBelow(Run(New(cap), before), Run(New(cap + 1), before), x, evs[|evs| - 1]);
    }
  }

  /** One unit of capacity buys at most one key: the smaller cache's recency list is the
      larger one's with at most one key taken out, and common entries are equal. */
  lemma AdjacentInclusion<K(!new), V(!new)>(cap: nat, evs: seq<Event<K, V>>)
    requires 1 <= cap && NoResize(evs)
    ensures var s, b := Run(New(cap), evs).items, Run(New(cap + 1), evs).items;
            s == b || exists x :: x in b.entries && s == b.Remove(x)
  {
    var extra := RunBelow(cap, evs);
    var s, b := Run(New(cap), evs).items, Run(New(cap + 1), evs).items;
    match extra {
      case None => assert s.entries == b.entries;
      case Some(x) => assert s.entries == b.entries - {x};
    }
  }

  /** `s` can be read off `b` from left to right. */
  ghost predicate Subsequence<K(!new)>(s: seq<K>, b: seq<K>) {
    s == [] || (b != [] && (if s[0] == b[0] then Subsequence(s[1..], b[1..]) else Subsequence(s, b[1..])))
  }

  lemma {:induction false} SubsequenceSkip<K(!new)>(s: seq<K>, b: seq<K>)
    requires s != [] && Subsequence(s, b)
    ensures Subsequence(s[1..], b)
    decreases |b|
  {
    if s[0] == b[0] {
      if |s| > 1 && s[1] == b[0] { SubsequenceSkip(s[1..], b[1..]); }
    } else {
      SubsequenceSkip(s, b[1..]);
      if |s| > 1 && s[1] == b[0] { SubsequenceSkip(s[1..], b[1..]); }
    }
  }

  lemma {:induction false} SubsequenceTrans<K(!new)>(a: seq<K>, b: seq<K>, c: seq<K>)
    requires Subsequence(a, b) && Subsequence(b, c)
    ensures Subsequence(a, c)
    decreases |c|
  {
    if a != [] {
      if b[0] == c[0] {
        if a[0] == b[0] {
          SubsequenceTrans(a[1..], b[1..], c[1..]);
        } else {
          SubsequenceTrans(a, b[1..], c[1..]);
        }
      } else {
        SubsequenceTrans(a, b, c[1..]);
        if a[0] == c[0] { SubsequenceSkip(a, c[1..]); }
      }
    }
  }

  lemma {:induction false} SubsequenceRefl<K(!new)>(s: seq<K>)
    ensures Subsequence(s, s)
  {
    if s != [] { SubsequenceRefl(s[1..]); }
  }

  lemma {:induction false} WithoutSubsequence<K(!new)>(b: seq<K>, x: K)
    ensures Subsequence(Without(b, x), b)
  {
    if b != [] {
      WithoutSubsequence(b[1..], x);
      var r := Without(b, x);
      if b[0] == x {
        assert r == Without(b[1..], x);
        if r != [] { assert r[0] in r && r[0] != b[0]; }
      } else {
        assert r[1..] == Without(b[1..], x);
      }
    }
  }

  /** `big` keeps everything `small` keeps: same relative order, same entries. */
  ghost predicate Included<K(!new), V>(small: LinkedMap<K, CacheEntry<V>>, big: LinkedMap<K, CacheEntry<V>>) {
    && Subsequence(small.order, big.order)
    && forall k :: k in small.entries ==> k in big.entries && big.entries[k] == small.entries[k]
  }

  lemma BelowIncluded<K(!new), V>(small: State<K, V>, big: State<K, V>, extra: Option<K>)
    requires Below(small, big, extra)
    ensures Included(small.items, big.items)
  {
    if extra.Some? {
      WithoutSubsequence(big.items.order, extra.value);
    } else {
      SubsequenceRefl(big.items.order);
    }
  }

  lemma IncludedRefl<K(!new), V>(a: LinkedMap<K, CacheEntry<V>>)
    ensures Included(a, a)
  {
    SubsequenceRefl(a.order);
  }

  lemma IncludedTrans<K(!new), V>(
    a: LinkedMap<K, CacheEntry<V>>, b: LinkedMap<K, CacheEntry<V>>, c: LinkedMap<K, CacheEntry<V>>)
    requires Included(a, b) && Included(b, c)
    ensures Included(a, c)
  {
    SubsequenceTrans(a.order, b.order, c.order);
  }

  /** Inclusion for any two capacities: after any common run the smaller cache's recency
      list is a subsequence of the larger one's, and it holds the same entries. */
  lemma {:induction false} Inclusion<K(!new), V(!new)>(c: nat, d: nat, evs: seq<Event<K, V>>)
    requires 1 <= c <= d && NoResize(evs)
    ensures Included(Run(New(c), evs).items, Run(New(d), evs).items)
    decreases d - c
  {
    hide Run, Included, Below, NoResize;
    if c == d {
      IncludedRefl(Run(New(c), evs).items);
    } else {
      Inclusion(c, d - 1, evs);
      var x := RunBelow(d - 1, evs);
      BelowIncluded(Run(New(d - 1), evs), Run(New(d), evs), x);
      IncludedTrans(Run(New(c), evs).items, Run(New(d - 1), evs).items, Run(New(d), evs).items);
    }
  }

  /** Every hit of the smaller cache is a hit of the larger one, with the same value. */
  lemma HitsIncluded<K(!new), V(!new)>(c: nat, d: nat, evs: seq<Event<K, V>>, k: K, now: nat)
    requires 1 <= c <= d && NoResize(evs)
    requires Lookup(Run(New(c), evs), k, now).1.Some?
    ensures Lookup(Run(New(d), evs), k, now).1 == Lookup(Run(New(c), evs), k, now).1
  {
    Inclusion(c, d, evs);
  }

  // ---------------------------------------------------------------------
  // Capacity 0
  // ---------------------------------------------------------------------

  lemma RoomyStep<K(!new), V>(s: State<K, V>, t: State<K, V>, ev: Event<K, V>)
    requires s.Valid() && t.Valid() && s.cap == 0 && s.items == t.items && t.items.Len() < t.cap && !ev.op.Resize?
    ensures Step(s, ev).0.items == Step(t, ev).0.items && Step(s, ev).0.cap == 0 && Step(t, ev).0.cap == t.cap
    ensures Step(s, ev).0.items.Len() <= s.items.Len() + 1
  {
  }

  /** A cache with room for every call of the run behaves as one of capacity 0. */
  lemma {:induction false} RoomyRun<K(!new), V(!new)>(evs: seq<Event<K, V>>, cap: nat)
    requires NoResize(evs) && |evs| < cap
    ensures Run(New(0), evs).items == Run(New(cap), evs).items && Run(New(0), evs).items.Len() <= |evs|
    ensures Run(New(0), evs).cap == 0 && Run(New(cap), evs).cap == cap
    decreases |evs|
  {
    if evs != [] {
      var front := evs[..|evs| - 1];
      RoomyRun(front, cap);
      RoomyStep(Run(New(0), front), Run(New(cap), front), evs[|evs| - 1]);
      hide Step;
    }
  }

  /** In every run at capacity 0 a put evicts nothing and loses no key. */
  lemma ZeroCapacityIsUnbounded<K(!new), V(!new)>(evs: seq<Event<K, V>>, k: K, e: CacheEntry<V>)
    requires NoResize(evs)
    ensures var s := Run(New(0), evs);
            InsertEntry(s, k, e).1 == None && InsertEntry(s, k, e).0.items.entries == s.items.entries[k := e]
  {
    RoomyRun(evs, |evs| + 1);
    hide Run;
  }

  lemma InclusionInUnbounded<K(!new), V(!new)>(c: nat, evs: seq<Event<K, V>>)
    requires NoResize(evs)
    ensures Included(Run(New(c), evs).items, Run(New(0), evs).items)
  {
    if c == 0 {
      SubsequenceRefl(Run(New(0), evs).items.order);
    } else {
      var cap := if c <= |evs| then |evs| + 1 else c;
      Inclusion(c, cap, evs);
      RoomyRun(evs, cap);
      hide Run;
    }
  }

  /** Puts of the keys below `n`. */
  function Fill(n: nat): seq<Event<nat, nat>> {
    if n == 0 then [] else Fill(n - 1) + [Event(0, Put(n - 1, 0))]
  }

  lemma {:induction false} FillPlain(n: nat)
    ensures NoResize(Fill(n))
  {
    if n > 0 { FillPlain(n - 1); }
  }

  /** The keys below `n`, the oldest in front. */
  ghost predicate Filled(s: State<nat, nat>, cap: nat, n: nat) {
    && s.cap == cap && s.items.Len() == n
    && (forall k: nat :: k in s.items.entries <==> k < n) && (n > 0 ==> s.items.order[0] == 0)
  }

  lemma FillNext(cap: nat, n: nat)
    ensures Run(New(cap), Fill(n + 1)) == InsertEntry(Run(New(cap), Fill(n)), n, CacheEntry(0, None)).0
  {
    var evs := Fill(n + 1);
    assert evs[..|evs| - 1] == Fill(n);
    hide InsertEntry;
  }

  lemma {:induction false} FillKeeps(cap: nat, n: nat)
    requires cap == 0 || n <= cap
    ensures Filled(Run(New<nat, nat>(cap), Fill(n)), cap, n)
  {
    hide Run, Fill, InsertEntry, Filled;
    if n == 0 {
      FillNone(cap);
    } else {
      FillKeeps(cap, n - 1);
      FillNext(cap, n - 1);
      FillStep(Run(New<nat, nat>(cap), Fill(n - 1)), cap, n - 1);
    }
  }

  lemma FillNone(cap: nat)
    ensures Filled(Run(New<nat, nat>(cap), Fill(0)), cap, 0)
  {
    assert Run(New<nat, nat>(cap), Fill(0)) == New<nat, nat>(cap);
  }

  lemma FillStep(s: State<nat, nat>, cap: nat, n: nat)
    requires s.Valid() && (cap == 0 || n < cap) && Filled(s, cap, n)
    ensures Filled(InsertEntry(s, n, CacheEntry(0, None)).0, cap, n + 1)
  {
    WithoutAbsent(s.items.order, n);
    assert InsertEntry(s, n, CacheEntry(0, None)).0.items == s.items.Insert(n, CacheEntry(0, None));
  }

  /** Inclusion of capacity `c` in capacity `d` over all runs holds exactly when `d` is 0, which never
      evicts, or `c` is a true capacity no larger than `d`. */
  lemma InclusionIff(c: nat, d: nat)
    ensures (forall evs: seq<Event<nat, nat>> ::
               NoResize(evs) ==> Included(Run(New(c), evs).items, Run(New(d), evs).items))
            <==> d == 0 || 1 <= c <= d
  {
    hide Run, Included, NoResize;
    if d == 0 {
      forall evs: seq<Event<nat, nat>> | NoResize(evs)
        ensures Included(Run(New(c), evs).items, Run(New(d), evs).items) { InclusionInUnbounded(c, evs); }
    } else if 1 <= c <= d {
      forall evs: seq<Event<nat, nat>> | NoResize(evs)
        ensures Included(Run(New(c), evs).items, Run(New(d), evs).items) { Inclusion(c, d, evs); }
    } else {
      FillPlain(d + 1);
      FillNotIncluded(c, d);
    }
  }

  lemma FillNotIncluded(c: nat, d: nat)
    requires d >= 1 && (c == 0 || d < c)
    ensures !Included(Run(New(c), Fill(d + 1)).items, Run(New(d), Fill(d + 1)).items)
  {
    hide Run, Included;
    FillKeeps(c, d + 1);
    FillEvicts(d);
    var small, big := Run(New<nat, nat>(c), Fill(d + 1)).items, Run(New<nat, nat>(d), Fill(d + 1)).items;
    MissingKey(small, big, 0);
  }

  lemma MissingKey<K(!new), V>(small: LinkedMap<K, CacheEntry<V>>, big: LinkedMap<K, CacheEntry<V>>, k: K)
    requires k in small.entries && k !in big.entries
    ensures !Included(small, big)
  {
  }

  lemma FillEvicts(cap: nat)
    requires cap >= 1
    ensures 0 !in Run(New<nat, nat>(cap), Fill(cap + 1)).items.entries
  {
    FillKeeps(cap, cap);
    FillNext(cap, cap);
    hide Run;
  }

  // ---------------------------------------------------------------------
  // The victim is the least recently used key
  // ---------------------------------------------------------------------

  /** The index of the last call that stored or hit each key, one call at a time. */
  ghost function UseStep<K(!new), V>(s: State<K, V>, used: map<K, nat>, n: nat, ev: Event<K, V>): map<K, nat>
    requires s.Valid()
  {
    match ev.op
    case Put(k, _) => used[k := n]
    case PutWithTtl(k, _, _) => used[k := n]
    case Get(k) => if Step(s, ev).1.Some? then used[k := n] else used
    case Remove(_) => used
    case Clear => used
    case Resize(_) => used
  }

  ghost function LastUse<K(!new), V>(cap: nat, evs: seq<Event<K, V>>): map<K, nat> {
    if evs == [] then map[]
    else
      var before := evs[..|evs| - 1];
      UseStep(Run(New(cap), before), LastUse(cap, before), |before|, evs[|evs| - 1])
  }

  lemma InsertSorted<K(!new), V>(s: State<K, V>, used: map<K, nat>, bound: nat, k: K, e: CacheEntry<V>)
    requires s.Valid() && SortedByUse(s.items.order, used, bound)
    ensures SortedByUse(InsertEntry(s, k, e).0.items.order, used[k := bound], bound + 1)
  {
    var order := s.items.order;
    TouchSorted(order, used, bound, k);
    if order != [] { TouchSorted(order[1..], used, bound, k); }
  }

  lemma LookupSorted<K(!new), V>(s: State<K, V>, used: map<K, nat>, n: nat, k: K, now: nat)
    requires s.Valid() && SortedByUse(s.items.order, used, n)
    ensures SortedByUse(Lookup(s, k, now).0.items.order,
                        if Lookup(s, k, now).1.Some? then used[k := n] else used, n + 1)
  {
    if k in s.items.entries && s.items.entries[k].Expired(now) {
      WithoutSorted(s.items.order, used, n, k);
    } else if k in s.items.entries {
      TouchSorted(s.items.order, used, n, k);
    }
  }

  lemma ResizeSorted<K(!new), V>(s: State<K, V>, used: map<K, nat>, n: nat, m: nat)
    requires s.Valid() && SortedByUse(s.items.order, used, n)
    ensures SortedByUse(Resized(s, m).items.order, used, n + 1)
  {
  }

  lemma StepSorted<K(!new), V>(s: State<K, V>, used: map<K, nat>, n: nat, ev: Event<K, V>)
    requires s.Valid() && SortedByUse(s.items.order, used, n)
    ensures SortedByUse(Step(s, ev).0.items.order, UseStep(s, used, n, ev), n + 1)
  {
    match ev.op {
      case Put(k, _) => InsertSorted(s, used, n, k, ev.Entry());
      case PutWithTtl(k, _, _) => InsertSorted(s, used, n, k, ev.Entry());
      case Get(k) => LookupSorted(s, used, n, k, ev.now);
      case Remove(k) => WithoutSorted(s.items.order, used, n, k);
      case Clear =>
      case Resize(m) => ResizeSorted(s, used, n, m);
    }
  }

  /** In every run the recency list is ordered by last use, oldest first. */
  lemma {:induction false} RecencyOrder<K(!new), V>(cap: nat, evs: seq<Event<K, V>>)
    ensures SortedByUse(Run(New(cap), evs).items.order, LastUse(cap, evs), |evs|)
    decreases |evs|
  {
    if evs != [] {
      var before := evs[..|evs| - 1];
      RecencyOrder(cap, before);
      StepSorted(Run(New(cap), before), LastUse(cap, before), |before|, evs[|evs| - 1]);
    }
  }

  /** A put into a full cache evicts exactly the key whose last use is oldest and keeps the rest. */
  lemma EvictsLeastRecentlyUsed<K(!new), V>(cap: nat, evs: seq<Event<K, V>>, k: K, e: CacheEntry<V>)
    requires cap >= 1
    requires Run(New(cap), evs).cap == Run(New(cap), evs).items.Len() >= 1
    requires k !in Run(New(cap), evs).items.entries
    ensures var s := Run(New(cap), evs);
            var victim := s.items.order[0];
            && InsertEntry(s, k, e).0.items.entries == (s.items.entries - {victim})[k := e]
            && InsertEntry(s, k, e).1 == Some(s.items.entries[victim].value)
            && forall j :: j in s.items.entries && j != victim ==>
                 UsedBefore(LastUse(cap, evs), victim, j)
  {
    RecencyOrder(cap, evs);
    var s := Run(New(cap), evs);
    var used := LastUse(cap, evs);
    forall j | j in s.items.entries && j != s.items.order[0]
      ensures UsedBefore(used, s.items.order[0], j)
    {
      var i :| 0 <= i < |s.items.order| && s.items.order[i] == j;
      assert 0 < i;
    }
  }

  // ---------------------------------------------------------------------
  // Freshness: no stale values
  // ---------------------------------------------------------------------

  lemma InsertFresh<K(!new), V>(s: State<K, V>, w: map<K, CacheEntry<V>>, k: K, e: CacheEntry<V>)
    requires s.Valid() && Fresh(s.items.entries, w)
    ensures Fresh(InsertEntry(s, k, e).0.items.entries, w[k := e])
  {
  }

  lemma LookupFresh<K(!new), V>(s: State<K, V>, w: map<K, CacheEntry<V>>, k: K, now: nat)
    requires s.Valid() && Fresh(s.items.entries, w)
    ensures Fresh(Lookup(s, k, now).0.items.entries, w)
  {
  }

  lemma StepFresh<K(!new), V>(s: State<K, V>, w: map<K, CacheEntry<V>>, ev: Event<K, V>)
    requires s.Valid() && Fresh(s.items.entries, w)
    ensures Fresh(Step(s, ev).0.items.entries, Written(w, ev))
  {
    match ev.op {
      case Put(k, _) => InsertFresh(s, w, k, ev.Entry());
      case PutWithTtl(k, _, _) => InsertFresh(s, w, k, ev.Entry());
      case Get(k) => LookupFresh(s, w, k, ev.now);
      case Remove(k) =>
      case Clear =>
      case Resize(n) =>
    }
  }

  /** In every run each cached entry is the last one written for its key. */
  lemma {:induction false} RunFresh<K(!new), V>(cap: nat, evs: seq<Event<K, V>>)
    ensures Fresh(Run(New(cap), evs).items.entries, WrittenAll(evs))
    decreases |evs|
  {
    if evs != [] {
      var before := evs[..|evs| - 1];
      RunFresh(cap, before);
      StepFresh(Run(New(cap), before), WrittenAll(before), evs[|evs| - 1]);
    }
  }

  /** After every run a get answers a value exactly when the key is cached with it and its deadline, if it
      has one, is still ahead; so the answer is the last write of the key and is not overdue. */
  lemma GetAnswers<K(!new), V>(cap: nat, evs: seq<Event<K, V>>, k: K, now: nat, v: V)
    ensures var s := Run(New(cap), evs);
            && (Lookup(s, k, now).1 == Some(v) <==> Serves(Stored(s.items.entries, k), v, now))
            && (Lookup(s, k, now).1 == Some(v) ==> Serves(Stored(WrittenAll(evs), k), v, now))
  {
    RunFresh(cap, evs);
    hide Run, WrittenAll;
  }

  /** What was just put is there, whatever the capacity and whatever was evicted for it. */
  lemma PutIsKept<K(!new), V>(s: State<K, V>, k: K, e: CacheEntry<V>, now: nat)
    requires s.Valid() && !e.Expired(now)
    ensures Peek(InsertEntry(s, k, e).0.items.entries, k, now) == Some(e.value)
  {
  }
}
