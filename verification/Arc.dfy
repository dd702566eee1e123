/** The adaptive replacement cache: live lists `t1` (seen once) and `t2` (seen again),
    ghost lists `b1` and `b2` of keys evicted from them, and the adaptive target `p`. */
module Arc {
  import opened LinkedMaps
  import opened Caches

  function Max(a: nat, b: nat): nat { if a < b then b else a }
  function Min(a: nat, b: nat): nat { if a < b then a else b }

  datatype State<K(==, !new), V> = State(
    t1: LinkedMap<K, CacheEntry<V>>, t2: LinkedMap<K, CacheEntry<V>>,
    b1: seq<K>, b2: seq<K>, p: nat, cap: nat)
  {
    function Len(): nat { t1.Len() + t2.Len() }

    function DirectoryLen(): nat { t1.Len() + t2.Len() + |b1| + |b2| }

    predicate Live(k: K) { k in t1.entries || k in t2.entries }

    /** A key is in at most one of the four lists. */
    ghost predicate Disjoint() {
      && (forall k :: k in t1.entries ==> k !in t2.entries && k !in b1 && k !in b2)
      && (forall k :: k in t2.entries ==> k !in b1 && k !in b2)
      && (forall k :: k in b1 ==> k !in b2)
    }

    ghost predicate Valid() {
      && t1.Valid() && t2.Valid() && NoDup(b1) && NoDup(b2)
      && Disjoint()
      && p <= cap && 1 <= cap
    }
  }

  function New<K(==, !new), V>(cap: nat): (s: State<K, V>)
    ensures s.Valid()
  {
    State(EmptyLinked(), EmptyLinked(), [], [], 0, Max(cap, 1))
  }

  // A ghost list that loses its oldest key when the directory is full, then takes in `k`.
  function PushGhost<K(==, !new)>(b: seq<K>, full: bool, k: K): seq<K> {
    var b' := if full && b != [] then b[1..] else b;
    Without(b', k) + [k]
  }

  lemma PushGhostNoDup<K(!new)>(b: seq<K>, full: bool, k: K)
    requires NoDup(b)
    ensures NoDup(PushGhost(b, full, k))
    ensures forall x :: x in PushGhost(b, full, k) ==> x == k || x in b
    ensures k in PushGhost(b, full, k)
  {
    var b' := if full && b != [] then b[1..] else b;
    WithoutNoDup(b', k);
  }

  function DemoteT1<K(==, !new), V>(s: State<K, V>): State<K, V>
    requires s.t1.order != []
  {
    var k, t1 := s.t1.order[0], s.t1.PopFront();
    var full := t1.Len() + s.t2.Len() + |s.b1| + |s.b2| >= 2 * s.cap;
    s.(t1 := t1, b1 := PushGhost(s.b1, full, k))
  }

  function DemoteT2<K(==, !new), V>(s: State<K, V>): State<K, V>
    requires s.t2.order != []
  {
    var k, t2 := s.t2.order[0], s.t2.PopFront();
    var full := s.t1.Len() + t2.Len() + |s.b1| + |s.b2| >= 2 * s.cap;
    s.(t2 := t2, b2 := PushGhost(s.b2, full, k))
  }

  /** `replace`: the REPLACE routine, driven by the target `p`. */
  function Replace<K(==, !new), V>(s: State<K, V>): State<K, V> {
    if s.t1.Len() >= Max(s.p, 1) then DemoteT1(s)
    else if s.t2.order != [] then DemoteT2(s)
    else if s.t1.order != [] then DemoteT1(s)
    else s
  }

  /** The target after a ghost hit in `b1` (up) or `b2` (down). */
  function Raise(p: nat, b1: nat, b2: nat, cap: nat): nat {
    Min(p + Max(b2 / Max(b1, 1), 1), cap)
  }

  function Lower(p: nat, b1: nat, b2: nat): nat {
    var delta := Max(b1 / Max(b2, 1), 1);
    if p < delta then 0 else p - delta
  }

  // Make room in a full cache before a ghost hit becomes live again.
  function MakeRoom<K(==, !new), V>(s: State<K, V>): State<K, V> {
    if s.Len() >= s.cap then Replace(s) else s
  }

  // Forget the oldest ghost, from `b2` if it has any.
  function DropGhost<K(==, !new), V>(s: State<K, V>): State<K, V> {
    if s.b2 != [] then s.(b2 := s.b2[1..])
    else if s.b1 != [] then s.(b1 := s.b1[1..])
    else s
  }

  /** The directory and cache limits enforced before a complete miss is inserted. */
  function AdmitMiss<K(==, !new), V>(s: State<K, V>): State<K, V> {
    if s.Len() < s.cap then
      if s.DirectoryLen() >= s.cap && s.DirectoryLen() >= 2 * s.cap then DropGhost(s) else s
    else if s.t1.Len() + |s.b1| == s.cap then
      if s.t1.order != [] then Replace(s)
      else if s.b1 != [] then s.(b1 := s.b1[1..]) else s
    else
      Replace(if s.DirectoryLen() >= 2 * s.cap then DropGhost(s) else s)
  }

  function InsertEntry<K(==, !new), V>(s: State<K, V>, k: K, e: CacheEntry<V>): (State<K, V>, Option<V>) {
    if k in s.t1.entries then
      (s.(t1 := s.t1.Remove(k), t2 := s.t2.Insert(k, e)), Some(s.t1.entries[k].value))
    else if k in s.t2.entries then
      (s.(t2 := s.t2.Insert(k, e)), Some(s.t2.entries[k].value))
    else if k in s.b1 then
      var b1 := Without(s.b1, k);
      var s' := MakeRoom(s.(b1 := b1, p := Raise(s.p, |b1|, |s.b2|, s.cap)));
      (s'.(t2 := s'.t2.Insert(k, e)), None)
    else if k in s.b2 then
      var b2 := Without(s.b2, k);
      var s' := MakeRoom(s.(b2 := b2, p := Lower(s.p, |s.b1|, |b2|)));
      (s'.(t2 := s'.t2.Insert(k, e)), None)
    else
      var s' := AdmitMiss(s);
      (s'.(t1 := s'.t1.Insert(k, e)), None)
  }

  function Lookup<K(==, !new), V>(s: State<K, V>, k: K, now: nat): (State<K, V>, Option<V>) {
    if k in s.t1.entries then
      var e := s.t1.entries[k];
      if e.Expired(now) then (s.(t1 := s.t1.Remove(k)), None)
      else (s.(t1 := s.t1.Remove(k), t2 := s.t2.Insert(k, e)), Some(e.value))
    else if k in s.t2.entries then
      var e := s.t2.entries[k];
      if e.Expired(now) then (s.(t2 := s.t2.Remove(k)), None)
      else (s.(t2 := s.t2.Insert(k, e)), Some(e.value))
    else if k in s.b1 then
      (Replace(s.(p := Raise(s.p, |s.b1|, |s.b2|, s.cap))), None)
    else if k in s.b2 then
      (Replace(s.(p := Lower(s.p, |s.b1|, |s.b2|))), None)
    else (s, None)
  }

  function Delete<K(==, !new), V>(s: State<K, V>, k: K): (State<K, V>, Option<V>) {
    if k in s.t1.entries then (s.(t1 := s.t1.Remove(k)), Some(s.t1.entries[k].value))
    else if k in s.t2.entries then (s.(t2 := s.t2.Remove(k)), Some(s.t2.entries[k].value))
    else (s.(b1 := Without(s.b1, k), b2 := Without(s.b2, k)), None)
  }

  /** The loop in `resize`: demote until the live entries fit. */
  function Fit<K(==, !new), V>(s: State<K, V>): (r: State<K, V>)
    requires s.Valid()
    ensures r.Valid() && r.cap == s.cap && r.Len() == Min(s.Len(), s.cap)
    decreases s.Len()
  {
    if s.Len() <= s.cap then s else
      ReplaceShrinks(s);
      Fit(Replace(s))
  }

  /** `resize` ends with the directory intact and at most `cap` live entries. */
  function Resized<K(==, !new), V>(s: State<K, V>, newCap: nat): (r: State<K, V>)
    requires s.Valid()
    ensures r.Valid() && r.cap == Max(newCap, 1) && r.Len() == Min(s.Len(), r.cap)
  {
    var cap := Max(newCap, 1);
    Fit(s.(cap := cap, p := Min(s.p, cap)))
  }

  function Step<K(==, !new), V>(s: State<K, V>, ev: Event<K, V>): (State<K, V>, Option<V>)
    requires s.Valid()
  {
    match ev.op
    case Put(k, _) => InsertEntry(s, k, ev.Entry())
    case PutWithTtl(k, _, _) => InsertEntry(s, k, ev.Entry())
    case Get(k) => Lookup(s, k, ev.now)
    case Remove(k) => Delete(s, k)
    case Clear => (State(EmptyLinked(), EmptyLinked(), [], [], 0, s.cap), None)
    case Resize(n) => (Resized(s, n), None)
  }

  // ---------------------------------------------------------------------
  // REPLACE moves exactly one live key to its ghost list
  // ---------------------------------------------------------------------

  /** `t` is `s` with one live key turned into a ghost: from `t1` into `b1` or from `t2`
      into `b2`; the ghost list may have forgotten other keys, nothing else moved. */
  ghost predicate OneDemoted<K(!new), V>(s: State<K, V>, t: State<K, V>) {
    && t.Valid() && t.cap == s.cap && t.p == s.p && t.Len() == s.Len() - 1
    && ((&& s.t1.order != [] && t.t1 == s.t1.PopFront() && t.t2 == s.t2 && t.b2 == s.b2
         && s.t1.order[0] in t.b1 && (forall k :: k in t.b1 ==> k == s.t1.order[0] || k in s.b1))
        ||
        (&& s.t2.order != [] && t.t2 == s.t2.PopFront() && t.t1 == s.t1 && t.b1 == s.b1
         && s.t2.order[0] in t.b2 && (forall k :: k in t.b2 ==> k == s.t2.order[0] || k in s.b2)))
  }

  lemma DemoteT1Moves<K(!new), V>(s: State<K, V>)
    requires s.Valid() && s.t1.order != []
    ensures OneDemoted(s, DemoteT1(s))
  {
    var k := s.t1.order[0];
    assert k in s.t1.order;
    var full := s.t1.PopFront().Len() + s.t2.Len() + |s.b1| + |s.b2| >= 2 * s.cap;
    PushGhostNoDup(s.b1, full, k);
  }

  lemma DemoteT2Moves<K(!new), V>(s: State<K, V>)
    requires s.Valid() && s.t2.order != []
    ensures OneDemoted(s, DemoteT2(s))
  {
    var k := s.t2.order[0];
    assert k in s.t2.order;
    var full := s.t1.Len() + s.t2.PopFront().Len() + |s.b1| + |s.b2| >= 2 * s.cap;
    PushGhostNoDup(s.b2, full, k);
  }

  /** `replace` does nothing on an empty cache and demotes exactly one key otherwise. */
  lemma ReplaceMovesOne<K(!new), V>(s: State<K, V>)
    requires s.Valid()
    ensures if s.Len() == 0 then Replace(s) == s else OneDemoted(s, Replace(s))
  {
    if s.t1.order != [] { DemoteT1Moves(s); }
    if s.t2.order != [] { DemoteT2Moves(s); }
  }

  /** The victim comes from `t1` exactly when `t1` has reached its target or there is nothing else. */
  lemma ReplaceSide<K(!new), V>(s: State<K, V>)
    requires s.Valid() && s.Len() > 0
    ensures Replace(s).t1.Len() < s.t1.Len() <==> (s.t1.Len() >= 1 && s.t1.Len() >= s.p) || s.t2.Len() == 0
    ensures Replace(s).t2.Len() < s.t2.Len() <==> Replace(s).t1 == s.t1
  {
    ReplaceMovesOne(s);
  }

  lemma ReplaceKeepsTarget<K(!new), V>(s: State<K, V>)
    ensures Replace(s).p == s.p && MakeRoom(s).p == s.p && DropGhost(s).p == s.p
  {
  }

  /** `d` is how often the ghosts of the kind missed, counted as at least one, fit into the others; if they
      do not fit once, it is 1. */
  ghost predicate IsStride(d: nat, missed: nat, other: nat) {
    var n := if missed == 0 then 1 else missed;
    d >= 1 && other < (d + 1) * n && (d * n <= other || d == 1)
  }

  lemma Products(a: nat, b: nat, n: nat)
    requires a <= b
    ensures a * n <= b * n
  {
    assert b * n == a * n + (b - a) * n;
  }

  lemma StrideUnique(d: nat, d': nat, missed: nat, other: nat)
    requires IsStride(d, missed, other) && IsStride(d', missed, other)
    ensures d == d'
  {
    var n := if missed == 0 then 1 else missed;
    if d < d' { Products(d + 1, d', n); }
    if d' < d { Products(d' + 1, d, n); }
  }

  /** The target goes up by the stride, as far as the capacity. */
  ghost predicate GoesUp(p: nat, p': nat, missed: nat, other: nat, cap: nat) {
    exists d: nat :: IsStride(d, missed, other) && (if p + d <= cap then p' == p + d else p' == cap)
  }

  /** The target goes down by the stride, as far as 0. */
  ghost predicate GoesDown(p: nat, p': nat, missed: nat, other: nat) {
    exists d: nat :: IsStride(d, missed, other) && (if d <= p then p' == p - d else p' == 0)
  }

  lemma Quotient(missed: nat, other: nat)
    ensures IsStride(Max(other / Max(missed, 1), 1), missed, other)
  {
    var n := Max(missed, 1);
    assert other / n * n <= other < (other / n + 1) * n;
  }

  lemma RaiseGoesUp(p: nat, missed: nat, other: nat, cap: nat)
    ensures GoesUp(p, Raise(p, missed, other, cap), missed, other, cap)
  {
    Quotient(missed, other);
    hide IsStride;
  }

  lemma LowerGoesDown(p: nat, missed: nat, other: nat)
    ensures GoesDown(p, Lower(p, other, missed), missed, other)
  {
    Quotient(missed, other);
    hide IsStride;
  }

  /** The target moves towards the list whose ghost was missed, up for a ghost of `t1` and down for a ghost
      of `t2`, by the ratio of the other ghosts to those left of the kind missed; and not at all otherwise. */
  lemma PutAdapts<K(!new), V>(s: State<K, V>, k: K, e: CacheEntry<V>)
    requires s.Valid()
    ensures var p := InsertEntry(s, k, e).0.p;
            if s.Live(k) then p == s.p
            else if k in s.b1 then GoesUp(s.p, p, |s.b1| - 1, |s.b2|, s.cap)
            else if k in s.b2 then GoesDown(s.p, p, |s.b2| - 1, |s.b1|)
            else p == s.p
  {
    hide Replace, MakeRoom, DropGhost, GoesUp, GoesDown, Raise, Lower;
    ReplaceKeepsTarget(s);
    ReplaceKeepsTarget(DropGhost(s));
    var b1, b2 := Without(s.b1, k), Without(s.b2, k);
    WithoutNoDup(s.b1, k);
    WithoutNoDup(s.b2, k);
    ReplaceKeepsTarget(s.(b1 := b1, p := Raise(s.p, |b1|, |s.b2|, s.cap)));
    ReplaceKeepsTarget(s.(b2 := b2, p := Lower(s.p, |s.b1|, |b2|)));
    RaiseGoesUp(s.p, |b1|, |s.b2|, s.cap);
    LowerGoesDown(s.p, |b2|, |s.b1|);
  }

  /** A get that meets a ghost moves the target in the same way; the ghost itself still counts. */
  lemma GetAdapts<K(!new), V>(s: State<K, V>, k: K, now: nat)
    requires s.Valid()
    ensures var p := Lookup(s, k, now).0.p;
            if s.Live(k) then p == s.p
            else if k in s.b1 then GoesUp(s.p, p, |s.b1|, |s.b2|, s.cap)
            else if k in s.b2 then GoesDown(s.p, p, |s.b2|, |s.b1|)
            else p == s.p
  {
    hide Replace, GoesUp, GoesDown, Raise, Lower;
    ReplaceKeepsTarget(s.(p := Raise(s.p, |s.b1|, |s.b2|, s.cap)));
    ReplaceKeepsTarget(s.(p := Lower(s.p, |s.b1|, |s.b2|)));
    RaiseGoesUp(s.p, |s.b1|, |s.b2|, s.cap);
    LowerGoesDown(s.p, |s.b2|, |s.b1|);
  }

  /** A key seen before, live or as a ghost, ends up newest in `t2`; any other one newest in `t1`. */
  lemma PutSide<K(!new), V>(s: State<K, V>, k: K, e: CacheEntry<V>)
    ensures var t := InsertEntry(s, k, e).0;
            var side := if s.Live(k) || k in s.b1 || k in s.b2 then t.t2 else t.t1;
            side.order != [] && side.order[|side.order| - 1] == k && k in side.entries && side.entries[k] == e
  {
    hide Replace, MakeRoom, AdmitMiss, DropGhost;
  }

  // ---------------------------------------------------------------------
  // The directory invariant
  // ---------------------------------------------------------------------

  lemma ReplaceValid<K(!new), V>(s: State<K, V>, k: K)
    requires s.Valid() && !s.Live(k)
    ensures Replace(s).Valid() && !Replace(s).Live(k)
    ensures k !in s.b1 && k !in s.b2 ==> k !in Replace(s).b1 && k !in Replace(s).b2
    ensures Replace(s).Len() == if s.Len() == 0 then 0 else s.Len() - 1
    ensures Replace(s).cap == s.cap
  {
    ReplaceMovesOne(s);
    if s.t1.order != [] { assert s.t1.order[0] in s.t1.order; }
    if s.t2.order != [] { assert s.t2.order[0] in s.t2.order; }
  }

  lemma DropGhostValid<K(!new), V>(s: State<K, V>)
    requires s.Valid()
    ensures DropGhost(s).Valid()
    ensures forall k :: k in DropGhost(s).b1 ==> k in s.b1
    ensures forall k :: k in DropGhost(s).b2 ==> k in s.b2
    ensures DropGhost(s).t1 == s.t1 && DropGhost(s).t2 == s.t2 && DropGhost(s).cap == s.cap
  {
  }

  lemma DropFirstB1Valid<K(!new), V>(s: State<K, V>, k: K)
    requires s.Valid() && s.b1 != [] && !s.Live(k) && k !in s.b1 && k !in s.b2
    ensures var s' := s.(b1 := s.b1[1..]);
            s'.Valid() && !s'.Live(k) && k !in s'.b1 && k !in s'.b2
  {
  }

  /** The branch that makes room by forgetting a ghost although the cache is full of live entries. */
  predicate Overflows<K(==, !new), V>(s: State<K, V>) {
    s.Len() >= s.cap && s.t1.order == [] && |s.b1| == s.cap
  }

  lemma AdmitMissValid<K(!new), V>(s: State<K, V>, k: K)
    requires s.Valid() && !s.Live(k) && k !in s.b1 && k !in s.b2
    ensures AdmitMiss(s).Valid() && !AdmitMiss(s).Live(k) && k !in AdmitMiss(s).b1 && k !in AdmitMiss(s).b2
    ensures AdmitMiss(s).cap == s.cap
    ensures AdmitMiss(s).Len() == if s.Len() < s.cap || Overflows(s) then s.Len() else s.Len() - 1
  {
    hide Replace, DropGhost, State.Valid;
    DropGhostValid(s);
    var s' := if s.DirectoryLen() >= 2 * s.cap then DropGhost(s) else s;
    ReplaceValid(s, k);
    ReplaceValid(s', k);
    if s.b1 != [] { DropFirstB1Valid(s, k); }
  }

  lemma PromoteValid<K(!new), V>(s: State<K, V>, k: K, e: CacheEntry<V>)
    requires s.Valid() && k !in s.t1.entries && k !in s.b1 && k !in s.b2
    ensures s.(t2 := s.t2.Insert(k, e)).Valid()
    ensures s.(t2 := s.t2.Insert(k, e)).Len() == if k in s.t2.entries then s.Len() else s.Len() + 1
  {
  }

  lemma GhostHitValid<K(!new), V>(s: State<K, V>, k: K, e: CacheEntry<V>)
    requires s.Valid() && !s.Live(k) && k !in s.b1 && k !in s.b2
    ensures var s' := MakeRoom(s);
            && s'.(t2 := s'.t2.Insert(k, e)).Valid()
            && s'.(t2 := s'.t2.Insert(k, e)).cap == s.cap
            && s'.(t2 := s'.t2.Insert(k, e)).Len() == if s.Len() < s.cap then s.Len() + 1 else s.Len()
  {
    ReplaceValid(s, k);
    PromoteValid(MakeRoom(s), k, e);
  }

  /** Insertion keeps the directory and adds at most one live entry to a cache with room; a full
      cache grows exactly on a complete miss that takes the overflowing branch. */
  lemma InsertValid<K(!new), V>(s: State<K, V>, k: K, e: CacheEntry<V>)
    requires s.Valid()
    ensures InsertEntry(s, k, e).0.Valid() && InsertEntry(s, k, e).0.cap == s.cap
    ensures InsertEntry(s, k, e).0.Len() ==
            if s.Live(k) then s.Len()
            else if s.Len() < s.cap then s.Len() + 1
            else if k !in s.b1 && k !in s.b2 && Overflows(s) then s.Len() + 1
            else s.Len()
  {
    if k in s.t1.entries {
      PromoteValid(s.(t1 := s.t1.Remove(k)), k, e);
    } else if k in s.t2.entries {
      PromoteValid(s, k, e);
    } else if k in s.b1 {
      var b1 := Without(s.b1, k);
      WithoutNoDup(s.b1, k);
      GhostHitValid(s.(b1 := b1, p := Raise(s.p, |b1|, |s.b2|, s.cap)), k, e);
    } else if k in s.b2 {
      var b2 := Without(s.b2, k);
      WithoutNoDup(s.b2, k);
      GhostHitValid(s.(b2 := b2, p := Lower(s.p, |s.b1|, |b2|)), k, e);
    } else {
      AdmitMissValid(s, k);
    }
  }

  /** The capacity is respected by a put exactly when it does not take the overflowing branch. */
  lemma InsertWithinCapacityIff<K(!new), V>(s: State<K, V>, k: K, e: CacheEntry<V>)
    requires s.Valid() && s.Len() <= s.cap
    ensures InsertEntry(s, k, e).0.Len() <= s.cap
            <==> s.Live(k) || k in s.b1 || k in s.b2 || !Overflows(s)
  {
    InsertValid(s, k, e);
  }

  lemma LookupValid<K(!new), V>(s: State<K, V>, k: K, now: nat)
    requires s.Valid()
    ensures Lookup(s, k, now).0.Valid() && Lookup(s, k, now).0.cap == s.cap
    ensures Lookup(s, k, now).0.Len() <= s.Len()
  {
    if k in s.t1.entries {
      PromoteValid(s.(t1 := s.t1.Remove(k)), k, s.t1.entries[k]);
    } else if k in s.t2.entries {
      PromoteValid(s, k, s.t2.entries[k]);
    } else if k in s.b1 {
      ReplaceValid(s.(p := Raise(s.p, |s.b1|, |s.b2|, s.cap)), k);
    } else if k in s.b2 {
      ReplaceValid(s.(p := Lower(s.p, |s.b1|, |s.b2|)), k);
    }
  }

  /** A lookup that hits a ghost is a miss, yet it costs a non-empty cache one live entry. */
  lemma GhostLookupEvicts<K(!new), V>(s: State<K, V>, k: K, now: nat)
    requires s.Valid() && s.Len() > 0 && (k in s.b1 || k in s.b2)
    ensures Lookup(s, k, now).1.None? && Lookup(s, k, now).0.Len() == s.Len() - 1
  {
    ReplaceValid(s.(p := Raise(s.p, |s.b1|, |s.b2|, s.cap)), k);
    ReplaceValid(s.(p := Lower(s.p, |s.b1|, |s.b2|)), k);
  }

  lemma DeleteValid<K(!new), V>(s: State<K, V>, k: K)
    requires s.Valid()
    ensures Delete(s, k).0.Valid() && Delete(s, k).0.Len() <= s.Len() && Delete(s, k).0.cap == s.cap
  {
    WithoutNoDup(s.b1, k);
    WithoutNoDup(s.b2, k);
  }

  lemma ReplaceShrinks<K(!new), V>(s: State<K, V>)
    requires s.Valid() && s.Len() > 0
    ensures Replace(s).Valid() && Replace(s).Len() == s.Len() - 1 && Replace(s).cap == s.cap
  {
    ReplaceMovesOne(s);
  }

  lemma StepValid<K(!new), V>(s: State<K, V>, ev: Event<K, V>)
    requires s.Valid()
    ensures Step(s, ev).0.Valid()
  {
    match ev.op {
      case Put(k, _) => InsertValid(s, k, ev.Entry());
      case PutWithTtl(k, _, _) => InsertValid(s, k, ev.Entry());
      case Get(k) => LookupValid(s, k, ev.now);
      case Remove(k) => DeleteValid(s, k);
      case Clear =>
      case Resize(n) =>
    }
  }

  /** In every run the four lists stay disjoint and the target within the capacity. */
  function Run<K(==, !new), V>(s: State<K, V>, evs: seq<Event<K, V>>): (r: State<K, V>)
    requires s.Valid()
    ensures r.Valid()
  {
    if evs == [] then s else
      var before := Run(s, evs[..|evs| - 1]);
      StepValid(before, evs[|evs| - 1]);
      Step(before, evs[|evs| - 1]).0
  }

  // ---------------------------------------------------------------------
  // The size of the directory
  // ---------------------------------------------------------------------

  lemma PushGhostLength<K(!new)>(b: seq<K>, k: K)
    requires k !in b
    ensures |PushGhost(b, false, k)| == |b| + 1
  {
    WithoutAbsent(b, k);
  }

  lemma ReplaceDirectory<K(!new), V>(s: State<K, V>)
    requires s.Valid() && s.DirectoryLen() <= 2 * s.cap
    ensures Replace(s).DirectoryLen() == s.DirectoryLen()
  {
    if s.t1.order != [] {
      assert s.t1.order[0] in s.t1.order;
      PushGhostLength(s.b1, s.t1.order[0]);
    }
    if s.t2.order != [] {
      assert s.t2.order[0] in s.t2.order;
      PushGhostLength(s.b2, s.t2.order[0]);
    }
    hide PushGhost;
  }

  /** A full directory of which a complete miss of a full cache trims nothing. */
  predicate Untrimmed<K(==, !new), V>(s: State<K, V>) {
    && s.DirectoryLen() == 2 * s.cap && s.Len() >= s.cap
    && if s.t1.Len() + |s.b1| == s.cap then s.t1.order != [] else s.b1 == [] && s.b2 == []
  }

  lemma AdmitDirectory<K(!new), V>(s: State<K, V>)
    requires s.Valid() && s.DirectoryLen() <= 2 * s.cap
    ensures AdmitMiss(s).DirectoryLen() < 2 * s.cap <==> !Untrimmed(s)
    ensures AdmitMiss(s).DirectoryLen() <= 2 * s.cap
  {
    ReplaceDirectory(s);
    DropGhostValid(s);
    ReplaceDirectory(DropGhost(s));
    assert DropGhost(s).DirectoryLen() == if s.b1 == [] && s.b2 == [] then s.DirectoryLen() else s.DirectoryLen() - 1;
    hide Replace, DropGhost;
  }

  lemma GhostPutDirectory<K(!new), V>(s: State<K, V>, s': State<K, V>, k: K, e: CacheEntry<V>)
    requires s'.Valid() && s'.cap == s.cap && s'.DirectoryLen() + 1 == s.DirectoryLen() <= 2 * s.cap
    requires k !in MakeRoom(s').t2.entries && MakeRoom(s').t2.Valid()
    ensures var r := MakeRoom(s'); r.(t2 := r.t2.Insert(k, e)).DirectoryLen() == s.DirectoryLen()
  {
    ReplaceDirectory(s');
    hide Replace;
  }

  /** A put leaves the directory within twice the capacity, if it was, except exactly for a new key that
      meets a full directory untrimmed. */
  lemma DirectoryBoundIff<K(!new), V>(s: State<K, V>, k: K, e: CacheEntry<V>)
    requires s.Valid() && s.DirectoryLen() <= 2 * s.cap
    ensures InsertEntry(s, k, e).0.DirectoryLen() <= 2 * s.cap
            <==> s.Live(k) || k in s.b1 || k in s.b2 || !Untrimmed(s)
  {
    hide InsertEntry;
    if s.Live(k) {
      LivePutDirectory(s, k, e);
    } else if k in s.b1 {
      B1PutDirectory(s, k, e);
    } else if k in s.b2 {
      B2PutDirectory(s, k, e);
    } else {
      MissPutDirectory(s, k, e);
    }
  }

  lemma LivePutDirectory<K(!new), V>(s: State<K, V>, k: K, e: CacheEntry<V>)
    requires s.Valid() && s.Live(k)
    ensures InsertEntry(s, k, e).0.DirectoryLen() == s.DirectoryLen()
  {
    hide MakeRoom, AdmitMiss;
  }

  lemma ForgetB1<K(!new), V>(s: State<K, V>, k: K, p: nat)
    requires s.Valid() && k in s.b1 && !s.Live(k) && p <= s.cap
    ensures var t := s.(b1 := Without(s.b1, k), p := p);
            t.Valid() && !t.Live(k) && t.DirectoryLen() + 1 == s.DirectoryLen()
  {
    WithoutNoDup(s.b1, k);
  }

  lemma ForgetB2<K(!new), V>(s: State<K, V>, k: K, p: nat)
    requires s.Valid() && k in s.b2 && !s.Live(k) && p <= s.cap
    ensures var t := s.(b2 := Without(s.b2, k), p := p);
            t.Valid() && !t.Live(k) && t.DirectoryLen() + 1 == s.DirectoryLen()
  {
    WithoutNoDup(s.b2, k);
  }

  lemma RoomWithout<K(!new), V>(s: State<K, V>, k: K)
    requires s.Valid() && !s.Live(k)
    ensures k !in MakeRoom(s).t2.entries && MakeRoom(s).t2.Valid()
  {
    ReplaceValid(s, k);
    hide Replace;
  }

  lemma B1PutDirectory<K(!new), V>(s: State<K, V>, k: K, e: CacheEntry<V>)
    requires s.Valid() && s.DirectoryLen() <= 2 * s.cap && !s.Live(k) && k in s.b1
    ensures InsertEntry(s, k, e).0.DirectoryLen() == s.DirectoryLen()
  {
    var b1 := Without(s.b1, k);
    var s' := s.(b1 := b1, p := Raise(s.p, |b1|, |s.b2|, s.cap));
    ForgetB1(s, k, s'.p);
    hide MakeRoom, AdmitMiss, State.Valid;
    RoomWithout(s', k);
    GhostPutDirectory(s, s', k, e);
  }

  lemma B2PutDirectory<K(!new), V>(s: State<K, V>, k: K, e: CacheEntry<V>)
    requires s.Valid() && s.DirectoryLen() <= 2 * s.cap && !s.Live(k) && k !in s.b1 && k in s.b2
    ensures InsertEntry(s, k, e).0.DirectoryLen() == s.DirectoryLen()
  {
    var b2 := Without(s.b2, k);
    var s' := s.(b2 := b2, p := Lower(s.p, |s.b1|, |b2|));
    ForgetB2(s, k, s'.p);
    hide MakeRoom, AdmitMiss, State.Valid;
    RoomWithout(s', k);
    GhostPutDirectory(s, s', k, e);
  }

  lemma MissPutDirectory<K(!new), V>(s: State<K, V>, k: K, e: CacheEntry<V>)
    requires s.Valid() && s.DirectoryLen() <= 2 * s.cap && !s.Live(k) && k !in s.b1 && k !in s.b2
    ensures InsertEntry(s, k, e).0.DirectoryLen() <= 2 * s.cap <==> !Untrimmed(s)
  {
    AdmitDirectory(s);
    AdmitMissValid(s, k);
    hide AdmitMiss, MakeRoom;
  }

  /** Put 0, get 0, put 1, put 2 at capacity 1: a directory of three. */
  lemma DirectoryOutgrown()
    ensures var e, s0 := CacheEntry(0, None), New<nat, nat>(1);
            var s2 := Lookup(InsertEntry(s0, 0, e).0, 0, 0).0;
            var s3 := InsertEntry(s2, 1, e).0;
            s3.Valid() && s3.DirectoryLen() == 2 && Untrimmed(s3) && InsertEntry(s3, 2, e).0.DirectoryLen() > 2
  {
    var e, s0 := CacheEntry(0, None), New<nat, nat>(1);
    GrowStartPuts();
    hide InsertEntry, Lookup;
    var s1 := s0.(t1 := LinkedMap([0], map[0 := e]));
    OutgrownGet(s1);
    OutgrownNext(s0.(t2 := LinkedMap([0], map[0 := e])));
    var s3 := s0.(t1 := LinkedMap([1], map[1 := e]), b2 := [0]);
    OutgrownState(s3);
    DirectoryBoundIff(s3, 2, e);
  }

  lemma OutgrownGet(s: State<nat, nat>)
    requires s == New<nat, nat>(1).(t1 := LinkedMap([0], map[0 := CacheEntry(0, None)]))
    ensures Lookup(s, 0, 0).0 == New<nat, nat>(1).(t2 := LinkedMap([0], map[0 := CacheEntry(0, None)]))
  {
    assert Without<nat>([0], 0) == [] && Without<nat>([], 0) == [] && [] + [0] == [0];
    assert s.t1.Remove(0) == EmptyLinked();
  }

  lemma OutgrownState(s: State<nat, nat>)
    requires s == New<nat, nat>(1).(t1 := LinkedMap([1], map[1 := CacheEntry(0, None)]), b2 := [0])
    ensures s.Valid() && s.DirectoryLen() == 2 && Untrimmed(s) && !s.Live(2) && 2 !in s.b1 && 2 !in s.b2
  {
  }

  lemma OutgrownNext(s: State<nat, nat>)
    requires s == New<nat, nat>(1).(t2 := LinkedMap([0], map[0 := CacheEntry(0, None)]))
    ensures var e := CacheEntry(0, None);
            InsertEntry(s, 1, e).0 == New<nat, nat>(1).(t1 := LinkedMap([1], map[1 := e]), b2 := [0])
  {
    assert Without<nat>([], 1) == [] && [] + [1] == [1];
    hide AdmitMiss, InsertEntry;
    OutgrownRoom(s);
    InsertMiss(s, 1, CacheEntry(0, None));
  }

  lemma OutgrownRoom(s: State<nat, nat>)
    requires s == New<nat, nat>(1).(t2 := LinkedMap([0], map[0 := CacheEntry(0, None)]))
    ensures AdmitMiss(s) == New<nat, nat>(1).(b2 := [0])
  {
    hide DemoteT1, DemoteT2, DropGhost;
    OutgrownDemotes(s);
  }

  lemma OutgrownDemotes(s: State<nat, nat>)
    requires s == New<nat, nat>(1).(t2 := LinkedMap([0], map[0 := CacheEntry(0, None)]))
    ensures DemoteT2(s) == New<nat, nat>(1).(b2 := [0])
  {
    PopOnly(0, CacheEntry(0, None));
    FirstGhost(false, 0);
    FirstGhost(true, 0);
    hide LinkedMap.PopFront, PushGhost;
  }

  lemma PopOnly(k: nat, e: CacheEntry<nat>)
    ensures LinkedMap([k], map[k := e]).PopFront() == EmptyLinked()
  {
    assert map[k := e] - {k} == map[];
  }

  lemma FirstGhost(full: bool, k: nat)
    ensures PushGhost([], full, k) == [k]
  {
    assert Without<nat>([], k) == [] && [] + [k] == [k];
  }

  lemma InsertMiss<K(!new), V>(s: State<K, V>, k: K, e: CacheEntry<V>)
    requires !s.Live(k) && k !in s.b1 && k !in s.b2
    ensures InsertEntry(s, k, e).0 == AdmitMiss(s).(t1 := AdmitMiss(s).t1.Insert(k, e))
  {
    hide AdmitMiss;
  }

  // ---------------------------------------------------------------------
  // Unbounded growth
  // ---------------------------------------------------------------------

  /** A capacity-1 cache with `n` live entries, all in `t2`, one ghost in `b1`, and no key
      from `bound` upwards in use. */
  ghost predicate Grown(s: State<nat, nat>, n: nat, bound: nat) {
    && s.Valid() && s.cap == 1 && s.p == 0
    && s.t1 == EmptyLinked() && s.t2.Len() == n >= 1 && |s.b1| == 1 && s.b2 == []
    && forall k: nat :: s.Live(k) || k in s.b1 ==> k < bound
  }

  lemma GrowFirstPut(s: State<nat, nat>, n: nat, k: nat)
    requires Grown(s, n, k)
    ensures var t := InsertEntry(s, k, CacheEntry(0, None)).0;
            t == s.(t1 := LinkedMap([k], map[k := CacheEntry(0, None)]), b1 := [])
  {
    assert s.b1[1..] == [];
    assert Without<nat>([], k) == [];
  }

  lemma GrowSecondPut(s: State<nat, nat>, n: nat, k: nat)
    requires Grown(s, n, k)
    ensures var s1 := s.(t1 := LinkedMap([k], map[k := CacheEntry(0, None)]), b1 := []);
            InsertEntry(s1, k + 1, CacheEntry(0, None)).0 ==
            s.(t1 := LinkedMap([k + 1], map[k + 1 := CacheEntry(0, None)]), b1 := [k])
  {
    var s1 := s.(t1 := LinkedMap([k], map[k := CacheEntry(0, None)]), b1 := []);
    assert s1.t1.PopFront() == EmptyLinked();
    assert Without<nat>([], k) == [] && Without<nat>([], k + 1) == [];
    assert [] + [k] == [k] && [] + [k + 1] == [k + 1];
    assert Replace(s1) == s.(t1 := EmptyLinked(), b1 := [k]);
  }

  lemma GrowGet(s: State<nat, nat>, n: nat, k: nat)
    requires Grown(s, n, k)
    ensures var e := CacheEntry(0, None);
            Lookup(s.(t1 := LinkedMap([k + 1], map[k + 1 := e]), b1 := [k]), k + 1, 0).0 ==
            s.(t2 := s.t2.Insert(k + 1, e), b1 := [k])
  {
    var e := CacheEntry(0, None);
    assert LinkedMap([k + 1], map[k + 1 := e]).Remove(k + 1) == EmptyLinked();
  }

  lemma GrownNext(s: State<nat, nat>, n: nat, k: nat, e: CacheEntry<nat>)
    requires Grown(s, n, k)
    ensures Grown(s.(t2 := s.t2.Insert(k + 1, e), b1 := [k]), n + 1, k + 2)
  {
  }

  /** Two puts of new keys and a get of the second: one live entry more, same shape. */
  lemma Grow(s: State<nat, nat>, n: nat, k: nat)
    requires Grown(s, n, k)
    ensures var s1 := InsertEntry(s, k, CacheEntry(0, None)).0;
            var s2 := InsertEntry(s1, k + 1, CacheEntry(0, None)).0;
            Grown(Lookup(s2, k + 1, 0).0, n + 1, k + 2)
  {
    GrowFirstPut(s, n, k);
    GrowSecondPut(s, n, k);
    GrowGet(s, n, k);
    GrownNext(s, n, k, CacheEntry(0, None));
  }

  lemma EmptyAdmits()
    ensures AdmitMiss(New<nat, nat>(1)) == New<nat, nat>(1)
  {
    hide Replace, DropGhost;
  }

  lemma FirstEver(e: CacheEntry<nat>)
    ensures InsertEntry(New<nat, nat>(1), 0, e).0 == New<nat, nat>(1).(t1 := LinkedMap([0], map[0 := e]))
  {
    assert Without<nat>([], 0) == [] && [] + [0] == [0];
    hide InsertEntry, AdmitMiss;
    EmptyAdmits();
    InsertMiss(New<nat, nat>(1), 0, e);
  }

  lemma SecondEver(e: CacheEntry<nat>)
    ensures var s1 := New<nat, nat>(1).(t1 := LinkedMap([0], map[0 := e]));
            InsertEntry(s1, 1, e).0 == New<nat, nat>(1).(t1 := LinkedMap([1], map[1 := e]), b1 := [0])
  {
    var s0 := New<nat, nat>(1);
    var s1 := s0.(t1 := LinkedMap([0], map[0 := e]));
    assert Without<nat>([], 0) == [] && Without<nat>([], 1) == [] && [] + [0] == [0] && [] + [1] == [1];
    assert s1.t1.PopFront() == EmptyLinked();
    assert Replace(s1) == s0.(b1 := [0]);
    assert AdmitMiss(s1) == s0.(b1 := [0]);
    hide Replace, AdmitMiss, InsertEntry;
    InsertMiss(s1, 1, e);
  }

  lemma GrowStartPuts()
    ensures var e, s0 := CacheEntry(0, None), New<nat, nat>(1);
            var s1 := s0.(t1 := LinkedMap([0], map[0 := e]));
            && InsertEntry(s0, 0, e).0 == s1
            && InsertEntry(s1, 1, e).0 == s0.(t1 := LinkedMap([1], map[1 := e]), b1 := [0])
  {
    hide InsertEntry;
    FirstEver(CacheEntry(0, None));
    SecondEver(CacheEntry(0, None));
  }

  lemma GrowStart()
    ensures var s1 := InsertEntry(New<nat, nat>(1), 0, CacheEntry(0, None)).0;
            var s2 := InsertEntry(s1, 1, CacheEntry(0, None)).0;
            Grown(Lookup(s2, 1, 0).0, 1, 2)
  {
    var e, s0 := CacheEntry(0, None), New<nat, nat>(1);
    GrowStartPuts();
    var s2 := s0.(t1 := LinkedMap([1], map[1 := e]), b1 := [0]);
    hide InsertEntry;
    assert Without<nat>([1], 1) == [] && Without<nat>([], 1) == [] && [] + [1] == [1];
    assert s2.t1.Remove(1) == EmptyLinked();
    assert Lookup(s2, 1, 0).0 == s0.(t2 := LinkedMap([1], map[1 := e]), b1 := [0]);
    GrownFrom(s0, e);
    hide Lookup, Grown;
  }

  lemma GrownFrom(s0: State<nat, nat>, e: CacheEntry<nat>)
    requires s0 == New<nat, nat>(1)
    ensures Grown(s0.(t2 := LinkedMap([1], map[1 := e]), b1 := [0]), 1, 2)
  {
  }

  lemma RunGrow(evs: seq<Event<nat, nat>>, k: nat)
    ensures var s1 := InsertEntry(Run(New<nat, nat>(1), evs), k, CacheEntry(0, None)).0;
            var s2 := InsertEntry(s1, k + 1, CacheEntry(0, None)).0;
            Run(New(1), evs + [Event(0, Put(k, 0))] + [Event(0, Put(k + 1, 0))] + [Event(0, Get(k + 1))])
            == Lookup(s2, k + 1, 0).0
  {
    var a: Event<nat, nat>, b: Event<nat, nat>, c: Event<nat, nat> :=
      Event(0, Put(k, 0)), Event(0, Put(k + 1, 0)), Event(0, Get(k + 1));
    RunSnoc(New(1), evs, a);
    RunSnoc(New(1), evs + [a], b);
    RunSnoc(New(1), evs + [a] + [b], c);
  }

  /** The capacity bounds nothing: for every `n` there is a run of puts and gets after which a
      cache of capacity 1 holds `n` live entries. */
  lemma {:induction false} CapacityOneGrowsWithoutBound(n: nat) returns (evs: seq<Event<nat, nat>>)
    requires n >= 1
    ensures Grown(Run(New(1), evs), n, 2 * n)
  {
    var k := 2 * n - 2;
    if n == 1 {
      evs := [];
      GrowStart();
    } else {
      evs := CapacityOneGrowsWithoutBound(n - 1);
      Grow(Run(New(1), evs), n - 1, k);
    }
    RunGrow(evs, k);
    evs := evs + [Event(0, Put(k, 0))] + [Event(0, Put(k + 1, 0))] + [Event(0, Get(k + 1))];
  }

  lemma RunSnoc<K(!new), V>(s: State<K, V>, evs: seq<Event<K, V>>, ev: Event<K, V>)
    requires s.Valid()
    ensures Run(s, evs + [ev]) == Step(Run(s, evs), ev).0
  {
    assert (evs + [ev])[..|evs|] == evs;
  }

  // ---------------------------------------------------------------------
  // Freshness
  // ---------------------------------------------------------------------

  ghost predicate FreshLists<K(!new), V>(s: State<K, V>, w: map<K, CacheEntry<V>>) {
    Fresh(s.t1.entries, w) && Fresh(s.t2.entries, w)
  }

  lemma ReplaceFresh<K(!new), V>(s: State<K, V>, w: map<K, CacheEntry<V>>)
    requires s.Valid() && FreshLists(s, w)
    ensures FreshLists(Replace(s), w)
  {
    ReplaceMovesOne(s);
  }

  lemma {:induction false} FitFresh<K(!new), V>(s: State<K, V>, w: map<K, CacheEntry<V>>)
    requires s.Valid() && FreshLists(s, w)
    ensures FreshLists(Fit(s), w)
    decreases s.Len()
  {
    if s.Len() > s.cap {
      ReplaceFresh(s, w);
      ReplaceShrinks(s);
      FitFresh(Replace(s), w);
    }
  }

  lemma InsertFresh<K(!new), V>(s: State<K, V>, w: map<K, CacheEntry<V>>, k: K, e: CacheEntry<V>)
    requires s.Valid() && FreshLists(s, w)
    ensures FreshLists(InsertEntry(s, k, e).0, w[k := e])
  {
    if s.Live(k) {
      UpdateFresh(s, w, k, e);
    } else if k in s.b1 {
      var b1 := Without(s.b1, k);
      WithoutNoDup(s.b1, k);
      RoomFresh(s.(b1 := b1, p := Raise(s.p, |b1|, |s.b2|, s.cap)), w, k, e);
    } else if k in s.b2 {
      var b2 := Without(s.b2, k);
      WithoutNoDup(s.b2, k);
      RoomFresh(s.(b2 := b2, p := Lower(s.p, |s.b1|, |b2|)), w, k, e);
    } else {
      AdmitMissValid(s, k);
      AdmitMissFresh(s, w);
      StoreFresh(AdmitMiss(s), w, k, e);
    }
  }

  lemma UpdateFresh<K(!new), V>(s: State<K, V>, w: map<K, CacheEntry<V>>, k: K, e: CacheEntry<V>)
    requires s.Valid() && FreshLists(s, w) && s.Live(k)
    ensures FreshLists(InsertEntry(s, k, e).0, w[k := e])
  {
  }

  lemma RoomFresh<K(!new), V>(s: State<K, V>, w: map<K, CacheEntry<V>>, k: K, e: CacheEntry<V>)
    requires s.Valid() && FreshLists(s, w) && !s.Live(k)
    ensures var s' := MakeRoom(s); FreshLists(s'.(t2 := s'.t2.Insert(k, e)), w[k := e])
  {
    assert !MakeRoom(s).Live(k) by { ReplaceValid(s, k); }
    assert FreshLists(MakeRoom(s), w) by { ReplaceFresh(s, w); }
    StoreFresh(MakeRoom(s), w, k, e);
  }

  lemma StoreFresh<K(!new), V>(s: State<K, V>, w: map<K, CacheEntry<V>>, k: K, e: CacheEntry<V>)
    requires FreshLists(s, w) && !s.Live(k)
    ensures FreshLists(s.(t2 := s.t2.Insert(k, e)), w[k := e])
    ensures FreshLists(s.(t1 := s.t1.Insert(k, e)), w[k := e])
  {
  }

  lemma AdmitMissFresh<K(!new), V>(s: State<K, V>, w: map<K, CacheEntry<V>>)
    requires s.Valid() && FreshLists(s, w)
    ensures FreshLists(AdmitMiss(s), w)
  {
    DropGhostValid(s);
    ReplaceFresh(s, w);
    ReplaceFresh(if s.DirectoryLen() >= 2 * s.cap then DropGhost(s) else s, w);
  }

  lemma LookupFresh<K(!new), V>(s: State<K, V>, w: map<K, CacheEntry<V>>, k: K, now: nat)
    requires s.Valid() && FreshLists(s, w)
    ensures FreshLists(Lookup(s, k, now).0, w)
  {
    if !s.Live(k) {
      ReplaceFresh(s.(p := Raise(s.p, |s.b1|, |s.b2|, s.cap)), w);
      ReplaceFresh(s.(p := Lower(s.p, |s.b1|, |s.b2|)), w);
    }
  }

  lemma StepFresh<K(!new), V>(s: State<K, V>, w: map<K, CacheEntry<V>>, ev: Event<K, V>)
    requires s.Valid() && FreshLists(s, w)
    ensures FreshLists(Step(s, ev).0, Written(w, ev))
  {
    match ev.op {
      case Put(k, _) => InsertFresh(s, w, k, ev.Entry());
      case PutWithTtl(k, _, _) => InsertFresh(s, w, k, ev.Entry());
      case Get(k) => LookupFresh(s, w, k, ev.now);
      case Remove(k) =>
      case Clear =>
      case Resize(n) =>
        var cap := Max(n, 1);
        FitFresh(s.(cap := cap, p := Min(s.p, cap)), w);
    }
  }

  /** In every run each live entry is the last one written for its key. */
  lemma {:induction false} RunFresh<K(!new), V>(cap: nat, evs: seq<Event<K, V>>)
    ensures FreshLists(Run(New(cap), evs), WrittenAll(evs))
    decreases |evs|
  {
    if evs != [] {
      RunFresh(cap, evs[..|evs| - 1]);
      StepFresh(Run(New(cap), evs[..|evs| - 1]), WrittenAll(evs[..|evs| - 1]), evs[|evs| - 1]);
    }
  }

  /** `peek`: `t1` first, then `t2`. */
  function PeekIn<K(==, !new), V>(s: State<K, V>, k: K, now: nat): Option<V> {
    if Peek(s.t1.entries, k, now).Some? then Peek(s.t1.entries, k, now) else Peek(s.t2.entries, k, now)
  }

  /** The entry of a live key. */
  function Entry<K(==, !new), V>(s: State<K, V>, k: K): Option<CacheEntry<V>> {
    if k in s.t1.entries then Some(s.t1.entries[k]) else Stored(s.t2.entries, k)
  }

  lemma PeekServes<K(!new), V>(s: State<K, V>, k: K, now: nat, v: V)
    requires s.Valid()
    ensures PeekIn(s, k, now) == Some(v) <==> Serves(Entry(s, k), v, now)
  {
  }

  /** After every run a get answers a value exactly when the key is live with it and its deadline, if it
      has one, is still ahead; so the answer is the last write of the key and is not overdue. */
  lemma GetAnswers<K(!new), V>(cap: nat, evs: seq<Event<K, V>>, k: K, now: nat, v: V)
    ensures var s := Run(New(cap), evs);
            && (Lookup(s, k, now).1 == Some(v) <==> Serves(Entry(s, k), v, now))
            && (Lookup(s, k, now).1 == Some(v) ==> Serves(Stored(WrittenAll(evs), k), v, now))
  {
    RunFresh(cap, evs);
    hide Run, WrittenAll, Replace, LinkedMap.Remove, LinkedMap.Insert, State.Valid;
  }

  /** What was just put is there, even when the put overflowed or revived a ghost. */
  lemma PutIsKept<K(!new), V>(s: State<K, V>, k: K, e: CacheEntry<V>, now: nat)
    requires s.Valid() && !e.Expired(now)
    ensures PeekIn(InsertEntry(s, k, e).0, k, now) == Some(e.value)
  {
    InsertFresh(s, map x | x in s.t1.entries.Keys + s.t2.entries.Keys ::
                     if x in s.t1.entries then s.t1.entries[x] else s.t2.entries[x], k, e);
  }
}
