/** W-TinyLFU without lists and tables: one directory in which each key carries its segment and the moment it
    was put there, and the list of all accesses since the last clear, of which the gate takes its estimates.
    The cache of module `TinyLfu` gives the same answers in every run. */
module TinyLfuReference {
  import opened LinkedMaps
  import opened Caches
  import opened Shelves
  import Sketch
  import T = TinyLfu

  type Dir<K(!new), V> = map<K, Slot<T.Segment, Option<CacheEntry<V>>>>

  datatype Ref<K(==, !new), V> =
    Ref(cap: nat, tableCap: nat, accesses: seq<Sketch.Hash>, rng: bv64, clock: nat, dir: Dir<K, V>)

  function WindowSpace(cap: nat): nat { if cap < 200 then 1 else cap / 100 }

  function MainSpace(cap: nat): int { cap - WindowSpace(cap) }

  function ProtectedSpace(cap: nat): int { MainSpace(cap) * 4 / 5 }

  ghost function Size<K(!new), V>(r: Ref<K, V>, l: T.Segment): nat { |On(r.dir, l)| }

  ghost function Value<K(!new), V>(r: Ref<K, V>, k: K): Option<V> {
    if k in r.dir && r.dir[k].item.Some? then Some(r.dir[k].item.value.value) else None
  }

  ghost predicate Overdue<K(!new), V>(r: Ref<K, V>, k: K, now: nat) {
    && k in r.dir && r.dir[k].item.Some? && r.dir[k].item.value.expiresAt.Some?
    && r.dir[k].item.value.expiresAt.value <= now
  }

  ghost function Move<K(!new), V>(r: Ref<K, V>, k: K, to: T.Segment, item: Option<CacheEntry<V>>): Ref<K, V> {
    r.(clock := r.clock + 1, dir := r.dir[k := Slot(to, item, r.clock)])
  }

  ghost function Lose<K(!new), V>(r: Ref<K, V>, k: K): Ref<K, V> {
    r.(dir := r.dir - {k})
  }

  /** A key used again: within the window and the protected segment it becomes the newest; from probation it is
      promoted, and the oldest protected key pays for it if there are too many. */
  ghost function Touch<K(!new), V>(r: Ref<K, V>, k: K, item: Option<CacheEntry<V>>): Ref<K, V>
    requires k in r.dir
  {
    if r.dir[k].shelf == T.Window then Move(r, k, T.Window, item)
    else if r.dir[k].shelf == T.Protected then Move(r, k, T.Protected, item)
    else
      var t := Move(r, k, T.Protected, item);
      var oldest := Oldest(t.dir, T.Protected);
      if Size(t, T.Protected) > ProtectedSpace(r.cap) && oldest.Some? then
        Move(t, oldest.value, T.Probation, t.dir[oldest.value].item)
      else t
  }

  /** What the table says of a key after the accesses so far. */
  function Estimate(tableCap: nat, accesses: seq<Sketch.Hash>, h: Sketch.Hash): nat {
    var c := Sketch.RecordAll(tableCap, accesses);
    Sketch.Estimate(c.sketch.grid, h, c.sketch.w)
  }

  /** A key that has left the window enters the main space if there is room or if it beats the oldest
      probation key; on equal estimates the generator decides, and only then does it advance. */
  ghost function Admit<K(!new), V>(
    r: Ref<K, V>, k: K, item: Option<CacheEntry<V>>, hash: K -> Sketch.Hash): Ref<K, V>
  {
    if Size(r, T.Probation) + Size(r, T.Protected) < MainSpace(r.cap) then Move(r, k, T.Probation, item)
    else match Oldest(r.dir, T.Probation)
      case None => r
      case Some(v) =>
        var mine, other := Estimate(r.tableCap, r.accesses, hash(k)), Estimate(r.tableCap, r.accesses, hash(v));
        if mine > other then Move(Lose(r, v), k, T.Probation, item)
        else if mine < other then r
        else
          var t := r.(rng := T.Xorshift(r.rng));
          if t.rng & 0xFF < 128 then Move(Lose(t, v), k, T.Probation, item) else t
  }

  ghost function Insert<K(!new), V>(r: Ref<K, V>, k: K, e: CacheEntry<V>, hash: K -> Sketch.Hash): Ref<K, V> {
    var seen := r.(accesses := r.accesses + [hash(k)]);
    if k in r.dir then Touch(seen, k, Some(e))
    else
      var t := Move(seen, k, T.Window, Some(e));
      var oldest := Oldest(t.dir, T.Window);
      if Size(t, T.Window) > WindowSpace(r.cap) && oldest.Some? then
        Admit(Lose(t, oldest.value), oldest.value, t.dir[oldest.value].item, hash)
      else t
  }

  /** Only a key that is there and not overdue is an access.  A promoted key that did not stay in the
      protected segment is not found. */
  ghost function Lookup<K(!new), V>(r: Ref<K, V>, k: K, now: nat, hash: K -> Sketch.Hash): (Ref<K, V>, Option<V>) {
    if k !in r.dir then (r, None)
    else if Overdue(r, k, now) then (Lose(r, k), None)
    else
      var t := Touch(r.(accesses := r.accesses + [hash(k)]), k, r.dir[k].item);
      (t, if k in t.dir && t.dir[k].shelf == T.Probation then None else Value(r, k))
  }

  ghost function LoseOldest<K(!new), V>(r: Ref<K, V>, l: T.Segment, n: int): Ref<K, V>
    decreases n
  {
    if n <= 0 then r else match Oldest(r.dir, l)
      case None => r
      case Some(v) => LoseOldest(Lose(r, v), l, n - 1)
  }

  ghost function Resize<K(!new), V>(r: Ref<K, V>, n: nat): Ref<K, V> {
    var t := r.(cap := if n < 2 then 2 else n);
    var t1 := LoseOldest(t, T.Window, Size(t, T.Window) - WindowSpace(t.cap));
    var t2 := LoseOldest(t1, T.Protected, Size(t1, T.Protected) - ProtectedSpace(t.cap));
    LoseOldest(t2, T.Probation, Size(t2, T.Probation) + Size(t2, T.Protected) - MainSpace(t.cap))
  }

  ghost function Step<K(!new), V>(r: Ref<K, V>, ev: Event<K, V>, hash: K -> Sketch.Hash): (Ref<K, V>, Option<V>) {
    match ev.op
    case Put(k, v) => (Insert(r, k, CacheEntry(v, None), hash), None)
    case PutWithTtl(k, v, ttl) => (Insert(r, k, CacheEntry(v, Some(ev.now + ttl)), hash), None)
    case Get(k) => Lookup(r, k, ev.now, hash)
    case Remove(k) => (Lose(r, k), Value(r, k))
    case Clear => (r.(accesses := [], dir := map[]), None)
    case Resize(n) => (Resize(r, n), None)
  }

  ghost function Run<K(!new), V>(cap: nat, evs: seq<Event<K, V>>, hash: K -> Sketch.Hash): Ref<K, V> {
    if evs == [] then
      var c := if cap < 2 then 2 else cap;
      Ref(c, c, [], T.Seed(c), 0, map[])
    else Step(Run(cap, evs[..|evs| - 1], hash), evs[|evs| - 1], hash).0
  }

  // ---------------------------------------------------------------------
  // Simulation
  // ---------------------------------------------------------------------

  ghost function IndexOf<K(!new), V>(dir: Dir<K, V>): map<K, T.Segment> {
    map k | k in dir :: dir[k].shelf
  }

  ghost predicate Listed<K(!new), V>(s: T.State<K, V>, dir: Dir<K, V>) {
    && Holds(s.window, dir, T.Window) && Holds(s.probation, dir, T.Probation) && Holds(s.protect, dir, T.Protected)
    && s.index == IndexOf(dir)
  }

  ghost predicate SameTables<K(!new), V>(s: T.State<K, V>, r: Ref<K, V>) {
    && s.totalCap == r.cap >= 2 && s.windowCap == WindowSpace(r.cap) && s.mainCap == MainSpace(r.cap)
    && s.protectedCap == ProtectedSpace(r.cap)
    && s.rng == r.rng && s.counter == Sketch.RecordAll(r.tableCap, r.accesses)
  }

  ghost predicate Simulates<K(!new), V>(s: T.State<K, V>, r: Ref<K, V>) {
    Listed(s, r.dir) && Stamped(r.dir, r.clock) && SameTables(s, r)
  }

  lemma ShelfOf<K(!new), V>(s: T.State<K, V>, r: Ref<K, V>, k: K)
    requires Simulates(s, r)
    ensures k in s.window.entries <==> k in r.dir && r.dir[k].shelf == T.Window
    ensures k in s.probation.entries <==> k in r.dir && r.dir[k].shelf == T.Probation
    ensures k in s.protect.entries <==> k in r.dir && r.dir[k].shelf == T.Protected
    ensures k in s.index <==> k in r.dir
    ensures k in s.index ==> s.index[k] == r.dir[k].shelf
    ensures k in r.dir ==> T.Entry(s, k).Some? && r.dir[k].item == T.Entry(s, k)
    ensures k !in r.dir ==> T.Entry(s, k).None?
  {
    if k in r.dir {
      match r.dir[k].shelf {
        case Window => assert k in s.window.order;
        case Probation => assert k in s.probation.order;
        case Protected => assert k in s.protect.order;
      }
    }
  }

  lemma LinkedOf<K(!new), V>(s: T.State<K, V>, r: Ref<K, V>)
    requires Simulates(s, r)
    ensures s.Linked()
  {
  }

  lemma Sizes<K(!new), V>(s: T.State<K, V>, r: Ref<K, V>)
    requires Simulates(s, r)
    ensures Size(r, T.Window) == s.window.Len() && Size(r, T.Probation) == s.probation.Len()
    ensures Size(r, T.Protected) == s.protect.Len()
    ensures Oldest(r.dir, T.Window) == if s.window.order == [] then None else Some(s.window.order[0])
    ensures Oldest(r.dir, T.Probation) == if s.probation.order == [] then None else Some(s.probation.order[0])
    ensures Oldest(r.dir, T.Protected) == if s.protect.order == [] then None else Some(s.protect.order[0])
  {
    hide Lists, Stamped, Oldest;
    CountListed(s.window.order, r.dir, T.Window);
    CountListed(s.probation.order, r.dir, T.Probation);
    CountListed(s.protect.order, r.dir, T.Protected);
    OldestListed(s.window.order, r.dir, T.Window);
    OldestListed(s.probation.order, r.dir, T.Probation);
    OldestListed(s.protect.order, r.dir, T.Protected);
  }

  /** The segments without a key. */
  ghost function Gone<K(!new), V>(s: T.State<K, V>, k: K): T.State<K, V> {
    s.(window := s.window.Remove(k), probation := s.probation.Remove(k), protect := s.protect.Remove(k),
       index := s.index - {k})
  }

  /** The segments with a key newest in one of them. */
  ghost function Placed<K(!new), V>(s: T.State<K, V>, k: K, l: T.Segment, e: CacheEntry<V>): T.State<K, V> {
    s.(window := if l == T.Window then s.window.Insert(k, e) else s.window.Remove(k),
       probation := if l == T.Probation then s.probation.Insert(k, e) else s.probation.Remove(k),
       protect := if l == T.Protected then s.protect.Insert(k, e) else s.protect.Remove(k),
       index := s.index[k := l])
  }

  lemma IndexMoves<K(!new), V>(dir: Dir<K, V>, k: K, slot: Slot<T.Segment, Option<CacheEntry<V>>>)
    ensures IndexOf(dir[k := slot]) == IndexOf(dir)[k := slot.shelf] && IndexOf(dir - {k}) == IndexOf(dir) - {k}
  {
  }

  lemma LoseSimulates<K(!new), V>(s: T.State<K, V>, r: Ref<K, V>, k: K)
    requires Simulates(s, r)
    ensures Simulates(Gone(s, k), Lose(r, k))
  {
    TakeHeld(s.window, r.dir, T.Window, k);
    TakeHeld(s.probation, r.dir, T.Probation, k);
    TakeHeld(s.protect, r.dir, T.Protected, k);
    IndexMoves(r.dir, k, Slot(T.Window, None, 0));
    hide Holds, LinkedMap.Remove, IndexOf;
  }

  lemma PlaceHeldAnywhere<K(!new), V>(
    m: LinkedMap<K, CacheEntry<V>>, dir: Dir<K, V>, l: T.Segment, k: K, to: T.Segment, e: CacheEntry<V>, clock: nat)
    requires Holds(m, dir, l) && Stamped(dir, clock)
    ensures Holds(if l == to then m.Insert(k, e) else m.Remove(k), dir[k := Slot(to, Some(e), clock)], l)
  {
    hide Holds, Stamped;
    if l == to { PlaceHeld(m, dir, l, k, e, clock); } else { PlaceElsewhere(m, dir, l, k, to, Some(e), clock); }
  }

  lemma PlaceSimulates<K(!new), V>(s: T.State<K, V>, r: Ref<K, V>, k: K, l: T.Segment, e: CacheEntry<V>)
    requires Simulates(s, r)
    ensures Simulates(Placed(s, k, l, e), Move(r, k, l, Some(e)))
  {
    PlaceHeldAnywhere(s.window, r.dir, T.Window, k, l, e, r.clock);
    PlaceHeldAnywhere(s.probation, r.dir, T.Probation, k, l, e, r.clock);
    PlaceHeldAnywhere(s.protect, r.dir, T.Protected, k, l, e, r.clock);
    IndexMoves(r.dir, k, Slot(l, Some(e), r.clock));
    hide Holds, LinkedMap.Remove, LinkedMap.Insert, IndexOf;
  }

  lemma FrontsHeld<K(!new), V>(s: T.State<K, V>, r: Ref<K, V>)
    requires Simulates(s, r)
    ensures s.window.Valid() && s.protect.Valid() && s.probation.Valid()
    ensures s.window.order != [] ==>
              s.window.order[0] in s.window.entries && s.window.PopFront() == s.window.Remove(s.window.order[0])
    ensures s.protect.order != [] ==>
              s.protect.order[0] in s.protect.entries && s.protect.PopFront() == s.protect.Remove(s.protect.order[0])
    ensures s.probation.order != [] ==>
              && s.probation.order[0] in s.probation.entries
              && s.probation.PopFront() == s.probation.Remove(s.probation.order[0])
  {
    if s.window.order != [] { PopIsRemove(s.window); assert s.window.order[0] in s.window.order; }
    if s.protect.order != [] { PopIsRemove(s.protect); assert s.protect.order[0] in s.protect.order; }
    if s.probation.order != [] { PopIsRemove(s.probation); assert s.probation.order[0] in s.probation.order; }
    hide Lists, LinkedMap.Remove, LinkedMap.PopFront;
  }

  /** Taking a key out of a segment it is not in changes nothing. */
  lemma AbsentWhere<K(!new), V>(s: T.State<K, V>, r: Ref<K, V>, k: K)
    requires Simulates(s, r)
    ensures k !in s.window.entries ==> s.window.Remove(k) == s.window
    ensures k !in s.probation.entries ==> s.probation.Remove(k) == s.probation
    ensures k !in s.protect.entries ==> s.protect.Remove(k) == s.protect
    ensures k !in s.index ==> s.index - {k} == s.index
    ensures k in s.index ==> s.index[k := s.index[k]] == s.index
  {
    if k !in s.window.entries { RemoveAbsent(s.window, k); }
    if k !in s.probation.entries { RemoveAbsent(s.probation, k); }
    if k !in s.protect.entries { RemoveAbsent(s.protect, k); }
    hide Listed, LinkedMap.Remove;
  }

  lemma GoneWhere<K(!new), V>(s: T.State<K, V>, r: Ref<K, V>, k: K)
    requires Simulates(s, r)
    ensures Gone(s, k) == T.Drop(s, k)
  {
    hide Simulates, LinkedMap.Remove, T.Entry;
    ShelfOf(s, r, k);
    AbsentWhere(s, r, k);
  }

  lemma GoneFront<K(!new), V>(s: T.State<K, V>, r: Ref<K, V>, k: K)
    requires Simulates(s, r)
    ensures s.window.order != [] && k == s.window.order[0] ==> Gone(s, k) == T.PopWindow(s)
    ensures s.protect.order != [] && k == s.protect.order[0] ==> Gone(s, k) == T.PopProtected(s)
    ensures s.probation.order != [] && k == s.probation.order[0] ==> Gone(s, k) == T.Expel(s)
  {
    hide Simulates, LinkedMap.Remove, LinkedMap.PopFront, T.Entry;
    ShelfOf(s, r, k);
    FrontsHeld(s, r);
    AbsentWhere(s, r, k);
  }

  lemma PlacedWhere<K(!new), V>(s: T.State<K, V>, r: Ref<K, V>, k: K, e: CacheEntry<V>)
    requires Simulates(s, r)
    ensures k in s.window.entries ==> Placed(s, k, T.Window, e) == s.(window := s.window.Insert(k, e))
    ensures k in s.protect.entries ==> Placed(s, k, T.Protected, e) == s.(protect := s.protect.Insert(k, e))
    ensures k in s.probation.entries ==> Placed(s, k, T.Protected, e) == T.MoveUp(s, k, e)
    ensures k !in s.index ==> Placed(s, k, T.Probation, e) == T.Enter(s, k, e)
    ensures k !in s.index ==>
              Placed(s, k, T.Window, e) == s.(index := s.index[k := T.Window], window := s.window.Insert(k, e))
  {
    hide Simulates, LinkedMap.Remove, LinkedMap.Insert, T.Entry;
    ShelfOf(s, r, k);
    AbsentWhere(s, r, k);
  }

  lemma PlacedFront<K(!new), V>(s: T.State<K, V>, r: Ref<K, V>)
    requires Simulates(s, r) && s.protect.order != []
    ensures var k := s.protect.order[0];
            && s.protect.Valid() && k in s.protect.entries
            && Placed(s, k, T.Probation, s.protect.entries[k]) == T.Demote(s)
  {
    hide Simulates, LinkedMap.Remove, LinkedMap.PopFront, LinkedMap.Insert, T.Entry;
    var k := s.protect.order[0];
    ShelfOf(s, r, k);
    FrontsHeld(s, r);
    AbsentWhere(s, r, k);
  }

  // ---------------------------------------------------------------------
  // Calls
  // ---------------------------------------------------------------------

  lemma SameCaps<K(!new), V>(s: T.State<K, V>, r: Ref<K, V>)
    requires Simulates(s, r)
    ensures s.windowCap == WindowSpace(r.cap)
    ensures s.mainCap == MainSpace(r.cap) && s.protectedCap == ProtectedSpace(r.cap)
    ensures s.rng == r.rng && s.counter == Sketch.RecordAll(r.tableCap, r.accesses) && s.totalCap == r.cap >= 2
  {
    hide Listed, Stamped, WindowSpace, Sketch.RecordAll;
  }

  lemma RecordSimulates<K(!new), V>(s: T.State<K, V>, r: Ref<K, V>, h: Sketch.Hash)
    requires Simulates(s, r)
    ensures s.counter.Valid() && Simulates(T.Record(s, h), r.(accesses := r.accesses + [h]))
  {
    assert (r.accesses + [h])[..|r.accesses|] == r.accesses;
    hide Listed, Stamped, Sketch.Record, WindowSpace;
  }

  lemma PromoteSimulates<K(!new), V>(s: T.State<K, V>, r: Ref<K, V>, k: K, e: CacheEntry<V>)
    requires Simulates(s, r) && k in s.probation.entries
    ensures s.protect.Valid() && k in r.dir && Simulates(T.Promote(s, k, e), Touch(r, k, Some(e)))
  {
    hide Simulates, T.MoveUp, Placed, Move, T.Demote, Size, Oldest, T.Entry;
    FrontsHeld(s, r);
    ShelfOf(s, r, k);
    PlacedWhere(s, r, k, e);
    PlaceSimulates(s, r, k, T.Protected, e);
    var u, t := T.MoveUp(s, k, e), Move(r, k, T.Protected, Some(e));
    SameCaps(s, r);
    SameCaps(u, t);
    Sizes(u, t);
    if u.protect.Len() > s.protectedCap {
      PlacedFront(u, t);
      ShelfOf(u, t, u.protect.order[0]);
      FrontEntry(u, t);
      PlaceSimulates(u, t, u.protect.order[0], T.Probation, u.protect.entries[u.protect.order[0]]);
    }
  }

  /** The item of the oldest key of a segment. */
  lemma FrontEntry<K(!new), V>(s: T.State<K, V>, r: Ref<K, V>)
    requires Simulates(s, r)
    ensures s.protect.order != [] ==>
              var k := s.protect.order[0];
              k in r.dir && k in s.protect.entries && r.dir[k].item == Some(s.protect.entries[k])
    ensures s.window.order != [] ==>
              var k := s.window.order[0];
              k in r.dir && k in s.window.entries && r.dir[k].item == Some(s.window.entries[k])
  {
    FrontsHeld(s, r);
    hide Lists, LinkedMap.PopFront, LinkedMap.Remove, LinkedMap.Valid, IndexOf, SameTables;
  }

  lemma TouchSimulates<K(!new), V>(s: T.State<K, V>, r: Ref<K, V>, k: K, e: CacheEntry<V>)
    requires Simulates(s, r) && k in s.index
    ensures s.protect.Valid() && k in r.dir && Simulates(T.Update(s, k, e), Touch(r, k, Some(e)))
  {
    hide Simulates, Placed, Move, Size, Oldest, T.Entry, T.Promote, T.MoveUp, LinkedMap.Insert, LinkedMap.Remove;
    FrontsHeld(s, r);
    ShelfOf(s, r, k);
    PlacedWhere(s, r, k, e);
    match s.index[k] {
      case Window => PlaceSimulates(s, r, k, T.Window, e);
      case Probation => hide Touch; PromoteSimulates(s, r, k, e);
      case Protected => PlaceSimulates(s, r, k, T.Protected, e);
    }
  }

  lemma EstimateIs<K(!new), V>(s: T.State<K, V>, r: Ref<K, V>, h: Sketch.Hash)
    requires Simulates(s, r)
    ensures s.counter.Valid() && T.Frequency(s, h) == Estimate(r.tableCap, r.accesses, h)
  {
    hide Listed, Stamped, WindowSpace;
  }

  lemma RngSimulates<K(!new), V>(s: T.State<K, V>, r: Ref<K, V>, rng: bv64)
    requires Simulates(s, r)
    ensures Simulates(s.(rng := rng), r.(rng := rng))
  {
    hide Holds, IndexOf, Stamped, WindowSpace, Sketch.RecordAll;
  }

  lemma ReplaceSimulates<K(!new), V>(s: T.State<K, V>, r: Ref<K, V>, k: K, e: CacheEntry<V>)
    requires Simulates(s, r) && k !in s.index && s.probation.order != []
    ensures Simulates(T.Enter(T.Expel(s), k, e), Move(Lose(r, s.probation.order[0]), k, T.Probation, Some(e)))
  {
    var v := s.probation.order[0];
    assert k !in T.Expel(s).index;
    hide Simulates, Placed, Gone, Move, Lose, T.Expel, T.Enter;
    GoneFront(s, r, v);
    LoseSimulates(s, r, v);
    PlacedWhere(T.Expel(s), Lose(r, v), k, e);
    PlaceSimulates(T.Expel(s), Lose(r, v), k, T.Probation, e);
  }

  lemma AdmitSimulates<K(!new), V>(s: T.State<K, V>, r: Ref<K, V>, k: K, e: CacheEntry<V>, hash: K -> Sketch.Hash)
    requires Simulates(s, r) && k !in s.index
    ensures s.counter.Valid() && Simulates(T.Gate(s, k, e, hash), Admit(r, k, Some(e), hash))
  {
    hide Simulates, Placed, Move, Lose, T.Enter, T.Expel, Size, Oldest, Estimate, T.Frequency, T.Xorshift;
    Sizes(s, r);
    SameCaps(s, r);
    EstimateIs(s, r, hash(k));
    PlacedWhere(s, r, k, e);
    PlaceSimulates(s, r, k, T.Probation, e);
    if s.probation.order != [] {
      EstimateIs(s, r, hash(s.probation.order[0]));
      var next := T.Xorshift(s.rng);
      assert s.(rng := s.rng) == s && s.(rng := next).probation == s.probation;
      RngSimulates(s, r, next);
      ReplaceSimulates(s, r, k, e);
      ReplaceSimulates(s.(rng := next), r.(rng := next), k, e);
    }
  }

  lemma InsertNewSimulates<K(!new), V>(s: T.State<K, V>, r: Ref<K, V>, k: K, e: CacheEntry<V>, hash: K -> Sketch.Hash)
    requires Simulates(s, r) && k !in s.index
    ensures s.counter.Valid() && s.window.Valid()
    ensures var t := Move(r, k, T.Window, Some(e));
            var oldest := Oldest(t.dir, T.Window);
            Simulates(T.InsertNew(s, k, e, hash),
                      if Size(t, T.Window) > WindowSpace(r.cap) && oldest.Some? then
                        Admit(Lose(t, oldest.value), oldest.value, t.dir[oldest.value].item, hash)
                      else t)
  {
    hide Simulates, Placed, Lose, Size, Oldest, T.Gate, Admit, T.PopWindow, WindowSpace, LinkedMap.Insert, Gone,
         T.Entry;
    LinkedOf(s, r);
    PlacedWhere(s, r, k, e);
    PlaceSimulates(s, r, k, T.Window, e);
    var u, t := s.(index := s.index[k := T.Window], window := s.window.Insert(k, e)), Move(r, k, T.Window, Some(e));
    hide Move;
    SameCaps(s, r);
    Sizes(u, t);
    if u.window.order != [] {
      var c := u.window.order[0];
      FrontEntry(u, t);
      GoneFront(u, t, c);
      LoseSimulates(u, t, c);
      assert c !in T.PopWindow(u).index by { GoneIndex(u, c); }
      AdmitSimulates(T.PopWindow(u), Lose(t, c), c, u.window.entries[c], hash);
    }
  }

  lemma GoneIndex<K(!new), V>(s: T.State<K, V>, k: K)
    ensures k !in Gone(s, k).index
  {
  }

  lemma InsertSimulates<K(!new), V>(s: T.State<K, V>, r: Ref<K, V>, k: K, e: CacheEntry<V>, hash: K -> Sketch.Hash)
    requires Simulates(s, r)
    ensures s.Linked() && Simulates(T.InsertEntry(s, k, e, hash), Insert(r, k, e, hash))
  {
    hide Simulates, T.Update, Touch, T.InsertNew, Move, Admit, Lose, Size, Oldest, Sketch.Record, T.Entry, WindowSpace;
    hide T.State.Linked;
    LinkedOf(s, r);
    ShelfOf(s, r, k);
    RecordSimulates(s, r, hash(k));
    var s', r' := T.Record(s, hash(k)), r.(accesses := r.accesses + [hash(k)]);
    assert s'.index == s.index;
    if k in s.index { TouchSimulates(s', r', k, e); } else { InsertNewSimulates(s', r', k, e, hash); }
  }

  lemma LookupSimulates<K(!new), V>(s: T.State<K, V>, r: Ref<K, V>, k: K, now: nat, hash: K -> Sketch.Hash)
    requires Simulates(s, r)
    ensures s.Linked() && Simulates(T.Lookup(s, k, now, hash).0, Lookup(r, k, now, hash).0)
    ensures T.Lookup(s, k, now, hash).1 == Lookup(r, k, now, hash).1
  {
    hide Simulates, T.Update, Touch, T.Record, T.Drop, Lose, Gone, T.Entry, T.State.Linked;
    LinkedOf(s, r);
    ShelfOf(s, r, k);
    if k in s.index {
      LoseSimulates(s, r, k);
      GoneWhere(s, r, k);
      HitSimulates(s, r, k, hash);
    }
  }

  lemma HitSimulates<K(!new), V>(s: T.State<K, V>, r: Ref<K, V>, k: K, hash: K -> Sketch.Hash)
    requires s.Linked() && Simulates(s, r) && k in s.index && k in r.dir && T.Entry(s, k).Some?
    requires r.dir[k].item == T.Entry(s, k)
    ensures var e, t := T.Entry(s, k).value, Touch(r.(accesses := r.accesses + [hash(k)]), k, T.Entry(s, k));
            var u := T.Update(T.Record(s, hash(k)), k, e);
            var found := if s.index[k] == T.Window then u.window.entries else u.protect.entries;
            && Simulates(u, t)
            && (k in found <==> !(k in t.dir && t.dir[k].shelf == T.Probation))
            && (k in found ==> found[k] == e)
  {
    hide Simulates, T.Update, Touch, Sketch.Record, T.Entry;
    var s', r', e := T.Record(s, hash(k)), r.(accesses := r.accesses + [hash(k)]), T.Entry(s, k).value;
    RecordSimulates(s, r, hash(k));
    TouchSimulates(s', r', k, e);
    TouchedEntry(s', k, e);
    ShelfOf(T.Update(s', k, e), Touch(r', k, Some(e)), k);
  }

  lemma TouchedEntry<K(!new), V>(s: T.State<K, V>, k: K, e: CacheEntry<V>)
    requires k in s.index && s.protect.Valid()
    ensures var t := T.Update(s, k, e);
            && (s.index[k] == T.Window ==> k in t.window.entries && t.window.entries[k] == e)
            && (s.index[k] != T.Window && k in t.protect.entries ==> t.protect.entries[k] == e)
            && (s.index[k] == T.Window || k in t.protect.entries || k in t.probation.entries)
  {
    hide LinkedMap.Valid;
  }

  lemma {:induction false} ShrinkWindowSimulates<K(!new), V>(s: T.State<K, V>, r: Ref<K, V>)
    requires Simulates(s, r)
    ensures Simulates(T.ShrinkWindow(s), LoseOldest(r, T.Window, s.window.Len() - s.windowCap))
    decreases s.window.Len()
  {
    hide Simulates, Gone, Lose, Oldest, Size, T.PopWindow;
    if s.window.Len() > s.windowCap {
      Sizes(s, r);
      GoneFront(s, r, s.window.order[0]);
      LoseSimulates(s, r, s.window.order[0]);
      PopLens(s);
      ShrinkWindowSimulates(T.PopWindow(s), Lose(r, s.window.order[0]));
    }
  }

  lemma PopLens<K(!new), V>(s: T.State<K, V>)
    ensures s.window.order != [] ==>
              T.PopWindow(s).window.Len() == s.window.Len() - 1 && T.PopWindow(s).windowCap == s.windowCap
    ensures s.protect.order != [] ==>
              T.PopProtected(s).protect.Len() == s.protect.Len() - 1 && T.PopProtected(s).protectedCap == s.protectedCap
    ensures s.probation.order != [] ==>
              && T.Expel(s).probation.Len() == s.probation.Len() - 1 && T.Expel(s).mainCap == s.mainCap
              && T.Expel(s).protect == s.protect
  {
  }

  lemma {:induction false} ShrinkProtectedSimulates<K(!new), V>(s: T.State<K, V>, r: Ref<K, V>)
    requires Simulates(s, r)
    ensures Simulates(T.ShrinkProtected(s), LoseOldest(r, T.Protected, s.protect.Len() - s.protectedCap))
    decreases s.protect.Len()
  {
    hide Simulates, Gone, Lose, Oldest, Size, T.PopProtected;
    if s.protect.Len() > s.protectedCap {
      Sizes(s, r);
      GoneFront(s, r, s.protect.order[0]);
      LoseSimulates(s, r, s.protect.order[0]);
      PopLens(s);
      ShrinkProtectedSimulates(T.PopProtected(s), Lose(r, s.protect.order[0]));
    }
  }

  lemma {:induction false} ShrinkMainSimulates<K(!new), V>(s: T.State<K, V>, r: Ref<K, V>)
    requires Simulates(s, r) && s.Split() && s.protect.Len() <= s.protectedCap
    ensures Simulates(T.ShrinkMain(s),
                      LoseOldest(r, T.Probation, s.probation.Len() + s.protect.Len() - s.mainCap))
    decreases s.probation.Len()
  {
    hide Simulates, Gone, Lose, Oldest, Size;
    if s.probation.Len() + s.protect.Len() > s.mainCap {
      T.GateHasVictim(s);
      Sizes(s, r);
      GoneFront(s, r, s.probation.order[0]);
      LoseSimulates(s, r, s.probation.order[0]);
      PopLens(s);
      ShrinkMainSimulates(T.Expel(s), Lose(r, s.probation.order[0]));
    }
  }

  lemma SetCapsSimulates<K(!new), V>(s: T.State<K, V>, r: Ref<K, V>, n: nat)
    requires Simulates(s, r)
    ensures T.SetCaps(s, n).Split() && Simulates(T.SetCaps(s, n), r.(cap := if n < 2 then 2 else n))
  {
    hide Holds, IndexOf, Stamped, Sketch.RecordAll;
  }

  lemma WindowStep<K(!new), V>(s: T.State<K, V>, r: Ref<K, V>)
    requires Simulates(s, r)
    ensures var t := LoseOldest(r, T.Window, Size(r, T.Window) - WindowSpace(r.cap));
            t.cap == r.cap && Simulates(T.ShrinkWindow(s), t)
  {
    hide *;
    SameCaps(s, r);
    Sizes(s, r);
    ShrinkWindowSimulates(s, r);
    LoseKeepsCap(r, T.Window, s.window.Len() - s.windowCap);
  }

  lemma ProtectedStep<K(!new), V>(s: T.State<K, V>, r: Ref<K, V>)
    requires Simulates(s, r)
    ensures var t := LoseOldest(r, T.Protected, Size(r, T.Protected) - ProtectedSpace(r.cap));
            t.cap == r.cap && Simulates(T.ShrinkProtected(s), t)
  {
    hide Simulates, T.ShrinkProtected, LoseOldest, Size, Oldest, ProtectedSpace;
    SameCaps(s, r);
    Sizes(s, r);
    ShrinkProtectedSimulates(s, r);
    LoseKeepsCap(r, T.Protected, s.protect.Len() - s.protectedCap);
  }

  lemma MainStep<K(!new), V>(s: T.State<K, V>, r: Ref<K, V>)
    requires Simulates(s, r) && s.protect.Len() <= s.protectedCap
    ensures s.Split() && Simulates(T.ShrinkMain(s),
              LoseOldest(r, T.Probation, Size(r, T.Probation) + Size(r, T.Protected) - MainSpace(r.cap)))
  {
    hide Simulates, T.ShrinkMain, LoseOldest, Size, Oldest, MainSpace, ProtectedSpace;
    SplitOf(s, r);
    SameCaps(s, r);
    Sizes(s, r);
    ShrinkMainSimulates(s, r);
  }

  lemma ResizeSimulates<K(!new), V>(s: T.State<K, V>, r: Ref<K, V>, n: nat)
    requires s.Valid() && Simulates(s, r)
    ensures Simulates(T.Resized(s, n), Resize(r, n))
  {
    hide Simulates, T.SetCaps, T.ShrinkWindow, T.ShrinkProtected, T.ShrinkMain, LoseOldest, Size, Oldest,
         WindowSpace, MainSpace, ProtectedSpace, T.State.Valid;
    SetCapsSimulates(s, r, n);
    var s0, t := T.SetCaps(s, n), r.(cap := if n < 2 then 2 else n);
    WindowStep(s0, t);
    var t1 := LoseOldest(t, T.Window, Size(t, T.Window) - WindowSpace(t.cap));
    ProtectedStep(T.ShrinkWindow(s0), t1);
    var t2 := LoseOldest(t1, T.Protected, Size(t1, T.Protected) - ProtectedSpace(t1.cap));
    MainStep(T.ShrinkProtected(T.ShrinkWindow(s0)), t2);
  }

  lemma SplitOf<K(!new), V>(s: T.State<K, V>, r: Ref<K, V>)
    requires Simulates(s, r)
    ensures s.Split()
  {
    hide Listed, Stamped, Sketch.RecordAll;
  }

  lemma {:induction false} LoseKeepsCap<K(!new), V>(r: Ref<K, V>, l: T.Segment, n: int)
    ensures LoseOldest(r, l, n).cap == r.cap
    decreases n
  {
    if n > 0 && Oldest(r.dir, l).Some? { LoseKeepsCap(Lose(r, Oldest(r.dir, l).value), l, n - 1); }
  }

  lemma ClearSimulates<K(!new), V>(s: T.State<K, V>, r: Ref<K, V>)
    requires Simulates(s, r)
    ensures s.counter.Valid() && Simulates(T.Emptied(s), r.(accesses := [], dir := map[]))
  {
    Sketch.ClearedIsNew(r.tableCap, r.accesses);
    hide Sketch.RecordAll, Sketch.Cleared, WindowSpace;
  }

  lemma RemoveSimulates<K(!new), V>(s: T.State<K, V>, r: Ref<K, V>, k: K)
    requires Simulates(s, r)
    ensures Simulates(T.Delete(s, k).0, Lose(r, k)) && T.Delete(s, k).1 == Value(r, k)
  {
    hide Simulates, Gone, Lose, T.Drop, T.Entry;
    ShelfOf(s, r, k);
    GoneWhere(s, r, k);
    LoseSimulates(s, r, k);
  }

  lemma StepSimulates<K(!new), V>(s: T.State<K, V>, r: Ref<K, V>, ev: Event<K, V>, hash: K -> Sketch.Hash)
    requires s.Valid() && Simulates(s, r)
    ensures Simulates(T.Step(s, ev, hash).0, Step(r, ev, hash).0) && T.Step(s, ev, hash).1 == Step(r, ev, hash).1
  {
    hide Simulates, T.InsertEntry, Insert, T.Lookup, Lookup, T.Delete, Lose, T.Resized, Resize, T.Emptied, Value;
    match ev.op {
      case Put(k, _) => InsertSimulates(s, r, k, ev.Entry(), hash);
      case PutWithTtl(k, _, _) => InsertSimulates(s, r, k, ev.Entry(), hash);
      case Get(k) => LookupSimulates(s, r, k, ev.now, hash);
      case Remove(k) => RemoveSimulates(s, r, k);
      case Clear => ClearSimulates(s, r);
      case Resize(n) => ResizeSimulates(s, r, n);
    }
  }

  lemma {:induction false} RunSimulates<K(!new), V>(cap: nat, evs: seq<Event<K, V>>, hash: K -> Sketch.Hash)
    ensures Simulates(T.Run(cap, evs, hash), Run(cap, evs, hash))
    decreases |evs|
  {
    hide Step, T.Step, Simulates;
    if evs == [] {
      NewSimulates<K, V>(cap);
    } else {
      var before := evs[..|evs| - 1];
      RunSimulates<K, V>(cap, before, hash);
      StepSimulates(T.Run(cap, before, hash), Run(cap, before, hash), evs[|evs| - 1], hash);
    }
  }

  lemma NewSimulates<K(!new), V>(cap: nat)
    ensures var c := if cap < 2 then 2 else cap;
            Simulates(T.New<K, V>(cap), Ref(c, c, [], T.Seed(c), 0, map[]))
  {
    hide Sketch.NewCounter, T.Seed;
  }

  /** After every run, for every hash function, the next call of whatever kind is answered as the reference
      answers it, both hold the same keys in the same segments with the same entries, and the frequency tables
      are those of the accesses since the last clear. */
  lemma RefinesReference<K(!new), V>(
    cap: nat, evs: seq<Event<K, V>>, ev: Event<K, V>, k: K, hash: K -> Sketch.Hash)
    ensures var s, r := T.Run(cap, evs, hash), Run(cap, evs, hash);
            && T.Step(s, ev, hash).1 == Step(r, ev, hash).1
            && (k in s.window.entries <==> k in r.dir && r.dir[k].shelf == T.Window)
            && (k in s.probation.entries <==> k in r.dir && r.dir[k].shelf == T.Probation)
            && (k in s.protect.entries <==> k in r.dir && r.dir[k].shelf == T.Protected)
            && (k in r.dir ==> r.dir[k].item == T.Entry(s, k))
            && s.counter == Sketch.RecordAll(r.tableCap, r.accesses)
  {
    hide Step, T.Step, Run, T.Run, Simulates, T.Entry, WindowSpace;
    RunSimulates<K, V>(cap, evs, hash);
    var s, r := T.Run(cap, evs, hash), Run(cap, evs, hash);
    StepSimulates(s, r, ev, hash);
    ShelfOf(s, r, k);
    SameCaps(s, r);
  }

  // ---------------------------------------------------------------------
  // The frequency table of a run
  // ---------------------------------------------------------------------

  /** What an event adds to the accesses: every put does, and every get whose key is cached and not overdue; a
      clear starts afresh. */
  ghost function AccessStep<K(!new), V>(
    so: seq<Sketch.Hash>, s: T.State<K, V>, ev: Event<K, V>, hash: K -> Sketch.Hash): seq<Sketch.Hash>
  {
    match ev.op
    case Put(k, _) => so + [hash(k)]
    case PutWithTtl(k, _, _) => so + [hash(k)]
    case Get(k) =>
      var entry := T.Entry(s, k);
      if entry.Some? && Serves(entry, entry.value.value, ev.now) then so + [hash(k)] else so
    case Remove(_) => so
    case Clear => []
    case Resize(_) => so
  }

  /** The accesses of a run, read off its events. */
  ghost function Accesses<K(!new), V>(cap: nat, evs: seq<Event<K, V>>, hash: K -> Sketch.Hash): seq<Sketch.Hash> {
    if evs == [] then []
    else
      var before := evs[..|evs| - 1];
      AccessStep(Accesses(cap, before, hash), T.Run(cap, before, hash), evs[|evs| - 1], hash)
  }

  lemma MoveAccesses<K(!new), V>(r: Ref<K, V>, k: K, to: T.Segment, item: Option<CacheEntry<V>>)
    ensures Move(r, k, to, item).accesses == r.accesses && Move(r, k, to, item).tableCap == r.tableCap
  {
  }

  lemma TouchAccesses<K(!new), V>(r: Ref<K, V>, k: K, item: Option<CacheEntry<V>>)
    requires k in r.dir
    ensures Touch(r, k, item).accesses == r.accesses && Touch(r, k, item).tableCap == r.tableCap
  {
    hide Move, Size, Oldest, ProtectedSpace;
    MoveAccesses(r, k, T.Window, item);
    MoveAccesses(r, k, T.Protected, item);
    var t := Move(r, k, T.Protected, item);
    var oldest := Oldest(t.dir, T.Protected);
    if oldest.Some? { MoveAccesses(t, oldest.value, T.Probation, t.dir[oldest.value].item); }
  }

  lemma AdmitAccesses<K(!new), V>(r: Ref<K, V>, k: K, item: Option<CacheEntry<V>>, hash: K -> Sketch.Hash)
    ensures Admit(r, k, item, hash).accesses == r.accesses && Admit(r, k, item, hash).tableCap == r.tableCap
  {
    hide Estimate, T.Xorshift, Size, Oldest, MainSpace;
  }

  lemma InsertAccesses<K(!new), V>(r: Ref<K, V>, k: K, e: CacheEntry<V>, hash: K -> Sketch.Hash)
    ensures Insert(r, k, e, hash).accesses == r.accesses + [hash(k)] && Insert(r, k, e, hash).tableCap == r.tableCap
  {
    var seen := r.(accesses := r.accesses + [hash(k)]);
    if k in r.dir { TouchAccesses(seen, k, Some(e)); }
    var t := Move(seen, k, T.Window, Some(e));
    var oldest := Oldest(t.dir, T.Window);
    if oldest.Some? { AdmitAccesses(Lose(t, oldest.value), oldest.value, t.dir[oldest.value].item, hash); }
    hide Touch, Admit;
  }

  lemma {:induction false} LoseAccesses<K(!new), V>(r: Ref<K, V>, l: T.Segment, n: int)
    ensures LoseOldest(r, l, n).accesses == r.accesses && LoseOldest(r, l, n).tableCap == r.tableCap
    decreases n
  {
    if n > 0 && Oldest(r.dir, l).Some? { LoseAccesses(Lose(r, Oldest(r.dir, l).value), l, n - 1); }
  }

  lemma ResizeAccesses<K(!new), V>(r: Ref<K, V>, n: nat)
    ensures Resize(r, n).accesses == r.accesses && Resize(r, n).tableCap == r.tableCap
  {
    hide LoseOldest, Size, WindowSpace;
    var t := r.(cap := if n < 2 then 2 else n);
    var t1 := LoseOldest(t, T.Window, Size(t, T.Window) - WindowSpace(t.cap));
    var t2 := LoseOldest(t1, T.Protected, Size(t1, T.Protected) - ProtectedSpace(t.cap));
    LoseAccesses(t, T.Window, Size(t, T.Window) - WindowSpace(t.cap));
    LoseAccesses(t1, T.Protected, Size(t1, T.Protected) - ProtectedSpace(t.cap));
    LoseAccesses(t2, T.Probation, Size(t2, T.Probation) + Size(t2, T.Protected) - MainSpace(t.cap));
  }

  lemma LookupAccesses<K(!new), V>(r: Ref<K, V>, k: K, now: nat, hash: K -> Sketch.Hash)
    ensures var t := Lookup(r, k, now, hash).0;
            && t.accesses == (if k in r.dir && !Overdue(r, k, now) then r.accesses + [hash(k)] else r.accesses)
            && t.tableCap == r.tableCap
  {
    if k in r.dir { TouchAccesses(r.(accesses := r.accesses + [hash(k)]), k, r.dir[k].item); }
    hide Touch;
  }

  lemma StepAccesses<K(!new), V>(s: T.State<K, V>, r: Ref<K, V>, ev: Event<K, V>, hash: K -> Sketch.Hash)
    requires Simulates(s, r)
    ensures Step(r, ev, hash).0.accesses == AccessStep(r.accesses, s, ev, hash)
    ensures Step(r, ev, hash).0.tableCap == r.tableCap
  {
    hide Insert, Lookup, Resize, Lose, T.Entry, Simulates, Value;
    match ev.op {
      case Put(k, _) => InsertAccesses(r, k, ev.Entry(), hash);
      case PutWithTtl(k, _, _) => InsertAccesses(r, k, ev.Entry(), hash);
      case Get(k) =>
        ShelfOf(s, r, k);
        LookupAccesses(r, k, ev.now, hash);
      case Remove(k) => LoseKeeps(r, k);
      case Clear =>
      case Resize(n) => ResizeAccesses(r, n);
    }
  }

  lemma {:induction false} AccessesRead<K(!new), V>(cap: nat, evs: seq<Event<K, V>>, hash: K -> Sketch.Hash)
    ensures var r := Run(cap, evs, hash);
            r.accesses == Accesses(cap, evs, hash) && r.tableCap == if cap < 2 then 2 else cap
    decreases |evs|
  {
    hide Step, AccessStep, Simulates;
    if evs != [] {
      var before := evs[..|evs| - 1];
      AccessesRead(cap, before, hash);
      RunSimulates(cap, before, hash);
      StepAccesses(T.Run(cap, before, hash), Run(cap, before, hash), evs[|evs| - 1], hash);
    }
  }

  lemma LoseKeeps<K(!new), V>(r: Ref<K, V>, k: K)
    ensures Lose(r, k).accesses == r.accesses && Lose(r, k).tableCap == r.tableCap
  {
  }

  /** In every run the frequency tables are those of its accesses, no more and no less. */
  lemma TablesAreAccesses<K(!new), V>(cap: nat, evs: seq<Event<K, V>>, hash: K -> Sketch.Hash)
    ensures T.Run(cap, evs, hash).counter == Sketch.RecordAll(if cap < 2 then 2 else cap, Accesses(cap, evs, hash))
  {
    AccessesRead(cap, evs, hash);
    RunSimulates(cap, evs, hash);
    hide Run, T.Run, Accesses, Simulates;
    SameCaps(T.Run(cap, evs, hash), Run(cap, evs, hash));
  }

  /** A put into a cache with a full window and a full main space, after any run: of the oldest window key and the
      oldest probation key the one with the higher estimate over all accesses stays and the other goes; and an
      estimate is never below the accesses counted, the first one aside, with the agings. */
  lemma PutAdmitsFrequent<K(!new), V>(cap: nat, evs: seq<Event<K, V>>, k: K, e: CacheEntry<V>, hash: K -> Sketch.Hash)
    requires var s := T.Run(cap, evs, hash);
             k !in s.index && s.window.Len() == s.windowCap && s.probation.Len() + s.protect.Len() == s.mainCap
    ensures var s, c := T.Run(cap, evs, hash), if cap < 2 then 2 else cap;
            var t, all := T.InsertEntry(s, k, e, hash), Accesses(cap, evs, hash) + [hash(k)];
            && s.window.order != [] && s.probation.order != []
            && var x, v := s.window.order[0], s.probation.order[0];
            && (x in t.index <==> v !in t.index)
            && (Estimate(c, all, hash(x)) > Estimate(c, all, hash(v)) ==> x in t.index)
            && (Estimate(c, all, hash(x)) < Estimate(c, all, hash(v)) ==> v in t.index)
            && Sketch.Expected(c, all, hash(x)) <= Estimate(c, all, hash(x))
            && Sketch.Expected(c, all, hash(v)) <= Estimate(c, all, hash(v))
  {
    var s, c, all := T.Run(cap, evs, hash), if cap < 2 then 2 else cap, Accesses(cap, evs, hash) + [hash(k)];
    TablesAreAccesses(cap, evs, hash);
    assert all[..|all| - 1] == Accesses(cap, evs, hash);
    assert T.Record(s, hash(k)).counter == Sketch.RecordAll(c, all);
    hide T.Run, Accesses;
    T.RecordValid(s, hash(k));
    T.GateHasVictim(s);
    PutRunsGate(T.Record(s, hash(k)), k, e, hash);
    Sketch.FrequencyAtLeast(c, all, hash(s.window.order[0]));
    Sketch.FrequencyAtLeast(c, all, hash(s.probation.order[0]));
    hide Sketch.RecordAll, Sketch.Record, T.InsertNew, Sketch.Expected, Sketch.Estimate;
  }

  lemma PutRunsGate<K(!new), V>(s: T.State<K, V>, k: K, e: CacheEntry<V>, hash: K -> Sketch.Hash)
    requires s.Valid() && k !in s.index && s.window.Len() == s.windowCap
    requires s.probation.Len() + s.protect.Len() == s.mainCap
    ensures s.window.order != [] && s.probation.order != []
    ensures var t, x, v := T.InsertNew(s, k, e, hash), s.window.order[0], s.probation.order[0];
            && (x in t.index <==> v !in t.index)
            && (T.Frequency(s, hash(x)) > T.Frequency(s, hash(v)) ==> x in t.index)
            && (T.Frequency(s, hash(x)) < T.Frequency(s, hash(v)) ==> v in t.index)
  {
    T.GateHasVictim(s);
    var x := s.window.order[0];
    var u := s.(index := s.index[k := T.Window], window := s.window.Insert(k, e));
    T.OpenShape(s, k, e);
    T.FrontIsOlder(s.window.order, k);
    T.PopWindowShape(u, s.window.Len() + 1, s.probation.Len(), s.protect.Len());
    var p := T.PopWindow(u);
    assert p.Valid() && p.probation == s.probation && p.counter == s.counter && u.window.order[0] == x;
    T.GateFavoursFrequent(p, x, u.window.entries[x], hash);
    hide T.Gate, T.Frequency, LinkedMap.Insert, T.State.Valid, T.Shape;
  }
}
