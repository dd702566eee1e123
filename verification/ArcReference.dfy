/** ARC without lists: one directory in which each key carries its shelf and the moment it was put there.
    A key is seen once or again, live or as a ghost; whoever has to go is searched for.  The cache of module
    `Arc` gives the same answers in every run. */
module ArcReference {
  import opened LinkedMaps
  import opened Caches
  import opened Shelves
  import Arc

  datatype Shelf = Once | Again | OnceGhost | AgainGhost

  type Dir<K(!new), V> = map<K, Slot<Shelf, Option<CacheEntry<V>>>>

  /** `target` is the share of the capacity meant for keys seen once. */
  datatype Ref<K(==, !new), V> = Ref(cap: nat, target: nat, clock: nat, dir: Dir<K, V>)

  ghost function Size<K(!new), V>(r: Ref<K, V>, l: Shelf): nat { |On(r.dir, l)| }

  ghost function Live<K(!new), V>(r: Ref<K, V>): nat { Size(r, Once) + Size(r, Again) }

  ghost predicate IsLive<K(!new), V>(r: Ref<K, V>, k: K) {
    k in r.dir && (r.dir[k].shelf == Once || r.dir[k].shelf == Again)
  }

  /** The value of a live key, expired or not. */
  ghost function Value<K(!new), V>(r: Ref<K, V>, k: K): Option<V> {
    if IsLive(r, k) && r.dir[k].item.Some? then Some(r.dir[k].item.value.value) else None
  }

  ghost predicate Overdue<K(!new), V>(r: Ref<K, V>, k: K, now: nat) {
    && IsLive(r, k) && r.dir[k].item.Some? && r.dir[k].item.value.expiresAt.Some?
    && r.dir[k].item.value.expiresAt.value <= now
  }

  ghost function Move<K(!new), V>(r: Ref<K, V>, k: K, to: Shelf, item: Option<CacheEntry<V>>): Ref<K, V> {
    r.(clock := r.clock + 1, dir := r.dir[k := Slot(to, item, r.clock)])
  }

  ghost function Lose<K(!new), V>(r: Ref<K, V>, k: K): Ref<K, V> {
    r.(dir := r.dir - {k})
  }

  ghost function LoseOldest<K(!new), V>(r: Ref<K, V>, l: Shelf): Ref<K, V> {
    match Oldest(r.dir, l)
    case None => r
    case Some(v) => Lose(r, v)
  }

  /** The oldest key of a live shelf becomes a ghost; a directory beyond twice the capacity loses an older
      ghost of the same kind for it. */
  ghost function Demote<K(!new), V>(r: Ref<K, V>, from: Shelf, ghosts: Shelf): Ref<K, V> {
    match Oldest(r.dir, from)
    case None => r
    case Some(v) => Move(if |r.dir| > 2 * r.cap then LoseOldest(r, ghosts) else r, v, ghosts, None)
  }

  /** Keys seen once give way when they have their share, or when there are no others. */
  ghost function Replace<K(!new), V>(r: Ref<K, V>): Ref<K, V> {
    if Size(r, Again) == 0 || (Size(r, Once) > 0 && Size(r, Once) >= r.target) then Demote(r, Once, OnceGhost)
    else Demote(r, Again, AgainGhost)
  }

  ghost function ReplaceTimes<K(!new), V>(r: Ref<K, V>, n: nat): Ref<K, V>
    decreases n
  {
    if n == 0 then r else ReplaceTimes(Replace(r), n - 1)
  }

  /** How many times the ghosts of the kind that was missed fit into those of the other kind; at least 1. */
  ghost function Stride(missed: nat, other: nat): nat {
    if missed == 0 then (if other == 0 then 1 else other)
    else if other < missed then 1 else other / missed
  }

  ghost function Raised(target: nat, stride: nat, cap: nat): nat {
    if target + stride > cap then cap else target + stride
  }

  ghost function Lowered(target: nat, stride: nat): nat {
    if stride > target then 0 else target - stride
  }

  /** The least valuable ghost: the oldest of those seen again, or else of those seen once. */
  ghost function LoseGhost<K(!new), V>(r: Ref<K, V>): Ref<K, V> {
    LoseOldest(r, if Size(r, AgainGhost) > 0 then AgainGhost else OnceGhost)
  }

  /** Room for a key that the directory does not know. */
  ghost function Room<K(!new), V>(r: Ref<K, V>): Ref<K, V> {
    if Live(r) >= r.cap && Size(r, Once) + Size(r, OnceGhost) == r.cap then
      if Size(r, Once) > 0 then Replace(r) else LoseOldest(r, OnceGhost)
    else
      var t := if |r.dir| >= 2 * r.cap then LoseGhost(r) else r;
      if Live(r) >= r.cap then Replace(t) else t
  }

  /** A ghost comes back to life among the keys seen again. */
  ghost function Revive<K(!new), V>(r: Ref<K, V>, k: K, target: nat, e: CacheEntry<V>): Ref<K, V> {
    var t := Lose(r, k).(target := target);
    Move(if Live(t) >= t.cap then Replace(t) else t, k, Again, Some(e))
  }

  ghost function Insert<K(!new), V>(r: Ref<K, V>, k: K, e: CacheEntry<V>): (Ref<K, V>, Option<V>) {
    if k !in r.dir then (Move(Room(r), k, Once, Some(e)), None)
    else match r.dir[k].shelf
      case Once => (Move(r, k, Again, Some(e)), Value(r, k))
      case Again => (Move(r, k, Again, Some(e)), Value(r, k))
      case OnceGhost =>
        (Revive(r, k, Raised(r.target, Stride(Size(Lose(r, k), OnceGhost), Size(r, AgainGhost)), r.cap), e), None)
      case AgainGhost =>
        (Revive(r, k, Lowered(r.target, Stride(Size(Lose(r, k), AgainGhost), Size(r, OnceGhost))), e), None)
  }

  ghost function Lookup<K(!new), V>(r: Ref<K, V>, k: K, now: nat): (Ref<K, V>, Option<V>) {
    if k !in r.dir then (r, None)
    else if Overdue(r, k, now) then (Lose(r, k), None)
    else match r.dir[k].shelf
      case Once => (Move(r, k, Again, r.dir[k].item), Value(r, k))
      case Again => (Move(r, k, Again, r.dir[k].item), Value(r, k))
      case OnceGhost =>
        (Replace(r.(target := Raised(r.target, Stride(Size(r, OnceGhost), Size(r, AgainGhost)), r.cap))), None)
      case AgainGhost =>
        (Replace(r.(target := Lowered(r.target, Stride(Size(r, AgainGhost), Size(r, OnceGhost))))), None)
  }

  ghost function Step<K(!new), V>(r: Ref<K, V>, ev: Event<K, V>): (Ref<K, V>, Option<V>) {
    match ev.op
    case Put(k, v) => Insert(r, k, CacheEntry(v, None))
    case PutWithTtl(k, v, ttl) => Insert(r, k, CacheEntry(v, Some(ev.now + ttl)))
    case Get(k) => Lookup(r, k, ev.now)
    case Remove(k) => (Lose(r, k), Value(r, k))
    case Clear => (r.(target := 0, dir := map[]), None)
    case Resize(n) =>
      var cap := if n == 0 then 1 else n;
      var t := r.(cap := cap, target := if r.target > cap then cap else r.target);
      (ReplaceTimes(t, if Live(r) > cap then Live(r) - cap else 0), None)
  }

  ghost function Run<K(!new), V>(cap: nat, evs: seq<Event<K, V>>): Ref<K, V> {
    if evs == [] then Ref(if cap == 0 then 1 else cap, 0, 0, map[])
    else Step(Run(cap, evs[..|evs| - 1]), evs[|evs| - 1]).0
  }

  // ---------------------------------------------------------------------
  // Simulation
  // ---------------------------------------------------------------------

  ghost predicate Listed<K(!new), V>(s: Arc.State<K, V>, dir: Dir<K, V>) {
    Holds(s.t1, dir, Once) && Holds(s.t2, dir, Again) && Lists(s.b1, dir, OnceGhost) && Lists(s.b2, dir, AgainGhost)
  }

  ghost predicate Simulates<K(!new), V>(s: Arc.State<K, V>, r: Ref<K, V>) {
    Listed(s, r.dir) && Stamped(r.dir, r.clock) && s.p == r.target <= s.cap == r.cap && 1 <= s.cap
  }

  lemma SimulatesValid<K(!new), V>(s: Arc.State<K, V>, r: Ref<K, V>)
    requires Simulates(s, r)
    ensures s.Valid()
    ensures forall k :: k in r.dir <==> k in s.t1.entries || k in s.t2.entries || k in s.b1 || k in s.b2
    ensures forall k :: k in s.t1.entries ==>
              k in r.dir && r.dir[k].shelf == Once && r.dir[k].item == Some(s.t1.entries[k])
    ensures forall k :: k in s.t2.entries ==>
              k in r.dir && r.dir[k].shelf == Again && r.dir[k].item == Some(s.t2.entries[k])
    ensures forall k :: k in s.b1 ==> k in r.dir && r.dir[k].shelf == OnceGhost
    ensures forall k :: k in s.b2 ==> k in r.dir && r.dir[k].shelf == AgainGhost
  {
    forall k | k in r.dir ensures k in s.t1.entries || k in s.t2.entries || k in s.b1 || k in s.b2 {
      match r.dir[k].shelf {
        case Once => assert k in s.t1.order;
        case Again => assert k in s.t2.order;
        case OnceGhost => assert k in s.b1;
        case AgainGhost => assert k in s.b2;
      }
    }
  }

  lemma Sizes<K(!new), V>(s: Arc.State<K, V>, r: Ref<K, V>)
    requires Simulates(s, r)
    ensures Size(r, Once) == s.t1.Len() && Size(r, Again) == s.t2.Len()
    ensures Size(r, OnceGhost) == |s.b1| && Size(r, AgainGhost) == |s.b2|
    ensures |r.dir| == s.DirectoryLen() && Live(r) == s.Len()
    ensures Oldest(r.dir, Once) == if s.t1.order == [] then None else Some(s.t1.order[0])
    ensures Oldest(r.dir, Again) == if s.t2.order == [] then None else Some(s.t2.order[0])
    ensures Oldest(r.dir, OnceGhost) == if s.b1 == [] then None else Some(s.b1[0])
    ensures Oldest(r.dir, AgainGhost) == if s.b2 == [] then None else Some(s.b2[0])
  {
    hide Lists, Stamped, Oldest;
    CountListed(s.t1.order, r.dir, Once);
    CountListed(s.t2.order, r.dir, Again);
    CountListed(s.b1, r.dir, OnceGhost);
    CountListed(s.b2, r.dir, AgainGhost);
    OldestListed(s.t1.order, r.dir, Once);
    OldestListed(s.t2.order, r.dir, Again);
    OldestListed(s.b1, r.dir, OnceGhost);
    OldestListed(s.b2, r.dir, AgainGhost);
    FourShelves(r.dir);
  }

  lemma FourShelves<K(!new), V>(dir: Dir<K, V>)
    ensures |dir| == |On(dir, Once)| + |On(dir, Again)| + |On(dir, OnceGhost)| + |On(dir, AgainGhost)|
  {
    var a, b, c, d := On(dir, Once), On(dir, Again), On(dir, OnceGhost), On(dir, AgainGhost);
    forall k | k in dir ensures k in a + b + c + d {
      match dir[k].shelf {
        case Once => assert k in a;
        case Again => assert k in b;
        case OnceGhost => assert k in c;
        case AgainGhost => assert k in d;
      }
    }
    assert dir.Keys == a + b + c + d;
    assert a !! b && (a + b) !! c && (a + b + c) !! d;
    assert |a + b| == |a| + |b| && |a + b + c| == |a + b| + |c| && |a + b + c + d| == |a + b + c| + |d|;
  }

  /** The lists without a key. */
  ghost function Gone<K(!new), V>(s: Arc.State<K, V>, k: K): Arc.State<K, V> {
    s.(t1 := s.t1.Remove(k), t2 := s.t2.Remove(k), b1 := Without(s.b1, k), b2 := Without(s.b2, k))
  }

  lemma GoneWhere<K(!new), V>(s: Arc.State<K, V>, k: K)
    requires s.Valid()
    ensures k in s.t1.entries ==> Gone(s, k) == s.(t1 := s.t1.Remove(k))
    ensures k in s.t2.entries ==> Gone(s, k) == s.(t2 := s.t2.Remove(k))
    ensures k in s.b1 ==> Gone(s, k) == s.(b1 := Without(s.b1, k))
    ensures k in s.b2 ==> Gone(s, k) == s.(b2 := Without(s.b2, k))
    ensures !s.Live(k) ==> Gone(s, k) == s.(b1 := Without(s.b1, k), b2 := Without(s.b2, k))
    ensures !s.Live(k) && k !in s.b1 && k !in s.b2 ==> Gone(s, k) == s
  {
    if k !in s.t1.entries { RemoveAbsent(s.t1, k); }
    if k !in s.t2.entries { RemoveAbsent(s.t2, k); }
    if k !in s.b1 { WithoutAbsent(s.b1, k); }
    if k !in s.b2 { WithoutAbsent(s.b2, k); }
    hide LinkedMap.Remove;
  }

  lemma LoseSimulates<K(!new), V>(s: Arc.State<K, V>, r: Ref<K, V>, k: K)
    requires Simulates(s, r)
    ensures Simulates(Gone(s, k), Lose(r, k))
  {
    TakeHeld(s.t1, r.dir, Once, k);
    TakeHeld(s.t2, r.dir, Again, k);
    TakeListed(s.b1, r.dir, OnceGhost, k);
    TakeListed(s.b2, r.dir, AgainGhost, k);
    hide Holds, Lists, LinkedMap.Remove;
  }

  lemma OnceSimulates<K(!new), V>(s: Arc.State<K, V>, r: Ref<K, V>, k: K, e: CacheEntry<V>)
    requires Simulates(s, r)
    ensures Simulates(Gone(s, k).(t1 := s.t1.Insert(k, e)), Move(r, k, Once, Some(e)))
  {
    PlaceHeld(s.t1, r.dir, Once, k, e, r.clock);
    PlaceElsewhere(s.t2, r.dir, Again, k, Once, Some(e), r.clock);
    PlaceListed(s.b1, r.dir, OnceGhost, k, Once, Some(e), r.clock);
    PlaceListed(s.b2, r.dir, AgainGhost, k, Once, Some(e), r.clock);
    hide Holds, Lists, LinkedMap.Remove, LinkedMap.Insert;
  }

  lemma AgainSimulates<K(!new), V>(s: Arc.State<K, V>, r: Ref<K, V>, k: K, e: CacheEntry<V>)
    requires Simulates(s, r)
    ensures Simulates(Gone(s, k).(t2 := s.t2.Insert(k, e)), Move(r, k, Again, Some(e)))
  {
    PlaceElsewhere(s.t1, r.dir, Once, k, Again, Some(e), r.clock);
    PlaceHeld(s.t2, r.dir, Again, k, e, r.clock);
    PlaceListed(s.b1, r.dir, OnceGhost, k, Again, Some(e), r.clock);
    PlaceListed(s.b2, r.dir, AgainGhost, k, Again, Some(e), r.clock);
    hide Holds, Lists, LinkedMap.Remove, LinkedMap.Insert;
  }

  lemma GhostSimulates<K(!new), V>(s: Arc.State<K, V>, r: Ref<K, V>, k: K)
    requires Simulates(s, r)
    ensures Simulates(Gone(s, k).(b1 := Without(s.b1, k) + [k]), Move(r, k, OnceGhost, None))
    ensures Simulates(Gone(s, k).(b2 := Without(s.b2, k) + [k]), Move(r, k, AgainGhost, None))
  {
    PlaceElsewhere(s.t1, r.dir, Once, k, OnceGhost, None, r.clock);
    PlaceElsewhere(s.t2, r.dir, Again, k, OnceGhost, None, r.clock);
    PlaceListed(s.b1, r.dir, OnceGhost, k, OnceGhost, None, r.clock);
    PlaceListed(s.b2, r.dir, AgainGhost, k, OnceGhost, None, r.clock);
    PlaceElsewhere(s.t1, r.dir, Once, k, AgainGhost, None, r.clock);
    PlaceElsewhere(s.t2, r.dir, Again, k, AgainGhost, None, r.clock);
    PlaceListed(s.b1, r.dir, OnceGhost, k, AgainGhost, None, r.clock);
    PlaceListed(s.b2, r.dir, AgainGhost, k, AgainGhost, None, r.clock);
    hide Holds, Lists, LinkedMap.Remove, LinkedMap.Insert;
  }

  /** Forgetting the oldest ghost of either kind. */
  lemma ForgetSimulates<K(!new), V>(s: Arc.State<K, V>, r: Ref<K, V>)
    requires Simulates(s, r)
    ensures Simulates(if s.b1 == [] then s else s.(b1 := s.b1[1..]), LoseOldest(r, OnceGhost))
    ensures Simulates(if s.b2 == [] then s else s.(b2 := s.b2[1..]), LoseOldest(r, AgainGhost))
  {
    SimulatesValid(s, r);
    Sizes(s, r);
    if s.b1 != [] {
      var g := s.b1[0];
      assert g in s.b1;
      FrontWithout(s.b1);
      GoneWhere(s, g);
      LoseSimulates(s, r, g);
    }
    if s.b2 != [] {
      var g := s.b2[0];
      assert g in s.b2;
      FrontWithout(s.b2);
      GoneWhere(s, g);
      LoseSimulates(s, r, g);
    }
    hide Simulates, Lose, Gone, Oldest;
  }

  lemma DropGhostSimulates<K(!new), V>(s: Arc.State<K, V>, r: Ref<K, V>)
    requires Simulates(s, r)
    ensures Simulates(Arc.DropGhost(s), LoseGhost(r))
  {
    Sizes(s, r);
    ForgetSimulates(s, r);
    hide Simulates, LoseOldest, Size, Oldest;
  }

  lemma FrontToGhost<K(!new), V>(s: Arc.State<K, V>, r: Ref<K, V>)
    requires Simulates(s, r)
    ensures s.t1.order != [] ==>
              var v := s.t1.order[0];
              Simulates(s.(t1 := s.t1.PopFront(), b1 := Without(s.b1, v) + [v]), Move(r, v, OnceGhost, None))
    ensures s.t2.order != [] ==>
              var v := s.t2.order[0];
              Simulates(s.(t2 := s.t2.PopFront(), b2 := Without(s.b2, v) + [v]), Move(r, v, AgainGhost, None))
  {
    SimulatesValid(s, r);
    hide Simulates, Move, LinkedMap.Remove, LinkedMap.PopFront, Without;
    if s.t1.order != [] {
      var v := s.t1.order[0];
      assert v in s.t1.order;
      PopIsRemove(s.t1);
      GoneWhere(s, v);
      GhostSimulates(s, r, v);
    }
    if s.t2.order != [] {
      var v := s.t2.order[0];
      assert v in s.t2.order;
      PopIsRemove(s.t2);
      GoneWhere(s, v);
      GhostSimulates(s, r, v);
    }
  }

  lemma DemoteOnceSimulates<K(!new), V>(s: Arc.State<K, V>, r: Ref<K, V>)
    requires Simulates(s, r) && s.t1.order != []
    ensures Simulates(Arc.DemoteT1(s), Demote(r, Once, OnceGhost))
  {
    hide Simulates, Move, LoseOldest, Oldest, Size, Live, Without;
    var full := |r.dir| > 2 * r.cap;
    SameCap(s, r);
    Sizes(s, r);
    ForgetSimulates(s, r);
    FrontToGhost(if full && s.b1 != [] then s.(b1 := s.b1[1..]) else s, if full then LoseOldest(r, OnceGhost) else r);
  }

  lemma DemoteAgainSimulates<K(!new), V>(s: Arc.State<K, V>, r: Ref<K, V>)
    requires Simulates(s, r) && s.t2.order != []
    ensures Simulates(Arc.DemoteT2(s), Demote(r, Again, AgainGhost))
  {
    hide Simulates, Move, LoseOldest, Oldest, Size, Live, Without;
    var full := |r.dir| > 2 * r.cap;
    SameCap(s, r);
    Sizes(s, r);
    ForgetSimulates(s, r);
    FrontToGhost(if full && s.b2 != [] then s.(b2 := s.b2[1..]) else s, if full then LoseOldest(r, AgainGhost) else r);
  }

  lemma SameCap<K(!new), V>(s: Arc.State<K, V>, r: Ref<K, V>)
    requires Simulates(s, r)
    ensures s.cap == r.cap >= 1 && s.p == r.target <= s.cap
  {
  }

  lemma ReplaceSimulates<K(!new), V>(s: Arc.State<K, V>, r: Ref<K, V>)
    requires Simulates(s, r)
    ensures Simulates(Arc.Replace(s), Replace(r))
  {
    hide Simulates, Arc.DemoteT1, Arc.DemoteT2, Size, Live, Oldest;
    SameCap(s, r);
    Sizes(s, r);
    if s.t1.order != [] { DemoteOnceSimulates(s, r); }
    if s.t2.order != [] { DemoteAgainSimulates(s, r); }
  }

  lemma StrideIs(missed: nat, other: nat)
    ensures Stride(missed, other) == Arc.Max(other / Arc.Max(missed, 1), 1)
  {
  }

  lemma RaisedIs(target: nat, missed: nat, other: nat, cap: nat)
    ensures Raised(target, Stride(missed, other), cap) == Arc.Raise(target, missed, other, cap) <= cap
  {
    StrideIs(missed, other);
    hide Stride;
  }

  lemma LoweredIs(target: nat, missed: nat, other: nat)
    ensures Lowered(target, Stride(missed, other)) == Arc.Lower(target, other, missed) <= target
  {
    StrideIs(missed, other);
    hide Stride;
  }

  lemma RoomSimulates<K(!new), V>(s: Arc.State<K, V>, r: Ref<K, V>)
    requires Simulates(s, r)
    ensures Simulates(Arc.AdmitMiss(s), Room(r))
  {
    hide Arc.Replace, Replace, Arc.DropGhost, LoseGhost, LoseOldest, Size, Oldest, Listed;
    Sizes(s, r);
    ReplaceSimulates(s, r);
    DropGhostSimulates(s, r);
    ReplaceSimulates(Arc.DropGhost(s), LoseGhost(r));
    ForgetSimulates(s, r);
    LoseGhostCap(r);
  }

  lemma LoseGhostCap<K(!new), V>(r: Ref<K, V>)
    ensures LoseGhost(r).cap == r.cap
  {
  }

  lemma ReviveSimulates<K(!new), V>(s: Arc.State<K, V>, r: Ref<K, V>, k: K, target: nat, e: CacheEntry<V>)
    requires Simulates(s, r) && !s.Live(k) && target <= s.cap
    ensures var s' := Arc.MakeRoom(Gone(s, k).(p := target));
            Simulates(s'.(t2 := s'.t2.Insert(k, e)), Revive(r, k, target, e))
  {
    hide Simulates, Move, Size, Live, Replace, Arc.Replace, Arc.MakeRoom;
    GoneReady(s, r, k, target);
    RoomThenAgain(Gone(s, k).(p := target), Lose(r, k).(target := target), k, e);
  }

  lemma GoneReady<K(!new), V>(s: Arc.State<K, V>, r: Ref<K, V>, k: K, target: nat)
    requires Simulates(s, r) && target <= s.cap
    ensures var g := Gone(s, k).(p := target);
            Simulates(g, Lose(r, k).(target := target)) && !g.Live(k) && k !in g.b1 && k !in g.b2
  {
    LoseSimulates(s, r, k);
    hide Listed, Stamped;
  }

  lemma RoomThenAgain<K(!new), V>(g: Arc.State<K, V>, t: Ref<K, V>, k: K, e: CacheEntry<V>)
    requires Simulates(g, t) && !g.Live(k) && k !in g.b1 && k !in g.b2
    ensures var s' := Arc.MakeRoom(g);
            Simulates(s'.(t2 := s'.t2.Insert(k, e)),
                      Move(if Live(t) >= t.cap then Replace(t) else t, k, Again, Some(e)))
  {
    hide Simulates, Replace, Arc.Replace, Gone, Move, Size, Oldest, Arc.State.Valid, LinkedMap.Insert;
    Sizes(g, t);
    SameCap(g, t);
    ReplaceSimulates(g, t);
    SimulatesValid(g, t);
    Arc.ReplaceValid(g, k);
    GoneWhere(Arc.MakeRoom(g), k);
    AgainSimulates(Arc.MakeRoom(g), if Live(t) >= t.cap then Replace(t) else t, k, e);
  }

  // ---------------------------------------------------------------------
  // Calls
  // ---------------------------------------------------------------------

  lemma ShelfOf<K(!new), V>(s: Arc.State<K, V>, r: Ref<K, V>, k: K)
    requires Simulates(s, r)
    ensures k in s.t1.entries <==> k in r.dir && r.dir[k].shelf == Once
    ensures k in s.t2.entries <==> k in r.dir && r.dir[k].shelf == Again
    ensures k in s.b1 <==> k in r.dir && r.dir[k].shelf == OnceGhost
    ensures k in s.b2 <==> k in r.dir && r.dir[k].shelf == AgainGhost
    ensures k in s.t1.entries ==> r.dir[k].item == Some(s.t1.entries[k])
    ensures k in s.t2.entries ==> r.dir[k].item == Some(s.t2.entries[k])
    ensures Value(r, k) == if k in s.t1.entries then Some(s.t1.entries[k].value)
                           else if k in s.t2.entries then Some(s.t2.entries[k].value) else None
  {
  }

  lemma InsertLive<K(!new), V>(s: Arc.State<K, V>, r: Ref<K, V>, k: K, e: CacheEntry<V>)
    requires Simulates(s, r) && s.Live(k)
    ensures Simulates(Arc.InsertEntry(s, k, e).0, Insert(r, k, e).0)
    ensures Arc.InsertEntry(s, k, e).1 == Insert(r, k, e).1
  {
    SimulatesValid(s, r);
    hide Simulates, Move, Gone, Value, LinkedMap.Insert, LinkedMap.Remove, Arc.State.Valid, Revive, Room;
    ShelfOf(s, r, k);
    GoneWhere(s, k);
    AgainSimulates(s, r, k, e);
    InsertRemoved(s.t2, k, e);
  }

  lemma InsertRemoved<K(!new), E>(m: LinkedMap<K, E>, k: K, e: E)
    ensures m.Remove(k).Insert(k, e) == m.Insert(k, e)
  {
    WithoutAbsent(Without(m.order, k), k);
  }

  lemma InsertOnceGhost<K(!new), V>(s: Arc.State<K, V>, r: Ref<K, V>, k: K, e: CacheEntry<V>)
    requires Simulates(s, r) && !s.Live(k) && k in s.b1
    ensures Simulates(Arc.InsertEntry(s, k, e).0, Insert(r, k, e).0)
    ensures Arc.InsertEntry(s, k, e).1 == Insert(r, k, e).1
  {
    SimulatesValid(s, r);
    hide Simulates, Move, Value, LinkedMap.Insert, LinkedMap.Remove, Arc.State.Valid, Revive, Room, Arc.MakeRoom, Size,
         Gone, Stride, Raised, Lowered, Arc.Raise, Arc.Lower, Without;
    ShelfOf(s, r, k);
    GoneWhere(s, k);
    GoneSizes(s, r, k);
    SameCap(s, r);
    var b1 := Without(s.b1, k);
    RaisedIs(s.p, |b1|, |s.b2|, s.cap);
    ReviveSimulates(s, r, k, Arc.Raise(s.p, |b1|, |s.b2|, s.cap), e);
  }

  lemma InsertAgainGhost<K(!new), V>(s: Arc.State<K, V>, r: Ref<K, V>, k: K, e: CacheEntry<V>)
    requires Simulates(s, r) && !s.Live(k) && k !in s.b1 && k in s.b2
    ensures Simulates(Arc.InsertEntry(s, k, e).0, Insert(r, k, e).0)
    ensures Arc.InsertEntry(s, k, e).1 == Insert(r, k, e).1
  {
    SimulatesValid(s, r);
    hide Simulates, Move, Value, LinkedMap.Insert, LinkedMap.Remove, Arc.State.Valid, Revive, Room, Arc.MakeRoom, Size,
         Gone, Stride, Raised, Lowered, Arc.Raise, Arc.Lower, Without;
    ShelfOf(s, r, k);
    GoneWhere(s, k);
    GoneSizes(s, r, k);
    SameCap(s, r);
    var b2 := Without(s.b2, k);
    LoweredIs(s.p, |b2|, |s.b1|);
    ReviveSimulates(s, r, k, Arc.Lower(s.p, |s.b1|, |b2|), e);
  }

  lemma GoneSizes<K(!new), V>(s: Arc.State<K, V>, r: Ref<K, V>, k: K)
    requires Simulates(s, r)
    ensures Size(r, OnceGhost) == |s.b1| && Size(r, AgainGhost) == |s.b2|
    ensures Size(Lose(r, k), OnceGhost) == |Without(s.b1, k)| && Size(Lose(r, k), AgainGhost) == |Without(s.b2, k)|
  {
    hide Simulates, Lose, Size, Oldest, Without;
    Sizes(s, r);
    LoseSimulates(s, r, k);
    Sizes(Gone(s, k), Lose(r, k));
  }

  lemma InsertUnknown<K(!new), V>(s: Arc.State<K, V>, r: Ref<K, V>, k: K, e: CacheEntry<V>)
    requires Simulates(s, r) && !s.Live(k) && k !in s.b1 && k !in s.b2
    ensures Simulates(Arc.InsertEntry(s, k, e).0, Insert(r, k, e).0)
    ensures Arc.InsertEntry(s, k, e).1 == Insert(r, k, e).1
  {
    SimulatesValid(s, r);
    hide Simulates, Move, Gone, LinkedMap.Insert, LinkedMap.Remove, Room, Arc.AdmitMiss, Arc.State.Valid;
    RoomSimulates(s, r);
    Arc.AdmitMissValid(s, k);
    GoneWhere(Arc.AdmitMiss(s), k);
    OnceSimulates(Arc.AdmitMiss(s), Room(r), k, e);
  }

  lemma InsertSimulates<K(!new), V>(s: Arc.State<K, V>, r: Ref<K, V>, k: K, e: CacheEntry<V>)
    requires Simulates(s, r)
    ensures Simulates(Arc.InsertEntry(s, k, e).0, Insert(r, k, e).0)
    ensures Arc.InsertEntry(s, k, e).1 == Insert(r, k, e).1
  {
    hide Simulates, Insert, Arc.InsertEntry;
    if s.Live(k) {
      InsertLive(s, r, k, e);
    } else if k in s.b1 || k in s.b2 {
      if k in s.b1 { InsertOnceGhost(s, r, k, e); } else { InsertAgainGhost(s, r, k, e); }
    } else {
      InsertUnknown(s, r, k, e);
    }
  }

  lemma LookupLive<K(!new), V>(s: Arc.State<K, V>, r: Ref<K, V>, k: K, now: nat)
    requires Simulates(s, r) && s.Live(k)
    ensures Simulates(Arc.Lookup(s, k, now).0, Lookup(r, k, now).0)
    ensures Arc.Lookup(s, k, now).1 == Lookup(r, k, now).1
  {
    SimulatesValid(s, r);
    hide Simulates, Move, Gone, LinkedMap.Insert, LinkedMap.Remove, Arc.State.Valid, Replace, Lose;
    ShelfOf(s, r, k);
    GoneWhere(s, k);
    LoseSimulates(s, r, k);
    if k in s.t1.entries { AgainSimulates(s, r, k, s.t1.entries[k]); }
    if k in s.t2.entries {
      AgainSimulates(s, r, k, s.t2.entries[k]);
      InsertRemoved(s.t2, k, s.t2.entries[k]);
    }
  }

  lemma RetargetSimulates<K(!new), V>(s: Arc.State<K, V>, r: Ref<K, V>, target: nat)
    requires Simulates(s, r) && target <= s.cap
    ensures Simulates(Arc.Replace(s.(p := target)), Replace(r.(target := target)))
  {
    assert Simulates(s.(p := target), r.(target := target));
    hide Simulates;
    ReplaceSimulates(s.(p := target), r.(target := target));
  }

  lemma LookupOther<K(!new), V>(s: Arc.State<K, V>, r: Ref<K, V>, k: K, now: nat)
    requires Simulates(s, r) && !s.Live(k)
    ensures Simulates(Arc.Lookup(s, k, now).0, Lookup(r, k, now).0)
    ensures Arc.Lookup(s, k, now).1 == Lookup(r, k, now).1
  {
    hide Simulates, Arc.State.Valid, Replace, Arc.Replace, Size, Oldest, Stride, Raised, Lowered, Arc.Raise, Arc.Lower,
         Move, Lose, Value;
    SimulatesValid(s, r);
    ShelfOf(s, r, k);
    Sizes(s, r);
    SameCap(s, r);
    RaisedIs(s.p, |s.b1|, |s.b2|, s.cap);
    LoweredIs(s.p, |s.b2|, |s.b1|);
    RetargetSimulates(s, r, Arc.Raise(s.p, |s.b1|, |s.b2|, s.cap));
    RetargetSimulates(s, r, Arc.Lower(s.p, |s.b1|, |s.b2|));
  }

  lemma {:induction false} FitSimulates<K(!new), V>(s: Arc.State<K, V>, r: Ref<K, V>)
    requires s.Valid() && Simulates(s, r)
    ensures Simulates(Arc.Fit(s), ReplaceTimes(r, if s.Len() > s.cap then s.Len() - s.cap else 0))
    decreases s.Len()
  {
    hide Simulates, Arc.Replace, Replace, Arc.State.Valid;
    if s.Len() > s.cap {
      Arc.ReplaceShrinks(s);
      ReplaceSimulates(s, r);
      FitSimulates(Arc.Replace(s), Replace(r));
    }
  }

  lemma ResizeSimulates<K(!new), V>(s: Arc.State<K, V>, r: Ref<K, V>, ev: Event<K, V>)
    requires s.Valid() && Simulates(s, r) && ev.op.Resize?
    ensures Simulates(Arc.Step(s, ev).0, Step(r, ev).0) && Arc.Step(s, ev).1 == Step(r, ev).1
  {
    hide Simulates, Arc.State.Valid, Arc.Fit, ReplaceTimes, Size, Oldest, Arc.InsertEntry, Arc.Lookup;
    var cap := Arc.Max(ev.op.cap, 1);
    Sizes(s, r);
    SameCap(s, r);
    RecapSimulates(s, r, cap);
    FitSimulates(s.(cap := cap, p := Arc.Min(s.p, cap)), r.(cap := cap, target := Arc.Min(r.target, cap)));
  }

  lemma RecapSimulates<K(!new), V>(s: Arc.State<K, V>, r: Ref<K, V>, cap: nat)
    requires s.Valid() && Simulates(s, r) && cap >= 1
    ensures var s' := s.(cap := cap, p := Arc.Min(s.p, cap));
            s'.Valid() && Simulates(s', r.(cap := cap, target := Arc.Min(r.target, cap)))
  {
  }

  lemma RemoveSimulates<K(!new), V>(s: Arc.State<K, V>, r: Ref<K, V>, k: K)
    requires Simulates(s, r)
    ensures Simulates(Arc.Delete(s, k).0, Lose(r, k)) && Arc.Delete(s, k).1 == Value(r, k)
  {
    SimulatesValid(s, r);
    hide Simulates, Lose, Gone, Value, LinkedMap.Remove, Arc.State.Valid;
    ShelfOf(s, r, k);
    GoneWhere(s, k);
    LoseSimulates(s, r, k);
  }

  lemma StepSimulates<K(!new), V>(s: Arc.State<K, V>, r: Ref<K, V>, ev: Event<K, V>)
    requires s.Valid() && Simulates(s, r)
    ensures Simulates(Arc.Step(s, ev).0, Step(r, ev).0) && Arc.Step(s, ev).1 == Step(r, ev).1
  {
    ClearSimulates(s, r);
    hide Simulates, Arc.InsertEntry, Insert, Arc.Lookup, Lookup, Arc.Delete, Lose, Arc.Resized, ReplaceTimes,
         Arc.State.Valid;
    match ev.op {
      case Put(k, _) => InsertSimulates(s, r, k, ev.Entry());
      case PutWithTtl(k, _, _) => InsertSimulates(s, r, k, ev.Entry());
      case Get(k) => if s.Live(k) { LookupLive(s, r, k, ev.now); } else { LookupOther(s, r, k, ev.now); }
      case Remove(k) => RemoveSimulates(s, r, k);
      case Clear =>
      case Resize(n) => ResizeSimulates(s, r, ev);
    }
  }

  lemma ClearSimulates<K(!new), V>(s: Arc.State<K, V>, r: Ref<K, V>)
    requires Simulates(s, r)
    ensures Simulates(Arc.State(EmptyLinked(), EmptyLinked(), [], [], 0, s.cap), r.(target := 0, dir := map[]))
  {
  }

  lemma {:induction false} RunSimulates<K(!new), V>(cap: nat, evs: seq<Event<K, V>>)
    ensures Simulates(Arc.Run(Arc.New(cap), evs), Run(cap, evs))
    decreases |evs|
  {
    hide Step, Arc.Step;
    if evs != [] {
      hide Simulates;
      var before := evs[..|evs| - 1];
      RunSimulates<K, V>(cap, before);
      StepSimulates(Arc.Run(Arc.New(cap), before), Run(cap, before), evs[|evs| - 1]);
    }
  }

  /** After every run, the next call of whatever kind is answered as the reference answers it, and both
      hold the same live keys with the same entries, the same ghosts and the same target. */
  lemma RefinesReference<K(!new), V>(cap: nat, evs: seq<Event<K, V>>, ev: Event<K, V>, k: K)
    ensures var s, r := Arc.Run(Arc.New(cap), evs), Run(cap, evs);
            && Arc.Step(s, ev).1 == Step(r, ev).1
            && (k in s.t1.entries <==> k in r.dir && r.dir[k].shelf == Once)
            && (k in s.t2.entries <==> k in r.dir && r.dir[k].shelf == Again)
            && (k in s.b1 <==> k in r.dir && r.dir[k].shelf == OnceGhost)
            && (k in s.b2 <==> k in r.dir && r.dir[k].shelf == AgainGhost)
            && (k in s.t1.entries ==> r.dir[k].item == Some(s.t1.entries[k]))
            && (k in s.t2.entries ==> r.dir[k].item == Some(s.t2.entries[k]))
            && s.p == r.target
  {
    hide Step, Arc.Step, Run, Arc.Run, Simulates;
    RunSimulates<K, V>(cap, evs);
    var s, r := Arc.Run(Arc.New(cap), evs), Run(cap, evs);
    StepSimulates(s, r, ev);
    ShelfOf(s, r, k);
    SameCap(s, r);
  }
}
