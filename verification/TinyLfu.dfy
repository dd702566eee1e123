/** Window TinyLFU: a window segment for new keys, a main space of probation and protected
    segments, an index from keys to segments, and an admission gate fed by the sketch. */
module TinyLfu {
  import opened LinkedMaps
  import opened Caches
  import Sketch
  import opened Words

  datatype Segment = Window | Probation | Protected

  datatype State<K(==, !new), V> = State(
    totalCap: nat, windowCap: nat, mainCap: nat, protectedCap: nat,
    window: LinkedMap<K, CacheEntry<V>>,
    protect: LinkedMap<K, CacheEntry<V>>,
    probation: LinkedMap<K, CacheEntry<V>>,
    index: map<K, Segment>,
    counter: Sketch.Counter,
    rng: bv64)
  {
    function Len(): nat { window.Len() + protect.Len() + probation.Len() }

    /** The capacity split of `new` and `resize`. */
    ghost predicate Split() {
      && totalCap >= 2
      && windowCap == (if totalCap / 100 < 1 then 1 else totalCap / 100)
      && mainCap == totalCap - windowCap
      && protectedCap == mainCap * 4 / 5
    }

    /** The index is exactly the disjoint union of the three segments. */
    ghost predicate Indexed() {
      && (forall k :: k in window.entries <==> k in index && index[k] == Window)
      && (forall k :: k in probation.entries <==> k in index && index[k] == Probation)
      && (forall k :: k in protect.entries <==> k in index && index[k] == Protected)
    }

    ghost predicate Linked() {
      window.Valid() && protect.Valid() && probation.Valid() && counter.Valid()
    }

    ghost predicate WithinCaps() {
      && window.Len() <= windowCap
      && protect.Len() <= protectedCap
      && probation.Len() + protect.Len() <= mainCap
    }

    ghost predicate Valid() {
      Split() && Linked() && Indexed() && WithinCaps()
    }
  }

  function WindowCap(totalCap: nat): nat { if totalCap / 100 < 1 then 1 else totalCap / 100 }

  function New<K(==, !new), V>(cap: nat): (s: State<K, V>)
    ensures s.Valid()
  {
    var totalCap := if cap < 2 then 2 else cap;
    var mainCap := totalCap - WindowCap(totalCap);
    State(totalCap, WindowCap(totalCap), mainCap, mainCap * 4 / 5,
          EmptyLinked(), EmptyLinked(), EmptyLinked(), map[],
          Sketch.NewCounter(totalCap), Seed(totalCap))
  }

  function Seed(totalCap: nat): bv64 {
    (totalCap % U64) as bv64 ^ 0xdeadbeefcafebabe
  }

  function Xorshift(x: bv64): bv64 {
    var y := x ^ (x << 13);
    var z := y ^ (y >> 7);
    z ^ (z << 17)
  }

  function Record<K(==, !new), V>(s: State<K, V>, h: Sketch.Hash): State<K, V>
    requires s.counter.Valid()
  {
    s.(counter := Sketch.Record(s.counter, h))
  }

  function Frequency<K(==, !new), V>(s: State<K, V>, h: Sketch.Hash): nat
    requires s.counter.Valid()
  {
    Sketch.Estimate(s.counter.sketch.grid, h, s.counter.sketch.w)
  }

  // Drop a key from its segment and from the index.
  function Drop<K(==, !new), V>(s: State<K, V>, k: K): State<K, V> {
    if k !in s.index then s
    else
      var t := s.(index := s.index - {k});
      match s.index[k]
      case Window => t.(window := s.window.Remove(k))
      case Probation => t.(probation := s.probation.Remove(k))
      case Protected => t.(protect := s.protect.Remove(k))
  }

  // A probation key becomes protected.
  function MoveUp<K(==, !new), V>(s: State<K, V>, k: K, e: CacheEntry<V>): State<K, V> {
    s.(protect := s.protect.Insert(k, e), probation := s.probation.Remove(k), index := s.index[k := Protected])
  }

  // The oldest protected key goes back to probation.
  function Demote<K(==, !new), V>(s: State<K, V>): State<K, V>
    requires s.protect.Valid() && s.protect.order != []
  {
    var d := s.protect.order[0];
    s.(protect := s.protect.PopFront(),
       probation := s.probation.Insert(d, s.protect.entries[d]),
       index := s.index[d := Probation])
  }

  /** `promote_probation_to_protected`: the protected segment hands its oldest key back to
      probation when it overflows. */
  function Promote<K(==, !new), V>(s: State<K, V>, k: K, e: CacheEntry<V>): State<K, V>
    requires s.protect.Valid()
  {
    var t := MoveUp(s, k, e);
    if t.protect.Len() > s.protectedCap then Demote(t) else t
  }

  /** Whether the gate prefers the candidate; a tie is decided by the generator. */
  function Duel(candidate: nat, victim: nat, rng: bv64): (bool, bv64) {
    if candidate > victim then (true, rng)
    else if candidate == victim then (Xorshift(rng) & 0xFF < 128, Xorshift(rng))
    else (false, rng)
  }

  function Admits<K(==, !new), V>(s: State<K, V>, candidate: Sketch.Hash, victim: Sketch.Hash): (bool, bv64)
    requires s.counter.Valid()
  {
    Duel(Frequency(s, candidate), Frequency(s, victim), s.rng)
  }

  // A key enters the main space through probation.
  function Enter<K(==, !new), V>(s: State<K, V>, k: K, e: CacheEntry<V>): State<K, V> {
    s.(index := s.index[k := Probation], probation := s.probation.Insert(k, e))
  }

  // The oldest probation key leaves the cache.
  function Expel<K(==, !new), V>(s: State<K, V>): State<K, V>
    requires s.probation.order != []
  {
    s.(index := s.index - {s.probation.order[0]}, probation := s.probation.PopFront())
  }

  /** `run_admission_gate` for a key that has just left the window. */
  function Gate<K(==, !new), V>(s: State<K, V>, k: K, e: CacheEntry<V>, hash: K -> Sketch.Hash): State<K, V>
    requires s.counter.Valid()
  {
    if s.probation.Len() + s.protect.Len() < s.mainCap then Enter(s, k, e)
    else if s.probation.order == [] then s
    else
      var (admit, rng) := Admits(s, hash(k), hash(s.probation.order[0]));
      Challenge(s, k, e, admit, rng)
  }

  // The candidate replaces the oldest probation key, or is discarded.
  function Challenge<K(==, !new), V>(s: State<K, V>, k: K, e: CacheEntry<V>, admit: bool, rng: bv64): State<K, V>
    requires s.probation.order != []
  {
    if admit then Enter(Expel(s.(rng := rng)), k, e) else s.(rng := rng)
  }

  /** The window after its oldest key has left. */
  function PopWindow<K(==, !new), V>(s: State<K, V>): State<K, V>
    requires s.window.order != []
  {
    s.(window := s.window.PopFront(), index := s.index - {s.window.order[0]})
  }

  function InsertNew<K(==, !new), V>(s: State<K, V>, k: K, e: CacheEntry<V>, hash: K -> Sketch.Hash): State<K, V>
    requires s.counter.Valid() && s.window.Valid()
  {
    var t := s.(index := s.index[k := Window], window := s.window.Insert(k, e));
    if t.window.Len() > t.windowCap then
      var c := t.window.order[0];
      Gate(PopWindow(t), c, t.window.entries[c], hash)
    else t
  }

  function Update<K(==, !new), V>(s: State<K, V>, k: K, e: CacheEntry<V>): State<K, V>
    requires k in s.index && s.protect.Valid()
  {
    match s.index[k]
    case Window => s.(window := s.window.Insert(k, e))
    case Probation => Promote(s, k, e)
    case Protected => s.(protect := s.protect.Insert(k, e))
  }

  function InsertEntry<K(==, !new), V>(s: State<K, V>, k: K, e: CacheEntry<V>, hash: K -> Sketch.Hash): State<K, V>
    requires s.Linked()
  {
    var t := Record(s, hash(k));
    if k in s.index then Update(t, k, e) else InsertNew(t, k, e, hash)
  }

  /** The entry of an indexed key, wherever it is. */
  function Entry<K(==, !new), V>(s: State<K, V>, k: K): Option<CacheEntry<V>> {
    if k in s.window.entries then Some(s.window.entries[k])
    else if k in s.probation.entries then Some(s.probation.entries[k])
    else if k in s.protect.entries then Some(s.protect.entries[k])
    else None
  }

  /** `peek` over the three segments. */
  function PeekIn<K(==, !new), V>(
    window: map<K, CacheEntry<V>>, probation: map<K, CacheEntry<V>>, protect: map<K, CacheEntry<V>>,
    k: K, now: nat): Option<V>
  {
    if k in window then Peek(window, k, now)
    else if k in probation then Peek(probation, k, now)
    else Peek(protect, k, now)
  }

  lemma PeekEntry<K(!new), V>(s: State<K, V>, k: K, now: nat)
    ensures PeekIn(s.window.entries, s.probation.entries, s.protect.entries, k, now) ==
            match Entry(s, k)
            case None => None
            case Some(e) => if e.Expired(now) then None else Some(e.value)
  {
  }

  /** `peek` finds what is cached and not overdue, whatever the segment. */
  lemma PeekServes<K(!new), V>(s: State<K, V>, k: K, now: nat, v: V)
    ensures PeekIn(s.window.entries, s.probation.entries, s.protect.entries, k, now) == Some(v) <==>
            Serves(Entry(s, k), v, now)
  {
    PeekEntry(s, k, now);
  }

  lemma PeekLater<K(!new), V>(
    window: map<K, CacheEntry<V>>, probation: map<K, CacheEntry<V>>, protect: map<K, CacheEntry<V>>,
    k: K, now: nat, later: nat)
    requires now <= later
    ensures PeekIn(window, probation, protect, k, later).Some? ==>
            PeekIn(window, probation, protect, k, now) == PeekIn(window, probation, protect, k, later)
  {
  }

  /** `get` reads a promoted probation key back from the protected segment. */
  function Lookup<K(==, !new), V>(s: State<K, V>, k: K, now: nat, hash: K -> Sketch.Hash): (State<K, V>, Option<V>)
    requires s.Linked()
  {
    var entry := Entry(s, k);
    if k !in s.index || entry.None? then (s, None)
    else if entry.value.Expired(now) then (Drop(s, k), None)
    else
      var t := Update(Record(s, hash(k)), k, entry.value);
      var found := if s.index[k] == Window then t.window.entries else t.protect.entries;
      (t, if k in found then Some(found[k].value) else None)
  }

  function Delete<K(==, !new), V>(s: State<K, V>, k: K): (State<K, V>, Option<V>) {
    (Drop(s, k), if Entry(s, k).Some? then Some(Entry(s, k).value.value) else None)
  }

  // ---------------------------------------------------------------------
  // The structure invariant
  // ---------------------------------------------------------------------

  lemma RecordValid<K(!new), V>(s: State<K, V>, h: Sketch.Hash)
    requires s.Valid()
    ensures Record(s, h).Valid()
  {
  }

  /** Consistent lists and index, with the lengths given: what every move keeps. */
  ghost predicate Shape<K(!new), V>(s: State<K, V>, window: int, probation: int, protect: int) {
    && s.Split() && s.Linked() && s.Indexed()
    && s.window.Len() == window && s.probation.Len() == probation && s.protect.Len() == protect
  }

  lemma DropWindow<K(!new), V>(s: State<K, V>, k: K)
    requires s.Valid() && k in s.index && s.index[k] == Window
    ensures Shape(Drop(s, k), s.window.Len() - 1, s.probation.Len(), s.protect.Len())
  {
  }

  lemma DropProbation<K(!new), V>(s: State<K, V>, k: K)
    requires s.Valid() && k in s.index && s.index[k] == Probation
    ensures Shape(Drop(s, k), s.window.Len(), s.probation.Len() - 1, s.protect.Len())
  {
  }

  lemma DropProtected<K(!new), V>(s: State<K, V>, k: K)
    requires s.Valid() && k in s.index && s.index[k] == Protected
    ensures Shape(Drop(s, k), s.window.Len(), s.probation.Len(), s.protect.Len() - 1)
  {
  }

  lemma DropValid<K(!new), V>(s: State<K, V>, k: K)
    requires s.Valid()
    ensures Drop(s, k).Valid()
  {
    if k in s.index {
      match s.index[k] {
        case Window => DropWindow(s, k);
        case Probation => DropProbation(s, k);
        case Protected => DropProtected(s, k);
      }
    }
  }

  lemma MoveUpShape<K(!new), V>(s: State<K, V>, k: K, e: CacheEntry<V>)
    requires s.Valid() && k in s.probation.entries
    ensures Shape(MoveUp(s, k, e), s.window.Len(), s.probation.Len() - 1, s.protect.Len() + 1)
  {
  }

  lemma DemoteShape<K(!new), V>(s: State<K, V>, window: nat, probation: nat, protect: nat)
    requires Shape(s, window, probation, protect) && protect > 0
    ensures Shape(Demote(s), window, probation + 1, protect - 1)
  {
    assert s.protect.order[0] in s.protect.order;
  }

  lemma PromoteValid<K(!new), V>(s: State<K, V>, k: K, e: CacheEntry<V>)
    requires s.Valid() && k in s.probation.entries
    ensures Promote(s, k, e).Valid()
  {
    MoveUpShape(s, k, e);
    if MoveUp(s, k, e).protect.Len() > s.protectedCap {
      DemoteShape(MoveUp(s, k, e), s.window.Len(), s.probation.Len() - 1, s.protect.Len() + 1);
    }
  }

  /** Promotion moves keys and loses none: the key joins the back of the protected segment, and only
      if that overflows does the oldest protected key join the back of probation. */
  lemma PromoteExact<K(!new), V>(s: State<K, V>, k: K, e: CacheEntry<V>)
    requires s.Valid() && k in s.probation.entries
    ensures var t, line := Promote(s, k, e), s.protect.order + [k];
            && t.window == s.window && t.index.Keys == s.index.Keys
            && (if |line| <= s.protectedCap
                then t.protect.order == line && t.probation.order == Without(s.probation.order, k)
                else t.protect.order == line[1..] && t.probation.order == Without(s.probation.order, k) + [line[0]])
  {
    var line := s.protect.order + [k];
    var t := MoveUp(s, k, e);
    MoveUpExact(s, k, e);
    assert line[0] in t.protect.order;
    hide State.Valid, MoveUp, State.Indexed, State.Split;
    if |line| > s.protectedCap { DemoteExact(t); }
  }

  lemma MoveUpExact<K(!new), V>(s: State<K, V>, k: K, e: CacheEntry<V>)
    requires s.Valid() && k in s.probation.entries
    ensures var t := MoveUp(s, k, e);
            && t.window == s.window && t.index.Keys == s.index.Keys && t.protect.Valid()
            && t.protect.order == s.protect.order + [k] && t.probation.order == Without(s.probation.order, k)
            && (forall j :: j in t.protect.order ==> j !in t.probation.order && j in t.index)
  {
    assert k !in s.protect.order && k in s.index;
    WithoutAbsent(s.protect.order, k);
    hide State.Split;
  }

  lemma DemoteExact<K(!new), V>(t: State<K, V>)
    requires t.protect.Valid() && t.protect.order != []
    requires t.protect.order[0] !in t.probation.order && t.protect.order[0] in t.index
    ensures var d := Demote(t);
            && d.window == t.window && d.index.Keys == t.index.Keys
            && d.protect.order == t.protect.order[1..] && d.probation.order == t.probation.order + [t.protect.order[0]]
  {
    WithoutAbsent(t.probation.order, t.protect.order[0]);
  }

  lemma UpdateValid<K(!new), V>(s: State<K, V>, k: K, e: CacheEntry<V>)
    requires s.Valid() && k in s.index
    ensures Update(s, k, e).Valid()
  {
    match s.index[k] {
      case Window =>
      case Probation => PromoteValid(s, k, e);
      case Protected =>
    }
  }

  /** A full main space always has a probation key to challenge: the arm for an empty
      probation segment is never taken. */
  lemma GateHasVictim<K(!new), V>(s: State<K, V>)
    requires s.Split() && s.protect.Len() <= s.protectedCap
    requires s.probation.Len() + s.protect.Len() >= s.mainCap
    ensures s.probation.order != []
  {
  }

  lemma EnterShape<K(!new), V>(s: State<K, V>, k: K, e: CacheEntry<V>, window: nat, probation: nat, protect: nat)
    requires Shape(s, window, probation, protect) && k !in s.index
    ensures Shape(Enter(s, k, e), window, probation + 1, protect)
  {
  }

  lemma ExpelShape<K(!new), V>(s: State<K, V>, window: nat, probation: nat, protect: nat)
    requires Shape(s, window, probation, protect) && probation > 0
    ensures Shape(Expel(s), window, probation - 1, protect)
  {
    assert s.probation.order[0] in s.probation.order;
  }

  lemma ChallengeValid<K(!new), V>(s: State<K, V>, k: K, e: CacheEntry<V>, admit: bool, rng: bv64)
    requires s.Valid() && k !in s.index && s.probation.order != []
    ensures Challenge(s, k, e, admit, rng).Valid()
  {
    var w, p, q := s.window.Len(), s.probation.Len(), s.protect.Len();
    if admit {
      ExpelShape(s.(rng := rng), w, p, q);
      EnterShape(Expel(s.(rng := rng)), k, e, w, p - 1, q);
    }
  }

  lemma GateValid<K(!new), V>(s: State<K, V>, k: K, e: CacheEntry<V>, hash: K -> Sketch.Hash)
    requires s.Valid() && k !in s.index
    ensures Gate(s, k, e, hash).Valid()
  {
    if s.probation.Len() + s.protect.Len() < s.mainCap {
      EnterShape(s, k, e, s.window.Len(), s.probation.Len(), s.protect.Len());
    } else {
      GateHasVictim(s);
      var (admit, rng) := Admits(s, hash(k), hash(s.probation.order[0]));
      ChallengeValid(s, k, e, admit, rng);
    }
  }

  lemma OpenIndexed<K(!new), V>(s: State<K, V>, k: K, e: CacheEntry<V>)
    requires s.Valid() && k !in s.index
    ensures k !in s.window.entries
    ensures s.(index := s.index[k := Window], window := s.window.Insert(k, e)).Indexed()
  {
    hide LinkedMap.Valid, State.Split, State.Linked;
  }

  lemma OpenShape<K(!new), V>(s: State<K, V>, k: K, e: CacheEntry<V>)
    requires s.Valid() && k !in s.index
    ensures Shape(s.(index := s.index[k := Window], window := s.window.Insert(k, e)),
                  s.window.Len() + 1, s.probation.Len(), s.protect.Len())
  {
    OpenIndexed(s, k, e);
    hide LinkedMap.Valid, LinkedMap.Insert, State.Indexed;
  }

  lemma PopWindowShape<K(!new), V>(t: State<K, V>, window: nat, probation: nat, protect: nat)
    requires Shape(t, window, probation, protect) && window > 0
    ensures Shape(PopWindow(t), window - 1, probation, protect)
    ensures t.window.order[0] !in PopWindow(t).index
  {
    assert t.window.order[0] in t.window.order;
  }

  lemma InsertNewValid<K(!new), V>(s: State<K, V>, k: K, e: CacheEntry<V>, hash: K -> Sketch.Hash)
    requires s.Valid() && k !in s.index
    ensures InsertNew(s, k, e, hash).Valid()
  {
    var t := s.(index := s.index[k := Window], window := s.window.Insert(k, e));
    OpenShape(s, k, e);
    if t.window.Len() > t.windowCap {
      PopWindowShape(t, s.window.Len() + 1, s.probation.Len(), s.protect.Len());
      GateValid(PopWindow(t), t.window.order[0], t.window.entries[t.window.order[0]], hash);
    }
  }

  lemma InsertValid<K(!new), V>(s: State<K, V>, k: K, e: CacheEntry<V>, hash: K -> Sketch.Hash)
    requires s.Valid()
    ensures InsertEntry(s, k, e, hash).Valid()
  {
    RecordValid(s, hash(k));
    if k in s.index {
      UpdateValid(Record(s, hash(k)), k, e);
    } else {
      InsertNewValid(Record(s, hash(k)), k, e, hash);
    }
  }

  lemma LookupValid<K(!new), V>(s: State<K, V>, k: K, now: nat, hash: K -> Sketch.Hash)
    requires s.Valid()
    ensures Lookup(s, k, now, hash).0.Valid()
  {
    DropValid(s, k);
    RecordValid(s, hash(k));
    if k in s.index && Entry(s, k).Some? {
      UpdateValid(Record(s, hash(k)), k, Entry(s, k).value);
    }
  }

  // ---------------------------------------------------------------------
  // Resizing
  // ---------------------------------------------------------------------

  ghost predicate Consistent<K(!new), V>(s: State<K, V>) {
    s.Split() && s.Linked() && s.Indexed()
  }

  function PopProtected<K(==, !new), V>(s: State<K, V>): State<K, V>
    requires s.protect.order != []
  {
    s.(protect := s.protect.PopFront(), index := s.index - {s.protect.order[0]})
  }

  lemma PopProtectedShape<K(!new), V>(t: State<K, V>, window: nat, probation: nat, protect: nat)
    requires Shape(t, window, probation, protect) && protect > 0
    ensures Shape(PopProtected(t), window, probation, protect - 1)
  {
    assert t.protect.order[0] in t.protect.order;
  }

  /** The three loops of `resize`: each pops the oldest key until its cap holds. */
  function ShrinkWindow<K(==, !new), V>(s: State<K, V>): (t: State<K, V>)
    ensures Consistent(s) ==> Consistent(t)
    ensures t.window.Len() <= t.windowCap
    ensures t.protect == s.protect && t.probation == s.probation && t.totalCap == s.totalCap
    decreases s.window.Len()
  {
    if s.window.Len() > s.windowCap then
      assert Consistent(s) ==> Consistent(PopWindow(s)) by {
        if Consistent(s) { PopWindowShape(s, s.window.Len(), s.probation.Len(), s.protect.Len()); }
      }
      ShrinkWindow(PopWindow(s))
    else s
  }

  function ShrinkProtected<K(==, !new), V>(s: State<K, V>): (t: State<K, V>)
    ensures Consistent(s) ==> Consistent(t)
    ensures t.protect.Len() <= t.protectedCap
    ensures t.window == s.window && t.probation == s.probation && t.totalCap == s.totalCap
    decreases s.protect.Len()
  {
    if s.protect.Len() > s.protectedCap then
      assert Consistent(s) ==> Consistent(PopProtected(s)) by {
        if Consistent(s) { PopProtectedShape(s, s.window.Len(), s.probation.Len(), s.protect.Len()); }
      }
      ShrinkProtected(PopProtected(s))
    else s
  }

  /** Terminates because the protected segment alone never fills the main space. */
  function ShrinkMain<K(==, !new), V>(s: State<K, V>): (t: State<K, V>)
    requires s.Split() && s.protect.Len() <= s.protectedCap
    ensures Consistent(s) ==> Consistent(t)
    ensures t.probation.Len() + t.protect.Len() <= t.mainCap
    ensures t.window == s.window && t.protect == s.protect && t.totalCap == s.totalCap
    decreases s.probation.Len()
  {
    if s.probation.Len() + s.protect.Len() > s.mainCap then
      GateHasVictim(s);
      assert Consistent(s) ==> Consistent(Expel(s)) by {
        if Consistent(s) { ExpelShape(s, s.window.Len(), s.probation.Len(), s.protect.Len()); }
      }
      ShrinkMain(Expel(s))
    else s
  }

  function SetCaps<K(==, !new), V>(s: State<K, V>, newCap: nat): State<K, V> {
    var totalCap := if newCap < 2 then 2 else newCap;
    var mainCap := totalCap - WindowCap(totalCap);
    s.(totalCap := totalCap, windowCap := WindowCap(totalCap), mainCap := mainCap, protectedCap := mainCap * 4 / 5)
  }

  /** `resize` terminates for every cache and capacity and restores all caps. */
  function Resized<K(==, !new), V>(s: State<K, V>, newCap: nat): (t: State<K, V>)
    requires s.Valid()
    ensures t.Valid() && t.totalCap == if newCap < 2 then 2 else newCap
  {
    hide ShrinkMain, ShrinkProtected, ShrinkWindow;
    ShrinkMain(ShrinkProtected(ShrinkWindow(SetCaps(s, newCap))))
  }

  /** What is left of a segment are its newest keys, with their entries. */
  ghost predicate KeepsNewest<K(!new), V>(m: LinkedMap<K, CacheEntry<V>>, kept: LinkedMap<K, CacheEntry<V>>, n: int) {
    kept.order == Newest(m.order, n) && Submap(kept.entries, m.entries)
  }

  lemma PopKeepsNewest<K(!new), V>(m: LinkedMap<K, CacheEntry<V>>, kept: LinkedMap<K, CacheEntry<V>>, n: int)
    requires 0 <= n < m.Len() && KeepsNewest(m.PopFront(), kept, n)
    ensures KeepsNewest(m, kept, n)
  {
  }

  lemma {:induction false} ShrinkWindowKeeps<K(!new), V>(s: State<K, V>)
    ensures KeepsNewest(s.window, ShrinkWindow(s).window, s.windowCap)
    decreases s.window.Len()
  {
    if s.window.Len() > s.windowCap {
      ShrinkWindowKeeps(PopWindow(s));
      PopKeepsNewest(s.window, ShrinkWindow(s).window, s.windowCap);
    }
  }

  lemma {:induction false} ShrinkProtectedKeeps<K(!new), V>(s: State<K, V>)
    ensures KeepsNewest(s.protect, ShrinkProtected(s).protect, s.protectedCap)
    decreases s.protect.Len()
  {
    if s.protect.Len() > s.protectedCap {
      ShrinkProtectedKeeps(PopProtected(s));
      PopKeepsNewest(s.protect, ShrinkProtected(s).protect, s.protectedCap);
    }
  }

  lemma {:induction false} ShrinkMainKeeps<K(!new), V>(s: State<K, V>)
    requires s.Split() && s.protect.Len() <= s.protectedCap
    ensures KeepsNewest(s.probation, ShrinkMain(s).probation, s.mainCap - s.protect.Len())
    decreases s.probation.Len()
  {
    if s.probation.Len() + s.protect.Len() > s.mainCap {
      GateHasVictim(s);
      ShrinkMainKeeps(Expel(s));
      PopKeepsNewest(s.probation, ShrinkMain(s).probation, s.mainCap - s.protect.Len());
    }
  }

  /** A resize keeps exactly the newest keys of each segment that the new caps leave room for. */
  lemma ResizeKeepsNewest<K(!new), V>(s: State<K, V>, newCap: nat)
    requires s.Valid()
    ensures var t := Resized(s, newCap);
            && KeepsNewest(s.window, t.window, t.windowCap)
            && KeepsNewest(s.protect, t.protect, t.protectedCap)
            && KeepsNewest(s.probation, t.probation, t.mainCap - t.protect.Len())
  {
    hide ShrinkMain, ShrinkProtected, ShrinkWindow, KeepsNewest, Consistent, SetCaps, State.Split, State.Valid;
    var s0 := SetCaps(s, newCap);
    var s1 := ShrinkWindow(s0);
    var s2 := ShrinkProtected(s1);
    SetCapsSplit(s, newCap);
    ShrinkCaps(s0);
    ShrinkWindowKeeps(s0);
    ShrinkProtectedKeeps(s1);
    ShrinkMainKeeps(s2);
  }

  lemma SetCapsSplit<K(!new), V>(s: State<K, V>, newCap: nat)
    ensures var t := SetCaps(s, newCap);
            t.Split() && t.window == s.window && t.protect == s.protect && t.probation == s.probation
  {
  }

  lemma ShrinkCaps<K(!new), V>(s: State<K, V>)
    requires s.Split()
    ensures var s1 := ShrinkWindow(s);
            var s2 := ShrinkProtected(s1);
            && SameSplit(s, s1) && SameSplit(s, s2) && s2.Split() && SameSplit(s, ShrinkMain(s2))
  {
    var s1 := ShrinkWindow(s);
    var s2 := ShrinkProtected(s1);
    ShrinkWindowSplit(s);
    ShrinkProtectedSplit(s1);
    hide ShrinkMain, ShrinkProtected, ShrinkWindow;
    ShrinkMainSplit(s2);
  }

  ghost predicate SameSplit<K(!new), V>(s: State<K, V>, t: State<K, V>) {
    && t.totalCap == s.totalCap && t.windowCap == s.windowCap && t.mainCap == s.mainCap
    && t.protectedCap == s.protectedCap
  }

  lemma {:induction false} ShrinkWindowSplit<K(!new), V>(s: State<K, V>)
    ensures SameSplit(s, ShrinkWindow(s))
    decreases s.window.Len()
  {
    if s.window.Len() > s.windowCap { ShrinkWindowSplit(PopWindow(s)); }
  }

  lemma {:induction false} ShrinkProtectedSplit<K(!new), V>(s: State<K, V>)
    ensures SameSplit(s, ShrinkProtected(s))
    decreases s.protect.Len()
  {
    if s.protect.Len() > s.protectedCap { ShrinkProtectedSplit(PopProtected(s)); }
  }

  lemma {:induction false} ShrinkMainSplit<K(!new), V>(s: State<K, V>)
    requires s.Split() && s.protect.Len() <= s.protectedCap
    ensures SameSplit(s, ShrinkMain(s))
    decreases s.probation.Len()
  {
    if s.probation.Len() + s.protect.Len() > s.mainCap {
      GateHasVictim(s);
      ShrinkMainSplit(Expel(s));
    }
  }

  /** A resize that does not shrink the cache loses nothing and moves nothing. */
  lemma GrowthKeepsAll<K(!new), V>(s: State<K, V>, newCap: nat)
    requires s.Valid() && newCap >= s.totalCap
    ensures Resized(s, newCap) == SetCaps(s, newCap)
  {
    SplitGrows(s.totalCap, newCap);
  }

  lemma SplitGrows(cap: nat, newCap: nat)
    requires 2 <= cap <= newCap
    ensures WindowCap(cap) <= WindowCap(newCap) && cap - WindowCap(cap) <= newCap - WindowCap(newCap)
    ensures (cap - WindowCap(cap)) * 4 / 5 <= (newCap - WindowCap(newCap)) * 4 / 5
  {
  }

  // ---------------------------------------------------------------------
  // Runs
  // ---------------------------------------------------------------------

  function Emptied<K(==, !new), V>(s: State<K, V>): State<K, V>
    requires s.counter.Valid()
  {
    s.(window := EmptyLinked(), protect := EmptyLinked(), probation := EmptyLinked(), index := map[],
       counter := Sketch.Cleared(s.counter))
  }

  function Step<K(==, !new), V>(s: State<K, V>, ev: Event<K, V>, hash: K -> Sketch.Hash): (State<K, V>, Option<V>)
    requires s.Valid()
  {
    match ev.op
    case Put(k, _) => (InsertEntry(s, k, ev.Entry(), hash), None)
    case PutWithTtl(k, _, _) => (InsertEntry(s, k, ev.Entry(), hash), None)
    case Get(k) => Lookup(s, k, ev.now, hash)
    case Remove(k) => Delete(s, k)
    case Clear => (Emptied(s), None)
    case Resize(n) => (Resized(s, n), None)
  }

  lemma StepValid<K(!new), V>(s: State<K, V>, ev: Event<K, V>, hash: K -> Sketch.Hash)
    requires s.Valid()
    ensures Step(s, ev, hash).0.Valid()
  {
    match ev.op {
      case Put(k, _) => InsertValid(s, k, ev.Entry(), hash);
      case PutWithTtl(k, _, _) => InsertValid(s, k, ev.Entry(), hash);
      case Get(k) => LookupValid(s, k, ev.now, hash);
      case Remove(k) => DropValid(s, k);
      case Clear =>
      case Resize(n) =>
    }
  }

  /** In every run, for every hash function, the index is the disjoint union of the segments and
      the window, the protected segment and the main space stay within their caps. */
  function Run<K(==, !new), V>(cap: nat, evs: seq<Event<K, V>>, hash: K -> Sketch.Hash): (s: State<K, V>)
    ensures s.Valid()
  {
    if evs == [] then New(cap)
    else
      var before := Run(cap, evs[..|evs| - 1], hash);
      StepValid(before, evs[|evs| - 1], hash);
      Step(before, evs[|evs| - 1], hash).0
  }

  lemma RunWithinCapacity<K(!new), V>(cap: nat, evs: seq<Event<K, V>>, hash: K -> Sketch.Hash)
    ensures Run(cap, evs, hash).Len() <= Run(cap, evs, hash).totalCap
  {
  }

  // ---------------------------------------------------------------------
  // Hits
  // ---------------------------------------------------------------------

  lemma PromotedStays<K(!new), V>(s: State<K, V>, k: K, e: CacheEntry<V>)
    requires s.Valid() && k in s.probation.entries
    ensures k in Promote(s, k, e).protect.entries <==> s.protectedCap > 0
    ensures s.protectedCap > 0 ==> Promote(s, k, e).protect.entries[k] == e
  {
    MoveUpShape(s, k, e);
    var t := MoveUp(s, k, e);
    assert k !in s.protect.order && Without(s.protect.order, k) == s.protect.order by {
      WithoutAbsent(s.protect.order, k);
    }
    assert t.protect.order == s.protect.order + [k];
    if t.protect.Len() > s.protectedCap {
      assert s.protect.order != [] ==> t.protect.order[0] != k;
    }
  }

  /** `get` finds a live key exactly when the key is not in probation or the protected segment has
      room for at least one: at the minimum capacity of 2 a probation key is always missed. */
  lemma HitIff<K(!new), V>(s: State<K, V>, k: K, now: nat, hash: K -> Sketch.Hash)
    requires s.Valid() && k in s.index && Entry(s, k).Some? && !Entry(s, k).value.Expired(now)
    ensures Lookup(s, k, now, hash).1 ==
            if s.totalCap == 2 && s.index[k] == Probation then None else Some(Entry(s, k).value.value)
  {
    var e, r := Entry(s, k).value, Record(s, hash(k));
    RecordValid(s, hash(k));
    if s.index[k] == Probation {
      PromotedStays(r, k, e);
    }
    hide Promote, Sketch.Record, LinkedMap.Valid;
  }

  lemma UpdateCap<K(!new), V>(s: State<K, V>, k: K, e: CacheEntry<V>)
    requires k in s.index && s.protect.Valid()
    ensures Update(s, k, e).totalCap == s.totalCap
  {
    assert Promote(s, k, e).totalCap == s.totalCap;
    hide Promote;
  }

  lemma GateCap<K(!new), V>(s: State<K, V>, k: K, e: CacheEntry<V>, hash: K -> Sketch.Hash)
    requires s.counter.Valid()
    ensures Gate(s, k, e, hash).totalCap == s.totalCap
  {
    hide Admits;
  }

  lemma InsertCap<K(!new), V>(s: State<K, V>, k: K, e: CacheEntry<V>, hash: K -> Sketch.Hash)
    requires s.Linked()
    ensures InsertEntry(s, k, e, hash).totalCap == s.totalCap
  {
    var r := Record(s, hash(k));
    if k in s.index {
      UpdateCap(r, k, e);
    } else {
      var t := r.(index := r.index[k := Window], window := r.window.Insert(k, e));
      if t.window.Len() > t.windowCap {
        GateCap(PopWindow(t), t.window.order[0], t.window.entries[t.window.order[0]], hash);
      }
    }
    hide Update, Gate;
  }

  lemma LookupCap<K(!new), V>(s: State<K, V>, k: K, now: nat, hash: K -> Sketch.Hash)
    requires s.Linked()
    ensures Lookup(s, k, now, hash).0.totalCap == s.totalCap
  {
    if k in s.index && Entry(s, k).Some? { UpdateCap(Record(s, hash(k)), k, Entry(s, k).value); }
    hide Update;
  }

  lemma FirstPut(hash: nat -> Sketch.Hash)
    ensures var s := InsertEntry(New<nat, nat>(2), 1, CacheEntry(10, None), hash);
            && s.Valid() && s.totalCap == 2 && s.windowCap == 1 && s.mainCap == 1 && s.protectedCap == 0
            && s.window == LinkedMap([1], map[1 := CacheEntry(10, None)])
            && s.probation == EmptyLinked() && s.protect == EmptyLinked() && s.index == map[1 := Window]
  {
    var s0 := New<nat, nat>(2);
    InsertValid(s0, 1, CacheEntry(10, None), hash);
    assert Without([], 1) == [];
  }

  /** Two puts into a cache of capacity 2 leave the first key in probation, where `get` misses it. */
  lemma MissAtCapacityTwo(hash: nat -> Sketch.Hash)
    ensures var s1 := InsertEntry(New<nat, nat>(2), 1, CacheEntry(10, None), hash);
            var s := InsertEntry(s1, 2, CacheEntry(20, None), hash);
            && s.Valid() && s.totalCap == 2 && s.index == map[1 := Probation, 2 := Window]
            && s.probation.entries == map[1 := CacheEntry(10, None)] && Lookup(s, 1, 0, hash).1 == None
  {
    FirstPut(hash);
    var s1 := InsertEntry(New<nat, nat>(2), 1, CacheEntry(10, None), hash);
    InsertValid(s1, 2, CacheEntry(20, None), hash);
    SecondPut(s1, hash);
    var s := InsertEntry(s1, 2, CacheEntry(20, None), hash);
    HitIff(s, 1, 0, hash);
    hide InsertEntry, Lookup;
  }

  lemma RunSnoc<K(!new), V>(cap: nat, evs: seq<Event<K, V>>, ev: Event<K, V>, hash: K -> Sketch.Hash)
    ensures Run(cap, evs + [ev], hash) == Step(Run(cap, evs, hash), ev, hash).0
  {
    assert (evs + [ev])[..|evs|] == evs;
    hide Step;
  }

  /** So a run of two puts reaches a live key that `get` does not find. */
  lemma ProbationAtCapacityTwo(hash: nat -> Sketch.Hash)
    ensures var s := Run<nat, nat>(2, [] + [Event(0, Put(1, 10))] + [Event(0, Put(2, 20))], hash);
            Entry(s, 1) == Some(CacheEntry(10, None)) && Lookup(s, 1, 0, hash).1 == None
  {
    assert Run<nat, nat>(2, [], hash) == New(2);
    hide Run, InsertEntry, Lookup, State.Valid;
    RunSnoc<nat, nat>(2, [], Event(0, Put(1, 10)), hash);
    RunSnoc<nat, nat>(2, [] + [Event(0, Put(1, 10))], Event(0, Put(2, 20)), hash);
    MissAtCapacityTwo(hash);
  }

  lemma SecondPut(s: State<nat, nat>, hash: nat -> Sketch.Hash)
    requires s.Valid() && s.totalCap == 2 && s.windowCap == 1 && s.mainCap == 1
    requires s.window == LinkedMap([1], map[1 := CacheEntry(10, None)])
    requires s.probation == EmptyLinked() && s.protect == EmptyLinked() && s.index == map[1 := Window]
    ensures var t := InsertEntry(s, 2, CacheEntry(20, None), hash);
            && t.totalCap == 2 && t.index == map[1 := Probation, 2 := Window]
            && t.window.entries == map[2 := CacheEntry(20, None)]
            && t.probation.entries == map[1 := CacheEntry(10, None)]
            && t.protect.entries == map[]
  {
    var r := Record(s, hash(2));
    assert Without([1], 2) == [1];
    var o := r.(index := r.index[2 := Window], window := r.window.Insert(2, CacheEntry(20, None)));
    assert o.window.order == [1, 2];
    hide Sketch.Record, State.Valid, LinkedMap.Valid;
    assert InsertEntry(s, 2, CacheEntry(20, None), hash) == Enter(PopWindow(o), 1, CacheEntry(10, None));
  }

  // ---------------------------------------------------------------------
  // Admission
  // ---------------------------------------------------------------------

  /** At a full main space exactly one of candidate and victim survives, it is never the one with
      the lower estimated frequency, and nobody else is touched. */
  lemma GateFavoursFrequent<K(!new), V>(s: State<K, V>, k: K, e: CacheEntry<V>, hash: K -> Sketch.Hash)
    requires s.Valid() && k !in s.index && s.probation.Len() + s.protect.Len() >= s.mainCap
    ensures s.probation.order != []
    ensures var v, t := s.probation.order[0], Gate(s, k, e, hash);
            && (k in t.index <==> v !in t.index)
            && (k in t.index ==> Frequency(s, hash(v)) <= Frequency(s, hash(k)))
            && (v in t.index ==> Frequency(s, hash(k)) <= Frequency(s, hash(v)))
            && t.window == s.window && t.protect == s.protect
            && t.index - {k, v} == s.index - {v}
  {
    GateHasVictim(s);
    var v := s.probation.order[0];
    assert v in s.probation.order;
    var (admit, rng) := Admits(s, hash(k), hash(v));
    assert Gate(s, k, e, hash) == Challenge(s, k, e, admit, rng);
    AdmitsByFrequency(s, hash(k), hash(v));
    hide Challenge, Admits, Frequency, Gate;
    ChallengeIndex(s, k, e, admit, rng);
  }

  lemma AdmitsByFrequency<K(!new), V>(s: State<K, V>, candidate: Sketch.Hash, victim: Sketch.Hash)
    requires s.counter.Valid()
    ensures Admits(s, candidate, victim).0 ==> Frequency(s, victim) <= Frequency(s, candidate)
    ensures !Admits(s, candidate, victim).0 ==> Frequency(s, candidate) <= Frequency(s, victim)
  {
  }

  lemma ChallengeIndex<K(!new), V>(s: State<K, V>, k: K, e: CacheEntry<V>, admit: bool, rng: bv64)
    requires s.probation.order != [] && k !in s.index && s.probation.order[0] in s.index
    ensures var v, t := s.probation.order[0], Challenge(s, k, e, admit, rng);
            && (k in t.index <==> admit) && (v in t.index <==> !admit)
            && t.index - {k, v} == s.index - {v}
            && t.window == s.window && t.protect == s.protect
  {
  }

  // ---------------------------------------------------------------------
  // Freshness
  // ---------------------------------------------------------------------

  ghost predicate FreshSegments<K(!new), V>(s: State<K, V>, w: map<K, CacheEntry<V>>) {
    Fresh(s.window.entries, w) && Fresh(s.probation.entries, w) && Fresh(s.protect.entries, w)
  }

  lemma {:induction false} ShrinkFresh<K(!new), V>(s: State<K, V>, w: map<K, CacheEntry<V>>)
    requires Consistent(s) && FreshSegments(s, w)
    ensures FreshSegments(ShrinkWindow(s), w)
    decreases s.window.Len()
  {
    if s.window.Len() > s.windowCap {
      PopWindowShape(s, s.window.Len(), s.probation.Len(), s.protect.Len());
      ShrinkFresh(PopWindow(s), w);
    }
  }

  lemma {:induction false} ShrinkProtectedFresh<K(!new), V>(s: State<K, V>, w: map<K, CacheEntry<V>>)
    requires Consistent(s) && FreshSegments(s, w)
    ensures FreshSegments(ShrinkProtected(s), w)
    decreases s.protect.Len()
  {
    if s.protect.Len() > s.protectedCap {
      PopProtectedShape(s, s.window.Len(), s.probation.Len(), s.protect.Len());
      ShrinkProtectedFresh(PopProtected(s), w);
    }
  }

  lemma {:induction false} ShrinkMainFresh<K(!new), V>(s: State<K, V>, w: map<K, CacheEntry<V>>)
    requires Consistent(s) && s.protect.Len() <= s.protectedCap && FreshSegments(s, w)
    ensures FreshSegments(ShrinkMain(s), w)
    decreases s.probation.Len()
  {
    if s.probation.Len() + s.protect.Len() > s.mainCap {
      GateHasVictim(s);
      ExpelShape(s, s.window.Len(), s.probation.Len(), s.protect.Len());
      ShrinkMainFresh(Expel(s), w);
    }
  }

  lemma ResizeFresh<K(!new), V>(s: State<K, V>, n: nat, w: map<K, CacheEntry<V>>)
    requires s.Valid() && FreshSegments(s, w)
    ensures FreshSegments(Resized(s, n), w)
  {
    var s0 := SetCaps(s, n);
    hide ShrinkWindow, ShrinkProtected, ShrinkMain, Fresh;
    ShrinkFresh(s0, w);
    ShrinkProtectedFresh(ShrinkWindow(s0), w);
    ShrinkMainFresh(ShrinkProtected(ShrinkWindow(s0)), w);
  }

  lemma PromoteFresh<K(!new), V>(s: State<K, V>, k: K, e: CacheEntry<V>, w: map<K, CacheEntry<V>>)
    requires s.Valid() && k in s.probation.entries && FreshSegments(s, w)
    ensures FreshSegments(Promote(s, k, e), w[k := e])
  {
    MoveUpShape(s, k, e);
    MoveUpFresh(s, k, e, w);
    if MoveUp(s, k, e).protect.Len() > s.protectedCap {
      DemoteFresh(MoveUp(s, k, e), w[k := e]);
    }
  }

  lemma DemoteFresh<K(!new), V>(t: State<K, V>, w: map<K, CacheEntry<V>>)
    requires t.protect.Valid() && t.protect.order != [] && FreshSegments(t, w)
    ensures FreshSegments(Demote(t), w)
  {
    assert t.protect.order[0] in t.protect.order;
  }

  lemma MoveUpFresh<K(!new), V>(s: State<K, V>, k: K, e: CacheEntry<V>, w: map<K, CacheEntry<V>>)
    requires s.Valid() && k in s.probation.entries && FreshSegments(s, w)
    ensures FreshSegments(MoveUp(s, k, e), w[k := e])
  {
    assert k !in s.window.entries && k !in s.protect.entries;
    hide State.Valid, LinkedMap.Valid;
    FreshOther(s.window.entries, w, k, e);
    FreshOther(s.probation.entries - {k}, w, k, e);
    FreshPut(s.protect.entries, w, k, e);
  }

  lemma FreshOther<K(!new), V>(entries: map<K, CacheEntry<V>>, w: map<K, CacheEntry<V>>, k: K, e: CacheEntry<V>)
    requires Fresh(entries, w) && k !in entries
    ensures Fresh(entries, w[k := e])
  {
  }

  lemma FreshPut<K(!new), V>(entries: map<K, CacheEntry<V>>, w: map<K, CacheEntry<V>>, k: K, e: CacheEntry<V>)
    requires Fresh(entries, w)
    ensures Fresh(entries[k := e], w[k := e])
  {
  }

  lemma UpdateFresh<K(!new), V>(s: State<K, V>, k: K, e: CacheEntry<V>, w: map<K, CacheEntry<V>>)
    requires s.Valid() && k in s.index && FreshSegments(s, w)
    ensures FreshSegments(Update(s, k, e), w[k := e])
  {
    hide Promote;
    match s.index[k] {
      case Window =>
        FreshPut(s.window.entries, w, k, e);
        FreshOther(s.probation.entries, w, k, e);
        FreshOther(s.protect.entries, w, k, e);
      case Probation => PromoteFresh(s, k, e, w);
      case Protected =>
        FreshOther(s.window.entries, w, k, e);
        FreshOther(s.probation.entries, w, k, e);
        FreshPut(s.protect.entries, w, k, e);
    }
    hide Fresh;
  }

  lemma GateFresh<K(!new), V>(s: State<K, V>, k: K, e: CacheEntry<V>, hash: K -> Sketch.Hash, w: map<K, CacheEntry<V>>)
    requires s.counter.Valid() && FreshSegments(s, w) && k in w && w[k] == e
    ensures FreshSegments(Gate(s, k, e, hash), w)
  {
    if s.probation.Len() + s.protect.Len() >= s.mainCap && s.probation.order != [] {
      var (admit, rng) := Admits(s, hash(k), hash(s.probation.order[0]));
      ChallengeFresh(s, k, e, admit, rng, w);
    }
  }

  lemma ChallengeFresh<K(!new), V>(s: State<K, V>, k: K, e: CacheEntry<V>, admit: bool, rng: bv64,
                                   w: map<K, CacheEntry<V>>)
    requires s.probation.order != [] && FreshSegments(s, w) && k in w && w[k] == e
    ensures FreshSegments(Challenge(s, k, e, admit, rng), w)
  {
  }

  lemma InsertNewFresh<K(!new), V>(
    s: State<K, V>, k: K, e: CacheEntry<V>, hash: K -> Sketch.Hash, w: map<K, CacheEntry<V>>)
    requires s.Valid() && k !in s.index && FreshSegments(s, w)
    ensures FreshSegments(InsertNew(s, k, e, hash), w[k := e])
  {
    var t := s.(index := s.index[k := Window], window := s.window.Insert(k, e));
    OpenFresh(s, k, e, w);
    if t.window.Len() > t.windowCap {
      var c := t.window.order[0];
      GateFresh(PopWindow(t), c, t.window.entries[c], hash, w[k := e]);
    }
  }

  lemma OpenFresh<K(!new), V>(s: State<K, V>, k: K, e: CacheEntry<V>, w: map<K, CacheEntry<V>>)
    requires s.Valid() && k !in s.index && FreshSegments(s, w)
    ensures var t := s.(index := s.index[k := Window], window := s.window.Insert(k, e));
            && FreshSegments(t, w[k := e])
            && t.window.order[0] in t.window.entries && t.window.order[0] in w[k := e]
            && w[k := e][t.window.order[0]] == t.window.entries[t.window.order[0]]
  {
    FreshPut(s.window.entries, w, k, e);
    FreshOther(s.probation.entries, w, k, e);
    FreshOther(s.protect.entries, w, k, e);
    var t := s.(index := s.index[k := Window], window := s.window.Insert(k, e));
    assert t.window.order[0] in t.window.order;
    hide State.Valid;
  }

  lemma InsertFresh<K(!new), V>(
    s: State<K, V>, k: K, e: CacheEntry<V>, hash: K -> Sketch.Hash, w: map<K, CacheEntry<V>>)
    requires s.Valid() && FreshSegments(s, w)
    ensures FreshSegments(InsertEntry(s, k, e, hash), w[k := e])
  {
    RecordValid(s, hash(k));
    if k in s.index {
      UpdateFresh(Record(s, hash(k)), k, e, w);
    } else {
      InsertNewFresh(Record(s, hash(k)), k, e, hash, w);
    }
  }

  lemma HitFresh<K(!new), V>(s: State<K, V>, k: K, hash: K -> Sketch.Hash, w: map<K, CacheEntry<V>>)
    requires s.Valid() && FreshSegments(s, w) && k in s.index && Entry(s, k).Some?
    ensures Record(s, hash(k)).protect.Valid()
    ensures FreshSegments(Update(Record(s, hash(k)), k, Entry(s, k).value), w)
  {
    RecordValid(s, hash(k));
    var e := Entry(s, k).value;
    assert w[k := e] == w;
    hide Update;
    UpdateFresh(Record(s, hash(k)), k, e, w);
  }

  lemma DropKeepsFresh<K(!new), V>(s: State<K, V>, k: K, w: map<K, CacheEntry<V>>)
    requires s.Valid() && FreshSegments(s, w)
    ensures FreshSegments(Drop(s, k), w)
  {
  }

  lemma LookupFresh<K(!new), V>(s: State<K, V>, k: K, now: nat, hash: K -> Sketch.Hash, w: map<K, CacheEntry<V>>)
    requires s.Valid() && FreshSegments(s, w)
    ensures FreshSegments(Lookup(s, k, now, hash).0, w)
  {
    if k in s.index && Entry(s, k).Some? {
      HitFresh(s, k, hash, w);
      DropKeepsFresh(s, k, w);
    }
    hide FreshSegments, Update, Drop, Record;
  }

  lemma DropFresh<K(!new), V>(s: State<K, V>, k: K, w: map<K, CacheEntry<V>>)
    requires s.Valid() && FreshSegments(s, w)
    ensures FreshSegments(Drop(s, k), w - {k})
  {
  }

  lemma StepFresh<K(!new), V>(s: State<K, V>, ev: Event<K, V>, hash: K -> Sketch.Hash, w: map<K, CacheEntry<V>>)
    requires s.Valid() && FreshSegments(s, w)
    ensures FreshSegments(Step(s, ev, hash).0, Written(w, ev))
  {
    match ev.op {
      case Put(k, _) => InsertFresh(s, k, ev.Entry(), hash, w);
      case PutWithTtl(k, _, _) => InsertFresh(s, k, ev.Entry(), hash, w);
      case Get(k) => LookupFresh(s, k, ev.now, hash, w);
      case Remove(k) => DropFresh(s, k, w);
      case Clear =>
      case Resize(n) => ResizeFresh(s, n, w);
    }
  }

  /** In every run each cached entry is the last one written for its key. */
  lemma {:induction false} RunFresh<K(!new), V>(cap: nat, evs: seq<Event<K, V>>, hash: K -> Sketch.Hash)
    ensures FreshSegments(Run(cap, evs, hash), WrittenAll(evs))
    decreases |evs|
  {
    if evs != [] {
      RunFresh(cap, evs[..|evs| - 1], hash);
      StepFresh(Run(cap, evs[..|evs| - 1], hash), evs[|evs| - 1], hash, WrittenAll(evs[..|evs| - 1]));
    }
  }

  /** After every run a get answers a value exactly when the key is cached with it, its deadline, if it has
      one, is still ahead, and it is no probation key of a cache of capacity 2; so the answer is the last write
      of the key and is not overdue. */
  lemma GetAnswers<K(!new), V>(cap: nat, evs: seq<Event<K, V>>, k: K, now: nat, v: V, hash: K -> Sketch.Hash)
    ensures var s := Run(cap, evs, hash);
            && (Lookup(s, k, now, hash).1 == Some(v) <==>
                Serves(Entry(s, k), v, now) && !(s.totalCap == 2 && k in s.probation.entries))
            && (Lookup(s, k, now, hash).1 == Some(v) ==> Serves(Stored(WrittenAll(evs), k), v, now))
  {
    RunFresh(cap, evs, hash);
    var s := Run(cap, evs, hash);
    if k in s.index && Entry(s, k).Some? && !Entry(s, k).value.Expired(now) { HitIff(s, k, now, hash); }
    hide Run, WrittenAll, Update, Record, Drop, State.Split, LinkedMap.Valid;
  }

  lemma GateKeepsWindow<K(!new), V>(s: State<K, V>, k: K, e: CacheEntry<V>, hash: K -> Sketch.Hash)
    requires s.counter.Valid()
    ensures Gate(s, k, e, hash).window == s.window
  {
  }

  /** The key that leaves the window to make room for `k` is not `k`. */
  lemma FrontIsOlder<K(!new)>(order: seq<K>, k: K)
    requires k !in order && order != []
    ensures (Without(order, k) + [k])[0] == order[0] != k
  {
    WithoutAbsent(order, k);
  }

  lemma InsertNewKept<K(!new), V>(s: State<K, V>, k: K, e: CacheEntry<V>, hash: K -> Sketch.Hash)
    requires s.counter.Valid() && s.window.Valid() && s.windowCap >= 1 && k !in s.window.entries
    ensures k in InsertNew(s, k, e, hash).window.entries && InsertNew(s, k, e, hash).window.entries[k] == e
  {
    var t := s.(index := s.index[k := Window], window := s.window.Insert(k, e));
    if t.window.Len() > t.windowCap {
      FrontIsOlder(s.window.order, k);
      GateKeepsWindow(PopWindow(t), t.window.order[0], t.window.entries[t.window.order[0]], hash);
    }
  }

  /** What was just put is there: the gate never rejects the key being inserted. */
  lemma PutIsKept<K(!new), V>(s: State<K, V>, k: K, e: CacheEntry<V>, hash: K -> Sketch.Hash)
    requires s.Valid()
    ensures Entry(InsertEntry(s, k, e, hash), k) == Some(e)
  {
    var r := Record(s, hash(k));
    RecordValid(s, hash(k));
    if k !in s.index {
      InsertNewKept(r, k, e, hash);
    } else if s.index[k] == Probation {
      PromotedEntry(r, k, e);
    }
  }

  lemma PromotedEntry<K(!new), V>(s: State<K, V>, k: K, e: CacheEntry<V>)
    requires s.Valid() && k in s.probation.entries
    ensures Entry(Promote(s, k, e), k) == Some(e)
  {
    var t := MoveUp(s, k, e);
    MoveUpExact(s, k, e);
    assert k !in s.window.entries && k !in t.probation.entries && t.protect.entries[k] == e;
    hide State.Valid, MoveUp;
    if t.protect.Len() > s.protectedCap { DemotedEntry(t, k); }
  }

  lemma DemotedEntry<K(!new), V>(t: State<K, V>, k: K)
    requires t.protect.Valid() && k in t.protect.entries && k !in t.window.entries && k !in t.probation.entries
    ensures t.protect.order != [] && Entry(Demote(t), k) == Some(t.protect.entries[k])
  {
    assert k in t.protect.order;
  }
}
