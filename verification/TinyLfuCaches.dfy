/** `WTinyLfuCache` as the mutable object of the source, over the packed sketch and doorkeeper. */
module TinyLfuCaches {
  import opened LinkedMaps
  import opened Caches
  import Sketch
  import opened SketchTables
  import T = TinyLfu

  class WTinyLfuCache<K(==, !new), V> {
    var totalCap: nat
    var windowCap: nat
    var mainCap: nat
    var protectedCap: nat
    var window: LinkedMap<K, CacheEntry<V>>
    var protect: LinkedMap<K, CacheEntry<V>>
    var probation: LinkedMap<K, CacheEntry<V>>
    var segmentIndex: map<K, T.Segment>
    const sketch: CountMinSketch
    const doorkeeper: Doorkeeper
    var rng: bv64
    const hash: K -> Sketch.Hash

    ghost predicate Tables() {
      sketch.Valid() && doorkeeper.Valid()
    }

    /** The segments together with a given counter value. */
    ghost function With(c: Sketch.Counter): T.State<K, V>
      reads this
    {
      T.State(totalCap, windowCap, mainCap, protectedCap, window, protect, probation, segmentIndex, c, rng)
    }

    ghost function Counter(): (c: Sketch.Counter)
      reads sketch, sketch.counters, doorkeeper.bits
      requires Tables()
      ensures c.Valid()
    {
      Sketch.Counter(sketch.Model(), doorkeeper.Model())
    }

    ghost function State(): T.State<K, V>
      reads this, sketch, sketch.counters, doorkeeper.bits
      requires Tables()
    {
      With(Counter())
    }

    constructor (cap: nat, hash: K -> Sketch.Hash)
      ensures this.hash == hash && Tables() && State() == T.New(cap)
      ensures fresh(sketch) && fresh(sketch.counters) && fresh(doorkeeper.bits)
    {
      var total := if cap < 2 then 2 else cap;
      totalCap, windowCap := total, T.WindowCap(total);
      mainCap := total - T.WindowCap(total);
      protectedCap := (total - T.WindowCap(total)) * 4 / 5;
      window, protect, probation := EmptyLinked(), EmptyLinked(), EmptyLinked();
      segmentIndex := map[];
      sketch := new CountMinSketch(total);
      doorkeeper := new Doorkeeper(total);
      rng := T.Seed(total);
      this.hash := hash;
    }

    method RecordAccess(key: K)
      requires Tables()
      modifies sketch, sketch.counters, doorkeeper.bits
      ensures Counter() == Sketch.Record(old(Counter()), hash(key))
    {
      var seen := doorkeeper.Put(hash(key));
      if seen {
        sketch.Increment(hash(key));
      }
    }

    method Freq(key: K) returns (f: nat)
      requires Tables()
      ensures f == Sketch.Estimate(Counter().sketch.grid, hash(key), Counter().sketch.w)
    {
      f := sketch.Estimate(hash(key));
    }

    method Promote(key: K, entry: CacheEntry<V>, ghost c: Sketch.Counter)
      requires protect.Valid()
      modifies this
      ensures With(c) == T.Promote(old(With(c)), key, entry)
    {
      probation := probation.Remove(key);
      segmentIndex := segmentIndex[key := T.Protected];
      protect := protect.Insert(key, entry);
      if protect.Len() > protectedCap {
        var demoted := protect.order[0];
        var old_ := protect.entries[demoted];
        protect := protect.PopFront();
        segmentIndex := segmentIndex[demoted := T.Probation];
        probation := probation.Insert(demoted, old_);
      }
    }

    /** The frequency duel; the generator advances only on a tie. */
    method Decide(candidate: K, victim: K, ghost c: Sketch.Counter) returns (admit: bool)
      requires Tables() && c == Counter()
      modifies this`rng
      ensures (admit, rng) == T.Admits(old(With(c)), hash(candidate), hash(victim))
    {
      var candidateFreq := Freq(candidate);
      var victimFreq := Freq(victim);
      var (verdict, next) := T.Duel(candidateFreq, victimFreq, rng);
      admit, rng := verdict, next;
    }

    method RunAdmissionGate(key: K, entry: CacheEntry<V>, ghost c: Sketch.Counter)
      requires Tables() && c == Counter()
      modifies this
      ensures With(c) == T.Gate(old(With(c)), key, entry, hash)
    {
      hide T.Admits, LinkedMap.Insert, LinkedMap.PopFront;
      if probation.Len() + protect.Len() < mainCap {
        segmentIndex := segmentIndex[key := T.Probation];
        probation := probation.Insert(key, entry);
        return;
      }
      if probation.order == [] { return; }
      var victim := probation.order[0];
      var admit := Decide(key, victim, c);
      if admit {
        Replace(key, entry, c);
      }
    }

    method Replace(key: K, entry: CacheEntry<V>, ghost c: Sketch.Counter)
      requires probation.order != []
      modifies this`probation, this`segmentIndex
      ensures With(c) == T.Enter(T.Expel(old(With(c))), key, entry)
    {
      segmentIndex := segmentIndex - {probation.order[0]};
      probation := probation.PopFront();
      segmentIndex := segmentIndex[key := T.Probation];
      probation := probation.Insert(key, entry);
    }

    method Update(key: K, entry: CacheEntry<V>, ghost c: Sketch.Counter)
      requires protect.Valid() && key in segmentIndex
      modifies this
      ensures With(c) == T.Update(old(With(c)), key, entry)
    {
      match segmentIndex[key] {
        case Window => window := window.Insert(key, entry);
        case Probation => Promote(key, entry, c);
        case Protected => protect := protect.Insert(key, entry);
      }
    }

    method InsertNew(key: K, entry: CacheEntry<V>, ghost c: Sketch.Counter)
      requires Tables() && c == Counter() && window.Valid()
      modifies this
      ensures With(c) == T.InsertNew(old(With(c)), key, entry, hash)
    {
      segmentIndex := segmentIndex[key := T.Window];
      window := window.Insert(key, entry);
      if window.Len() > windowCap {
        var candidate := window.order[0];
        var candidateEntry := window.entries[candidate];
        window := window.PopFront();
        segmentIndex := segmentIndex - {candidate};
        RunAdmissionGate(candidate, candidateEntry, c);
      }
    }

    method InsertEntry(key: K, entry: CacheEntry<V>)
      requires Tables() && State().Valid()
      modifies this, sketch, sketch.counters, doorkeeper.bits
      ensures State() == T.InsertEntry(old(State()), key, entry, hash)
      ensures State().Valid()
    {
      T.InsertValid(State(), key, entry, hash);
      T.RecordValid(State(), hash(key));
      RecordAccess(key);
      if key in segmentIndex {
        Update(key, entry, Counter());
      } else {
        InsertNew(key, entry, Counter());
      }
    }

    method Get(key: K, now: nat) returns (hit: Option<V>)
      requires Tables() && State().Valid()
      modifies this, sketch, sketch.counters, doorkeeper.bits
      ensures (State(), hit) == T.Lookup(old(State()), key, now, hash)
      ensures State().Valid()
    {
      T.LookupValid(State(), key, now, hash);
      T.RecordValid(State(), hash(key));
      hide LinkedMap.Remove, LinkedMap.Insert, T.Update, T.Drop;
      if key !in segmentIndex { return None; }
      var segment := segmentIndex[key];
      var entry := match segment
        case Window => window.entries[key]
        case Probation => probation.entries[key]
        case Protected => protect.entries[key];
      if entry.Expired(now) {
        var _ := Remove(key);
        return None;
      }
      RecordAccess(key);
      Update(key, entry, Counter());
      var found := if segment == T.Window then window.entries else protect.entries;
      hit := if key in found then Some(found[key].value) else None;
    }

    method Remove(key: K) returns (removed: Option<V>)
      requires Tables() && State().Valid()
      modifies this
      ensures (State(), removed) == T.Delete(old(State()), key)
      ensures State().Valid()
    {
      T.DropValid(State(), key);
      hide T.State.Valid, LinkedMap.Remove, LinkedMap.Valid;
      if key !in segmentIndex { return None; }
      var segment := segmentIndex[key];
      segmentIndex := segmentIndex - {key};
      match segment {
        case Window =>
          removed := Some(window.entries[key].value);
          window := window.Remove(key);
        case Probation =>
          removed := Some(probation.entries[key].value);
          probation := probation.Remove(key);
        case Protected =>
          removed := Some(protect.entries[key].value);
          protect := protect.Remove(key);
      }
    }

    method ShrinkWindow(ghost c: Sketch.Counter)
      modifies this`window, this`segmentIndex
      ensures With(c) == T.ShrinkWindow(old(With(c)))
    {
      while window.Len() > windowCap
        invariant T.ShrinkWindow(With(c)) == T.ShrinkWindow(old(With(c)))
        decreases window.Len()
      {
        segmentIndex := segmentIndex - {window.order[0]};
        window := window.PopFront();
      }
    }

    method ShrinkProtected(ghost c: Sketch.Counter)
      modifies this`protect, this`segmentIndex
      ensures With(c) == T.ShrinkProtected(old(With(c)))
    {
      while protect.Len() > protectedCap
        invariant T.ShrinkProtected(With(c)) == T.ShrinkProtected(old(With(c)))
        decreases protect.Len()
      {
        segmentIndex := segmentIndex - {protect.order[0]};
        protect := protect.PopFront();
      }
    }

    method ShrinkMain(ghost c: Sketch.Counter)
      requires With(c).Split() && protect.Len() <= protectedCap
      modifies this`probation, this`segmentIndex
      ensures With(c) == T.ShrinkMain(old(With(c)))
    {
      while probation.Len() + protect.Len() > mainCap
        invariant T.ShrinkMain(With(c)) == T.ShrinkMain(old(With(c)))
        decreases probation.Len()
      {
        T.GateHasVictim(With(c));
        segmentIndex := segmentIndex - {probation.order[0]};
        probation := probation.PopFront();
      }
    }

    method Resize(newCap: nat)
      requires Tables() && State().Valid()
      modifies this
      ensures State() == T.Resized(old(State()), newCap)
      ensures State().Valid() && totalCap == if newCap < 2 then 2 else newCap
    {
      totalCap := if newCap < 2 then 2 else newCap;
      windowCap := T.WindowCap(totalCap);
      mainCap := totalCap - windowCap;
      protectedCap := mainCap * 4 / 5;
      assert State() == T.SetCaps(old(State()), newCap);
      ShrinkWindow(Counter());
      ShrinkProtected(Counter());
      ShrinkMain(Counter());
    }

    /** `peek`: wherever the key is. */
    function Peek(key: K, now: nat): Option<V>
      reads this
    {
      T.PeekIn(window.entries, probation.entries, protect.entries, key, now)
    }

    method PutMissing(key: K, value: V, now: nat)
      requires Tables() && State().Valid()
      modifies this, sketch, sketch.counters, doorkeeper.bits
      ensures State().Valid() && Peek(key, now) == Some(value)
    {
      T.PutIsKept(State(), key, CacheEntry(value, None), hash);
      hide T.InsertEntry, T.State.Valid;
      InsertEntry(key, CacheEntry(value, None));
      T.PeekEntry(State(), key, now);
    }

    /** `Cache::get_or_insert`; `None` stands for the panic of its `expect`, which happens exactly when a
        live entry reaches its deadline between the two clock readings. */
    method GetOrInsert(key: K, value: V, checkedAt: nat, readAt: nat) returns (r: Option<V>)
      requires Tables() && State().Valid() && checkedAt <= readAt
      modifies this, sketch, sketch.counters, doorkeeper.bits
      ensures State().Valid()
      ensures r.None? <==> old(Peek(key, checkedAt)).Some? && old(Peek(key, readAt)).None?
      ensures r.Some? ==> r.value == if old(Peek(key, checkedAt)).Some? then old(Peek(key, checkedAt)).value else value
    {
      T.PeekLater(window.entries, probation.entries, protect.entries, key, checkedAt, readAt);
      hide T.State.Valid, T.PeekIn;
      if Peek(key, checkedAt).None? {
        PutMissing(key, value, readAt);
        return Some(value);
      }
      r := Peek(key, readAt);
    }
  }
}
