/** `ArcCache` as the mutable object of the source, method by method against `Arc`. */
module ArcCaches {
  import opened LinkedMaps
  import opened Caches
  import Arc

  class ArcCache<K(==, !new), V> {
    var t1: LinkedMap<K, CacheEntry<V>>
    var t2: LinkedMap<K, CacheEntry<V>>
    var b1: seq<K>
    var b2: seq<K>
    var p: nat
    var cap: nat

    ghost function State(): Arc.State<K, V>
      reads this
    {
      Arc.State(t1, t2, b1, b2, p, cap)
    }

    constructor (cap: nat)
      ensures State() == Arc.New(cap)
    {
      t1, t2 := EmptyLinked(), EmptyLinked();
      b1, b2 := [], [];
      p := 0;
      this.cap := Arc.Max(cap, 1);
    }

    function DirectoryLen(): nat
      reads this
    {
      t1.Len() + t2.Len() + |b1| + |b2|
    }

    method Replace()
      modifies this
      ensures State() == Arc.Replace(old(State()))
    {
      var fromT1 := t1.Len() >= Arc.Max(p, 1) && t1.Len() >= 1;
      if fromT1 || (t2.order == [] && t1.order != []) {
        var k := t1.order[0];
        t1 := t1.PopFront();
        if DirectoryLen() >= 2 * cap && b1 != [] {
          b1 := b1[1..];
        }
        b1 := Without(b1, k) + [k];
      } else if t2.order != [] {
        var k := t2.order[0];
        t2 := t2.PopFront();
        if DirectoryLen() >= 2 * cap && b2 != [] {
          b2 := b2[1..];
        }
        b2 := Without(b2, k) + [k];
      }
    }

    method DropGhost()
      modifies this
      ensures State() == Arc.DropGhost(old(State()))
    {
      if b2 != [] {
        b2 := b2[1..];
      } else if b1 != [] {
        b1 := b1[1..];
      }
    }

    method AdmitMiss()
      modifies this
      ensures State() == Arc.AdmitMiss(old(State()))
    {
      if t1.Len() + t2.Len() < cap {
        if DirectoryLen() >= cap && DirectoryLen() >= 2 * cap {
          DropGhost();
        }
      } else if t1.Len() + |b1| == cap {
        if t1.order != [] {
          Replace();
        } else if b1 != [] {
          b1 := b1[1..];
        }
      } else {
        if DirectoryLen() >= 2 * cap {
          DropGhost();
        }
        Replace();
      }
    }

    method InsertEntry(key: K, entry: CacheEntry<V>) returns (replaced: Option<V>)
      requires State().Valid()
      modifies this
      ensures (State(), replaced) == Arc.InsertEntry(old(State()), key, entry)
    {
      replaced := None;
      if key in t1.entries {
        replaced := Some(t1.entries[key].value);
        t1 := t1.Remove(key);
        t2 := t2.Insert(key, entry);
      } else if key in t2.entries {
        replaced := Some(t2.entries[key].value);
        t2 := t2.Insert(key, entry);
      } else if key in b1 {
        b1 := Without(b1, key);
        p := Arc.Min(p + Arc.Max(|b2| / Arc.Max(|b1|, 1), 1), cap);
        if t1.Len() + t2.Len() >= cap { Replace(); }
        t2 := t2.Insert(key, entry);
      } else if key in b2 {
        b2 := Without(b2, key);
        p := Arc.Lower(p, |b1|, |b2|);
        if t1.Len() + t2.Len() >= cap { Replace(); }
        t2 := t2.Insert(key, entry);
      } else {
        AdmitMiss();
        t1 := t1.Insert(key, entry);
      }
    }

    method Put(key: K, value: V) returns (replaced: Option<V>)
      requires State().Valid()
      modifies this
      ensures State().Valid()
      ensures (State(), replaced) == Arc.Step(old(State()), Event(0, Op.Put(key, value)))
    {
      Arc.StepValid(State(), Event(0, Op.Put(key, value)));
      replaced := InsertEntry(key, CacheEntry(value, None));
    }

    method Get(key: K, now: nat) returns (hit: Option<V>)
      requires State().Valid()
      modifies this
      ensures State().Valid()
      ensures (State(), hit) == Arc.Step(old(State()), Event(now, Op.Get(key)))
    {
      Arc.LookupValid(State(), key, now);
      hit := None;
      if key in t1.entries {
        var entry := t1.entries[key];
        t1 := t1.Remove(key);
        if !entry.Expired(now) {
          t2 := t2.Insert(key, entry);
          hit := Some(entry.value);
        }
      } else if key in t2.entries {
        var entry := t2.entries[key];
        if entry.Expired(now) {
          t2 := t2.Remove(key);
        } else {
          t2 := t2.Insert(key, entry);
          hit := Some(entry.value);
        }
      } else if key in b1 {
        p := Arc.Raise(p, |b1|, |b2|, cap);
        Replace();
      } else if key in b2 {
        p := Arc.Lower(p, |b1|, |b2|);
        Replace();
      }
    }

    method Remove(key: K) returns (removed: Option<V>)
      requires State().Valid()
      modifies this
      ensures State().Valid()
      ensures (State(), removed) == Arc.Step(old(State()), Event(0, Op.Remove(key)))
    {
      Arc.DeleteValid(State(), key);
      if key in t1.entries {
        removed := Some(t1.entries[key].value);
        t1 := t1.Remove(key);
      } else if key in t2.entries {
        removed := Some(t2.entries[key].value);
        t2 := t2.Remove(key);
      } else {
        removed := None;
        b1, b2 := Without(b1, key), Without(b2, key);
      }
    }

    method Resize(newCap: nat)
      requires State().Valid()
      modifies this
      ensures State().Valid() && State() == Arc.Resized(old(State()), newCap)
      ensures cap == Arc.Max(newCap, 1) && State().Len() <= cap
    {
      cap := Arc.Max(newCap, 1);
      if p > cap { p := cap; }
      ghost var target := Arc.Resized(old(State()), newCap);
      while t1.Len() + t2.Len() > cap
        invariant State().Valid() && cap == Arc.Max(newCap, 1)
        invariant target == Arc.Fit(State())
        decreases t1.Len() + t2.Len()
      {
        Arc.ReplaceShrinks(State());
        Replace();
      }
    }

    /** `peek`: live lists only. */
    function Peek(key: K, now: nat): Option<V>
      reads this
    {
      if key in t1.entries then Caches.Peek(t1.entries, key, now) else Caches.Peek(t2.entries, key, now)
    }

    /** `Cache::get_or_insert`; `None` stands for the panic of its `expect`, which happens exactly when a
        live entry reaches its deadline between the two clock readings. */
    method GetOrInsert(key: K, value: V, checkedAt: nat, readAt: nat) returns (r: Option<V>)
      requires State().Valid() && checkedAt <= readAt
      modifies this
      ensures State().Valid()
      ensures r.None? <==> old(Peek(key, checkedAt)).Some? && old(Peek(key, readAt)).None?
      ensures r.Some? ==> r.value == if old(Peek(key, checkedAt)).Some? then old(Peek(key, checkedAt)).value else value
    {
      if Peek(key, checkedAt).None? {
        Arc.PutIsKept(State(), key, CacheEntry(value, None), readAt);
        hide Arc.InsertEntry;
        var _ := Put(key, value);
      }
      r := Peek(key, readAt);
    }
  }
}
