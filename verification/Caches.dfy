/** What all cache policies share: entries with an optional deadline, the calls
    a client can make, and the reference map of last writes that a policy's
    answers are compared with. Every call carries the clock reading it sees. */
module Caches {
  import opened LinkedMaps

  datatype CacheEntry<V> = CacheEntry(value: V, expiresAt: Option<nat>) {
    predicate Expired(now: nat) {
      expiresAt.Some? && now >= expiresAt.value
    }
  }

  datatype Op<K, V> =
    | Put(key: K, value: V)
    | PutWithTtl(key: K, value: V, ttl: nat)
    | Get(key: K)
    | Remove(key: K)
    | Clear
    | Resize(cap: nat)
  {
    predicate IsPut() { Put? || PutWithTtl? }
  }

  datatype Event<K, V> = Event(now: nat, op: Op<K, V>) {
    /** The entry that a put stores: `CacheEntry::new` or `CacheEntry::with_ttl`. */
    function Entry(): CacheEntry<V>
      requires op.IsPut()
    {
      CacheEntry(op.value, if op.Put? then None else Some(now + op.ttl))
    }
  }

  /** `peek`: the stored value unless absent or expired. */
  function Peek<K, V>(entries: map<K, CacheEntry<V>>, k: K, now: nat): Option<V> {
    if k in entries && !entries[k].Expired(now) then Some(entries[k].value) else None
  }

  /** The entry is there, holds the value and has no deadline or one still ahead. */
  ghost predicate Serves<V>(entry: Option<CacheEntry<V>>, v: V, now: nat) {
    entry.Some? && entry.value.value == v && (entry.value.expiresAt.Some? ==> now < entry.value.expiresAt.value)
  }

  function Stored<K, V>(entries: map<K, CacheEntry<V>>, k: K): Option<CacheEntry<V>> {
    if k in entries then Some(entries[k]) else None
  }

  /** `peek` answers a value exactly when the entry is there with it and not overdue. */
  lemma PeekServes<K, V>(entries: map<K, CacheEntry<V>>, k: K, now: nat, v: V)
    ensures Peek(entries, k, now) == Some(v) <==> Serves(Stored(entries, k), v, now)
  {
  }

  /** Reference semantics of writes: an unbounded map of last puts. */
  function Written<K(==), V>(w: map<K, CacheEntry<V>>, ev: Event<K, V>): map<K, CacheEntry<V>> {
    match ev.op
    case Put(k, _) => w[k := ev.Entry()]
    case PutWithTtl(k, _, _) => w[k := ev.Entry()]
    case Remove(k) => w - {k}
    case Clear => map[]
    case Get(_) => w
    case Resize(_) => w
  }

  function WrittenAll<K(==), V>(evs: seq<Event<K, V>>): map<K, CacheEntry<V>> {
    if evs == [] then map[] else Written(WrittenAll(evs[..|evs| - 1]), evs[|evs| - 1])
  }

  /** Everything cached is exactly what was last written for that key. */
  ghost predicate Fresh<K(!new), V>(entries: map<K, CacheEntry<V>>, w: map<K, CacheEntry<V>>) {
    forall k :: k in entries ==> k in w && w[k] == entries[k]
  }
}
