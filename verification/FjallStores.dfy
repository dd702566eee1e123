/** The fjall-backed store as it works: two keyspaces changed through write batches, scans that walk
    a keyspace, transactions that buffer into a batch, and snapshots.  Every operation is proved to be
    the corresponding operation on the pair of maps. */
module FjallStores {
  import opened LinkedMaps
  import opened ByteOrder
  import opened PrefixScan
  import opened LittleEndian
  import opened TtlStore
  import opened Transactions
  import opened Words

  function EncodeExpiry(millis: nat): (r: seq<byte>)
    requires millis < U64
    ensures DecodeExpiry(r) == Some(millis)
  {
    Widths();
    DecodeEncode(millis, 8);
    Encode(millis, 8)
  }

  function DecodeExpiry(bytes: seq<byte>): Option<nat> {
    if |bytes| == 8 then Some(Decode(bytes)) else None
  }

  function DecodeAll(raw: map<Key, seq<byte>>): map<Key, nat> {
    map k | k in raw :: Decode(raw[k])
  }

  lemma DecodeInsert(raw: map<Key, seq<byte>>, k: Key, b: seq<byte>)
    ensures DecodeAll(raw[k := b]) == DecodeAll(raw)[k := Decode(b)]
  {
  }

  lemma DecodeRemove(raw: map<Key, seq<byte>>, k: Key)
    ensures DecodeAll(raw - {k}) == DecodeAll(raw) - {k}
  {
  }

  predicate ValidBatch(batch: seq<BatchOp>) {
    forall i :: 0 <= i < |batch| && batch[i].InsertTtl? ==> |batch[i].bytes| == 8
  }

  lemma CommitWrite(s: State, batch: seq<BatchOp>, pairs: seq<(Key, Val)>, i: nat)
    requires i < |pairs| && Commit(s, batch) == WriteAll(s, pairs[..i])
    ensures Commit(s, batch + [Insert(pairs[i].0, pairs[i].1), RemoveTtl(pairs[i].0)]) == WriteAll(s, pairs[..i + 1])
  {
    CommitTwo(s, batch, Insert(pairs[i].0, pairs[i].1), RemoveTtl(pairs[i].0));
    assert pairs[..i + 1][..i] == pairs[..i];
  }

  function KeySet(keys: seq<Key>): set<Key> {
    set k | k in keys
  }

  lemma CommitErase(s: State, batch: seq<BatchOp>, keys: seq<Key>, i: nat)
    requires i < |keys| && Commit(s, batch) == EraseAll(s, KeySet(keys[..i]))
    ensures Commit(s, batch + [Remove(keys[i]), RemoveTtl(keys[i])]) == EraseAll(s, KeySet(keys[..i + 1]))
  {
    CommitTwo(s, batch, Remove(keys[i]), RemoveTtl(keys[i]));
    assert keys[..i + 1] == keys[..i] + [keys[i]];
    assert KeySet(keys[..i + 1]) == KeySet(keys[..i]) + {keys[i]};
    EraseMore(s, KeySet(keys[..i]), keys[i]);
  }

  lemma EraseMore(s: State, ks: set<Key>, k: Key)
    ensures Erase(EraseAll(s, ks), k) == EraseAll(s, ks + {k})
  {
    assert s.data - ks - {k} == s.data - (ks + {k});
    assert s.ttl - ks - {k} == s.ttl - (ks + {k});
  }

  /** A batch that removes a list of keys from both keyspaces. */
  method RemovalBatch(ghost s: State, keys: seq<Key>) returns (batch: seq<BatchOp>)
    ensures ValidBatch(batch) && Commit(s, batch) == EraseAll(s, KeySet(keys))
  {
    batch := [];
    EraseNothing(s);
    for i := 0 to |keys|
      invariant ValidBatch(batch) && Commit(s, batch) == EraseAll(s, KeySet(keys[..i]))
    {
      CommitErase(s, batch, keys, i);
      batch := batch + [Remove(keys[i]), RemoveTtl(keys[i])];
    }
    assert keys[..|keys|] == keys;
  }

  /** A batch that writes a list of pairs and clears their expiries. */
  method WritingBatch(ghost s: State, pairs: seq<(Key, Val)>) returns (batch: seq<BatchOp>)
    ensures ValidBatch(batch) && Commit(s, batch) == WriteAll(s, pairs)
  {
    batch := [];
    for i := 0 to |pairs|
      invariant ValidBatch(batch) && Commit(s, batch) == WriteAll(s, pairs[..i])
    {
      CommitWrite(s, batch, pairs, i);
      batch := batch + [Insert(pairs[i].0, pairs[i].1), RemoveTtl(pairs[i].0)];
    }
    assert pairs[..|pairs|] == pairs;
  }

  class FjallStore {
    var keyspace: map<Key, Val>
    var ttlKeyspace: map<Key, seq<byte>>

    ghost predicate Valid()
      reads this
    {
      forall k :: k in ttlKeyspace ==> |ttlKeyspace[k]| == 8
    }

    ghost function State(): State
      reads this
    {
      TtlStore.State(keyspace, DecodeAll(ttlKeyspace))
    }

    constructor ()
      ensures Valid() && State() == TtlStore.State(map[], map[])
    {
      keyspace := map[];
      ttlKeyspace := map[];
    }

    method ApplyOne(op: BatchOp)
      requires Valid() && (op.InsertTtl? ==> |op.bytes| == 8)
      modifies this
      ensures Valid() && State() == Apply(old(State()), op)
    {
      match op
      case Insert(k, v) => keyspace := keyspace[k := v];
      case Remove(k) => keyspace := keyspace - {k};
      case InsertTtl(k, b) =>
        DecodeInsert(ttlKeyspace, k, b);
        ttlKeyspace := ttlKeyspace[k := b];
      case RemoveTtl(k) =>
        DecodeRemove(ttlKeyspace, k);
        ttlKeyspace := ttlKeyspace - {k};
    }

    /** Commits a write batch. */
    method CommitBatch(batch: seq<BatchOp>)
      requires Valid() && ValidBatch(batch)
      modifies this
      ensures Valid() && State() == Commit(old(State()), batch)
    {
      for i := 0 to |batch|
        invariant Valid() && State() == Commit(old(State()), batch[..i])
      {
        assert batch[..i + 1][..i] == batch[..i];
        ApplyOne(batch[i]);
      }
      assert batch[..|batch|] == batch;
    }

    method IsTtlExpired(key: Key, now: nat) returns (expired: bool)
      requires Valid()
      ensures expired == Expired(State().ttl, key, now)
    {
      if key in ttlKeyspace {
        var expiry := DecodeExpiry(ttlKeyspace[key]);
        expired := expiry.Some? && expiry.value <= now;
      } else {
        expired := false;
      }
    }

    /** Removes an expired key on the way: two removals in one batch. */
    method Evict(key: Key)
      requires Valid()
      modifies this
      ensures Valid() && State() == Erase(old(State()), key)
    {
      CommitTwo(State(), [], Remove(key), RemoveTtl(key));
      assert [] + [Remove(key), RemoveTtl(key)] == [Remove(key), RemoveTtl(key)];
      CommitBatch([Remove(key), RemoveTtl(key)]);
    }

    method Get(key: Key, now: nat) returns (r: Option<Val>)
      requires Valid()
      modifies this
      ensures Valid() && (State(), Value(r)) == Step(old(State()), now, TtlStore.Get(key))
    {
      var expired := IsTtlExpired(key, now);
      if expired {
        Evict(key);
        return None;
      }
      r := if key in keyspace then Some(keyspace[key]) else None;
    }

    method Put(key: Key, value: Val)
      requires Valid()
      modifies this
      ensures Valid() && State() == Step(old(State()), 0, TtlStore.Put(key, value)).0
    {
      CommitTwo(State(), [], Insert(key, value), RemoveTtl(key));
      assert [] + [Insert(key, value), RemoveTtl(key)] == [Insert(key, value), RemoveTtl(key)];
      CommitBatch([Insert(key, value), RemoveTtl(key)]);
    }

    method Delete(key: Key)
      requires Valid()
      modifies this
      ensures Valid() && State() == Step(old(State()), 0, TtlStore.Delete(key)).0
    {
      Evict(key);
    }

    method BatchWrite(pairs: seq<(Key, Val)>)
      requires Valid()
      modifies this
      ensures Valid() && State() == Step(old(State()), 0, TtlStore.BatchWrite(pairs)).0
    {
      var batch := WritingBatch(State(), pairs);
      CommitBatch(batch);
    }

    method BatchDelete(keys: seq<Key>)
      requires Valid()
      modifies this
      ensures Valid() && State() == Step(old(State()), 0, TtlStore.BatchDelete(keys)).0
    {
      var batch := RemovalBatch(State(), keys);
      CommitBatch(batch);
    }

    /** Walks the pairs of a part of the data keyspace in key order and skips the expired ones. */
    method Scan(part: map<Key, Val>, now: nat) returns (pairs: seq<(Key, Val)>)
      requires Valid()
      ensures pairs == Listing(Unexpired(part, State().ttl, now))
    {
      var all := Sorted(part.Keys);
      SortedAscending(part.Keys);
      ghost var live := Unexpired(part, State().ttl, now);
      pairs := [];
      SelectNone(all, live);
      for i := 0 to |all|
        invariant Selects(pairs, all, i, live)
      {
        var key := all[i];
        assert key in all;
        var expired := IsTtlExpired(key, now);
        if expired {
          SelectSkip(pairs, all, i, live);
        } else {
          SelectKeep(pairs, all, i, live);
          pairs := pairs + [(key, part[key])];
        }
      }
      SelectDone(pairs, all, live);
    }

    method Range(lo: Key, hi: Key, now: nat) returns (pairs: seq<(Key, Val)>)
      requires Valid()
      ensures pairs == Listing(InRange(View(State(), now), lo, hi))
      ensures Items(pairs) == Step(State(), now, TtlStore.Range(lo, hi)).1
    {
      UnexpiredRange(State(), now, lo, hi);
      pairs := Scan(InRange(keyspace, lo, hi), now);
    }

    method Prefix(prefix: Key, now: nat) returns (pairs: seq<(Key, Val)>)
      requires Valid()
      ensures pairs == Listing(WithPrefix(View(State(), now), prefix))
      ensures Items(pairs) == Step(State(), now, TtlStore.Prefix(prefix)).1
    {
      UnexpiredPrefix(State(), now, prefix);
      pairs := Scan(WithPrefix(keyspace, prefix), now);
    }

    method Iter(now: nat) returns (pairs: seq<(Key, Val)>)
      requires Valid()
      ensures pairs == Listing(View(State(), now))
      ensures Items(pairs) == Step(State(), now, TtlStore.Iter).1
    {
      pairs := Scan(keyspace, now);
    }

    method Keys(now: nat) returns (keys: seq<Key>)
      requires Valid()
      ensures keys == Sorted(View(State(), now).Keys)
      ensures KeyList(keys) == Step(State(), now, ListKeys).1
    {
      keys := [];
      var all := Sorted(keyspace.Keys);
      ghost var live := View(State(), now);
      assert Chosen(all[..0], live.Keys) == [];
      hide Sorted, Chosen;
      for i := 0 to |all|
        invariant keys == Chosen(all[..i], live.Keys)
      {
        ChooseNext(all, i, live.Keys);
        assert all[i] in all;
        var expired := IsTtlExpired(all[i], now);
        if !expired { keys := keys + [all[i]]; }
      }
      assert all[..|all|] == all;
      ChooseSorted(keyspace.Keys, live.Keys);
      KeysListed(State(), now);
      hide Step;
    }

    method Count(now: nat) returns (count: nat)
      requires Valid()
      ensures count == |View(State(), now).Keys|
    {
      count := 0;
      var all := Sorted(keyspace.Keys);
      ghost var live := View(State(), now);
      for i := 0 to |all|
        invariant count == |Chosen(all[..i], live.Keys)|
      {
        ChooseNext(all, i, live.Keys);
        assert all[i] in all;
        var expired := IsTtlExpired(all[i], now);
        if !expired { count := count + 1; }
      }
      assert all[..|all|] == all;
      ChooseAll(keyspace.Keys, live.Keys);
    }

    method PutWithTtl(key: Key, value: Val, expiry: nat)
      requires Valid() && expiry < U64
      modifies this
      ensures Valid() && State() == Step(old(State()), 0, TtlStore.PutWithTtl(key, value, expiry)).0
    {
      var bytes := EncodeExpiry(expiry);
      CommitTwo(State(), [], Insert(key, value), InsertTtl(key, bytes));
      assert [] + [Insert(key, value), InsertTtl(key, bytes)] == [Insert(key, value), InsertTtl(key, bytes)];
      CommitBatch([Insert(key, value), InsertTtl(key, bytes)]);
    }

    method Expire(key: Key, expiry: nat) returns (found: bool)
      requires Valid() && expiry < U64
      modifies this
      ensures Valid()
      ensures (State(), if found then Done else KeyNotFound) == Step(old(State()), 0, TtlStore.Expire(key, expiry))
    {
      if key !in keyspace { return false; }
      var bytes := EncodeExpiry(expiry);
      DecodeInsert(ttlKeyspace, key, bytes);
      ttlKeyspace := ttlKeyspace[key := bytes];
      found := true;
    }

    method Ttl(key: Key, now: nat) returns (r: Out)
      requires Valid()
      modifies this
      ensures Valid() && (State(), r) == Step(old(State()), now, TtlStore.Ttl(key))
    {
      if key !in keyspace { return KeyNotFound; }
      if key !in ttlKeyspace { return Remaining(None); }
      var expiry := Decode(ttlKeyspace[key]);
      if expiry <= now {
        Evict(key);
        return KeyNotFound;
      }
      return Remaining(Some(expiry - now));
    }

    method Persist(key: Key) returns (r: Out)
      requires Valid()
      modifies this
      ensures Valid() && (State(), r) == Step(old(State()), 0, TtlStore.Persist(key))
    {
      if key !in keyspace { return KeyNotFound; }
      DecodeRemove(ttlKeyspace, key);
      if key in ttlKeyspace {
        ttlKeyspace := ttlKeyspace - {key};
        return Had(true);
      }
      assert DecodeAll(ttlKeyspace) - {key} == DecodeAll(ttlKeyspace);
      return Had(false);
    }

    method CollectExpired(now: nat) returns (expired: seq<Key>)
      requires Valid()
      ensures KeySet(expired) == ExpiredKeys(State(), now) && |expired| == |ExpiredKeys(State(), now)|
    {
      expired := [];
      var all := Sorted(ttlKeyspace.Keys);
      ghost var dead := ExpiredKeys(State(), now);
      assert Chosen(all[..0], dead) == [];
      hide Sorted, Chosen;
      for i := 0 to |all|
        invariant expired == Chosen(all[..i], dead)
      {
        ChooseNext(all, i, dead);
        assert all[i] in all;
        var gone := IsTtlExpired(all[i], now);
        if gone { expired := expired + [all[i]]; }
      }
      assert all[..|all|] == all;
      ChooseAll(ttlKeyspace.Keys, dead);
    }

    method PurgeExpired(now: nat) returns (count: nat)
      requires Valid()
      modifies this
      ensures Valid() && (State(), Number(count)) == Step(old(State()), now, TtlStore.PurgeExpired)
    {
      var expired := CollectExpired(now);
      if expired == [] {
        EraseNothing(State());
        return 0;
      }
      var batch := RemovalBatch(State(), expired);
      CommitBatch(batch);
      count := |expired|;
    }
  }

  /** The listed keys that lie in a set, in order. */
  ghost function Chosen(keys: seq<Key>, part: set<Key>): seq<Key>
    decreases |keys|
  {
    if keys == [] then [] else
      var last := keys[|keys| - 1];
      Chosen(keys[..|keys| - 1], part) + if last in part then [last] else []
  }

  lemma KeysListed(s: State, now: nat)
    ensures KeyList(Sorted(View(s, now).Keys)) == Step(s, now, ListKeys).1
  {
  }

  lemma ChooseNext(all: seq<Key>, i: nat, part: set<Key>)
    requires i < |all|
    ensures Chosen(all[..i + 1], part) == Chosen(all[..i], part) + if all[i] in part then [all[i]] else []
  {
    assert all[..i + 1][..i] == all[..i];
  }

  lemma ChooseAll(keys: set<Key>, part: set<Key>)
    requires part <= keys
    ensures KeySet(Chosen(Sorted(keys), part)) == part && |Chosen(Sorted(keys), part)| == |part|
  {
    ChooseSorted(keys, part);
  }

  lemma {:induction false} ChosenAscending(keys: seq<Key>, part: set<Key>)
    requires Ascending(keys)
    ensures Ascending(Chosen(keys, part)) && forall k :: k in Chosen(keys, part) <==> k in keys && k in part
    decreases |keys|
  {
    if keys != [] {
      var front, last := keys[..|keys| - 1], keys[|keys| - 1];
      ChosenAscending(front, part);
      assert keys == front + [last];
      assert forall k :: k in front ==> Less(k, last);
      AscendingSnoc(Chosen(front, part), last);
    }
  }

  lemma ChooseSorted(keys: set<Key>, part: set<Key>)
    requires part <= keys
    ensures Chosen(Sorted(keys), part) == Sorted(part)
  {
    SortedAscending(keys);
    ChosenAscending(Sorted(keys), part);
    SortedIs(part, Chosen(Sorted(keys), part));
  }
}
