/** Transactions and snapshots of the fjall-backed store. */
module FjallTransactions {
  import opened LinkedMaps
  import opened ByteOrder
  import opened PrefixScan
  import opened TtlStore
  import opened Transactions
  import opened FjallStores

  lemma {:induction false} TxnBatchValid(writes: seq<(Key, TxnOp)>)
    ensures ValidBatch(TxnOf(writes).batch)
    decreases |writes|
  {
    if writes != [] { TxnBatchValid(writes[..|writes| - 1]); }
  }

  lemma TxnOfSnoc(writes: seq<(Key, TxnOp)>, k: Key, op: TxnOp)
    ensures TxnOf(writes + [(k, op)]) == TxnWrite(TxnOf(writes), k, op)
  {
    assert (writes + [(k, op)])[..|writes|] == writes;
  }

  /** The part of a map whose keys are among the first `i` of its sorted keys. */
  ghost function FirstKeys<V>(m: map<Key, V>, i: nat): map<Key, V>
    requires i <= |m.Keys|
  {
    var done := Sorted(m.Keys)[..i];
    map k | k in m && k in done :: m[k]
  }

  lemma FirstKeysNext<V>(m: map<Key, V>, i: nat)
    requires i < |m.Keys|
    ensures var k := Sorted(m.Keys)[i]; k in m && FirstKeys(m, i + 1) == FirstKeys(m, i)[k := m[k]]
  {
    var all := Sorted(m.Keys);
    hide Sorted;
    assert all[i] in all && all[..i + 1] == all[..i] + [all[i]];
    assert forall k :: k in all[..i + 1] <==> k in all[..i] || k == all[i];
  }

  lemma FirstKeysAll<V>(m: map<Key, V>)
    ensures FirstKeys(m, 0) == map[] && FirstKeys(m, |m.Keys|) == m
  {
    var all := Sorted(m.Keys);
    hide Sorted;
    assert all[..|all|] == all && all[..0] == [];
    assert forall k :: k in m ==> k in all;
  }

  /** A pair listing as a map: what collecting it into an ordered map yields. */
  method Collect(pairs: seq<(Key, Val)>, ghost m: map<Key, Val>) returns (r: map<Key, Val>)
    requires pairs == Listing(m)
    ensures r == m
  {
    r := map[];
    FirstKeysAll(m);
    for i := 0 to |pairs|
      invariant r == FirstKeys(m, i)
    {
      FirstKeysNext(m, i);
      r := r[pairs[i].0 := pairs[i].1];
    }
  }

  /** Merging the overlay key by key gives the overlaid map. */
  method ApplyOverlay(m: map<Key, Val>, overlay: map<Key, TxnOp>) returns (r: map<Key, Val>)
    ensures r == Overlaid(m, overlay)
  {
    r := m;
    var keys := Sorted(overlay.Keys);
    FirstKeysAll(overlay);
    OverlaidNothing(m);
    hide Sorted, Overlaid, FirstKeys;
    for i := 0 to |keys|
      invariant r == Overlaid(m, FirstKeys(overlay, i))
    {
      FirstKeysNext(overlay, i);
      OverlaidWrite(m, FirstKeys(overlay, i), keys[i], overlay[keys[i]]);
      match overlay[keys[i]]
      case TxnPut(v) => r := r[keys[i] := v];
      case TxnDelete => r := r - {keys[i]};
    }
  }

  lemma OverlaidNothing(m: map<Key, Val>)
    ensures Overlaid(m, map[]) == m
  {
  }

  class FjallTxn {
    const store: FjallStore
    /** None once the transaction is committed or rolled back. */
    var batch: Option<seq<BatchOp>>
    var overlay: map<Key, TxnOp>
    ghost var writes: seq<(Key, TxnOp)>

    ghost predicate Valid()
      reads this
    {
      batch.Some? && TxnOf(writes) == Txn(batch.value, overlay)
    }

    constructor (s: FjallStore)
      ensures Valid() && store == s && writes == []
    {
      store := s;
      batch := Some([]);
      overlay := map[];
      writes := [];
    }

    /** A read sees the store as it would be had the transaction just committed. */
    method Get(key: Key, now: nat) returns (r: Option<Val>)
      requires Valid() && store.Valid()
      ensures r == Lookup(View(Commit(store.State(), TxnOf(writes).batch), now), key)
    {
      ReadYourWrites(store.State(), writes, key, now);
      if key in overlay {
        return if overlay[key].TxnPut? then Some(overlay[key].value) else None;
      }
      var expired := store.IsTtlExpired(key, now);
      if expired { return None; }
      r := if key in store.keyspace then Some(store.keyspace[key]) else None;
    }

    method Put(key: Key, value: Val)
      requires Valid()
      modifies this
      ensures Valid() && writes == old(writes) + [(key, TxnPut(value))]
    {
      TxnOfSnoc(writes, key, TxnPut(value));
      batch := Some(batch.value + [Insert(key, value), RemoveTtl(key)]);
      overlay := overlay[key := TxnPut(value)];
      writes := writes + [(key, TxnPut(value))];
    }

    method Delete(key: Key)
      requires Valid()
      modifies this
      ensures Valid() && writes == old(writes) + [(key, TxnDelete)]
    {
      TxnOfSnoc(writes, key, TxnDelete);
      batch := Some(batch.value + [Remove(key), RemoveTtl(key)]);
      overlay := overlay[key := TxnDelete];
      writes := writes + [(key, TxnDelete)];
    }

    /** `None` stands for the panic of the overlay's ordered map. */
    method Range(lo: Key, hi: Key, now: nat) returns (r: Option<seq<(Key, Val)>>)
      requires Valid() && store.Valid()
      ensures r.None? <==> writes != [] && Less(hi, lo)
      ensures r.Some? ==> r.value == Listing(InRange(View(Commit(store.State(), TxnOf(writes).batch), now), lo, hi))
    {
      RangeReadYourWrites(store.State(), writes, lo, hi, now);
      OverlayEmptyIff(writes);
      var committed := store.Scan(InRange(store.keyspace, lo, hi), now);
      var merged := Collect(committed, Unexpired(InRange(store.keyspace, lo, hi), store.State().ttl, now));
      if overlay != map[] && Less(hi, lo) { return None; }
      merged := ApplyOverlay(merged, OverlayRange(overlay, lo, hi));
      r := Some(Listing(merged));
    }

    /** Commit does the buffered writes one after the other on the store as it is then. */
    method CommitTxn()
      requires Valid() && store.Valid()
      modifies this, store
      ensures store.Valid() && store.State() == Step(old(store.State()), 0, Transact(writes)).0
      ensures batch.None? && writes == old(writes)
    {
      TxnBatchValid(writes);
      CommitIsEach(store.State(), writes);
      hide Commit, Each;
      store.CommitBatch(batch.value);
      batch := None;
    }

    /** Rolling back drops the batch and does not touch the store. */
    method Rollback()
      requires Valid()
      modifies this
      ensures batch.None?
    {
      batch := None;
    }
  }

  /** Copies of both keyspaces and the capture time: later writes to the store cannot reach it. */
  class FjallSnap {
    const keyspace: map<Key, Val>
    const ttl: map<Key, nat>
    const capturedAt: nat

    constructor (s: FjallStore, now: nat)
      requires s.Valid()
      ensures keyspace == s.State().data && ttl == s.State().ttl && capturedAt == now
    {
      keyspace := s.keyspace;
      ttl := DecodeAll(s.ttlKeyspace);
      capturedAt := now;
    }

    /** The store's view at the time of capture. */
    function Captured(): map<Key, Val> {
      View(TtlStore.State(keyspace, ttl), capturedAt)
    }

    method ExpiredAtCapture(key: Key) returns (expired: bool)
      ensures expired == Expired(ttl, key, capturedAt)
    {
      expired := key in ttl && ttl[key] <= capturedAt;
    }

    method Get(key: Key) returns (r: Option<Val>)
      ensures r == Lookup(Captured(), key)
    {
      var expired := ExpiredAtCapture(key);
      if expired { return None; }
      r := if key in keyspace then Some(keyspace[key]) else None;
    }

    method Range(lo: Key, hi: Key) returns (pairs: seq<(Key, Val)>)
      ensures pairs == Listing(InRange(Captured(), lo, hi))
    {
      var part := InRange(keyspace, lo, hi);
      var all := Sorted(part.Keys);
      SortedAscending(part.Keys);
      ghost var live := Unexpired(part, ttl, capturedAt);
      UnexpiredRange(TtlStore.State(keyspace, ttl), capturedAt, lo, hi);
      pairs := [];
      SelectNone(all, live);
      for i := 0 to |all|
        invariant Selects(pairs, all, i, live)
      {
        assert all[i] in all;
        var expired := ExpiredAtCapture(all[i]);
        if expired {
          SelectSkip(pairs, all, i, live);
        } else {
          SelectKeep(pairs, all, i, live);
          pairs := pairs + [(all[i], part[all[i]])];
        }
      }
      SelectDone(pairs, all, live);
    }
  }
}
