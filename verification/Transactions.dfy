/** Buffered write transactions and snapshots over the store with expiries. */
module Transactions {
  import opened LinkedMaps
  import opened ByteOrder
  import opened PrefixScan
  import opened LittleEndian
  import opened TtlStore

  /** One entry of a write batch; the batch is applied in order and all at once. */
  datatype BatchOp =
    | Insert(key: Key, value: Val)
    | Remove(key: Key)
    | InsertTtl(key: Key, bytes: seq<byte>)
    | RemoveTtl(key: Key)

  function Apply(s: State, op: BatchOp): State {
    match op
    case Insert(k, v) => s.(data := s.data[k := v])
    case Remove(k) => s.(data := s.data - {k})
    case InsertTtl(k, b) => s.(ttl := s.ttl[k := Decode(b)])
    case RemoveTtl(k) => s.(ttl := s.ttl - {k})
  }

  function Commit(s: State, batch: seq<BatchOp>): State
    decreases |batch|
  {
    if batch == [] then s else Apply(Commit(s, batch[..|batch| - 1]), batch[|batch| - 1])
  }

  lemma CommitTwo(s: State, batch: seq<BatchOp>, a: BatchOp, b: BatchOp)
    ensures Commit(s, batch + [a, b]) == Apply(Apply(Commit(s, batch), a), b)
  {
    var all := batch + [a, b];
    assert all[..|all| - 1] == batch + [a];
    assert (batch + [a])[..|batch|] == batch;
  }

  // ---------------------------------------------------------------------
  // The overlay
  // ---------------------------------------------------------------------

  datatype Txn = Txn(batch: seq<BatchOp>, overlay: map<Key, TxnOp>)

  const BEGIN := Txn([], map[])

  function TxnWrite(t: Txn, k: Key, op: TxnOp): Txn {
    Txn(t.batch + [if op.TxnPut? then Insert(k, op.value) else Remove(k), RemoveTtl(k)], t.overlay[k := op])
  }

  /** A transaction after the given writes, in order. */
  function TxnOf(writes: seq<(Key, TxnOp)>): Txn
    decreases |writes|
  {
    if writes == [] then BEGIN else
      var last := writes[|writes| - 1];
      TxnWrite(TxnOf(writes[..|writes| - 1]), last.0, last.1)
  }

  function Overlaid(m: map<Key, Val>, overlay: map<Key, TxnOp>): map<Key, Val> {
    map k | k in m.Keys + overlay.Keys && (k in overlay ==> overlay[k].TxnPut?) ::
      if k in overlay then overlay[k].value else m[k]
  }

  function TxnGet(s: State, t: Txn, k: Key, now: nat): Option<Val> {
    if k in t.overlay then (if t.overlay[k].TxnPut? then Some(t.overlay[k].value) else None)
    else if Expired(s.ttl, k, now) then None
    else Lookup(s.data, k)
  }

  /** Committing the batch writes exactly what the overlay shows, whatever the store holds by then. */
  lemma {:induction false} CommitIsOverlay(s: State, writes: seq<(Key, TxnOp)>)
    ensures var t := TxnOf(writes);
            Commit(s, t.batch) == State(Overlaid(s.data, t.overlay), s.ttl - t.overlay.Keys)
    decreases |writes|
  {
    if writes == [] {
      assert Overlaid(s.data, map[]) == s.data;
      assert s.ttl - {} == s.ttl;
    } else {
      var front, last := writes[..|writes| - 1], writes[|writes| - 1];
      CommitIsOverlay(s, front);
      OverlayWrite(s, TxnOf(front), last.0, last.1);
    }
  }

  lemma OverlayWrite(s: State, t: Txn, k: Key, op: TxnOp)
    requires Commit(s, t.batch) == State(Overlaid(s.data, t.overlay), s.ttl - t.overlay.Keys)
    ensures Commit(s, TxnWrite(t, k, op).batch) ==
            State(Overlaid(s.data, t.overlay[k := op]), s.ttl - t.overlay[k := op].Keys)
  {
    CommitTwo(s, t.batch, if op.TxnPut? then Insert(k, op.value) else Remove(k), RemoveTtl(k));
    OverlaidWrite(s.data, t.overlay, k, op);
    ClearedTtl(s.ttl, t.overlay, k, op);
  }

  lemma ClearedTtl(ttl: map<Key, nat>, overlay: map<Key, TxnOp>, k: Key, op: TxnOp)
    ensures ttl - overlay.Keys - {k} == ttl - overlay[k := op].Keys
  {
    assert overlay[k := op].Keys == overlay.Keys + {k};
  }

  lemma OverlaidWrite(m: map<Key, Val>, overlay: map<Key, TxnOp>, k: Key, op: TxnOp)
    ensures Overlaid(m, overlay[k := op]) ==
            if op.TxnPut? then Overlaid(m, overlay)[k := op.value] else Overlaid(m, overlay) - {k}
  {
  }

  /** The view after a commit at any time is the overlay on the view before it. */
  lemma CommitView(s: State, writes: seq<(Key, TxnOp)>, now: nat)
    ensures View(Commit(s, TxnOf(writes).batch), now) == Overlaid(View(s, now), TxnOf(writes).overlay)
  {
    CommitIsOverlay(s, writes);
    OverlaidView(s, TxnOf(writes).overlay, now);
  }

  lemma OverlaidView(s: State, overlay: map<Key, TxnOp>, now: nat)
    ensures Unexpired(Overlaid(s.data, overlay), s.ttl - overlay.Keys, now) == Overlaid(View(s, now), overlay)
  {
    var a, b := Unexpired(Overlaid(s.data, overlay), s.ttl - overlay.Keys, now), Overlaid(View(s, now), overlay);
    assert a.Keys == b.Keys;
  }

  /** Reading inside the transaction is reading the store as if the transaction had just committed. */
  lemma ReadYourWrites(s: State, writes: seq<(Key, TxnOp)>, k: Key, now: nat)
    ensures TxnGet(s, TxnOf(writes), k, now) == Lookup(View(Commit(s, TxnOf(writes).batch), now), k)
  {
    CommitView(s, writes, now);
  }

  /** Committing is doing the buffered writes one after the other. */
  lemma {:induction false} CommitIsEach(s: State, writes: seq<(Key, TxnOp)>)
    ensures Commit(s, TxnOf(writes).batch) == Each(s, writes)
    decreases |writes|
  {
    if writes != [] {
      var front, k, op := writes[..|writes| - 1], writes[|writes| - 1].0, writes[|writes| - 1].1;
      CommitIsEach(s, front);
      CommitTwo(s, TxnOf(front).batch, if op.TxnPut? then Insert(k, op.value) else Remove(k), RemoveTtl(k));
    }
  }

  // ---------------------------------------------------------------------
  // Range reads: committed pairs first, then the overlay
  // ---------------------------------------------------------------------

  /** The overlay entries with a key in the range. */
  function OverlayRange(overlay: map<Key, TxnOp>, lo: Key, hi: Key): map<Key, TxnOp> {
    map k | k in overlay && LessEq(lo, k) && Less(k, hi) :: overlay[k]
  }

  lemma OverlaidRange(m: map<Key, Val>, overlay: map<Key, TxnOp>, lo: Key, hi: Key)
    ensures Overlaid(InRange(m, lo, hi), OverlayRange(overlay, lo, hi)) == InRange(Overlaid(m, overlay), lo, hi)
  {
    var a := Overlaid(InRange(m, lo, hi), OverlayRange(overlay, lo, hi));
    var b := InRange(Overlaid(m, overlay), lo, hi);
    assert a.Keys == b.Keys;
  }

  /** A range read: the unexpired committed pairs, then the overlay's part merged in.  `None` stands for
      the panic of the overlay's ordered map, which refuses a range that starts above its end once it
      holds an entry. */
  function TxnRange(s: State, t: Txn, lo: Key, hi: Key, now: nat): Option<seq<(Key, Val)>> {
    if t.overlay != map[] && Less(hi, lo) then None
    else Some(Listing(Overlaid(Unexpired(InRange(s.data, lo, hi), s.ttl, now), OverlayRange(t.overlay, lo, hi))))
  }

  /** A range read panics exactly for a range upside down after at least one write; otherwise it lists
      the range of the store as if the transaction had just committed. */
  lemma RangeReadYourWrites(s: State, writes: seq<(Key, TxnOp)>, lo: Key, hi: Key, now: nat)
    ensures TxnRange(s, TxnOf(writes), lo, hi, now) ==
            if writes != [] && Less(hi, lo) then None
            else Some(Listing(InRange(View(Commit(s, TxnOf(writes).batch), now), lo, hi)))
  {
    OverlayEmptyIff(writes);
    CommitView(s, writes, now);
    UnexpiredRange(s, now, lo, hi);
    OverlaidRange(View(s, now), TxnOf(writes).overlay, lo, hi);
  }

  lemma OverlayEmptyIff(writes: seq<(Key, TxnOp)>)
    ensures TxnOf(writes).overlay == map[] <==> writes == []
  {
    if writes != [] { assert writes[|writes| - 1].0 in TxnOf(writes).overlay; }
  }
}
