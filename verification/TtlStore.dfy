/** A key-value store that keeps expiries in a second keyspace and removes expired keys lazily,
    against a reference that removes every expired key the moment it expires. */
module TtlStore {
  import opened LinkedMaps
  import opened ByteOrder
  import opened PrefixScan

  /** The data keyspace and the expiry keyspace. */
  datatype State = State(data: map<Key, Val>, ttl: map<Key, nat>)

  predicate Expired(ttl: map<Key, nat>, k: Key, now: nat) {
    k in ttl && ttl[k] <= now
  }

  function Unexpired(m: map<Key, Val>, ttl: map<Key, nat>, now: nat): map<Key, Val> {
    map k | k in m && !Expired(ttl, k, now) :: m[k]
  }

  /** What a reader may see at `now`. */
  function View(s: State, now: nat): map<Key, Val> {
    Unexpired(s.data, s.ttl, now)
  }

  function Lookup<V>(m: map<Key, V>, k: Key): Option<V> {
    if k in m then Some(m[k]) else None
  }

  /** Expiries exist only for stored keys. */
  predicate Coupled(s: State) {
    s.ttl.Keys <= s.data.Keys
  }

  // ---------------------------------------------------------------------
  // Operations of the lazy store
  // ---------------------------------------------------------------------

  function Write(s: State, k: Key, v: Val): State {
    State(s.data[k := v], s.ttl - {k})
  }

  function Erase(s: State, k: Key): State {
    State(s.data - {k}, s.ttl - {k})
  }

  function WriteAll(s: State, pairs: seq<(Key, Val)>): State
    decreases |pairs|
  {
    if pairs == [] then s else
      var last := pairs[|pairs| - 1];
      Write(WriteAll(s, pairs[..|pairs| - 1]), last.0, last.1)
  }

  function EraseAll(s: State, keys: set<Key>): State {
    State(s.data - keys, s.ttl - keys)
  }

  /** The writes of a transaction, one after the other. */
  function Each(s: State, writes: seq<(Key, TxnOp)>): State
    decreases |writes|
  {
    if writes == [] then s else
      var (k, op) := writes[|writes| - 1];
      var s' := Each(s, writes[..|writes| - 1]);
      if op.TxnPut? then Write(s', k, op.value) else Erase(s', k)
  }

  function ExpiredKeys(s: State, now: nat): set<Key> {
    set k | k in s.ttl && s.ttl[k] <= now
  }

  /** An expired key is removed from both keyspaces on the way. */
  function Touch(s: State, k: Key, now: nat): State {
    if Expired(s.ttl, k, now) then Erase(s, k) else s
  }

  datatype Op =
    | Get(key: Key)
    | Put(key: Key, value: Val)
    | Delete(key: Key)
    | BatchWrite(pairs: seq<(Key, Val)>)
    | BatchDelete(keys: seq<Key>)
    | PutWithTtl(key: Key, value: Val, expiry: nat)
    | Expire(key: Key, expiry: nat)
    | Ttl(key: Key)
    | Persist(key: Key)
    | PurgeExpired
    | Range(lo: Key, hi: Key)
    | Prefix(prefix: Key)
    | Iter
    | ListKeys
    | Count
    | Transact(writes: seq<(Key, TxnOp)>)

  /** A buffered write of a transaction. */
  datatype TxnOp = TxnPut(value: Val) | TxnDelete

  datatype Out =
    | Done
    | KeyNotFound
    | Value(value: Option<Val>)
    | Remaining(millis: Option<nat>)
    | Had(ttl: bool)
    | Items(pairs: seq<(Key, Val)>)
    | KeyList(keys: seq<Key>)
    | Number(n: nat)

  /** Scans walk the stored keys and skip the expired ones; only `get`, `ttl` and `purge_expired` remove. */
  function Query(s: State, now: nat, op: Op): Out {
    match op
    case Range(lo, hi) => Items(Listing(Unexpired(InRange(s.data, lo, hi), s.ttl, now)))
    case Prefix(p) => Items(Listing(Unexpired(WithPrefix(s.data, p), s.ttl, now)))
    case Iter => Items(Listing(View(s, now)))
    case ListKeys => KeyList(Sorted(View(s, now).Keys))
    case _ => Number(|View(s, now)|)
  }

  function TtlOut(s: State, k: Key, now: nat): Out {
    if k !in s.data then KeyNotFound
    else if k !in s.ttl then Remaining(None)
    else if s.ttl[k] <= now then KeyNotFound
    else Remaining(Some(s.ttl[k] - now))
  }

  function Step(s: State, now: nat, op: Op): (State, Out) {
    match op
    case Get(k) => (Touch(s, k, now), Value(Lookup(Touch(s, k, now).data, k)))
    case Put(k, v) => (Write(s, k, v), Done)
    case Delete(k) => (Erase(s, k), Done)
    case BatchWrite(pairs) => (WriteAll(s, pairs), Done)
    case BatchDelete(keys) => (EraseAll(s, set k | k in keys), Done)
    case PutWithTtl(k, v, e) => (State(s.data[k := v], s.ttl[k := e]), Done)
    case Expire(k, e) => if k in s.data then (s.(ttl := s.ttl[k := e]), Done) else (s, KeyNotFound)
    case Ttl(k) => (if k in s.data then Touch(s, k, now) else s, TtlOut(s, k, now))
    case Persist(k) => if k in s.data then (s.(ttl := s.ttl - {k}), Had(k in s.ttl)) else (s, KeyNotFound)
    case PurgeExpired => (EraseAll(s, ExpiredKeys(s, now)), Number(|ExpiredKeys(s, now)|))
    case Transact(writes) => (Each(s, writes), Done)
    case _ => (s, Query(s, now, op))
  }

  // ---------------------------------------------------------------------
  // The eager reference: one map of cells, swept before every operation
  // ---------------------------------------------------------------------

  datatype Cell = Cell(value: Val, expiry: Option<nat>) {
    predicate Alive(now: nat) { expiry.None? || now < expiry.value }
  }

  type Cells = map<Key, Cell>

  function Sweep(r: Cells, now: nat): Cells {
    map k | k in r && r[k].Alive(now) :: r[k]
  }

  function Values(r: Cells): map<Key, Val> {
    map k | k in r :: r[k].value
  }

  function PutAll(r: Cells, pairs: seq<(Key, Val)>): Cells
    decreases |pairs|
  {
    if pairs == [] then r else
      var last := pairs[|pairs| - 1];
      PutAll(r, pairs[..|pairs| - 1])[last.0 := Cell(last.1, None)]
  }

  function ApplyWrites(r: Cells, writes: seq<(Key, TxnOp)>): Cells
    decreases |writes|
  {
    if writes == [] then r else
      var (k, write) := writes[|writes| - 1];
      var r' := ApplyWrites(r, writes[..|writes| - 1]);
      if write.TxnPut? then r'[k := Cell(write.value, None)] else r' - {k}
  }

  function EagerQuery(r: Cells, op: Op): Out {
    match op
    case Range(lo, hi) => Items(Listing(InRange(Values(r), lo, hi)))
    case Prefix(p) => Items(Listing(WithPrefix(Values(r), p)))
    case Iter => Items(Listing(Values(r)))
    case ListKeys => KeyList(Sorted(r.Keys))
    case _ => Number(|r|)
  }

  /** The operation on cells none of which is expired. */
  function EagerOp(r: Cells, now: nat, op: Op): (Cells, Out) {
    match op
    case Get(k) => (r, Value(Lookup(Values(r), k)))
    case Put(k, v) => (r[k := Cell(v, None)], Done)
    case Delete(k) => (r - {k}, Done)
    case BatchWrite(pairs) => (PutAll(r, pairs), Done)
    case BatchDelete(keys) => (r - (set k | k in keys), Done)
    case PutWithTtl(k, v, e) => (r[k := Cell(v, Some(e))], Done)
    case Expire(k, e) => if k in r then (r[k := Cell(r[k].value, Some(e))], Done) else (r, KeyNotFound)
    case Ttl(k) =>
      (r, if k !in r then KeyNotFound
          else if r[k].expiry.None? then Remaining(None)
          else Remaining(Some(if now <= r[k].expiry.value then r[k].expiry.value - now else 0)))
    case Persist(k) =>
      if k in r then (r[k := Cell(r[k].value, None)], Had(r[k].expiry.Some?)) else (r, KeyNotFound)
    case PurgeExpired => (r, Number(0))
    case Transact(writes) => (ApplyWrites(r, writes), Done)
    case _ => (r, EagerQuery(r, op))
  }

  function EagerStep(r: Cells, now: nat, op: Op): (Cells, Out) {
    EagerOp(Sweep(r, now), now, op)
  }

  // ---------------------------------------------------------------------
  // Refinement
  // ---------------------------------------------------------------------

  function Abs(s: State): Cells {
    map k | k in s.data :: Cell(s.data[k], Lookup(s.ttl, k))
  }

  /** Indistinguishable to any reader from `now` on. */
  predicate Same(s: State, r: Cells, now: nat) {
    Sweep(Abs(s), now) == Sweep(r, now)
  }

  /** `expire` and `persist` look at raw presence: on an expired key that is still stored they act
      where an eager store would not find it. */
  predicate Revives(s: State, now: nat, op: Op) {
    (op.Expire? || op.Persist?) && op.key in s.data && Expired(s.ttl, op.key, now)
  }

  lemma SweepLater(r: Cells, now: nat, later: nat)
    requires now <= later
    ensures Sweep(Sweep(r, now), later) == Sweep(r, later)
  {
  }

  lemma SameLater(s: State, r: Cells, now: nat, later: nat)
    requires Same(s, r, now) && now <= later
    ensures Same(s, r, later)
  {
    SweepLater(Abs(s), now, later);
    SweepLater(r, now, later);
  }

  lemma ViewIsSwept(s: State, now: nat)
    ensures View(s, now) == Values(Sweep(Abs(s), now))
  {
  }

  lemma UnexpiredRange(s: State, now: nat, lo: Key, hi: Key)
    ensures Unexpired(InRange(s.data, lo, hi), s.ttl, now) == InRange(View(s, now), lo, hi)
  {
  }

  lemma UnexpiredPrefix(s: State, now: nat, p: Key)
    ensures Unexpired(WithPrefix(s.data, p), s.ttl, now) == WithPrefix(View(s, now), p)
  {
  }

  lemma ValuesKeys(r: Cells)
    ensures Values(r).Keys == r.Keys && |Values(r)| == |r|
  {
    assert Values(r).Keys == r.Keys;
  }

  lemma QueryRefines(s: State, r: Cells, now: nat, op: Op)
    requires Same(s, r, now)
    ensures Query(s, now, op) == EagerQuery(Sweep(r, now), op)
  {
    ViewIsSwept(s, now);
    ValuesKeys(Sweep(r, now));
    match op
    case Range(lo, hi) => UnexpiredRange(s, now, lo, hi);
    case Prefix(p) => UnexpiredPrefix(s, now, p);
    case _ =>
  }

  lemma WriteRefines(s: State, r: Cells, now: nat, k: Key, v: Val)
    requires Same(s, r, now)
    ensures Same(Write(s, k, v), r[k := Cell(v, None)], now)
  {
    assert Abs(Write(s, k, v)) == Abs(s)[k := Cell(v, None)];
    SweepUpdate(Abs(s), r, now, k, Cell(v, None));
  }

  lemma SweepUpdate(a: Cells, r: Cells, now: nat, k: Key, c: Cell)
    requires Sweep(a, now) == Sweep(r, now)
    ensures Sweep(a[k := c], now) == Sweep(r[k := c], now)
  {
    SweepOfUpdate(a, now, k, c);
    SweepOfUpdate(r, now, k, c);
  }

  lemma SweepOfUpdate(a: Cells, now: nat, k: Key, c: Cell)
    ensures Sweep(a[k := c], now) == if c.Alive(now) then Sweep(a, now)[k := c] else Sweep(a, now) - {k}
  {
  }

  lemma SweepRemove(a: Cells, r: Cells, now: nat, ks: set<Key>)
    requires Sweep(a, now) == Sweep(r, now)
    ensures Sweep(a - ks, now) == Sweep(r - ks, now)
  {
    assert Sweep(a - ks, now) == Sweep(a, now) - ks;
    assert Sweep(r - ks, now) == Sweep(r, now) - ks;
  }

  lemma SweepTwice(r: Cells, now: nat)
    ensures Sweep(Sweep(r, now), now) == Sweep(r, now)
  {
  }

  lemma {:induction false} WriteAllRefines(s: State, r: Cells, now: nat, pairs: seq<(Key, Val)>)
    requires Same(s, r, now)
    ensures Same(WriteAll(s, pairs), PutAll(r, pairs), now)
    decreases |pairs|
  {
    if pairs != [] {
      var front, last := pairs[..|pairs| - 1], pairs[|pairs| - 1];
      WriteAllRefines(s, r, now, front);
      WriteRefines(WriteAll(s, front), PutAll(r, front), now, last.0, last.1);
    }
  }

  lemma EraseAllRefines(s: State, r: Cells, now: nat, ks: set<Key>)
    requires Same(s, r, now)
    ensures Same(EraseAll(s, ks), r - ks, now)
  {
    assert Abs(EraseAll(s, ks)) == Abs(s) - ks;
    SweepRemove(Abs(s), r, now, ks);
  }

  /** Removing keys that no reader can see any more changes nothing, now or at any later time. */
  lemma EraseUnseen(s: State, now: nat, ks: set<Key>, later: nat)
    requires now <= later && forall k :: k in ks ==> k !in View(s, now)
    ensures Sweep(Abs(EraseAll(s, ks)), later) == Sweep(Abs(s), later)
  {
    assert Abs(EraseAll(s, ks)) == Abs(s) - ks;
    forall k | k in ks ensures k !in Sweep(Abs(s), later) {
      assert k in Sweep(Abs(s), later) ==> k in View(s, now);
    }
    assert Sweep(Abs(s) - ks, later) == Sweep(Abs(s), later);
  }

  lemma {:induction false} EachRefines(s: State, r: Cells, writes: seq<(Key, TxnOp)>, now: nat)
    requires Same(s, r, now)
    ensures Same(Each(s, writes), ApplyWrites(r, writes), now)
    decreases |writes|
  {
    if writes != [] {
      var front, k, write := writes[..|writes| - 1], writes[|writes| - 1].0, writes[|writes| - 1].1;
      EachRefines(s, r, front, now);
      hide Same;
      match write
      case TxnPut(v) => WriteRefines(Each(s, front), ApplyWrites(r, front), now, k, v);
      case TxnDelete => EraseAllRefines(Each(s, front), ApplyWrites(r, front), now, {k});
    }
  }

  lemma TouchUnseen(s: State, k: Key, now: nat)
    ensures Sweep(Abs(Touch(s, k, now)), now) == Sweep(Abs(s), now)
  {
    if Expired(s.ttl, k, now) {
      EraseUnseen(s, now, {k}, now);
      assert Erase(s, k) == EraseAll(s, {k});
    }
  }

  lemma PresentIff(s: State, r: Cells, now: nat, k: Key)
    requires Same(s, r, now)
    ensures k in Sweep(r, now) <==> k in s.data && !Expired(s.ttl, k, now)
    ensures k in Sweep(r, now) ==> Sweep(r, now)[k] == Cell(s.data[k], Lookup(s.ttl, k))
  {
    assert k in Sweep(Abs(s), now) <==> k in s.data && !Expired(s.ttl, k, now);
  }

  lemma PutWithTtlRefines(s: State, r: Cells, now: nat, k: Key, v: Val, e: nat)
    requires Same(s, r, now)
    ensures Same(State(s.data[k := v], s.ttl[k := e]), r[k := Cell(v, Some(e))], now)
  {
    assert Abs(State(s.data[k := v], s.ttl[k := e])) == Abs(s)[k := Cell(v, Some(e))];
    SweepUpdate(Abs(s), r, now, k, Cell(v, Some(e)));
  }

  lemma ExpireRefines(s: State, r: Cells, now: nat, k: Key, e: nat)
    requires Same(s, r, now) && k in s.data
    ensures Same(s.(ttl := s.ttl[k := e]), r[k := Cell(s.data[k], Some(e))], now)
  {
    assert Abs(s.(ttl := s.ttl[k := e])) == Abs(s)[k := Cell(s.data[k], Some(e))];
    SweepUpdate(Abs(s), r, now, k, Cell(s.data[k], Some(e)));
  }

  lemma PersistRefines(s: State, r: Cells, now: nat, k: Key)
    requires Same(s, r, now) && k in s.data
    ensures Same(s.(ttl := s.ttl - {k}), r[k := Cell(s.data[k], None)], now)
  {
    assert Abs(s.(ttl := s.ttl - {k})) == Abs(s)[k := Cell(s.data[k], None)];
    SweepUpdate(Abs(s), r, now, k, Cell(s.data[k], None));
  }

  ghost predicate StepMatches(s: State, r: Cells, now: nat, op: Op) {
    && Same(Step(s, now, op).0, EagerOp(r, now, op).0, now)
    && (op.PurgeExpired? || Step(s, now, op).1 == EagerOp(r, now, op).1)
  }

  lemma ChangeMatches(s: State, r: Cells, now: nat, op: Op)
    requires Same(s, r, now)
    requires op.Put? || op.Delete? || op.BatchWrite? || op.BatchDelete? || op.PutWithTtl? || op.Transact?
    ensures StepMatches(s, r, now, op)
  {
    hide Same;
    match op
    case Put(k, v) => WriteRefines(s, r, now, k, v);
    case Delete(k) => EraseAllRefines(s, r, now, {k});
    case BatchWrite(pairs) => WriteAllRefines(s, r, now, pairs);
    case BatchDelete(keys) => EraseAllRefines(s, r, now, set k | k in keys);
    case PutWithTtl(k, v, e) => PutWithTtlRefines(s, r, now, k, v, e);
    case Transact(writes) => EachRefines(s, r, writes, now);
  }

  lemma ExpiryOpMatches(s: State, r: Cells, now: nat, op: Op)
    requires Same(s, r, now) && Sweep(r, now) == r && !Revives(s, now, op)
    requires op.Expire? || op.Persist? || op.Ttl?
    ensures StepMatches(s, r, now, op)
  {
    PresentIff(s, r, now, op.key);
    TouchUnseen(s, op.key, now);
    match op
    case Expire(k, e) => if k in s.data { ExpireRefines(s, r, now, k, e); }
    case Persist(k) => if k in s.data { PersistRefines(s, r, now, k); }
    case Ttl(k) =>
  }

  lemma ReadMatches(s: State, r: Cells, now: nat, op: Op)
    requires Same(s, r, now) && Sweep(r, now) == r
    requires op.Get? || op.PurgeExpired? || op.Range? || op.Prefix? || op.Iter? || op.ListKeys? || op.Count?
    ensures StepMatches(s, r, now, op)
  {
    match op
    case Get(k) => TouchUnseen(s, k, now); PresentIff(s, r, now, k);
    case PurgeExpired => EraseUnseen(s, now, ExpiredKeys(s, now), now);
    case _ => QueryRefines(s, r, now, op); hide Query, EagerQuery;
  }

  /** One operation of the lazy store is the same operation of the eager one, unless it revives an
      expired key; only the number reported by `purge_expired` differs. */
  lemma StepRefines(s: State, r: Cells, now: nat, op: Op)
    requires Same(s, r, now) && !Revives(s, now, op)
    ensures Same(Step(s, now, op).0, EagerStep(r, now, op).0, now)
    ensures op.PurgeExpired? || Step(s, now, op).1 == EagerStep(r, now, op).1
  {
    SweepTwice(r, now);
    var r' := Sweep(r, now);
    assert Same(s, r', now);
    hide Same, Sweep, Step, EagerOp;
    if op.Put? || op.Delete? || op.BatchWrite? || op.BatchDelete? || op.PutWithTtl? || op.Transact? {
      ChangeMatches(s, r', now, op);
    } else if op.Expire? || op.Persist? || op.Ttl? {
      ExpiryOpMatches(s, r', now, op);
    } else {
      ReadMatches(s, r', now, op);
    }
  }

  /** When the operation does revive an expired key the two stores part: the lazy one answers as if
      the key were there. */
  lemma RevivalIsSeen(s: State, r: Cells, now: nat, op: Op)
    requires Same(s, r, now) && Revives(s, now, op)
    ensures Step(s, now, op).1 != EagerStep(r, now, op).1
    ensures op.Persist? ==> Lookup(View(Step(s, now, op).0, now), op.key) == Some(s.data[op.key])
  {
    PresentIff(s, r, now, op.key);
  }

  lemma AnswerAgreesIff(s: State, r: Cells, now: nat, op: Op)
    requires Same(s, r, now) && !op.PurgeExpired?
    ensures Step(s, now, op).1 == EagerStep(r, now, op).1 <==> !Revives(s, now, op)
  {
    if Revives(s, now, op) { RevivalIsSeen(s, r, now, op); } else { StepRefines(s, r, now, op); }
  }

  // ---------------------------------------------------------------------
  // Whole runs
  // ---------------------------------------------------------------------

  datatype Event = Event(now: nat, op: Op)

  predicate ClockRuns(run: seq<Event>) {
    forall i, j :: 0 <= i < j < |run| ==> run[i].now <= run[j].now
  }

  function Run(s: State, run: seq<Event>): State
    decreases |run|
  {
    if run == [] then s else
      var last := run[|run| - 1];
      Step(Run(s, run[..|run| - 1]), last.now, last.op).0
  }

  function EagerRun(r: Cells, run: seq<Event>): Cells
    decreases |run|
  {
    if run == [] then r else
      var last := run[|run| - 1];
      EagerStep(EagerRun(r, run[..|run| - 1]), last.now, last.op).0
  }

  /** No operation of the run revives an expired key. */
  predicate Tame(s: State, run: seq<Event>)
    decreases |run|
  {
    run == [] ||
    (Tame(s, run[..|run| - 1]) &&
     !Revives(Run(s, run[..|run| - 1]), run[|run| - 1].now, run[|run| - 1].op))
  }

  /** After any run under a clock that does not go back, the lazy store cannot be told from the
      eager one, now or at any later time. */
  lemma {:induction false} RunRefines(s: State, r: Cells, start: nat, run: seq<Event>, now: nat)
    requires Same(s, r, start) && ClockRuns(run) && Tame(s, run)
    requires start <= now && forall i :: 0 <= i < |run| ==> start <= run[i].now <= now
    ensures Same(Run(s, run), EagerRun(r, run), now)
    decreases |run|
  {
    if run == [] {
      SameLater(s, r, start, now);
    } else {
      var front, last := run[..|run| - 1], run[|run| - 1];
      RunRefines(s, r, start, front, last.now);
      StepRefines(Run(s, front), EagerRun(r, front), last.now, last.op);
      SameLater(Run(s, run), EagerRun(r, run), last.now, now);
    }
  }

  /** Every answer of such a run is the eager store's answer. */
  lemma AnswersRefine(s: State, r: Cells, start: nat, run: seq<Event>, e: Event)
    requires Same(s, r, start) && ClockRuns(run + [e]) && Tame(s, run + [e]) && start <= e.now
    requires forall i :: 0 <= i < |run| ==> start <= run[i].now
    ensures e.op.PurgeExpired? || Step(Run(s, run), e.now, e.op).1 == EagerStep(EagerRun(r, run), e.now, e.op).1
  {
    var full := run + [e];
    assert full[..|full| - 1] == run;
    assert forall i :: 0 <= i < |run| ==> run[i] == full[i] && run[i].now <= e.now;
    assert forall i, j :: 0 <= i < j < |run| ==> full[i].now <= full[j].now;
    RunRefines(s, r, start, run, e.now);
    StepRefines(Run(s, run), EagerRun(r, run), e.now, e.op);
  }

  /** Every answer of the run, but for the number `purge_expired` reports, is the eager store's. */
  predicate AnswersAgree(s: State, r: Cells, run: seq<Event>)
    decreases |run|
  {
    run == [] ||
    (var front, last := run[..|run| - 1], run[|run| - 1];
     AnswersAgree(s, r, front) &&
     (last.op.PurgeExpired? ||
      Step(Run(s, front), last.now, last.op).1 == EagerStep(EagerRun(r, front), last.now, last.op).1))
  }

  /** All answers of a run are those of the eager store exactly if no operation revives an expired key. */
  lemma {:induction false} RunAgreesIff(s: State, r: Cells, start: nat, run: seq<Event>)
    requires Same(s, r, start) && ClockRuns(run)
    requires forall i :: 0 <= i < |run| ==> start <= run[i].now
    ensures AnswersAgree(s, r, run) <==> Tame(s, run)
    decreases |run|
  {
    hide Step, EagerStep, Same;
    if run != [] {
      var front, last := run[..|run| - 1], run[|run| - 1];
      RunAgreesIff(s, r, start, front);
      if Tame(s, front) {
        RunRefines(s, r, start, front, last.now);
        if !last.op.PurgeExpired? { AnswerAgreesIff(Run(s, front), EagerRun(r, front), last.now, last.op); }
      }
    }
  }

  /** From an empty store: a key is put with an expiry and persisted once that has passed. The store
      shows it again, for good. */
  lemma RevivalReached(k: Key, v: Val, expiry: nat, now: nat, later: nat)
    requires expiry <= now
    ensures var s0, run := State(map[], map[]), [Event(0, PutWithTtl(k, v, expiry)), Event(now, Persist(k))];
            && ClockRuns(run) && !Tame(s0, run) && !AnswersAgree(s0, map[], run)
            && k !in View(Run(s0, run[..1]), now) && Lookup(View(Run(s0, run), later), k) == Some(v)
  {
    var s0, run := State(map[], map[]), [Event(0, PutWithTtl(k, v, expiry)), Event(now, Persist(k))];
    assert run[..1][..0] == [];
    assert run[..|run| - 1] == run[..1];
    assert Run(s0, run[..1]) == State(map[k := v], map[k := expiry]);
    RunAgreesIff(s0, map[], 0, run);
  }

  // ---------------------------------------------------------------------
  // Invariant and purge
  // ---------------------------------------------------------------------

  lemma {:induction false} WriteAllCoupled(s: State, pairs: seq<(Key, Val)>)
    requires Coupled(s)
    ensures Coupled(WriteAll(s, pairs))
    decreases |pairs|
  {
    if pairs != [] { WriteAllCoupled(s, pairs[..|pairs| - 1]); }
  }

  lemma {:induction false} EachCoupled(s: State, writes: seq<(Key, TxnOp)>)
    requires Coupled(s)
    ensures Coupled(Each(s, writes))
    decreases |writes|
  {
    if writes != [] { EachCoupled(s, writes[..|writes| - 1]); }
  }

  lemma StepCoupled(s: State, now: nat, op: Op)
    requires Coupled(s)
    ensures Coupled(Step(s, now, op).0)
  {
    if op.BatchWrite? { WriteAllCoupled(s, op.pairs); }
    if op.Transact? { EachCoupled(s, op.writes); }
  }

  lemma {:induction false} RunCoupled(s: State, run: seq<Event>)
    requires Coupled(s)
    ensures Coupled(Run(s, run))
    decreases |run|
  {
    if run != [] {
      RunCoupled(s, run[..|run| - 1]);
      StepCoupled(Run(s, run[..|run| - 1]), run[|run| - 1].now, run[|run| - 1].op);
    }
  }

  lemma PurgeLeavesView(s: State, now: nat)
    ensures var s' := EraseAll(s, ExpiredKeys(s, now));
            s'.data == View(s, now) == View(s', now) && ExpiredKeys(s', now) == {}
  {
  }

  lemma PurgeCount(s: State, now: nat)
    requires Coupled(s)
    ensures |s.data| == |EraseAll(s, ExpiredKeys(s, now)).data| + |ExpiredKeys(s, now)|
  {
    var gone := ExpiredKeys(s, now);
    var rest := (s.data - gone).Keys;
    assert s.data.Keys == rest + gone && rest !! gone;
    assert |s.data.Keys| == |rest| + |gone|;
  }

  lemma EraseNothing(s: State)
    ensures EraseAll(s, {}) == s
  {
    assert s.data - {} == s.data && s.ttl - {} == s.ttl;
  }

  /** `purge_expired` leaves exactly the visible keys stored and reports how many went. */
  lemma PurgeExact(s: State, now: nat)
    requires Coupled(s)
    ensures Step(s, now, PurgeExpired).0.data == View(s, now) == View(Step(s, now, PurgeExpired).0, now)
    ensures Step(s, now, PurgeExpired).1 == Number(|s.data| - |View(s, now)|)
  {
    PurgeLeavesView(s, now);
    PurgeCount(s, now);
  }

  /** A second purge at the same time finds nothing. */
  lemma PurgeTwice(s: State, now: nat)
    ensures var s' := Step(s, now, PurgeExpired).0; Step(s', now, PurgeExpired) == (s', Number(0))
  {
    PurgeLeavesView(s, now);
    EraseNothing(Step(s, now, PurgeExpired).0);
  }
}
