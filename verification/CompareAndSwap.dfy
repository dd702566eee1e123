/** Compare-and-swap as the default trait method does it: a transaction that holds the store's
    transaction lock, reads the key, and commits or rolls back.  Readers take no lock and run in
    between; those that find a key expired remove it later, in a step of its own. */
module CompareAndSwap {
  import opened LinkedMaps
  import opened ByteOrder
  import opened TtlStore
  import opened Transactions
  import opened FjallStores
  import opened FjallTransactions

  /** One call on a quiet store: it succeeds exactly when the visible value is the expected one, and
      then writes the new value without an expiry. */
  method CompareAndSwap(store: FjallStore, key: Key, expected: Option<Val>, value: Val, now: nat)
    returns (swapped: bool)
    requires store.Valid()
    modifies store
    ensures store.Valid()
    ensures swapped <==> Lookup(View(old(store.State()), now), key) == expected
    ensures store.State() == if swapped then Write(old(store.State()), key, value) else old(store.State())
  {
    var txn := new FjallTxn(store);
    var current := txn.Get(key, now);
    if current == expected {
      txn.Put(key, value);
      assert txn.writes == [(key, TxnPut(value))];
      EachOne(store.State(), key, value);
      txn.CommitTxn();
      swapped := true;
    } else {
      txn.Rollback();
      swapped := false;
    }
  }

  lemma EachOne(s: State, k: Key, v: Val)
    ensures Each(s, [(k, TxnPut(v))]) == Write(s, k, v)
  {
    var writes := [(k, TxnPut(v))];
    assert writes[..0] == [];
    assert Each(s, []) == s;
  }

  // ---------------------------------------------------------------------
  // Many callers
  // ---------------------------------------------------------------------

  type Tid = nat

  datatype Request = Request(key: Key, expected: Option<Val>, value: Val)

  /** What the lock holder has done so far: a swap before and after its read, or another transaction
      with its buffered writes.  The deadline of the value read is noted for the proof; the source
      looks at it once and forgets it. */
  datatype Holder =
    | Locked(tid: Tid, req: Request)
    | HasRead(tid: Tid, req: Request, current: Option<Val>, deadline: Option<nat>, at: nat)
    | Buffering(tid: Tid, writes: seq<(Key, TxnOp)>)

  /** A finished swap, with what it returned and the time it took effect, that of the commit if it
      swapped and that of the read if not; or a committed transaction. */
  datatype Entry =
    | Swap(req: Request, at: nat, swapped: bool)
    | Committed(writes: seq<(Key, TxnOp)>, at: nat)

  /** `pending` holds, for each reader, the keys it has found expired and not yet removed, each with
      the length of the log at the time of its test. */
  datatype World = World(
    store: State,
    clock: nat,
    holder: Option<Holder>,
    pending: map<Tid, map<Key, nat>>,
    log: seq<Entry>)

  /** A reader that meets an expired key tests it and removes it in a later batch: `get` and `ttl` test
      one key, `purge_expired` any number.  Reads that find nothing expired change nothing. */
  datatype Action =
    | Tick(millis: nat)
    | Acquire(tid: Tid, req: Request)
    | ReadKey(tid: Tid)
    | Finish(tid: Tid)
    | Open(tid: Tid)
    | Stage(tid: Tid, key: Key, write: TxnOp)
    | CommitTxn(tid: Tid)
    | RollbackTxn(tid: Tid)
    | Test(tid: Tid, key: Key)
    | RemoveTested(tid: Tid)

  predicate Enabled(w: World, a: Action) {
    match a
    case Tick(_) => true
    case Acquire(_, _) => w.holder.None?
    case ReadKey(t) => w.holder.Some? && w.holder.value.Locked? && w.holder.value.tid == t
    case Finish(t) => w.holder.Some? && w.holder.value.HasRead? && w.holder.value.tid == t
    case Open(_) => w.holder.None?
    case Stage(t, _, _) => w.holder.Some? && w.holder.value.Buffering? && w.holder.value.tid == t
    case CommitTxn(t) => w.holder.Some? && w.holder.value.Buffering? && w.holder.value.tid == t
    case RollbackTxn(t) => w.holder.Some? && w.holder.value.Buffering? && w.holder.value.tid == t
    case Test(_, k) => Expired(w.store.ttl, k, w.clock)
    case RemoveTested(t) => t in w.pending
  }

  function Finished(w: World, h: Holder): World
    requires h.HasRead?
  {
    var req := h.req;
    if h.current == req.expected then
      w.(store := Commit(w.store, TxnOf([(req.key, TxnPut(req.value))]).batch),
         holder := None, log := w.log + [Swap(req, w.clock, true)])
    else
      w.(holder := None, log := w.log + [Swap(req, h.at, false)])
  }

  function Tested(pending: map<Tid, map<Key, nat>>, t: Tid): map<Key, nat> {
    if t in pending then pending[t] else map[]
  }

  function Act(w: World, a: Action): World
    requires Enabled(w, a)
  {
    match a
    case Tick(d) => w.(clock := w.clock + d)
    case Acquire(t, req) => w.(holder := Some(Locked(t, req)))
    case ReadKey(t) =>
      var req := w.holder.value.req;
      var current := TxnGet(w.store, BEGIN, req.key, w.clock);
      w.(holder := Some(HasRead(t, req, current, Lookup(w.store.ttl, req.key), w.clock)))
    case Finish(_) => Finished(w, w.holder.value)
    case Open(t) => w.(holder := Some(Buffering(t, [])))
    case Stage(t, k, write) => w.(holder := Some(Buffering(t, w.holder.value.writes + [(k, write)])))
    case CommitTxn(_) =>
      var writes := w.holder.value.writes;
      w.(store := Commit(w.store, TxnOf(writes).batch), holder := None, log := w.log + [Committed(writes, w.clock)])
    case RollbackTxn(_) => w.(holder := None)
    case Test(t, k) => w.(pending := w.pending[t := Tested(w.pending, t)[k := |w.log|]])
    case RemoveTested(t) => w.(store := EraseAll(w.store, w.pending[t].Keys), pending := w.pending - {t})
  }

  /** The thread an action belongs to, if it acts on the lock. */
  function Locker(a: Action): Option<Tid> {
    match a
    case Tick(_) => None
    case Test(_, _) => None
    case RemoveTested(_) => None
    case _ => Some(a.tid)
  }

  /** While one thread holds the lock no other takes it, finishes a call or writes through it; without the lock
      nothing is logged. */
  lemma LockIsExclusive(w: World, a: Action)
    requires Enabled(w, a)
    ensures var w' := Act(w, a);
            && (w.holder.Some? && Locker(a).Some? ==> Locker(a) == Some(w.holder.value.tid))
            && (w'.holder != w.holder ==> Locker(a).Some?)
            && (w'.holder.Some? && w.holder.Some? ==> w'.holder.value.tid == w.holder.value.tid)
            && (w'.holder.Some? && w.holder.None? ==> Locker(a) == Some(w'.holder.value.tid))
            && (w'.log != w.log ==> w.holder.Some? && w'.holder.None? && |w'.log| == |w.log| + 1)
            && (w'.store != w.store ==> a.RemoveTested? || w'.log != w.log)
  {
    hide Commit, TxnGet;
  }

  /** The world after a run from an idle store; None if some action was not enabled. */
  function After(start: State, clock: nat, actions: seq<Action>): Option<World>
    decreases |actions|
  {
    if actions == [] then Some(World(start, clock, None, map[], [])) else
      var before := After(start, clock, actions[..|actions| - 1]);
      var last := actions[|actions| - 1];
      if before.Some? && Enabled(before.value, last) then Some(Act(before.value, last)) else None
  }

  // ---------------------------------------------------------------------
  // The atomic reference
  // ---------------------------------------------------------------------

  function AtomicCas(r: Cells, req: Request, at: nat): (Cells, bool) {
    var live := Sweep(r, at);
    if Lookup(Values(live), req.key) == req.expected then (live[req.key := Cell(req.value, None)], true)
    else (live, false)
  }

  /** One entry of the log, done all at once. */
  function Atomic(r: Cells, e: Entry): Cells {
    match e
    case Swap(req, at, _) => AtomicCas(r, req, at).0
    case Committed(writes, _) => ApplyWrites(r, writes)
  }

  function Replay(r: Cells, log: seq<Entry>): Cells
    decreases |log|
  {
    if log == [] then r else Atomic(Replay(r, log[..|log| - 1]), log[|log| - 1])
  }

  predicate Answers(r: Cells, e: Entry) {
    e.Swap? ==> e.swapped == AtomicCas(r, e.req, e.at).1
  }

  /** Replaying the log one atomic call at a time gives every call the answer it got. */
  predicate Faithful(r: Cells, log: seq<Entry>)
    decreases |log|
  {
    log == [] ||
    (Faithful(r, log[..|log| - 1]) &&
     Answers(Replay(r, log[..|log| - 1]), log[|log| - 1]))
  }

  /** Calls appear in the order of the times they took effect. */
  predicate InOrder(log: seq<Entry>, upTo: nat) {
    (forall i, j :: 0 <= i < j < |log| ==> log[i].at <= log[j].at) &&
    forall i :: 0 <= i < |log| ==> log[i].at <= upTo
  }

  /** The answers given and the store shown are those of the log replayed. */
  predicate Shows(w: World, r: Cells) {
    Faithful(r, w.log) && View(w.store, w.clock) == Values(Sweep(Replay(r, w.log), w.clock))
  }

  // ---------------------------------------------------------------------
  // Keys put since they were tested
  // ---------------------------------------------------------------------

  function LastOf(writes: seq<(Key, TxnOp)>, k: Key): Option<TxnOp>
    decreases |writes|
  {
    if writes == [] then None
    else if writes[|writes| - 1].0 == k then Some(writes[|writes| - 1].1)
    else LastOf(writes[..|writes| - 1], k)
  }

  function WriteOf(e: Entry, k: Key): Option<TxnOp> {
    match e
    case Swap(req, _, swapped) => if swapped && req.key == k then Some(TxnPut(req.value)) else None
    case Committed(writes, _) => LastOf(writes, k)
  }

  function LastWrite(log: seq<Entry>, from: nat, k: Key): Option<TxnOp>
    requires from <= |log|
    decreases |log|
  {
    if |log| == from then None else
      var w := WriteOf(log[|log| - 1], k);
      if w.Some? then w else LastWrite(log[..|log| - 1], from, k)
  }

  /** The last logged write to the key after position `from` is a put. */
  predicate PutSince(log: seq<Entry>, from: nat, k: Key)
    requires from <= |log|
  {
    var w := LastWrite(log, from, k);
    w.Some? && w.value.TxnPut?
  }

  lemma {:induction false} ApplyWritesAt(r: Cells, writes: seq<(Key, TxnOp)>, k: Key)
    ensures Lookup(ApplyWrites(r, writes), k) ==
            match LastOf(writes, k)
            case None => Lookup(r, k)
            case Some(TxnPut(v)) => Some(Cell(v, None))
            case Some(TxnDelete) => None
    decreases |writes|
  {
    if writes != [] { ApplyWritesAt(r, writes[..|writes| - 1], k); }
  }

  lemma AtomicAt(r: Cells, e: Entry, k: Key, t: nat)
    requires Answers(r, e) && e.at <= t
    ensures k in Sweep(Atomic(r, e), t) <==>
            if WriteOf(e, k).Some? then WriteOf(e, k).value.TxnPut? else k in Sweep(r, t)
  {
    match e
    case Swap(req, at, _) =>
      SweepLater(r, at, t);
      SweepOfUpdate(Sweep(r, at), t, req.key, Cell(req.value, None));
    case Committed(writes, _) => ApplyWritesAt(r, writes, k);
  }

  /** A key that was dead at some point of the log is alive at its end exactly if it was put since. */
  lemma {:induction false} AliveIffPut(r: Cells, log: seq<Entry>, from: nat, k: Key, t: nat)
    requires Faithful(r, log) && InOrder(log, t) && from <= |log|
    requires k !in Sweep(Replay(r, log[..from]), t)
    ensures k in Sweep(Replay(r, log), t) <==> PutSince(log, from, k)
    decreases |log|
  {
    if |log| == from {
      assert log[..from] == log;
    } else {
      var front := log[..|log| - 1];
      assert front[..from] == log[..from];
      AliveIffPut(r, front, from, k, t);
      AtomicAt(Replay(r, front), log[|log| - 1], k, t);
    }
  }

  // ---------------------------------------------------------------------
  // The invariant
  // ---------------------------------------------------------------------

  ghost predicate HolderRead(h: Holder, r: Cells) {
    h.HasRead? ==>
      Lookup(Sweep(r, h.at), h.req.key) ==
      match h.current
      case None => None
      case Some(v) => Some(Cell(v, h.deadline))
  }

  predicate HolderTime(h: Holder, log: seq<Entry>, clock: nat) {
    h.HasRead? ==> h.at <= clock && InOrder(log, h.at)
  }

  ghost predicate HolderOk(w: World, r: Cells) {
    w.holder.Some? ==> HolderRead(w.holder.value, Replay(r, w.log)) && HolderTime(w.holder.value, w.log, w.clock)
  }

  /** A tested key was dead when the log was as long as noted, and would be now. */
  ghost predicate DeadWhenTested(tested: map<Key, nat>, r: Cells, log: seq<Entry>, clock: nat) {
    forall k :: k in tested ==> tested[k] <= |log| && k !in Sweep(Replay(r, log[..tested[k]]), clock)
  }

  ghost predicate PendingOk(pending: map<Tid, map<Key, nat>>, r: Cells, log: seq<Entry>, clock: nat) {
    forall t :: t in pending ==> DeadWhenTested(pending[t], r, log, clock)
  }

  ghost predicate Inv(w: World, r: Cells) {
    && Same(w.store, Replay(r, w.log), w.clock)
    && Faithful(r, w.log)
    && InOrder(w.log, w.clock)
    && HolderOk(w, r)
    && PendingOk(w.pending, r, w.log, w.clock)
  }

  /** A removal lands on no key put since its test. */
  ghost predicate TimelyRemoval(w: World, a: Action) {
    a.RemoveTested? && a.tid in w.pending ==>
      forall k :: k in w.pending[a.tid] && w.pending[a.tid][k] <= |w.log| ==>
        !PutSince(w.log, w.pending[a.tid][k], k)
  }

  /** The value a swap has read, if any, has not expired by now. */
  predicate StillAlive(h: Holder, now: nat)
    requires h.HasRead?
  {
    h.current.Some? && h.deadline.Some? ==> now < h.deadline.value
  }

  /** A swap that found what it expected commits before the deadline of the value it read. */
  predicate TimelyCommit(w: World, a: Action) {
    a.Finish? && w.holder.Some? && w.holder.value.HasRead? &&
    w.holder.value.current == w.holder.value.req.expected ==>
      StillAlive(w.holder.value, w.clock)
  }

  ghost predicate Timely(w: World, a: Action) {
    TimelyRemoval(w, a) && TimelyCommit(w, a)
  }

  lemma LogSnoc(r: Cells, log: seq<Entry>, e: Entry)
    requires Faithful(r, log) && Answers(Replay(r, log), e)
    ensures Faithful(r, log + [e]) && Replay(r, log + [e]) == Atomic(Replay(r, log), e)
  {
    assert (log + [e])[..|log|] == log;
  }

  lemma OrderSnoc(log: seq<Entry>, e: Entry, clock: nat)
    requires InOrder(log, e.at) && e.at <= clock
    ensures InOrder(log + [e], clock)
  {
  }

  lemma PendingSnoc(pending: map<Tid, map<Key, nat>>, r: Cells, log: seq<Entry>, clock: nat, e: Entry)
    requires PendingOk(pending, r, log, clock)
    ensures PendingOk(pending, r, log + [e], clock)
  {
    forall t, k | t in pending && k in pending[t]
      ensures pending[t][k] <= |log| && k !in Sweep(Replay(r, (log + [e])[..pending[t][k]]), clock)
    {
      assert DeadWhenTested(pending[t], r, log, clock);
      assert (log + [e])[..pending[t][k]] == log[..pending[t][k]];
    }
  }

  lemma PendingLater(pending: map<Tid, map<Key, nat>>, r: Cells, log: seq<Entry>, clock: nat, later: nat)
    requires PendingOk(pending, r, log, clock) && clock <= later
    ensures PendingOk(pending, r, log, later)
  {
    forall t, k | t in pending && k in pending[t]
      ensures pending[t][k] <= |log| && k !in Sweep(Replay(r, log[..pending[t][k]]), later)
    {
      assert DeadWhenTested(pending[t], r, log, clock);
      SweepLater(Replay(r, log[..pending[t][k]]), clock, later);
    }
  }

  lemma SingleWrite(s: State, k: Key, v: Val)
    ensures Commit(s, TxnOf([(k, TxnPut(v))]).batch) == Write(s, k, v)
  {
    CommitIsEach(s, [(k, TxnPut(v))]);
    EachOne(s, k, v);
  }

  /** The commit is the atomic call's write, seen at any time after the read. */
  lemma CommitMatches(s: State, r: Cells, req: Request, at: nat, now: nat)
    requires Same(s, r, now) && at <= now
    ensures Same(s, Sweep(r, at), now)
    ensures Same(Write(s, req.key, req.value), Sweep(r, at)[req.key := Cell(req.value, None)], now)
  {
    SweepLater(r, at, now);
    WriteRefines(s, Sweep(r, at), now, req.key, req.value);
  }

  lemma ReadMatchesCells(s: State, r: Cells, k: Key, now: nat)
    requires Same(s, r, now)
    ensures Lookup(Sweep(r, now), k) ==
            match TxnGet(s, BEGIN, k, now)
            case None => None
            case Some(v) => Some(Cell(v, Lookup(s.ttl, k)))
  {
    PresentIff(s, r, now, k);
  }

  /** What the holder read is there at `now` exactly as long as its deadline is not reached. */
  lemma ReadHoldsIff(h: Holder, r: Cells, now: nat)
    requires h.HasRead? && HolderRead(h, r) && h.at <= now
    ensures Lookup(Values(Sweep(r, h.at)), h.req.key) == h.current
    ensures Lookup(Values(Sweep(r, now)), h.req.key) == h.current <==> StillAlive(h, now)
  {
    SweepLater(r, h.at, now);
  }

  /** The entry a finishing swap leaves in the log. */
  function EntryOf(w: World, h: Holder): Entry
    requires h.HasRead?
  {
    if h.current == h.req.expected then Swap(h.req, w.clock, true) else Swap(h.req, h.at, false)
  }

  lemma FinishAnswersIff(w: World, r: Cells)
    requires HolderOk(w, r) && w.holder.Some? && w.holder.value.HasRead?
    ensures Answers(Replay(r, w.log), EntryOf(w, w.holder.value)) <==> TimelyCommit(w, Finish(w.holder.value.tid))
  {
    ReadHoldsIff(w.holder.value, Replay(r, w.log), w.clock);
  }

  lemma FinishInv(w: World, r: Cells)
    requires Inv(w, r) && w.holder.Some? && w.holder.value.HasRead?
    requires TimelyCommit(w, Finish(w.holder.value.tid))
    ensures Inv(Finished(w, w.holder.value), r)
  {
    hide Same, PendingOk, InOrder, Commit, Faithful, Answers, Atomic, Sweep, TimelyCommit;
    var h := w.holder.value;
    var e := EntryOf(w, h);
    FinishAnswersIff(w, r);
    LogSnoc(r, w.log, e);
    OrderSnoc(w.log, e, w.clock);
    PendingSnoc(w.pending, r, w.log, w.clock, e);
    CommitMatches(w.store, Replay(r, w.log), h.req, e.at, w.clock);
    AtomicSwap(Replay(r, w.log), e);
    SingleWrite(w.store, h.req.key, h.req.value);
  }

  lemma AtomicSwap(r: Cells, e: Entry)
    requires e.Swap? && Answers(r, e)
    ensures Atomic(r, e) ==
            if e.swapped then Sweep(r, e.at)[e.req.key := Cell(e.req.value, None)] else Sweep(r, e.at)
  {
  }

  /** A swap that commits after the deadline of the value it read reports what no atomic swap would. */
  lemma LateCommitShows(w: World, t: Tid, r: Cells)
    requires Inv(w, r) && Enabled(w, Finish(t)) && !TimelyCommit(w, Finish(t))
    ensures !Shows(Act(w, Finish(t)), r)
  {
    hide Same, PendingOk, InOrder, Commit;
    FinishAnswersIff(w, r);
    var log := w.log + [EntryOf(w, w.holder.value)];
    assert log[..|log| - 1] == w.log;
    assert Act(w, Finish(t)).log == log;
  }

  /** A swap that found what it expected commits on a store that still shows it exactly if it commits
      before the deadline. */
  lemma CommitsOnExpectedIff(w: World, r: Cells)
    requires Inv(w, r) && w.holder.Some? && w.holder.value.HasRead?
    requires w.holder.value.current == w.holder.value.req.expected
    ensures Lookup(View(w.store, w.clock), w.holder.value.req.key) == w.holder.value.req.expected <==>
            StillAlive(w.holder.value, w.clock)
  {
    ReadHoldsIff(w.holder.value, Replay(r, w.log), w.clock);
    ViewIsSwept(w.store, w.clock);
  }

  lemma CommitInv(w: World, t: Tid, r: Cells)
    requires Inv(w, r) && Enabled(w, CommitTxn(t))
    ensures Inv(Act(w, CommitTxn(t)), r)
  {
    var writes := w.holder.value.writes;
    var e := Committed(writes, w.clock);
    LogSnoc(r, w.log, e);
    OrderSnoc(w.log, e, w.clock);
    PendingSnoc(w.pending, r, w.log, w.clock, e);
    CommitIsEach(w.store, writes);
    EachRefines(w.store, Replay(r, w.log), writes, w.clock);
    hide Same, PendingOk, InOrder, Commit, Each, Faithful;
  }

  lemma TestInv(w: World, t: Tid, k: Key, r: Cells)
    requires Inv(w, r) && Enabled(w, Test(t, k))
    ensures Inv(Act(w, Test(t, k)), r)
  {
    PresentIff(w.store, Replay(r, w.log), w.clock, k);
    assert w.log[..|w.log|] == w.log;
    var tested := Tested(w.pending, t);
    assert DeadWhenTested(tested[k := |w.log|], r, w.log, w.clock);
  }

  /** A timely removal takes away only what no reader could see. */
  lemma TimelyInv(w: World, t: Tid, r: Cells)
    requires Inv(w, r) && t in w.pending && TimelyRemoval(w, RemoveTested(t))
    ensures Inv(Act(w, RemoveTested(t)), r)
  {
    var tested := w.pending[t];
    assert DeadWhenTested(tested, r, w.log, w.clock);
    ViewIsSwept(w.store, w.clock);
    forall k | k in tested.Keys ensures k !in View(w.store, w.clock) {
      AliveIffPut(r, w.log, tested[k], k, w.clock);
    }
    EraseUnseen(w.store, w.clock, tested.Keys, w.clock);
  }

  /** An untimely one shows. */
  lemma UntimelyShows(w: World, t: Tid, r: Cells)
    requires Inv(w, r) && t in w.pending && !TimelyRemoval(w, RemoveTested(t))
    ensures !Shows(Act(w, RemoveTested(t)), r)
  {
    var tested := w.pending[t];
    assert DeadWhenTested(tested, r, w.log, w.clock);
    var k :| k in tested && tested[k] <= |w.log| && PutSince(w.log, tested[k], k);
    AliveIffPut(r, w.log, tested[k], k, w.clock);
    assert k in Values(Sweep(Replay(r, w.log), w.clock));
    assert k !in View(Act(w, RemoveTested(t)).store, w.clock);
  }

  lemma TickInv(w: World, d: nat, r: Cells)
    requires Inv(w, r)
    ensures Inv(w.(clock := w.clock + d), r)
  {
    hide Same, PendingOk;
    SameLater(w.store, Replay(r, w.log), w.clock, w.clock + d);
    PendingLater(w.pending, r, w.log, w.clock, w.clock + d);
  }

  lemma ReadInv(w: World, t: Tid, r: Cells)
    requires Inv(w, r) && Enabled(w, ReadKey(t))
    ensures Inv(Act(w, ReadKey(t)), r)
  {
    hide Same, PendingOk;
    ReadMatchesCells(w.store, Replay(r, w.log), w.holder.value.req.key, w.clock);
  }

  /** Taking or giving up the lock, or buffering a write, changes nothing else. */
  lemma HolderInv(w: World, h: Option<Holder>, r: Cells)
    requires Inv(w, r) && (h.Some? ==> !h.value.HasRead?)
    ensures Inv(w.(holder := h), r)
  {
    hide Same, PendingOk, InOrder, Faithful;
  }

  lemma ActInv(w: World, a: Action, r: Cells)
    requires Inv(w, r) && Enabled(w, a) && Timely(w, a)
    ensures Inv(Act(w, a), r)
  {
    hide Inv, Finished;
    match a
    case Tick(d) => TickInv(w, d, r);
    case Acquire(t, req) => HolderInv(w, Some(Locked(t, req)), r);
    case ReadKey(t) => ReadInv(w, t, r);
    case Finish(t) => FinishInv(w, r);
    case Open(t) => HolderInv(w, Some(Buffering(t, [])), r);
    case Stage(t, k, write) => HolderInv(w, Some(Buffering(t, w.holder.value.writes + [(k, write)])), r);
    case CommitTxn(t) => CommitInv(w, t, r);
    case RollbackTxn(t) => HolderInv(w, None, r);
    case Test(t, k) => TestInv(w, t, k, r);
    case RemoveTested(t) => TimelyInv(w, t, r);
  }

  lemma InvShows(w: World, r: Cells)
    requires Inv(w, r)
    ensures Shows(w, r)
  {
    ViewIsSwept(w.store, w.clock);
  }

  // ---------------------------------------------------------------------
  // Whole runs
  // ---------------------------------------------------------------------

  /** No removal of the run lands on a key put since its test, and no swap commits after the deadline of
      the value it read. */
  ghost predicate AllTimely(start: State, clock: nat, actions: seq<Action>)
    decreases |actions|
  {
    actions == [] ||
    (AllTimely(start, clock, actions[..|actions| - 1]) &&
     var before := After(start, clock, actions[..|actions| - 1]);
     before.Some? ==> Timely(before.value, actions[|actions| - 1]))
  }

  /** Every world the run passes through shows its log replayed. */
  predicate AlwaysShows(start: State, clock: nat, actions: seq<Action>)
    decreases |actions|
  {
    && (actions == [] || AlwaysShows(start, clock, actions[..|actions| - 1]))
    && var w := After(start, clock, actions);
       w.Some? ==> Shows(w.value, Abs(start))
  }

  lemma {:induction false} TimelyRunInv(start: State, clock: nat, actions: seq<Action>, w: World)
    requires After(start, clock, actions) == Some(w) && AllTimely(start, clock, actions)
    ensures Inv(w, Abs(start))
    decreases |actions|
  {
    if actions != [] {
      var front, last := actions[..|actions| - 1], actions[|actions| - 1];
      var before := After(start, clock, front).value;
      TimelyRunInv(start, clock, front, before);
      ActInv(before, last, Abs(start));
    }
  }

  /** Compare-and-swap is atomic exactly as far as removals and commits are timely: under any interleaving
      of swaps, other transactions and lock-free readers, every answer and every view along the run is
      that of the logged calls done one at a time, each successful swap at its commit, if and only if no
      removal lands on a key that a logged call has put since the reader tested it and no swap commits
      after the deadline of the value it read. */
  lemma {:induction false} AtomicIff(start: State, clock: nat, actions: seq<Action>)
    requires After(start, clock, actions).Some?
    ensures AlwaysShows(start, clock, actions) <==> AllTimely(start, clock, actions)
    decreases |actions|
  {
    if actions == [] {
      TimelyRunInv(start, clock, actions, After(start, clock, actions).value);
      InvShows(After(start, clock, actions).value, Abs(start));
    } else {
      var front, last := actions[..|actions| - 1], actions[|actions| - 1];
      AtomicIff(start, clock, front);
      if AllTimely(start, clock, front) {
        var before := After(start, clock, front).value;
        TimelyRunInv(start, clock, front, before);
        AtomicStepIff(before, last, Abs(start));
      }
    }
  }

  lemma AtomicStepIff(w: World, a: Action, r: Cells)
    requires Inv(w, r) && Enabled(w, a)
    ensures Shows(Act(w, a), r) <==> Timely(w, a)
  {
    if Timely(w, a) {
      ActInv(w, a, r);
      InvShows(Act(w, a), r);
    } else if a.RemoveTested? {
      UntimelyShows(w, a.tid, r);
    } else {
      LateCommitShows(w, a.tid, r);
    }
  }

  /** In a timely run the calls take effect in the order of their commits, a failed one at its read. */
  lemma CasIsAtomic(start: State, clock: nat, actions: seq<Action>, w: World)
    requires After(start, clock, actions) == Some(w) && AllTimely(start, clock, actions)
    ensures Faithful(Abs(start), w.log) && InOrder(w.log, w.clock)
    ensures View(w.store, w.clock) == Values(Sweep(Replay(Abs(start), w.log), w.clock))
  {
    TimelyRunInv(start, clock, actions, w);
    InvShows(w, Abs(start));
  }

  /** After a swap, the next call on the same key succeeds exactly if it expects the value just
      written: of two racing calls with the same expectation, one loses. */
  lemma NoDoubleSwap(r: Cells, log: seq<Entry>, i: nat)
    requires Faithful(r, log) && i + 1 < |log|
    requires log[i].Swap? && log[i + 1].Swap? && log[i].req.key == log[i + 1].req.key && log[i].swapped
    ensures log[i + 1].swapped <==> log[i + 1].req.expected == Some(log[i].req.value)
  {
    FaithfulAt(r, log, i);
    FaithfulAt(r, log, i + 1);
    assert log[..i + 1][..i] == log[..i];
    assert log[..i + 2][..i + 1] == log[..i + 1];
  }

  lemma {:induction false} FaithfulAt(r: Cells, log: seq<Entry>, i: nat)
    requires Faithful(r, log) && i < |log|
    ensures Answers(Replay(r, log[..i]), log[i])
    decreases |log|
  {
    if i + 1 < |log| {
      FaithfulAt(r, log[..|log| - 1], i);
      assert log[..|log| - 1][..i] == log[..i];
    }
  }
}
