/** What breaks a compare-and-swap under way: removals that come too late, commits that come too late, and
    writes without the lock between the read and the commit. */
module UnlockedWrites {
  import opened LinkedMaps
  import opened ByteOrder
  import opened TtlStore
  import opened Transactions
  import opened CompareAndSwap

  // ---------------------------------------------------------------------
  // A removal that comes too late
  // ---------------------------------------------------------------------

  lemma AfterSnoc(start: State, clock: nat, actions: seq<Action>, a: Action, w: World)
    requires After(start, clock, actions) == Some(w) && Enabled(w, a)
    ensures After(start, clock, actions + [a]) == Some(Act(w, a))
  {
    assert (actions + [a])[..|actions|] == actions;
  }

  /** One uninterrupted swap. */
  function SwapBy(t: Tid, req: Request): seq<Action> {
    [Acquire(t, req), ReadKey(t), Finish(t)]
  }

  lemma SwapDone(start: State, clock: nat, actions: seq<Action>, w: World, t: Tid, req: Request)
    requires After(start, clock, actions) == Some(w) && w.holder.None?
    ensures var swapped := TxnGet(w.store, BEGIN, req.key, w.clock) == req.expected;
            After(start, clock, actions + SwapBy(t, req)) ==
            Some(w.(store := if swapped then Write(w.store, req.key, req.value) else w.store,
                    log := w.log + [Swap(req, w.clock, swapped)]))
  {
    hide Commit, TxnGet;
    AfterSnoc(start, clock, actions, Acquire(t, req), w);
    var w1 := Act(w, Acquire(t, req));
    AfterSnoc(start, clock, actions + [Acquire(t, req)], ReadKey(t), w1);
    var w2 := Act(w1, ReadKey(t));
    AfterSnoc(start, clock, actions + [Acquire(t, req)] + [ReadKey(t)], Finish(t), w2);
    SingleWrite(w.store, req.key, req.value);
    assert actions + [Acquire(t, req)] + [ReadKey(t)] + [Finish(t)] == actions + SwapBy(t, req);
  }

  /** A reader tests an expired key, a swap writes it, the reader's removal lands, a second swap expects
      what the first one wrote. */
  function LateRemoval(k: Key, v: Val): seq<Action> {
    [Test(1, k)] + SwapBy(0, Request(k, None, v)) + [RemoveTested(1)] + SwapBy(0, Request(k, Some(v), v))
  }

  lemma LateRemovalRuns(s: State, clock: nat, k: Key, v: Val)
    requires Expired(s.ttl, k, clock)
    ensures After(s, clock, LateRemoval(k, v)) ==
            Some(World(Erase(s, k), clock, None, map[],
                       [Swap(Request(k, None, v), clock, true), Swap(Request(k, Some(v), v), clock, false)]))
  {
    var w0 := World(s, clock, None, map[], []);
    assert After(s, clock, []) == Some(w0);
    AfterSnoc(s, clock, [], Test(1, k), w0);
    assert [] + [Test(1, k)] == [Test(1, k)];
    var w1 := w0.(pending := map[1 := map[k := 0]]);
    assert Act(w0, Test(1, k)) == w1;
    var first := Request(k, None, v);
    SwapDone(s, clock, [Test(1, k)], w1, 0, first);
    var w2 := w1.(store := Write(s, k, v), log := [Swap(first, clock, true)]);
    assert w1.log + [Swap(first, clock, true)] == w2.log;
    var so := [Test(1, k)] + SwapBy(0, first);
    assert After(s, clock, so) == Some(w2);
    AfterSnoc(s, clock, so, RemoveTested(1), w2);
    RemovedAgain(s, k, v);
    var w3 := w2.(store := Erase(s, k), pending := map[]);
    assert Act(w2, RemoveTested(1)) == w3;
    SwapDone(s, clock, so + [RemoveTested(1)], w3, 0, Request(k, Some(v), v));
    assert w3.log + [Swap(Request(k, Some(v), v), clock, false)] ==
           [Swap(first, clock, true), Swap(Request(k, Some(v), v), clock, false)];
    assert so + [RemoveTested(1)] + SwapBy(0, Request(k, Some(v), v)) == LateRemoval(k, v);
  }

  lemma RemovedAgain(s: State, k: Key, v: Val)
    ensures EraseAll(Write(s, k, v), map[k := 0].Keys) == Erase(s, k)
  {
    assert map[k := 0].Keys == {k};
    assert s.data[k := v] - {k} == s.data - {k};
    assert s.ttl - {k} - {k} == s.ttl - {k};
  }

  /** For every store with an expired key and every value: the first swap reports success, its value is
      gone, and the second swap gets an answer that no order of the calls explains. */
  lemma LateRemovalBreaksAtomicity(s: State, clock: nat, k: Key, v: Val)
    requires Expired(s.ttl, k, clock)
    ensures var w := After(s, clock, LateRemoval(k, v));
            && w.Some? && |w.value.log| == 2 && w.value.log[0].Swap? && w.value.log[1].Swap?
            && w.value.log[0].swapped && !w.value.log[1].swapped
            && k !in View(w.value.store, clock)
            && Lookup(Values(Sweep(Replay(Abs(s), w.value.log[..1]), clock)), k) == Some(v)
            && !Faithful(Abs(s), w.value.log)
            && !AllTimely(s, clock, LateRemoval(k, v))
  {
    LateRemovalRuns(s, clock, k, v);
    var log := [Swap(Request(k, None, v), clock, true), Swap(Request(k, Some(v), v), clock, false)];
    var r := Abs(s);
    assert log[..1] == [] + [log[0]];
    assert k !in Sweep(r, clock) && Replay(r, []) == r;
    LogSnoc(r, [], log[0]);
    var r1 := Replay(r, log[..1]);
    assert r1 == Sweep(r, clock)[k := Cell(v, None)];
    assert Lookup(Values(Sweep(r1, clock)), k) == Some(v);
    assert !Answers(r1, log[1]);
    AtomicIff(s, clock, LateRemoval(k, v));
  }

  // ---------------------------------------------------------------------
  // A commit that comes too late
  // ---------------------------------------------------------------------

  /** A swap reads the key, time passes, the swap commits. */
  function LateCommit(req: Request, d: nat): seq<Action> {
    [Acquire(0, req), ReadKey(0), Tick(d), Finish(0)]
  }

  lemma LateCommitRuns(s: State, clock: nat, req: Request, d: nat)
    ensures var read := TxnGet(s, BEGIN, req.key, clock);
            var h := HasRead(0, req, read, Lookup(s.ttl, req.key), clock);
            var w := World(s, clock + d, Some(h), map[], []);
            && After(s, clock, LateCommit(req, d)[..3]) == Some(w)
            && After(s, clock, LateCommit(req, d)) == Some(Finished(w, h))
  {
    hide TxnGet, Finished;
    var w0 := World(s, clock, None, map[], []);
    assert After(s, clock, []) == Some(w0);
    AfterSnoc(s, clock, [], Acquire(0, req), w0);
    var w1 := Act(w0, Acquire(0, req));
    AfterSnoc(s, clock, [] + [Acquire(0, req)], ReadKey(0), w1);
    var w2 := Act(w1, ReadKey(0));
    var two := [] + [Acquire(0, req)] + [ReadKey(0)];
    AfterSnoc(s, clock, two, Tick(d), w2);
    AfterSnoc(s, clock, two + [Tick(d)], Finish(0), Act(w2, Tick(d)));
    assert two + [Tick(d)] == LateCommit(req, d)[..3];
    assert two + [Tick(d)] + [Finish(0)] == LateCommit(req, d);
  }

  /** For every store with a key that has a deadline: a swap that reads before it and commits after it
      reports success and writes, although every reader found the key gone before the commit. */
  lemma LateCommitBreaksAtomicity(s: State, clock: nat, k: Key, v: Val, d: nat)
    requires k in View(s, clock) && Expired(s.ttl, k, clock + d)
    ensures var req := Request(k, Some(s.data[k]), v);
            var before, w := After(s, clock, LateCommit(req, d)[..3]), After(s, clock, LateCommit(req, d));
            && before.Some? && k !in View(before.value.store, clock + d)
            && w.Some? && w.value.log == [Swap(req, clock + d, true)]
            && Lookup(View(w.value.store, clock + d), k) == Some(v)
            && !Faithful(Abs(s), w.value.log) && !AllTimely(s, clock, LateCommit(req, d))
  {
    var req := Request(k, Some(s.data[k]), v);
    LateCommitRuns(s, clock, req, d);
    SingleWrite(s, k, v);
    var e := Swap(req, clock + d, true);
    assert [e][..0] == [];
    assert [] + [e] == [e];
    assert k !in Sweep(Abs(s), clock + d);
    assert !Answers(Abs(s), e);
    assert !Faithful(Abs(s), [e]);
    AtomicIff(s, clock, LateCommit(req, d));
  }

  // ---------------------------------------------------------------------
  // Writes between the read and the commit
  // ---------------------------------------------------------------------

  /** What the two keyspaces hold under one key. */
  datatype Slot = Slot(data: Option<Val>, ttl: Option<nat>) {
    predicate Dead(now: nat) { ttl.Some? && ttl.value <= now }

    function Shown(now: nat): Option<Val> { if Dead(now) then None else data }
  }

  const VACANT := Slot(None, None)

  function SlotOf(s: State, k: Key): Slot {
    Slot(Lookup(s.data, k), Lookup(s.ttl, k))
  }

  /** What a reader at `now` finds under a key. */
  function Found(s: State, k: Key, now: nat): Option<Val> {
    Lookup(View(s, now), k)
  }

  lemma ShownIs(s: State, k: Key, now: nat)
    ensures Found(s, k, now) == SlotOf(s, k).Shown(now) == TxnGet(s, BEGIN, k, now)
  {
  }

  function LastPair(pairs: seq<(Key, Val)>, k: Key): Option<Val>
    decreases |pairs|
  {
    if pairs == [] then None
    else if pairs[|pairs| - 1].0 == k then Some(pairs[|pairs| - 1].1)
    else LastPair(pairs[..|pairs| - 1], k)
  }

  function Overwritten(x: Slot, write: Option<TxnOp>): Slot {
    match write
    case None => x
    case Some(TxnPut(v)) => Slot(Some(v), None)
    case Some(TxnDelete) => VACANT
  }

  /** What one operation at `t` makes of the slot of one key, whatever it does to the others. */
  function Next(x: Slot, k: Key, t: nat, op: Op): Slot {
    match op
    case Get(j) => if j == k && x.Dead(t) then VACANT else x
    case Ttl(j) => if j == k && x.Dead(t) && x.data.Some? then VACANT else x
    case PurgeExpired => if x.Dead(t) then VACANT else x
    case Put(j, v) => if j == k then Slot(Some(v), None) else x
    case PutWithTtl(j, v, e) => if j == k then Slot(Some(v), Some(e)) else x
    case Delete(j) => if j == k then VACANT else x
    case BatchDelete(keys) => if k in keys then VACANT else x
    case BatchWrite(pairs) => if LastPair(pairs, k).Some? then Slot(LastPair(pairs, k), None) else x
    case Transact(writes) => Overwritten(x, LastOf(writes, k))
    case Expire(j, e) => if j == k && x.data.Some? then x.(ttl := Some(e)) else x
    case Persist(j) => if j == k && x.data.Some? then x.(ttl := None) else x
    case _ => x
  }

  lemma WriteAt(s: State, j: Key, v: Val, k: Key)
    ensures SlotOf(Write(s, j, v), k) == if j == k then Slot(Some(v), None) else SlotOf(s, k)
    ensures SlotOf(Erase(s, j), k) == if j == k then VACANT else SlotOf(s, k)
  {
  }

  lemma {:induction false} WriteAllAt(s: State, pairs: seq<(Key, Val)>, k: Key)
    ensures SlotOf(WriteAll(s, pairs), k) ==
            if LastPair(pairs, k).Some? then Slot(LastPair(pairs, k), None) else SlotOf(s, k)
    decreases |pairs|
  {
    if pairs != [] {
      hide SlotOf, Write;
      var front, last := pairs[..|pairs| - 1], pairs[|pairs| - 1];
      WriteAllAt(s, front, k);
      WriteAt(WriteAll(s, front), last.0, last.1, k);
    }
  }

  lemma {:induction false} EachAt(s: State, writes: seq<(Key, TxnOp)>, k: Key)
    ensures SlotOf(Each(s, writes), k) == Overwritten(SlotOf(s, k), LastOf(writes, k))
    decreases |writes|
  {
    if writes != [] {
      hide SlotOf, Write, Erase;
      var front, last := writes[..|writes| - 1], writes[|writes| - 1];
      EachAt(s, front, k);
      WriteAt(Each(s, front), last.0, if last.1.TxnPut? then last.1.value else [], k);
    }
  }

  lemma ReadAt(s: State, k: Key, t: nat, op: Op)
    requires op.Get? || op.Ttl? || op.PurgeExpired?
    ensures SlotOf(Step(s, t, op).0, k) == Next(SlotOf(s, k), k, t, op)
  {
  }

  lemma NextIs(s: State, k: Key, t: nat, op: Op)
    ensures SlotOf(Step(s, t, op).0, k) == Next(SlotOf(s, k), k, t, op)
  {
    if op.Get? || op.Ttl? || op.PurgeExpired? {
      ReadAt(s, k, t, op);
    } else {
      ChangeAt(s, k, t, op);
    }
    hide Step, Next;
  }

  lemma ChangeAt(s: State, k: Key, t: nat, op: Op)
    requires !op.Get? && !op.Ttl? && !op.PurgeExpired?
    ensures SlotOf(Step(s, t, op).0, k) == Next(SlotOf(s, k), k, t, op)
  {
    hide WriteAll, Each, Touch, ExpiredKeys, Query;
    match op
    case BatchWrite(pairs) => WriteAllAt(s, pairs, k);
    case Transact(writes) => EachAt(s, writes, k);
    case _ =>
  }

  /** The operation writes the key. */
  predicate WritesKey(op: Op, k: Key) {
    match op
    case Put(j, _) => j == k
    case Delete(j) => j == k
    case PutWithTtl(j, _, _) => j == k
    case Expire(j, _) => j == k
    case Persist(j) => j == k
    case BatchWrite(pairs) => LastPair(pairs, k).Some?
    case BatchDelete(keys) => k in keys
    case Transact(writes) => LastOf(writes, k).Some?
    case _ => false
  }

  /** What one operation leaves behind is what was read at `at`. */
  predicate KeepsRead(x: Slot, k: Key, at: nat, op: Op, now: nat) {
    var read := x.Shown(at);
    if !WritesKey(op, k) then read.None? || !x.Dead(now)
    else match op
      case Put(_, v) => read == Some(v)
      case Delete(_) => read.None?
      case BatchWrite(pairs) => read == LastPair(pairs, k)
      case BatchDelete(_) => read.None?
      case PutWithTtl(_, v, e) => read == if e <= now then None else Some(v)
      case Expire(_, e) => x.data.Some? ==> (read.Some? <==> now < e)
      case Persist(_) => x.data.Some? ==> read.Some?
      case Transact(writes) => LastOf(writes, k) == Some(if read.Some? then TxnPut(read.value) else TxnDelete)
      case _ => true
  }

  /** The value read at `at` is what a reader finds at `now`, after one operation in between, exactly in
      the cases listed, for every operation, store and key. */
  lemma ReadSurvivesIff(s: State, k: Key, at: nat, op: Op, t: nat, now: nat)
    requires at <= t <= now
    ensures Found(Step(s, t, op).0, k, now) == Found(s, k, at) <==> KeepsRead(SlotOf(s, k), k, at, op, now)
  {
    hide Step, Found, SlotOf, Next, KeepsRead, TxnGet;
    NextIs(s, k, t, op);
    ShownIs(Step(s, t, op).0, k, now);
    ShownIs(s, k, at);
    SlotSurvivesIff(SlotOf(s, k), k, at, op, t, now);
  }

  lemma SlotSurvivesIff(x: Slot, k: Key, at: nat, op: Op, t: nat, now: nat)
    requires at <= t <= now
    ensures Next(x, k, t, op).Shown(now) == x.Shown(at) <==> KeepsRead(x, k, at, op, now)
  {
  }

  // Any number of operations

  /** The slot of one key through a run. */
  function History(x: Slot, k: Key, run: seq<Event>): Slot
    decreases |run|
  {
    if run == [] then x else
      var last := run[|run| - 1];
      Next(History(x, k, run[..|run| - 1]), k, last.now, last.op)
  }

  lemma {:induction false} HistoryIs(s: State, k: Key, run: seq<Event>)
    ensures SlotOf(Run(s, run), k) == History(SlotOf(s, k), k, run)
    decreases |run|
  {
    if run != [] {
      hide SlotOf, Next, Step;
      var front, last := run[..|run| - 1], run[|run| - 1];
      HistoryIs(s, k, front);
      NextIs(Run(s, front), k, last.now, last.op);
    }
  }

  /** After any operations in between, the value read at `at` is what a reader finds at `now` exactly if
      the history of that one key leaves it. */
  lemma ReadSurvivesRunIff(s: State, k: Key, at: nat, run: seq<Event>, now: nat)
    ensures Found(Run(s, run), k, now) == Found(s, k, at) <==>
            History(SlotOf(s, k), k, run).Shown(now) == SlotOf(s, k).Shown(at)
  {
    hide Run, Found, SlotOf, History, TxnGet;
    HistoryIs(s, k, run);
    ShownIs(Run(s, run), k, now);
    ShownIs(s, k, at);
  }

  /** The answer and the store of a swap that read at `at`, with the operations of the run before its
      commit at `now`. */
  function Interleaved(s: State, req: Request, at: nat, run: seq<Event>, now: nat): (bool, State) {
    var h := HasRead(0, req, TxnGet(s, BEGIN, req.key, at), Lookup(s.ttl, req.key), at);
    var w := Finished(World(Run(s, run), now, None, map[], []), h);
    (w.log[0].swapped, w.store)
  }

  /** Those of a swap that reads and commits at `now`. */
  function Together(s: State, req: Request, now: nat): (bool, State) {
    if Found(s, req.key, now) == req.expected then (true, Write(s, req.key, req.value)) else (false, s)
  }

  /** A swap interrupted by any operations without the lock gives the answer and leaves the store of an
      atomic one at its commit exactly if what it read and what the history of the key leaves are both
      what it expects or neither is. */
  lemma SwapAtomicIff(s: State, req: Request, at: nat, run: seq<Event>, now: nat)
    ensures var x := SlotOf(s, req.key);
            Interleaved(s, req, at, run, now) == Together(Run(s, run), req, now) <==>
            (x.Shown(at) == req.expected <==> History(x, req.key, run).Shown(now) == req.expected)
  {
    hide Run, Found, SlotOf, History, TxnGet, Commit;
    HistoryIs(s, req.key, run);
    ShownIs(Run(s, run), req.key, now);
    ShownIs(s, req.key, at);
    SingleWrite(Run(s, run), req.key, req.value);
  }

  /** A plain `put` between the read and the commit is overwritten, and the caller is told the swap
      went through, whatever the store, the key and the value put. */
  lemma PlainPutIsLost(s: State, req: Request, v: Val, now: nat)
    requires Found(s, req.key, now) == req.expected && Some(v) != req.expected
    ensures var read := TxnGet(s, BEGIN, req.key, now);
            var s' := Step(s, now, Put(req.key, v)).0;
            var w := Finished(World(s', now, None, map[], []), HasRead(0, req, read, Lookup(s.ttl, req.key), now));
            && w.log[0].swapped
            && Found(s', req.key, now) == Some(v) != req.expected
            && Found(w.store, req.key, now) == Some(req.value)
  {
    var s' := Step(s, now, Put(req.key, v)).0;
    SingleWrite(s', req.key, req.value);
  }

  /** A plain `put` between the test and the removal of `get` is erased with the expired value. */
  lemma RemovalErasesFreshPut(s: State, k: Key, v: Val, now: nat)
    requires Expired(s.ttl, k, now)
    ensures var s' := Step(s, now, Put(k, v)).0;
            Found(s', k, now) == Some(v) && Found(Erase(s', k), k, now) == None
  {
  }
}
