/** The frequency sketch of W-TinyLFU on logical counters: four rows of saturating counters,
    one column per row and key, and the reference that it must never fall below. A key enters
    through its pair of 64-bit hashes; nothing depends on how they were computed. */
module Sketch {
  import opened Words

  const DEPTH: nat := 4

  datatype Hash = Hash(a: nat, b: nat)

  /** `row_col`: double hashing in wrapping 64-bit arithmetic. */
  function RowCol(h: Hash, row: nat, w: nat): (col: nat)
    requires w > 0
    ensures col < w
  {
    ((h.a + row * h.b) % U64) % w
  }

  /** `usize::next_power_of_two`, by doubling `p`. */
  function PowerFrom(p: nat, n: nat): (w: nat)
    requires p >= 1
    ensures w >= n && w >= p && (w == p || (w % 2 == 0 && w < 2 * n))
    decreases if p < n then n - p else 0
  {
    if p >= n then p else PowerFrom(2 * p, n)
  }

  function Width(capacity: nat): (w: nat)
    ensures w >= 1 && w >= capacity && (w % 2 == 0 <==> capacity >= 2)
  {
    PowerFrom(1, capacity)
  }

  function Pow2(e: nat): (p: nat)
    ensures p >= 1
  {
    if e == 0 then 1 else 2 * Pow2(e - 1)
  }

  lemma {:induction false} PowerFromIs(p: nat, n: nat, e: nat) returns (k: nat)
    requires p == Pow2(e)
    ensures k >= e && PowerFrom(p, n) == Pow2(k) && (k > e ==> Pow2(k - 1) < n)
    decreases if p < n then n - p else 0
  {
    if p >= n { k := e; } else { k := PowerFromIs(2 * p, n, e + 1); }
  }

  /** The width is the least power of two that the capacity fits into. */
  lemma WidthIsLeastPower(capacity: nat) returns (k: nat)
    ensures Width(capacity) == Pow2(k) >= capacity && (k > 0 ==> Pow2(k - 1) < capacity)
  {
    k := PowerFromIs(1, capacity, 0);
  }

  /** Wherever the width divides 2^64, as every power of two up to it does, the wrapping does not show: the column
      is that of plain double hashing, so the columns of successive rows are one stride apart. */
  lemma RowColIsDoubleHashing(h: Hash, row: nat, w: nat)
    requires w > 0 && U64 % w == 0
    ensures RowCol(h, row, w) == (h.a + row * h.b) % w
  {
    ModOfMod(h.a + row * h.b, U64, w);
  }

  lemma ModOfMod(x: nat, m: nat, w: nat)
    requires w > 0 && m > 0 && m % w == 0
    ensures x % m % w == x % w
  {
    var y, q, k := x % m, m / w, x / m;
    Euclid(m, w);
    Euclid(x, m);
    Regroup(m, w, q, k);
    SameRemainder(x, y, q * k, w);
  }

  lemma Euclid(x: nat, w: nat)
    requires w > 0
    ensures x == w * (x / w) + x % w
  {
  }

  lemma Regroup(m: nat, w: nat, q: nat, k: nat)
    requires m == w * q
    ensures m * k == w * (q * k)
  {
  }

  lemma SameRemainder(x: nat, y: nat, k: nat, w: nat)
    requires w > 0 && x == y + w * k
    ensures x % w == y % w
  {
    var q, r := y / w, y % w;
    Euclid(y, w);
    assert w * (q + k) == w * q + w * k;
    RemainderIs(x, q + k, r, w);
  }

  lemma RemainderIs(x: nat, q: nat, r: nat, w: nat)
    requires r < w && x == w * q + r
    ensures x % w == r
  {
    var p := x / w;
    assert x == w * p + x % w && 0 <= x % w < w;
    assert p > q ==> w * p >= w * (q + 1) == w * q + w;
    assert p < q ==> w * q >= w * (p + 1) == w * p + w;
  }

  type Grid = seq<seq<nat>>

  ghost predicate IsGrid(g: Grid, w: nat) {
    |g| == DEPTH && forall r :: 0 <= r < DEPTH ==> |g[r]| == w && forall c :: 0 <= c < w ==> g[r][c] <= 15
  }

  function Bump(n: nat): nat { if n < 15 then n + 1 else n }

  function SetAt(g: Grid, r: nat, c: nat, v: nat): Grid
    requires r < |g| && c < |g[r]|
  {
    var row: seq<nat> := g[r][c := v];
    g[r := row]
  }

  /** One step of `increment`: the key's counter in row `r`. */
  function BumpRow(g: Grid, h: Hash, r: nat, w: nat): Grid
    requires IsGrid(g, w) && r < DEPTH && w > 0
  {
    var c := RowCol(h, r, w);
    SetAt(g, r, c, Bump(g[r][c]))
  }

  /** The first `n` rows of `increment`. */
  function BumpRows(g: Grid, h: Hash, n: nat, w: nat): (r: Grid)
    requires IsGrid(g, w) && n <= DEPTH && w > 0
    ensures IsGrid(r, w)
    decreases n
  {
    if n == 0 then g else BumpRow(BumpRows(g, h, n - 1, w), h, n - 1, w)
  }

  function HalveRow(row: seq<nat>): (r: seq<nat>)
    ensures |r| == |row|
  {
    seq(|row|, i requires 0 <= i < |row| => row[i] / 2)
  }

  function Halve(g: Grid): Grid {
    seq(|g|, r requires 0 <= r < |g| => HalveRow(g[r]))
  }

  /** Minimum of the key's counters over the first `n` rows. */
  function MinRows(g: Grid, h: Hash, n: nat, w: nat): (m: nat)
    requires IsGrid(g, w) && 1 <= n <= DEPTH && w > 0
    ensures m <= 15
    ensures forall r :: 0 <= r < n ==> m <= g[r][RowCol(h, r, w)]
    ensures exists r :: 0 <= r < n && m == g[r][RowCol(h, r, w)]
    decreases n
  {
    var last := g[n - 1][RowCol(h, n - 1, w)];
    if n == 1 then last
    else
      var rest := MinRows(g, h, n - 1, w);
      if last < rest then last else rest
  }

  function Estimate(g: Grid, h: Hash, w: nat): nat
    requires IsGrid(g, w) && w > 0
  {
    MinRows(g, h, DEPTH, w)
  }

  datatype State = State(grid: Grid, w: nat, additions: nat, sample: nat) {
    ghost predicate Valid() { w > 0 && IsGrid(grid, w) }
  }

  function New(capacity: nat): (s: State)
    ensures s.Valid()
  {
    var w := Width(capacity);
    State(seq(DEPTH, _ => seq(w, _ => 0)), w, 0, capacity * 10)
  }

  function Age(s: State): (r: State)
    requires s.Valid()
    ensures r.Valid()
  {
    s.(grid := Halve(s.grid), additions := 0)
  }

  /** `increment`, with the automatic aging after `sample` additions. */
  function Increment(s: State, h: Hash): (r: State)
    requires s.Valid()
    ensures r.Valid()
  {
    var t := s.(grid := BumpRows(s.grid, h, DEPTH, s.w), additions := s.additions + 1);
    if t.additions >= s.sample then Age(t) else t
  }

  // ---------------------------------------------------------------------
  // The estimate never falls below the key's own counter
  // ---------------------------------------------------------------------

  /** A counter kept for the key alone, saturating and halved with all the others. */
  function OwnStep(own: nat, s: State, mine: bool): nat {
    var bumped := if mine then Bump(own) else own;
    if s.additions + 1 >= s.sample then bumped / 2 else bumped
  }

  ghost predicate Dominates(g: Grid, w: nat, h: Hash, own: nat)
    requires IsGrid(g, w) && w > 0
  {
    forall r :: 0 <= r < DEPTH ==> own <= g[r][RowCol(h, r, w)]
  }

  lemma {:induction false} BumpRowsAt(g: Grid, h: Hash, n: nat, w: nat, r: nat, c: nat)
    requires IsGrid(g, w) && n <= DEPTH && w > 0 && r < DEPTH && c < w
    ensures BumpRows(g, h, n, w)[r][c] == if r < n && c == RowCol(h, r, w) then Bump(g[r][c]) else g[r][c]
    decreases n
  {
    if n > 0 { BumpRowsAt(g, h, n - 1, w, r, c); }
  }

  /** An increment raises the key's counter in each row, saturating, and no other; the addition that
      completes the sample then halves them all. */
  lemma IncrementExact(s: State, h: Hash, r: nat, c: nat)
    requires s.Valid() && r < DEPTH && c < s.w
    ensures var bumped := if c == RowCol(h, r, s.w) then Bump(s.grid[r][c]) else s.grid[r][c];
            var t := Increment(s, h);
            if s.additions + 1 >= s.sample then t.grid[r][c] == bumped / 2 && t.additions == 0
            else t.grid[r][c] == bumped && t.additions == s.additions + 1
  {
    BumpRowsAt(s.grid, h, DEPTH, s.w, r, c);
  }

  lemma IncrementDominates(s: State, h: Hash, k: Hash, own: nat)
    requires s.Valid() && Dominates(s.grid, s.w, k, own)
    ensures Dominates(Increment(s, h).grid, s.w, k, OwnStep(own, s, h == k))
  {
    forall r | 0 <= r < DEPTH
      ensures OwnStep(own, s, h == k) <= Increment(s, h).grid[r][RowCol(k, r, s.w)]
    {
      BumpRowsAt(s.grid, h, DEPTH, s.w, r, RowCol(k, r, s.w));
    }
  }

  lemma AgeDominates(s: State, k: Hash, own: nat)
    requires s.Valid() && Dominates(s.grid, s.w, k, own)
    ensures Dominates(Age(s).grid, s.w, k, own / 2)
  {
  }

  datatype Call = Inc(h: Hash) | Aging

  function Run(capacity: nat, calls: seq<Call>): (s: State)
    ensures s.Valid() && s.w == Width(capacity)
  {
    if calls == [] then New(capacity)
    else
      var before := Run(capacity, calls[..|calls| - 1]);
      match calls[|calls| - 1]
      case Inc(h) => Increment(before, h)
      case Aging => Age(before)
  }

  /** The counter that a private, collision-free table would hold for `k`. */
  function Own(capacity: nat, calls: seq<Call>, k: Hash): nat {
    if calls == [] then 0
    else
      var before := calls[..|calls| - 1];
      match calls[|calls| - 1]
      case Inc(h) => OwnStep(Own(capacity, before, k), Run(capacity, before), h == k)
      case Aging => Own(capacity, before, k) / 2
  }

  lemma {:induction false} RunDominates(capacity: nat, calls: seq<Call>, k: Hash)
    ensures Dominates(Run(capacity, calls).grid, Width(capacity), k, Own(capacity, calls, k))
    decreases |calls|
  {
    if calls != [] {
      var before := calls[..|calls| - 1];
      RunDominates(capacity, before, k);
      match calls[|calls| - 1] {
        case Inc(h) => IncrementDominates(Run(capacity, before), h, k, Own(capacity, before, k));
        case Aging => AgeDominates(Run(capacity, before), k, Own(capacity, before, k));
      }
    }
  }

  /** For every run of increments and agings and every key: collisions can only raise the
      estimate, and it stays a nibble. */
  lemma NeverUnderestimates(capacity: nat, calls: seq<Call>, k: Hash)
    ensures Own(capacity, calls, k) <= Estimate(Run(capacity, calls).grid, k, Width(capacity)) <= 15
  {
    RunDominates(capacity, calls, k);
  }

  /** In row `r` no increment of another key touches the counter of `k`. */
  ghost predicate Unshared(calls: seq<Call>, k: Hash, r: nat, w: nat)
    requires w > 0
  {
    forall i :: 0 <= i < |calls| && calls[i].Inc? && calls[i].h != k ==> RowCol(calls[i].h, r, w) != RowCol(k, r, w)
  }

  lemma {:induction false} UnsharedCounts(capacity: nat, calls: seq<Call>, k: Hash, r: nat)
    requires r < DEPTH && Unshared(calls, k, r, Width(capacity))
    ensures Run(capacity, calls).grid[r][RowCol(k, r, Width(capacity))] == Own(capacity, calls, k)
    decreases |calls|
  {
    if calls != [] {
      var before := calls[..|calls| - 1];
      UnsharedCounts(capacity, before, k, r);
      if calls[|calls| - 1].Inc? {
        IncrementExact(Run(capacity, before), calls[|calls| - 1].h, r, RowCol(k, r, Width(capacity)));
      }
      hide Increment, RowCol, Width;
    }
  }

  /** A key that some row keeps to itself is estimated exactly. */
  lemma EstimateExact(capacity: nat, calls: seq<Call>, k: Hash, r: nat)
    requires r < DEPTH && Unshared(calls, k, r, Width(capacity))
    ensures Estimate(Run(capacity, calls).grid, k, Width(capacity)) == Own(capacity, calls, k)
  {
    UnsharedCounts(capacity, calls, k, r);
    RunDominates(capacity, calls, k);
    hide Run, Own, RowCol, Width;
  }

  // ---------------------------------------------------------------------
  // The doorkeeper in front of the sketch
  // ---------------------------------------------------------------------

  ghost predicate BitsSet(bits: seq<bool>, h: Hash, n: nat)
    requires |bits| > 0
  {
    forall r :: 0 <= r < n ==> bits[RowCol(h, r, |bits|)]
  }

  /** The first `n` positions of `put`. */
  function SetBits(bits: seq<bool>, h: Hash, n: nat): (r: seq<bool>)
    requires |bits| > 0
    ensures |r| == |bits|
    decreases n
  {
    if n == 0 then bits else SetBits(bits, h, n - 1)[RowCol(h, n - 1, |bits|) := true]
  }

  predicate AllSet(bits: seq<bool>, h: Hash, n: nat)
    requires |bits| > 0
    decreases n
  {
    n == 0 || (AllSet(bits, h, n - 1) && bits[RowCol(h, n - 1, |bits|)])
  }

  /** Bits are only ever added, and a key's own bits all are. */
  lemma {:induction false} SetBitsSets(bits: seq<bool>, h: Hash, n: nat)
    requires |bits| > 0
    ensures BitsSet(SetBits(bits, h, n), h, n)
    ensures forall i :: 0 <= i < |bits| && bits[i] ==> SetBits(bits, h, n)[i]
    decreases n
  {
    if n > 0 { SetBitsSets(bits, h, n - 1); }
  }

  lemma {:induction false} AllSetMeans(bits: seq<bool>, h: Hash, n: nat)
    requires |bits| > 0
    ensures AllSet(bits, h, n) <==> BitsSet(bits, h, n)
    decreases n
  {
    if n > 0 { AllSetMeans(bits, h, n - 1); }
  }

  datatype Counter = Counter(sketch: State, bits: seq<bool>) {
    ghost predicate Valid() { sketch.Valid() && |bits| > 0 }
  }

  /** `record_access`: the sketch counts a key only from its second sighting on. */
  function Record(c: Counter, h: Hash): (r: Counter)
    requires c.Valid()
    ensures r.Valid()
  {
    Counter(if AllSet(c.bits, h, DEPTH) then Increment(c.sketch, h) else c.sketch,
            SetBits(c.bits, h, DEPTH))
  }

  function DoorBits(capacity: nat): (n: nat)
    ensures n >= 64
  {
    var n := PowerFrom(1, capacity * 8);
    if n < 64 then 64 else n
  }

  function NewCounter(capacity: nat): (c: Counter)
    ensures c.Valid()
  {
    Counter(New(capacity), seq(DoorBits(capacity), _ => false))
  }

  /** `clear` of both tables: all zero, same sizes. */
  function Cleared(c: Counter): (r: Counter)
    requires c.Valid()
    ensures r.Valid() && r.sketch.w == c.sketch.w && |r.bits| == |c.bits| && r.sketch.additions == 0
    ensures forall i, j :: 0 <= i < DEPTH && 0 <= j < c.sketch.w ==> r.sketch.grid[i][j] == 0
    ensures forall i :: 0 <= i < |c.bits| ==> !r.bits[i]
  {
    Counter(c.sketch.(grid := seq(DEPTH, _ => seq(c.sketch.w, _ => 0)), additions := 0),
            seq(|c.bits|, _ => false))
  }

  function RecordAll(capacity: nat, hs: seq<Hash>): (c: Counter)
    ensures c.Valid() && c.sketch.w == Width(capacity) && c.sketch.sample == capacity * 10
    ensures |c.bits| == DoorBits(capacity)
  {
    if hs == [] then NewCounter(capacity)
    else Record(RecordAll(capacity, hs[..|hs| - 1]), hs[|hs| - 1])
  }

  /** Clearing forgets every access. */
  lemma ClearedIsNew(capacity: nat, hs: seq<Hash>)
    ensures Cleared(RecordAll(capacity, hs)) == RecordAll(capacity, [])
  {
    var c, n := Cleared(RecordAll(capacity, hs)), NewCounter(capacity);
    hide RecordAll;
    assert c.bits == n.bits;
    assert forall i :: 0 <= i < DEPTH ==> c.sketch.grid[i] == n.sketch.grid[i];
    assert c.sketch.grid == n.sketch.grid;
  }

  function Count(hs: seq<Hash>, k: Hash): nat {
    if hs == [] then 0 else Count(hs[..|hs| - 1], k) + if hs[|hs| - 1] == k then 1 else 0
  }

  function AtMost15(n: int): nat { if n < 0 then 0 else if n < 15 then n else 15 }

  /** The access completes the sample, so the sketch ages. */
  predicate Ages(c: Counter, h: Hash)
    requires c.Valid()
  {
    AllSet(c.bits, h, DEPTH) && c.sketch.additions + 1 >= c.sketch.sample
  }

  /** The reference: raised by every access to the key but its first, and halved by every aging. */
  function Expected(capacity: nat, hs: seq<Hash>, k: Hash): nat {
    if hs == [] then 0
    else
      var before, h := hs[..|hs| - 1], hs[|hs| - 1];
      var own := Expected(capacity, before, k);
      var bumped := if h == k && Count(before, k) >= 1 then Bump(own) else own;
      if Ages(RecordAll(capacity, before), h) then bumped / 2 else bumped
  }

  /** The doorkeeper remembers a key seen `n >= 1` times, and the sketch holds at least `own` for it. */
  ghost predicate Remembers(c: Counter, k: Hash, n: nat, own: nat) {
    && c.Valid()
    && (n >= 1 ==> BitsSet(c.bits, k, DEPTH))
    && Dominates(c.sketch.grid, c.sketch.w, k, own)
  }

  lemma RecordRemembers(c: Counter, h: Hash, k: Hash, n: nat, own: nat)
    requires Remembers(c, k, n, own)
    ensures var bumped := if h == k && n >= 1 then Bump(own) else own;
            Remembers(Record(c, h), k, n + if h == k then 1 else 0, if Ages(c, h) then bumped / 2 else bumped)
  {
    SetBitsSets(c.bits, h, DEPTH);
    AllSetMeans(c.bits, h, DEPTH);
    if AllSet(c.bits, h, DEPTH) { IncrementDominates(c.sketch, h, k, own); }
  }

  lemma {:induction false} RecordedCounts(capacity: nat, hs: seq<Hash>, k: Hash)
    ensures Remembers(RecordAll(capacity, hs), k, Count(hs, k), Expected(capacity, hs, k))
    decreases |hs|
  {
    if hs != [] {
      var before := hs[..|hs| - 1];
      RecordedCounts(capacity, before, k);
      RecordRemembers(RecordAll(capacity, before), hs[|hs| - 1], k, Count(before, k), Expected(capacity, before, k));
    }
  }

  /** After any recorded accesses, of any number and through any agings, the estimate of a key is at least
      its reference. */
  lemma FrequencyAtLeast(capacity: nat, hs: seq<Hash>, k: Hash)
    ensures var c := RecordAll(capacity, hs);
            Expected(capacity, hs, k) <= Estimate(c.sketch.grid, k, c.sketch.w) <= 15
  {
    RecordedCounts(capacity, hs, k);
  }

  /** In row `r` no other key of the list shares the counter of `k`. */
  ghost predicate AloneInRow(hs: seq<Hash>, k: Hash, r: nat, w: nat)
    requires w > 0
  {
    forall i :: 0 <= i < |hs| && hs[i] != k ==> RowCol(hs[i], r, w) != RowCol(k, r, w)
  }

  /** No other key of the list sets the `d`-th bit of `k`. */
  ghost predicate AloneAtBit(hs: seq<Hash>, k: Hash, d: nat, n: nat)
    requires n > 0
  {
    forall i, r :: 0 <= i < |hs| && hs[i] != k && 0 <= r < DEPTH ==> RowCol(hs[i], r, n) != RowCol(k, d, n)
  }

  lemma {:induction false} SetBitsElsewhere(bits: seq<bool>, h: Hash, n: nat, at: nat)
    requires |bits| > 0 && at < |bits| && forall r :: 0 <= r < n ==> RowCol(h, r, |bits|) != at
    ensures SetBits(bits, h, n)[at] == bits[at]
    decreases n
  {
    if n > 0 { SetBitsElsewhere(bits, h, n - 1, at); }
  }

  ghost predicate CountsExactly(c: Counter, k: Hash, r: nat, d: nat, n: nat, own: nat)
    requires c.Valid() && r < DEPTH
  {
    c.sketch.grid[r][RowCol(k, r, c.sketch.w)] == own && (c.bits[RowCol(k, d, |c.bits|)] <==> n >= 1)
  }

  lemma RecordExactly(c: Counter, h: Hash, k: Hash, r: nat, d: nat, n: nat, own: nat)
    requires Remembers(c, k, n, own) && r < DEPTH && d < DEPTH && CountsExactly(c, k, r, d, n, own)
    requires h != k ==> RowCol(h, r, c.sketch.w) != RowCol(k, r, c.sketch.w)
    requires h != k ==> forall i :: 0 <= i < DEPTH ==> RowCol(h, i, |c.bits|) != RowCol(k, d, |c.bits|)
    ensures var bumped := if h == k && n >= 1 then Bump(own) else own;
            CountsExactly(Record(c, h), k, r, d, n + if h == k then 1 else 0, if Ages(c, h) then bumped / 2 else bumped)
  {
    AllSetMeans(c.bits, h, DEPTH);
    if h == k {
      SetBitsSets(c.bits, h, DEPTH);
    } else {
      SetBitsElsewhere(c.bits, h, DEPTH, RowCol(k, d, |c.bits|));
    }
    IncrementExact(c.sketch, h, r, RowCol(k, r, c.sketch.w));
    hide Increment, SetBits, RowCol, Dominates;
  }

  lemma {:induction false} RecordedExactly(capacity: nat, hs: seq<Hash>, k: Hash, r: nat, d: nat)
    requires r < DEPTH && d < DEPTH
    requires AloneInRow(hs, k, r, Width(capacity)) && AloneAtBit(hs, k, d, DoorBits(capacity))
    ensures CountsExactly(RecordAll(capacity, hs), k, r, d, Count(hs, k), Expected(capacity, hs, k))
    decreases |hs|
  {
    if hs != [] {
      var before, h := hs[..|hs| - 1], hs[|hs| - 1];
      RecordedExactly(capacity, before, k, r, d);
      RecordedCounts(capacity, before, k);
      RecordExactly(RecordAll(capacity, before), h, k, r, d, Count(before, k), Expected(capacity, before, k));
      hide Record, CountsExactly, Remembers, RowCol;
    }
  }

  /** Where some row and some bit are not shared with another key, the estimate is the reference exactly. */
  lemma FrequencyExact(capacity: nat, hs: seq<Hash>, k: Hash, r: nat, d: nat)
    requires r < DEPTH && d < DEPTH
    requires AloneInRow(hs, k, r, Width(capacity)) && AloneAtBit(hs, k, d, DoorBits(capacity))
    ensures var c := RecordAll(capacity, hs);
            Estimate(c.sketch.grid, k, c.sketch.w) == Expected(capacity, hs, k)
  {
    RecordedExactly(capacity, hs, k, r, d);
    FrequencyAtLeast(capacity, hs, k);
    hide RecordAll, Expected, RowCol;
  }

  /** No access so far has completed a sample. */
  predicate NeverAged(capacity: nat, hs: seq<Hash>) {
    hs == [] ||
    (NeverAged(capacity, hs[..|hs| - 1]) && !Ages(RecordAll(capacity, hs[..|hs| - 1]), hs[|hs| - 1]))
  }

  /** Until the first aging the reference is the number of accesses less one, at most 15. */
  lemma {:induction false} ExpectedBeforeAging(capacity: nat, hs: seq<Hash>, k: Hash)
    requires NeverAged(capacity, hs)
    ensures Expected(capacity, hs, k) == AtMost15(Count(hs, k) - 1)
    decreases |hs|
  {
    hide Ages, RecordAll;
    if hs != [] { ExpectedBeforeAging(capacity, hs[..|hs| - 1], k); }
  }

  /** The first aging takes at least ten accesses for each unit of capacity. */
  lemma {:induction false} ShortRunsNeverAge(capacity: nat, hs: seq<Hash>)
    requires |hs| < capacity * 10
    ensures NeverAged(capacity, hs) && RecordAll(capacity, hs).sketch.additions <= |hs|
    decreases |hs|
  {
    if hs != [] { ShortRunsNeverAge(capacity, hs[..|hs| - 1]); }
  }

  // ---------------------------------------------------------------------
  // Packed layout: where the counter of a row and column lives
  // ---------------------------------------------------------------------

  function HalfWidth(w: nat): (half: nat)
    ensures half >= 1 && (w >= 2 ==> 2 * half <= w < 2 * half + 2)
  {
    if w / 2 < 1 then 1 else w / 2
  }

  /** The number of bytes that `CountMinSketch::new` allocates. */
  function TableLen(w: nat): nat { if DEPTH * (w / 2) < 1 then 1 else DEPTH * (w / 2) }

  /** Every counter has its byte inside the table exactly from capacity 2 on. */
  lemma IndexInRangeIff(capacity: nat)
    ensures (forall row: nat, col: nat :: row < DEPTH && col < Width(capacity) ==>
               row * HalfWidth(Width(capacity)) + col / 2 < TableLen(Width(capacity)))
            <==> capacity >= 2
  {
    var w := Width(capacity);
    if capacity >= 2 {
      forall row: nat, col: nat | row < DEPTH && col < w
        ensures row * HalfWidth(w) + col / 2 < TableLen(w)
      {
        assert row == 0 || row == 1 || row == 2 || row == 3;
      }
    } else {
      assert w == 1;
      assert 1 * HalfWidth(w) + 0 / 2 == 1;
      assert !(1 * HalfWidth(w) + 0 / 2 < TableLen(w));
    }
  }
}
