/** `CountMinSketch` and `Doorkeeper` as the packed arrays of the source: two 4-bit counters to a
    byte, sixty-four filter bits to a word. */
module SketchTables {
  import opened Sketch

  // ---------------------------------------------------------------------
  // Nibbles
  // ---------------------------------------------------------------------

  /** `nibble_get` within one byte: the low half for even columns, the high half for odd ones. */
  function Nibble(byte: bv8, odd: bool): bv8 {
    if odd then (byte >> 4) & 0x0F else byte & 0x0F
  }

  function WithNibble(byte: bv8, odd: bool, val: bv8): bv8 {
    if odd then (byte & 0x0F) | ((val & 0x0F) << 4) else (byte & 0xF0) | (val & 0x0F)
  }

  function HalveByte(byte: bv8): bv8 {
    (((byte >> 4) >> 1) << 4) | ((byte & 0x0F) >> 1)
  }

  lemma NibbleRange(byte: bv8, odd: bool)
    ensures Nibble(byte, odd) <= 15 && Nibble(byte, odd) as nat <= 15
  {
  }

  lemma WithNibbleReads(byte: bv8, odd: bool, val: bv8, at: bool)
    requires val <= 15
    ensures Nibble(WithNibble(byte, odd, val), at) == if at == odd then val else Nibble(byte, at)
  {
  }

  lemma HalveByteReads(byte: bv8, odd: bool)
    ensures Nibble(HalveByte(byte), odd) as nat == Nibble(byte, odd) as nat / 2
  {
    var x := Nibble(byte, odd);
    assert Nibble(HalveByte(byte), odd) == x >> 1;
    HalfNat(x);
  }

  lemma HalfNat(x: bv8)
    requires x <= 15
    ensures (x >> 1) as nat == x as nat / 2
  {
  }

  lemma IncNat(x: bv8)
    requires x <= 15
    ensures x < 15 <==> x as nat < 15
    ensures x as nat <= 15
    ensures x < 15 ==> (x + 1) as nat == x as nat + 1 && x + 1 <= 15
  {
  }

  // ---------------------------------------------------------------------
  // The table as a grid
  // ---------------------------------------------------------------------

  function Cell(bytes: seq<bv8>, w: nat, row: nat, col: nat): nat
    requires w % 2 == 0 && |bytes| == DEPTH * (w / 2) && row < DEPTH && col < w
  {
    InRange(w, row, col);
    NibbleRange(bytes[row * (w / 2) + col / 2], col % 2 == 1);
    Nibble(bytes[row * (w / 2) + col / 2], col % 2 == 1) as nat
  }

  lemma InRange(w: nat, row: nat, col: nat)
    requires w % 2 == 0 && row < DEPTH && col < w
    ensures row * (w / 2) + col / 2 < DEPTH * (w / 2)
  {
    assert row == 0 || row == 1 || row == 2 || row == 3;
  }

  /** Two counters share a byte and a half of it only if they are the same counter. */
  lemma Injective(w: nat, row: nat, col: nat, row': nat, col': nat)
    requires w % 2 == 0 && row < DEPTH && row' < DEPTH && col < w && col' < w
    requires row * (w / 2) + col / 2 == row' * (w / 2) + col' / 2 && col % 2 == col' % 2
    ensures row == row' && col == col'
  {
    assert row == 0 || row == 1 || row == 2 || row == 3;
    assert row' == 0 || row' == 1 || row' == 2 || row' == 3;
  }

  ghost function Row(bytes: seq<bv8>, w: nat, row: nat): seq<nat>
    requires w % 2 == 0 && |bytes| == DEPTH * (w / 2) && row < DEPTH
  {
    seq(w, col requires 0 <= col < w => Cell(bytes, w, row, col))
  }

  ghost function View(bytes: seq<bv8>, w: nat): (g: Grid)
    requires w % 2 == 0 && |bytes| == DEPTH * (w / 2)
    ensures IsGrid(g, w)
  {
    var g := seq(DEPTH, row requires 0 <= row < DEPTH => Row(bytes, w, row));
    assert forall r, c :: 0 <= r < DEPTH && 0 <= c < w ==> g[r][c] == Cell(bytes, w, r, c) <= 15 by {
      forall r, c | 0 <= r < DEPTH && 0 <= c < w ensures Cell(bytes, w, r, c) <= 15 {
        InRange(w, r, c);
        NibbleRange(bytes[r * (w / 2) + c / 2], c % 2 == 1);
      }
    }
    g
  }

  lemma CellIs(bytes: seq<bv8>, w: nat, row: nat, col: nat)
    requires w % 2 == 0 && |bytes| == DEPTH * (w / 2) && row < DEPTH && col < w
    requires row * (w / 2) + col / 2 < |bytes|
    ensures var nibble := Nibble(bytes[row * (w / 2) + col / 2], col % 2 == 1);
            nibble <= 15 && View(bytes, w)[row][col] == nibble as nat
  {
    NibbleRange(bytes[row * (w / 2) + col / 2], col % 2 == 1);
    hide Nibble;
  }

  lemma WriteCellAt(bytes: seq<bv8>, w: nat, row: nat, col: nat, val: bv8, r: nat, c: nat)
    requires w % 2 == 0 && |bytes| == DEPTH * (w / 2) && row < DEPTH && col < w && val <= 15
    requires r < DEPTH && c < w && row * (w / 2) + col / 2 < |bytes|
    ensures var i := row * (w / 2) + col / 2;
            Cell(bytes[i := WithNibble(bytes[i], col % 2 == 1, val)], w, r, c) ==
            if r == row && c == col then val as nat else Cell(bytes, w, r, c)
  {
    var i := row * (w / 2) + col / 2;
    InRange(w, r, c);
    if r * (w / 2) + c / 2 == i {
      WithNibbleReads(bytes[i], col % 2 == 1, val, c % 2 == 1);
      if c % 2 == col % 2 {
        Injective(w, row, col, r, c);
      }
    }
  }

  /** Writing one nibble changes one counter. */
  lemma WriteCell(bytes: seq<bv8>, w: nat, row: nat, col: nat, val: bv8)
    requires w % 2 == 0 && |bytes| == DEPTH * (w / 2) && row < DEPTH && col < w && val <= 15
    ensures row * (w / 2) + col / 2 < |bytes|
    ensures var i := row * (w / 2) + col / 2;
            View(bytes[i := WithNibble(bytes[i], col % 2 == 1, val)], w) ==
            SetAt(View(bytes, w), row, col, val as nat)
  {
    InRange(w, row, col);
    var i := row * (w / 2) + col / 2;
    var bytes' := bytes[i := WithNibble(bytes[i], col % 2 == 1, val)];
    var g, g' := SetAt(View(bytes, w), row, col, val as nat), View(bytes', w);
    forall r | 0 <= r < DEPTH ensures g'[r] == g[r] {
      forall c | 0 <= c < w ensures g'[r][c] == g[r][c] {
        WriteCellAt(bytes, w, row, col, val, r, c);
      }
    }
  }

  lemma HalveCells(bytes: seq<bv8>, bytes': seq<bv8>, w: nat)
    requires w % 2 == 0 && |bytes| == DEPTH * (w / 2) == |bytes'|
    requires forall i :: 0 <= i < |bytes| ==> bytes'[i] == HalveByte(bytes[i])
    ensures View(bytes', w) == Halve(View(bytes, w))
  {
    var g, g' := Halve(View(bytes, w)), View(bytes', w);
    forall r, c | 0 <= r < DEPTH && 0 <= c < w ensures g'[r][c] == g[r][c] {
      InRange(w, r, c);
      HalveByteReads(bytes[r * (w / 2) + c / 2], c % 2 == 1);
    }
    forall r | 0 <= r < DEPTH ensures g'[r] == g[r] {
    }
  }

  // ---------------------------------------------------------------------
  // CountMinSketch
  // ---------------------------------------------------------------------

  class CountMinSketch {
    const counters: array<bv8>
    const w: nat
    const halfW: nat
    var additions: nat
    const sampleSize: nat

    /** The layout fits: false of a sketch made for fewer than two items. */
    ghost predicate Valid() {
      w > 0 && w % 2 == 0 && halfW == w / 2 && counters.Length == DEPTH * (w / 2)
    }

    ghost function Model(): State
      reads this, counters
      requires Valid()
    {
      State(View(counters[..], w), w, additions, sampleSize)
    }

    constructor (capacity: nat)
      ensures fresh(counters)
      ensures Valid() <==> capacity >= 2
      ensures Valid() ==> Model() == New(capacity)
    {
      var width := Width(capacity);
      w := width;
      halfW := HalfWidth(width);
      additions, sampleSize := 0, capacity * 10;
      counters := new bv8[TableLen(width)](_ => 0);
      new;
      if capacity >= 2 {
        assert forall i :: 0 <= i < counters.Length ==> counters[..][i] == 0;
        ZeroTable(counters[..], w);
      }
    }

    method NibbleGet(row: nat, col: nat) returns (val: bv8)
      requires Valid() && row < DEPTH && col < w
      ensures val <= 15 && val as nat == Model().grid[row][col]
    {
      InRange(w, row, col);
      CellIs(counters[..], w, row, col);
      hide View, Nibble;
      val := Nibble(counters[row * halfW + col / 2], col % 2 == 1);
    }

    method NibbleSet(row: nat, col: nat, val: bv8)
      requires Valid() && row < DEPTH && col < w && val <= 15
      modifies counters
      ensures Model() == old(Model()).(grid := SetAt(old(Model()).grid, row, col, val as nat))
    {
      ghost var bytes := counters[..];
      WriteCell(bytes, w, row, col, val);
      var i := row * halfW + col / 2;
      counters[i] := WithNibble(counters[i], col % 2 == 1, val);
      assert counters[..] == bytes[i := WithNibble(bytes[i], col % 2 == 1, val)];
    }

    method BumpCell(h: Hash, row: nat)
      requires Valid() && row < DEPTH
      modifies counters
      ensures Model() == old(Model()).(grid := BumpRow(old(Model()).grid, h, row, w))
    {
      var col := RowCol(h, row, w);
      var cur := NibbleGet(row, col);
      IncNat(cur);
      if cur < 15 {
        NibbleSet(row, col, cur + 1);
      } else {
        SetSame(Model().grid, row, col);
      }
    }

    method Increment(h: Hash)
      requires Valid()
      modifies this, counters
      ensures Model() == Sketch.Increment(old(Model()), h)
    {
      for row := 0 to DEPTH
        invariant Model() == old(Model()).(grid := BumpRows(old(Model()).grid, h, row, w))
      {
        BumpCell(h, row);
      }
      additions := additions + 1;
      if additions >= sampleSize {
        Age();
      }
    }

    method Estimate(h: Hash) returns (min: nat)
      requires Valid()
      ensures min == Sketch.Estimate(Model().grid, h, w)
    {
      min := 0xFFFF_FFFF_FFFF_FFFF;
      for row := 0 to DEPTH
        invariant row == 0 ==> min == 0xFFFF_FFFF_FFFF_FFFF
        invariant row > 0 ==> min == MinRows(Model().grid, h, row, w)
      {
        var cur := NibbleGet(row, RowCol(h, row, w));
        IncNat(cur);
        var val := cur as nat;
        if val < min {
          min := val;
        }
      }
    }

    method Age()
      requires Valid()
      modifies this, counters
      ensures Model() == Sketch.Age(old(Model()))
    {
      ghost var bytes := counters[..];
      for i := 0 to counters.Length
        invariant additions == old(additions)
        invariant forall j :: 0 <= j < i ==> counters[j] == HalveByte(bytes[j])
        invariant forall j :: i <= j < counters.Length ==> counters[j] == bytes[j]
      {
        counters[i] := HalveByte(counters[i]);
      }
      additions := 0;
      HalveCells(bytes, counters[..], w);
    }
  }

  lemma SetSame(g: Grid, r: nat, c: nat)
    requires r < |g| && c < |g[r]|
    ensures SetAt(g, r, c, g[r][c]) == g
  {
    assert g[r][c := g[r][c]] == g[r];
  }

  lemma ZeroTable(bytes: seq<bv8>, w: nat)
    requires w > 0 && w % 2 == 0 && |bytes| == DEPTH * (w / 2)
    requires forall i :: 0 <= i < |bytes| ==> bytes[i] == 0
    ensures View(bytes, w) == seq(DEPTH, _ => seq(w, _ => 0))
  {
    var g, z := View(bytes, w), seq(DEPTH, _ => seq(w, _ => 0));
    forall r | 0 <= r < DEPTH ensures g[r] == z[r] {
      forall c | 0 <= c < w ensures g[r][c] == z[r][c] {
        InRange(w, r, c);
      }
    }
  }

  // ---------------------------------------------------------------------
  // Doorkeeper
  // ---------------------------------------------------------------------

  function Bit(word: bv64, i: bv6): bool {
    word & ((1 as bv64) << i) != 0
  }

  function WithBit(word: bv64, i: bv6): bv64 {
    word | ((1 as bv64) << i)
  }

  /** Setting one bit of a word sets that bit and no other. */
  lemma WithBitReads(word: bv64, i: bv6, j: bv6)
    ensures Bit(WithBit(word, i), j) <==> i == j || Bit(word, j)
  {
    if i != j {
      WithBitOther(word, i, j);
    }
  }

  lemma WithBitOther(word: bv64, i: bv6, j: bv6)
    requires i != j
    ensures Bit(WithBit(word, i), j) == Bit(word, j)
  {
    DisjointMasks(i, j);
    MaskedOr(word, (1 as bv64) << i, (1 as bv64) << j);
  }

  lemma DisjointMasks(i: bv6, j: bv6)
    requires i != j
    ensures ((1 as bv64) << i) & ((1 as bv64) << j) == 0
  {
  }

  lemma MaskedOr(word: bv64, m: bv64, n: bv64)
    requires m & n == 0
    ensures (word | m) & n == word & n
  {
  }

  function Offset(pos: nat): bv6 { (pos % 64) as bv6 }

  lemma OffsetRoundTrip(pos: nat)
    ensures Offset(pos) as nat == pos % 64
  {
  }

  lemma DistinctOffsets(i: nat, j: nat)
    requires i / 64 == j / 64 && i != j
    ensures Offset(i) != Offset(j)
  {
    OffsetRoundTrip(i);
    OffsetRoundTrip(j);
  }

  ghost function BitView(words: seq<bv64>): seq<bool> {
    seq(|words| * 64, i requires 0 <= i < |words| * 64 => Bit(words[i / 64], Offset(i)))
  }

  lemma WriteBit(words: seq<bv64>, pos: nat)
    requires pos < |words| * 64
    ensures BitView(words[pos / 64 := WithBit(words[pos / 64], Offset(pos))]) == BitView(words)[pos := true]
  {
    var words' := words[pos / 64 := WithBit(words[pos / 64], Offset(pos))];
    var v, v' := BitView(words), BitView(words');
    forall i | 0 <= i < |v| ensures v'[i] == v[pos := true][i] {
      if i / 64 == pos / 64 {
        WithBitReads(words[i / 64], Offset(pos), Offset(i));
        if i != pos { DistinctOffsets(i, pos); }
      }
    }
  }

  /** The filter is a whole number of words. */
  lemma DoorBitsWhole(capacity: nat)
    ensures DoorBits(capacity) % 64 == 0
  {
    var n := capacity * 8;
    PowerFromMultiple(64, n);
    assert PowerFrom(1, n) < 64 || PowerFrom(1, n) == PowerFrom(2, n);
    assert PowerFrom(2, n) < 64 || PowerFrom(2, n) == PowerFrom(4, n);
    assert PowerFrom(4, n) < 64 || PowerFrom(4, n) == PowerFrom(8, n);
    assert PowerFrom(8, n) < 64 || PowerFrom(8, n) == PowerFrom(16, n);
    assert PowerFrom(16, n) < 64 || PowerFrom(16, n) == PowerFrom(32, n);
    assert PowerFrom(32, n) < 64 || PowerFrom(32, n) == PowerFrom(64, n);
  }

  lemma {:induction false} PowerFromMultiple(p: nat, n: nat)
    requires p >= 64 && p % 64 == 0
    ensures PowerFrom(p, n) % 64 == 0
    decreases if p < n then n - p else 0
  {
    if p < n { PowerFromMultiple(2 * p, n); }
  }

  class Doorkeeper {
    const bits: array<bv64>
    const numBits: nat

    ghost predicate Valid() {
      numBits > 0 && numBits == bits.Length * 64
    }

    ghost function Model(): (m: seq<bool>)
      reads bits
      requires Valid()
      ensures |m| == numBits
    {
      BitView(bits[..])
    }

    constructor (capacity: nat)
      ensures fresh(bits) && Valid() && Model() == NewCounter(capacity).bits
    {
      var n := DoorBits(capacity);
      DoorBitsWhole(capacity);
      numBits := n;
      bits := new bv64[n / 64](_ => 0);
      new;
      assert forall i :: 0 <= i < bits.Length ==> bits[..][i] == 0;
      ZeroBits(bits[..]);
    }

    /** Reports whether all positions were set before, and sets them. */
    method Put(h: Hash) returns (allSet: bool)
      requires Valid()
      modifies bits
      ensures allSet == AllSet(old(Model()), h, DEPTH)
      ensures Model() == SetBits(old(Model()), h, DEPTH)
    {
      allSet := true;
      ghost var start := Model();
      for row := 0 to DEPTH
        invariant Model() == SetBits(start, h, row)
        invariant allSet == AllSet(start, h, row)
      {
        var pos := RowCol(h, row, numBits);
        PutRow(start, h, row);
        var isSet := TestAndSet(pos);
        if !isSet {
          allSet := false;
        }
      }
    }

    method TestAndSet(pos: nat) returns (isSet: bool)
      requires Valid() && pos < numBits
      modifies bits
      ensures isSet == old(Model())[pos]
      ensures Model() == old(Model())[pos := true]
    {
      ghost var words := bits[..];
      isSet := Bit(bits[pos / 64], Offset(pos));
      if !isSet {
        WriteBit(words, pos);
        bits[pos / 64] := WithBit(bits[pos / 64], Offset(pos));
        assert bits[..] == words[pos / 64 := WithBit(words[pos / 64], Offset(pos))];
      } else {
        assert Model()[pos := true] == Model();
      }
    }
  }

  lemma ZeroBits(words: seq<bv64>)
    requires forall i :: 0 <= i < |words| ==> words[i] == 0
    ensures BitView(words) == seq(|words| * 64, _ => false)
  {
  }

  /** A position found set while `put` runs was set before it, unless an earlier row already
      reported an unset bit: the verdict is about the state before the call. */
  lemma PutRow(start: seq<bool>, h: Hash, row: nat)
    requires |start| > 0 && row < DEPTH
    ensures var pos := RowCol(h, row, |start|);
            && SetBits(start, h, row + 1) == SetBits(start, h, row)[pos := true]
            && AllSet(start, h, row + 1) == (AllSet(start, h, row) && SetBits(start, h, row)[pos])
  {
    if AllSet(start, h, row) { SetBitsIdle(start, h, row); }
  }

  lemma {:induction false} SetBitsIdle(bits: seq<bool>, h: Hash, n: nat)
    requires |bits| > 0 && AllSet(bits, h, n)
    ensures SetBits(bits, h, n) == bits
    decreases n
  {
    if n > 0 { SetBitsIdle(bits, h, n - 1); }
  }
}
