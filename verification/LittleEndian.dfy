/** Fixed-width unsigned integers as little-endian byte strings. */
module LittleEndian {
  import opened ByteOrder

  function Pow256(width: nat): (r: nat)
    ensures r >= 1
  {
    if width == 0 then 1 else 256 * Pow256(width - 1)
  }

  function Encode(n: nat, width: nat): (r: seq<byte>)
    ensures |r| == width
    decreases width
  {
    if width == 0 then [] else [n % 256] + Encode(n / 256, width - 1)
  }

  function Decode(bytes: seq<byte>): (n: nat)
    ensures n < Pow256(|bytes|)
  {
    if bytes == [] then 0 else bytes[0] + 256 * Decode(bytes[1..])
  }

  lemma {:induction false} DecodeEncode(n: nat, width: nat)
    requires n < Pow256(width)
    ensures Decode(Encode(n, width)) == n
    decreases width
  {
    if width > 0 {
      DecodeEncode(n / 256, width - 1);
      assert Encode(n, width)[1..] == Encode(n / 256, width - 1);
    }
  }

  lemma LowByte(b: byte, n: nat)
    ensures (b + 256 * n) % 256 == b && (b + 256 * n) / 256 == n
  {
  }

  lemma {:induction false} EncodeDecode(bytes: seq<byte>)
    ensures Encode(Decode(bytes), |bytes|) == bytes
  {
    if bytes != [] {
      EncodeDecode(bytes[1..]);
      LowByte(bytes[0], Decode(bytes[1..]));
      assert bytes == [bytes[0]] + bytes[1..];
      hide Decode;
    }
  }

  lemma Widths()
    ensures Pow256(4) == 0x1_0000_0000
    ensures Pow256(8) == 0x1_0000_0000_0000_0000
  {
    assert Pow256(3) == 0x100_0000 && Pow256(2) == 0x1_0000 && Pow256(1) == 0x100;
    assert Pow256(4) == 256 * Pow256(3);
    assert Pow256(5) == 256 * Pow256(4);
    assert Pow256(6) == 256 * Pow256(5);
    assert Pow256(7) == 256 * Pow256(6);
  }
}
