/** UTF-8 as section 3 of RFC 3629 lays it out: the validity test against the encoding of code points. */
module Utf8 {
  import opened ByteOrder

  predicate Continues(b: seq<byte>, n: nat) {
    n <= |b| && forall i :: 0 <= i < n ==> 0x80 <= b[i] < 0xC0
  }

  /** The length of the first sequence of the string, or 0 if it does not start with a well-formed one. */
  function FirstLen(b: seq<byte>): (n: nat)
    ensures n <= |b|
  {
    if b == [] then 0
    else if b[0] < 0x80 then 1
    else if 0xC2 <= b[0] < 0xE0 then if Continues(b[1..], 1) then 2 else 0
    else if 0xE0 <= b[0] < 0xF0 then
      if Continues(b[1..], 2) && (b[0] == 0xE0 ==> b[1] >= 0xA0) && (b[0] == 0xED ==> b[1] < 0xA0) then 3 else 0
    else if 0xF0 <= b[0] < 0xF5 then
      if Continues(b[1..], 3) && (b[0] == 0xF0 ==> b[1] >= 0x90) && (b[0] == 0xF4 ==> b[1] < 0x90) then 4 else 0
    else 0
  }

  predicate ValidUtf8(b: seq<byte>)
    decreases |b|
  {
    b == [] || (FirstLen(b) > 0 && ValidUtf8(b[FirstLen(b)..]))
  }

  // ---------------------------------------------------------------------
  // The encoding
  // ---------------------------------------------------------------------

  /** A code point other than the surrogates. */
  predicate IsScalar(c: nat) {
    c < 0xD800 || 0xE000 <= c < 0x110000
  }

  function Encoded(c: nat): (r: seq<byte>)
    requires IsScalar(c)
    ensures 1 <= |r| <= 4
  {
    if c < 0x80 then [c]
    else if c < 0x800 then [0xC0 + c / 64, 0x80 + c % 64]
    else if c < 0x10000 then [0xE0 + c / 4096, 0x80 + c / 64 % 64, 0x80 + c % 64]
    else [0xF0 + c / 262144, 0x80 + c / 4096 % 64, 0x80 + c / 64 % 64, 0x80 + c % 64]
  }

  function EncodedAll(cs: seq<nat>): seq<byte>
    requires forall i :: 0 <= i < |cs| ==> IsScalar(cs[i])
  {
    if cs == [] then [] else Encoded(cs[0]) + EncodedAll(cs[1..])
  }

  function Two(x: nat, y: nat): nat { x * 64 + y }

  function Three(x: nat, y: nat, z: nat): nat { Two(x, y) * 64 + z }

  function Four(w: nat, x: nat, y: nat, z: nat): nat { Three(w, x, y) * 64 + z }

  /** The code point of a well-formed sequence: the bits that each byte carries, one after the other. */
  function Decoded(b: seq<byte>): nat
    requires FirstLen(b) > 0
  {
    var n := FirstLen(b);
    assert forall i :: 1 <= i < n ==> b[i] == b[1..][i - 1];
    if n == 1 then b[0]
    else if n == 2 then Two(b[0] as int - 0xC0, b[1] as int - 0x80)
    else if n == 3 then Three(b[0] as int - 0xE0, b[1] as int - 0x80, b[2] as int - 0x80)
    else Four(b[0] as int - 0xF0, b[1] as int - 0x80, b[2] as int - 0x80, b[3] as int - 0x80)
  }

  /** An encoded code point is a well-formed sequence, whatever follows. */
  lemma EncodedFirst(c: nat, rest: seq<byte>)
    requires IsScalar(c)
    ensures FirstLen(Encoded(c) + rest) == |Encoded(c)|
  {
    var e := Encoded(c);
    var b := e + rest;
    assert forall i :: 0 <= i < |e| ==> b[i] == e[i];
    assert forall i :: 0 <= i < |e| - 1 ==> b[1..][i] == e[i + 1];
  }

  lemma Split(q: nat, r: nat)
    requires r < 64
    ensures (q * 64 + r) / 64 == q && (q * 64 + r) % 64 == r
  {
  }

  lemma OnePart(x: nat)
    requires x < 128
    ensures IsScalar(x) && Encoded(x) == [x]
  {
  }

  lemma TwoParts(x: nat, y: nat)
    requires 2 <= x < 32 && y < 64
    ensures IsScalar(Two(x, y)) && Encoded(Two(x, y)) == [0xC0 + x, 0x80 + y]
  {
    Split(x, y);
  }

  lemma ThreeParts(x: nat, y: nat, z: nat)
    requires x < 16 && y < 64 && z < 64 && (x == 0 ==> y >= 32) && (x == 13 ==> y < 32)
    ensures IsScalar(Three(x, y, z)) && Encoded(Three(x, y, z)) == [0xE0 + x, 0x80 + y, 0x80 + z]
  {
    Split(Two(x, y), z);
    Split(x, y);
    assert Three(x, y, z) / 4096 == Three(x, y, z) / 64 / 64;
  }

  lemma FourParts(w: nat, x: nat, y: nat, z: nat)
    requires w < 5 && x < 64 && y < 64 && z < 64 && (w == 0 ==> x >= 16) && (w == 4 ==> x < 16)
    ensures IsScalar(Four(w, x, y, z))
    ensures Encoded(Four(w, x, y, z)) == [0xF0 + w, 0x80 + x, 0x80 + y, 0x80 + z]
  {
    var c := Four(w, x, y, z);
    Split(Three(w, x, y), z);
    Split(Two(w, x), y);
    Split(w, x);
    assert c / 4096 == c / 64 / 64 && c / 262144 == c / 64 / 64 / 64;
  }

  /** A well-formed sequence is an encoded code point. */
  lemma DecodedFirst(b: seq<byte>)
    requires FirstLen(b) > 0
    ensures IsScalar(Decoded(b)) && Encoded(Decoded(b)) == b[..FirstLen(b)]
  {
    hide Two, Three, Four, Encoded, IsScalar;
    var n := FirstLen(b);
    assert forall i :: 1 <= i < n ==> b[i] == b[1..][i - 1];
    if n == 1 {
      OnePart(b[0]);
    } else if n == 2 {
      TwoParts(b[0] as int - 0xC0, b[1] as int - 0x80);
    } else if n == 3 {
      ThreeParts(b[0] as int - 0xE0, b[1] as int - 0x80, b[2] as int - 0x80);
    } else if n == 4 {
      FourParts(b[0] as int - 0xF0, b[1] as int - 0x80, b[2] as int - 0x80, b[3] as int - 0x80);
    }
  }

  /** The test accepts exactly the encodings of sequences of code points. */
  lemma ValidIff(b: seq<byte>)
    ensures ValidUtf8(b) <==>
            exists cs: seq<nat> :: (forall i :: 0 <= i < |cs| ==> IsScalar(cs[i])) && EncodedAll(cs) == b
  {
    if ValidUtf8(b) {
      var cs := CodePoints(b);
    }
    forall cs: seq<nat> | (forall i :: 0 <= i < |cs| ==> IsScalar(cs[i])) && EncodedAll(cs) == b ensures ValidUtf8(b) {
      EncodedIsValid(cs);
    }
  }

  lemma {:induction false} CodePoints(b: seq<byte>) returns (cs: seq<nat>)
    requires ValidUtf8(b)
    ensures (forall i :: 0 <= i < |cs| ==> IsScalar(cs[i])) && EncodedAll(cs) == b
    decreases |b|
  {
    if b == [] {
      cs := [];
    } else {
      var n := FirstLen(b);
      var rest := CodePoints(b[n..]);
      DecodedFirst(b);
      cs := [Decoded(b)] + rest;
      assert cs[1..] == rest;
      assert b == b[..n] + b[n..];
    }
  }

  lemma {:induction false} EncodedIsValid(cs: seq<nat>)
    requires forall i :: 0 <= i < |cs| ==> IsScalar(cs[i])
    ensures ValidUtf8(EncodedAll(cs))
  {
    if cs != [] {
      var e, rest := Encoded(cs[0]), EncodedAll(cs[1..]);
      EncodedIsValid(cs[1..]);
      EncodedFirst(cs[0], rest);
      assert (e + rest)[|e|..] == rest;
    }
  }
}
