/** The envelope format: a data key wrapped under a versioned key-encryption key, then the data
    sealed under the data key. */
module Envelopes {
  import opened LinkedMaps
  import opened ByteOrder
  import opened LittleEndian
  import opened Keyrings
  import opened Words

  const VERSION_LEN := 4
  const NONCE_LEN := 24
  const WRAPPED_LEN := 48
  const TAG_LEN := 16
  const WRAP_NONCE_OFFSET := VERSION_LEN
  const WRAPPED_OFFSET := WRAP_NONCE_OFFSET + NONCE_LEN
  const DATA_NONCE_OFFSET := WRAPPED_OFFSET + WRAPPED_LEN
  const DATA_OFFSET := DATA_NONCE_OFFSET + NONCE_LEN
  const MIN_LEN := DATA_OFFSET + TAG_LEN

  type Nonce = s: seq<byte> | |s| == NONCE_LEN witness seq(NONCE_LEN, _ => 0)
  type Bytes = seq<byte>

  /** The authenticated cipher: key, nonce, associated data, then plaintext or ciphertext. */
  datatype Aead = Aead(
    seal: (Secret, Nonce, Bytes, Bytes) -> Bytes,
    open: (Secret, Nonce, Bytes, Bytes) -> Option<Bytes>)

  /** What is assumed of the cipher: opening undoes sealing, and the tag takes 16 bytes. */
  ghost predicate Lawful(c: Aead) {
    && (forall k, n, a, p :: |c.seal(k, n, a, p)| == |p| + TAG_LEN)
    && (forall k, n, a, p :: c.open(k, n, a, c.seal(k, n, a, p)) == Some(p))
    && (forall k, n, a, x :: c.open(k, n, a, x).Some? ==> |x| == |c.open(k, n, a, x).value| + TAG_LEN)
  }

  /** The assumptions can be met. */
  lemma LawfulCipherExists()
    ensures exists c :: Lawful(c)
  {
    var c := Aead(
      (k, n, a, p) => p + seq(TAG_LEN, _ => 0),
      (k, n, a, x) => if |x| >= TAG_LEN then Some(x[..|x| - TAG_LEN]) else None);
    forall k, n, a, p ensures c.open(k, n, a, c.seal(k, n, a, p)) == Some(p) {
      assert c.seal(k, n, a, p)[..|p|] == p;
    }
    assert Lawful(c);
  }

  datatype Error = TooShort | MissingKek(version: nat) | AuthenticationFailed

  datatype Result<T> = Ok(value: T) | Err(error: Error)

  // ---------------------------------------------------------------------
  // Header
  // ---------------------------------------------------------------------

  function VersionOf(e: Bytes): (v: nat)
    requires |e| >= MIN_LEN
    ensures v < U32
  {
    Widths();
    Decode(e[..VERSION_LEN])
  }

  function WrapNonceOf(e: Bytes): Nonce
    requires |e| >= MIN_LEN
  {
    e[WRAP_NONCE_OFFSET..WRAPPED_OFFSET]
  }

  function WrappedOf(e: Bytes): (w: Bytes)
    requires |e| >= MIN_LEN
    ensures |w| == WRAPPED_LEN
  {
    e[WRAPPED_OFFSET..DATA_NONCE_OFFSET]
  }

  /** The data nonce and the sealed data. */
  function DataOf(e: Bytes): (d: Bytes)
    requires |e| >= MIN_LEN
    ensures |d| >= NONCE_LEN + TAG_LEN
  {
    e[DATA_NONCE_OFFSET..]
  }

  function Build(version: nat, wrapNonce: Nonce, wrapped: Bytes, data: Bytes): (e: Bytes)
    requires version < U32 && |wrapped| == WRAPPED_LEN && |data| >= NONCE_LEN + TAG_LEN
    ensures |e| == DATA_NONCE_OFFSET + |data| && |e| >= MIN_LEN
    ensures VersionOf(e) == version && WrapNonceOf(e) == wrapNonce && WrappedOf(e) == wrapped && DataOf(e) == data
  {
    Widths();
    DecodeEncode(version, VERSION_LEN);
    var e := Encode(version, VERSION_LEN) + wrapNonce + wrapped + data;
    assert e[..VERSION_LEN] == Encode(version, VERSION_LEN);
    assert e[WRAP_NONCE_OFFSET..WRAPPED_OFFSET] == wrapNonce;
    assert e[WRAPPED_OFFSET..DATA_NONCE_OFFSET] == wrapped;
    assert e[DATA_NONCE_OFFSET..] == data;
    e
  }

  // ---------------------------------------------------------------------
  // Operations
  // ---------------------------------------------------------------------

  function VersionAad(v: nat): Bytes {
    Encode(v, VERSION_LEN)
  }

  function Wrap(c: Aead, kek: Secret, version: nat, nonce: Nonce, dek: Secret): Bytes {
    c.seal(kek, nonce, VersionAad(version), dek)
  }

  /** The data key inside an envelope. */
  function Unwrap(c: Aead, ring: seq<KeyVersion>, e: Bytes): Result<Bytes>
    requires |e| >= MIN_LEN
  {
    var v := VersionOf(e);
    match KekFor(ring, v)
    case None => Err(MissingKek(v))
    case Some(kek) =>
      match c.open(kek, WrapNonceOf(e), VersionAad(v), WrappedOf(e))
      case None => Err(AuthenticationFailed)
      case Some(dek) => Ok(dek)
  }

  lemma UnwrapLength(c: Aead, ring: seq<KeyVersion>, e: Bytes)
    requires Lawful(c) && |e| >= MIN_LEN && Unwrap(c, ring, e).Ok?
    ensures |Unwrap(c, ring, e).value| == 32
  {
    var v := VersionOf(e);
    var x := c.open(KekFor(ring, v).value, WrapNonceOf(e), VersionAad(v), WrappedOf(e));
    assert |WrappedOf(e)| == |x.value| + TAG_LEN;
  }

  function OpenData(c: Aead, dek: Bytes, data: Bytes, aad: Bytes): Result<Bytes>
    requires |data| >= NONCE_LEN
  {
    if |dek| != 32 then Err(AuthenticationFailed) else
      match c.open(dek, data[..NONCE_LEN], aad, data[NONCE_LEN..])
      case None => Err(AuthenticationFailed)
      case Some(p) => Ok(p)
  }

  function Encrypt(c: Aead, ring: seq<KeyVersion>, dek: Secret, wrapNonce: Nonce, dataNonce: Nonce,
                   plaintext: Bytes, aad: Bytes): (e: Bytes)
    requires Lawful(c) && Consecutive(ring)
    ensures |e| == MIN_LEN + |plaintext| && VersionOf(e) == |ring|
  {
    var active := ring[|ring| - 1];
    Build(active.version, wrapNonce, Wrap(c, active.kek, active.version, wrapNonce, dek),
          dataNonce + c.seal(dek, dataNonce, aad, plaintext))
  }

  function Decrypt(c: Aead, ring: seq<KeyVersion>, e: Bytes, aad: Bytes): Result<Bytes> {
    if |e| < MIN_LEN then Err(TooShort) else
      match Unwrap(c, ring, e)
      case Err(error) => Err(error)
      case Ok(dek) => OpenData(c, dek, DataOf(e), aad)
  }

  function Rewrap(c: Aead, ring: seq<KeyVersion>, e: Bytes, nonce: Nonce): Result<Bytes>
    requires Lawful(c) && Consecutive(ring)
  {
    if |e| < MIN_LEN then Err(TooShort) else
      match Unwrap(c, ring, e)
      case Err(error) => Err(error)
      case Ok(dek) =>
        UnwrapLength(c, ring, e);
        var active := ring[|ring| - 1];
        Ok(Build(active.version, nonce, Wrap(c, active.kek, active.version, nonce, dek), DataOf(e)))
  }

  // ---------------------------------------------------------------------
  // Laws
  // ---------------------------------------------------------------------

  lemma UnwrapBuilt(c: Aead, ring: seq<KeyVersion>, v: nat, kek: Secret, nonce: Nonce, dek: Secret, data: Bytes)
    requires Lawful(c) && v < U32 && KekFor(ring, v) == Some(kek) && |data| >= NONCE_LEN + TAG_LEN
    ensures var r := Unwrap(c, ring, Build(v, nonce, Wrap(c, kek, v, nonce, dek), data)); r.Ok? && r.value == dek
  {
    assert c.open(kek, nonce, VersionAad(v), c.seal(kek, nonce, VersionAad(v), dek)) == Some(dek);
  }

  /** Every part of an envelope at its place, and what it was sealed under: the data key under the newest key,
      with the version bytes of the header as associated data; the data under the data key, with the caller's. */
  lemma EncryptSeals(c: Aead, ring: seq<KeyVersion>, dek: Secret, wrapNonce: Nonce, dataNonce: Nonce,
                     plaintext: Bytes, aad: Bytes)
    requires Lawful(c) && Consecutive(ring)
    ensures var e := Encrypt(c, ring, dek, wrapNonce, dataNonce, plaintext, aad);
            && |e| == 116 + |plaintext|
            && Decode(e[..4]) == |ring| && e[4..28] == wrapNonce && e[76..100] == dataNonce
            && e[28..76] == c.seal(ring[|ring| - 1].kek, wrapNonce, e[..4], dek)
            && e[100..] == c.seal(dek, dataNonce, aad, plaintext)
  {
    var e := Encrypt(c, ring, dek, wrapNonce, dataNonce, plaintext, aad);
    var sealed := c.seal(dek, dataNonce, aad, plaintext);
    Widths();
    EncodeDecode(e[..4]);
    assert DataOf(e) == dataNonce + sealed;
    assert e[76..100] == DataOf(e)[..24] == dataNonce && e[100..] == DataOf(e)[24..] == sealed;
    assert e[28..76] == WrappedOf(e);
  }

  /** Decryption succeeds exactly when the key of the version in the header opens the wrapped key, with those
      version bytes as associated data, and that data key, 32 bytes long, opens the rest under the caller's; so
      the header is authenticated with the key it names. */
  lemma DecryptOpensIff(c: Aead, ring: seq<KeyVersion>, e: Bytes, aad: Bytes, p: Bytes)
    requires Consecutive(ring)
    ensures Decrypt(c, ring, e, aad) == Ok(p) <==>
            && |e| >= 116 && 1 <= Decode(e[..4]) <= |ring|
            && var dek := c.open(ring[Decode(e[..4]) - 1].kek, e[4..28], e[..4], e[28..76]);
            dek.Some? && |dek.value| == 32 && c.open(dek.value, e[76..100], aad, e[100..]) == Some(p)
  {
    if |e| >= 116 {
      Widths();
      EncodeDecode(e[..4]);
      KekForIs(ring, Decode(e[..4]));
      assert DataOf(e)[..24] == e[76..100] && DataOf(e)[24..] == e[100..];
    }
  }

  /** Decryption gives back the plaintext under the ring that encrypted and under every ring grown from it. */
  lemma RoundTrip(c: Aead, ring: seq<KeyVersion>, more: seq<KeyVersion>, dek: Secret, wrapNonce: Nonce,
                  dataNonce: Nonce, plaintext: Bytes, aad: Bytes)
    requires Lawful(c) && Consecutive(ring)
    ensures Decrypt(c, ring + more, Encrypt(c, ring, dek, wrapNonce, dataNonce, plaintext, aad), aad) == Ok(plaintext)
  {
    var active := ring[|ring| - 1];
    KekForIs(ring, |ring|);
    KekForExtends(ring, more, |ring|);
    var sealed := c.seal(dek, dataNonce, aad, plaintext);
    var data := dataNonce + sealed;
    UnwrapBuilt(c, ring + more, active.version, active.kek, wrapNonce, dek, data);
    assert data[..NONCE_LEN] == dataNonce && data[NONCE_LEN..] == sealed;
  }

  /** Adding keys never changes what an envelope decrypts to, for any bytes at all. */
  lemma GrowthKeeps(c: Aead, ring: seq<KeyVersion>, more: seq<KeyVersion>, e: Bytes, aad: Bytes)
    requires Decrypt(c, ring, e, aad).Ok?
    ensures Decrypt(c, ring + more, e, aad) == Decrypt(c, ring, e, aad)
  {
    KekForExtends(ring, more, VersionOf(e));
  }

  /** A re-wrapped envelope decrypts to exactly what the original does, for every associated data,
      failures included; it carries the active version and the data section byte for byte. */
  lemma RewrapKeeps(c: Aead, ring: seq<KeyVersion>, e: Bytes, nonce: Nonce, aad: Bytes)
    requires Lawful(c) && Consecutive(ring) && Rewrap(c, ring, e, nonce).Ok?
    ensures var e' := Rewrap(c, ring, e, nonce).value;
            && |e'| == |e| >= MIN_LEN
            && VersionOf(e') == |ring|
            && DataOf(e') == DataOf(e)
            && Decrypt(c, ring, e', aad) == Decrypt(c, ring, e, aad)
  {
    var active := ring[|ring| - 1];
    KekForIs(ring, |ring|);
    UnwrapLength(c, ring, e);
    UnwrapBuilt(c, ring, active.version, active.kek, nonce, Unwrap(c, ring, e).value, DataOf(e));
  }

  /** Re-wrapping succeeds exactly when the data key can be unwrapped; whether the data opens does not matter. */
  lemma RewrapOkIff(c: Aead, ring: seq<KeyVersion>, e: Bytes, nonce: Nonce)
    requires Lawful(c) && Consecutive(ring)
    ensures Rewrap(c, ring, e, nonce).Ok? <==> |e| >= MIN_LEN && Unwrap(c, ring, e).Ok?
    ensures (exists aad :: Decrypt(c, ring, e, aad).Ok?) ==> Rewrap(c, ring, e, nonce).Ok?
  {
  }
}
