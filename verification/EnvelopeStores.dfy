/** A store that keeps every value in an envelope, and the rotation of its key-encryption key. */
module EnvelopeStores {
  import opened LinkedMaps
  import opened ByteOrder
  import opened Keyrings
  import opened Envelopes
  import opened Words
  import T = TtlStore

  /** What a reader of the store gets: the values that decrypt with their key as associated data. */
  function Readable(c: Aead, ring: seq<KeyVersion>, inner: map<Key, Val>): map<Key, Val> {
    map k | k in inner && Decrypt(c, ring, inner[k], k).Ok? :: Decrypt(c, ring, inner[k], k).value
  }

  /** The envelope reads as before, for every associated data, and its data section is the same bytes. */
  ghost predicate Kept(c: Aead, ring: seq<KeyVersion>, before: Bytes, after: Bytes) {
    && |after| == |before|
    && (|before| >= MIN_LEN ==> DataOf(after) == DataOf(before))
    && forall aad :: Decrypt(c, ring, after, aad) == Decrypt(c, ring, before, aad)
  }

  predicate Current(ring: seq<KeyVersion>, e: Bytes) {
    |e| >= MIN_LEN && VersionOf(e) == |ring|
  }

  /** The data key of the envelope can be unwrapped. */
  predicate Unwraps(c: Aead, ring: seq<KeyVersion>, e: Bytes) {
    |e| >= MIN_LEN && Unwrap(c, ring, e).Ok?
  }

  lemma RewrapStep(c: Aead, ring: seq<KeyVersion>, e: Bytes, nonce: Nonce)
    requires Lawful(c) && Consecutive(ring)
    ensures Rewrap(c, ring, e, nonce).Ok? <==> Unwraps(c, ring, e)
    ensures Rewrap(c, ring, e, nonce).Ok? ==>
              Kept(c, ring, e, Rewrap(c, ring, e, nonce).value) && Current(ring, Rewrap(c, ring, e, nonce).value)
  {
    if Rewrap(c, ring, e, nonce).Ok? {
      forall aad ensures Decrypt(c, ring, Rewrap(c, ring, e, nonce).value, aad) == Decrypt(c, ring, e, aad) {
        RewrapKeeps(c, ring, e, nonce, aad);
      }
      RewrapKeeps(c, ring, e, nonce, []);
    }
  }

  /** The first `i` envelopes are re-wrapped, the others untouched, and all of them read as before. */
  ghost predicate Halfway(
    c: Aead, ring: seq<KeyVersion>, keys: seq<Key>, start: map<Key, Val>, now: map<Key, Val>, i: nat)
    requires i <= |keys|
  {
    && now.Keys == start.Keys
    && (forall k :: k in start ==> Kept(c, ring, start[k], now[k]))
    && (forall k :: k in keys[..i] && k in now ==> Current(ring, now[k]))
    && (forall k :: k in start && k !in keys[..i] ==> now[k] == start[k])
  }

  lemma HalfwayStart(c: Aead, ring: seq<KeyVersion>, keys: seq<Key>, start: map<Key, Val>)
    ensures Halfway(c, ring, keys, start, start, 0)
  {
  }

  lemma HalfwayNext(
    c: Aead, ring: seq<KeyVersion>, keys: seq<Key>, start: map<Key, Val>, now: map<Key, Val>, i: nat, e: Bytes)
    requires i < |keys| && keys[i] in start && Halfway(c, ring, keys, start, now, i)
    requires Kept(c, ring, start[keys[i]], e) && Current(ring, e)
    ensures Halfway(c, ring, keys, start, now[keys[i] := e], i + 1)
  {
    assert keys[..i + 1] == keys[..i] + [keys[i]];
  }

  /** Whatever part of the rotation has run, everything readable before is readable now. */
  lemma HalfwayReadable(c: Aead, ring: seq<KeyVersion>, more: seq<KeyVersion>, keys: seq<Key>,
                        start: map<Key, Val>, now: map<Key, Val>, i: nat, k: Key)
    requires i <= |keys| && Halfway(c, ring + more, keys, start, now, i)
    requires k in Readable(c, ring, start)
    ensures k in Readable(c, ring + more, now) && Readable(c, ring + more, now)[k] == Readable(c, ring, start)[k]
  {
    GrowthKeeps(c, ring, more, start[k], k);
    assert Kept(c, ring + more, start[k], now[k]);
  }

  lemma HalfwayPreserves(c: Aead, ring: seq<KeyVersion>, more: seq<KeyVersion>, keys: seq<Key>,
                         start: map<Key, Val>, now: map<Key, Val>, i: nat)
    requires i <= |keys| && Halfway(c, ring + more, keys, start, now, i)
    ensures Submap(Readable(c, ring, start), Readable(c, ring + more, now))
  {
    forall k | k in Readable(c, ring, start)
      ensures k in Readable(c, ring + more, now) && Readable(c, ring + more, now)[k] == Readable(c, ring, start)[k]
    {
      HalfwayReadable(c, ring, more, keys, start, now, i, k);
    }
  }

  /** Every envelope is wrapped under the newest key and reads as before. */
  ghost predicate AllRotated(c: Aead, ring: seq<KeyVersion>, start: map<Key, Val>, now: map<Key, Val>) {
    now.Keys == start.Keys && forall k :: k in now ==> Current(ring, now[k]) && Kept(c, ring, start[k], now[k])
  }

  lemma HalfwayDone(c: Aead, ring: seq<KeyVersion>, keys: seq<Key>, start: map<Key, Val>, now: map<Key, Val>)
    requires Halfway(c, ring, keys, start, now, |keys|) && forall k :: k in start ==> k in keys
    ensures AllRotated(c, ring, start, now)
  {
    assert keys[..|keys|] == keys;
  }

  ghost predicate AllUnwrap(c: Aead, ring: seq<KeyVersion>, keys: seq<Key>, start: map<Key, Val>) {
    forall k :: k in keys && k in start ==> Unwraps(c, ring, start[k])
  }

  lemma UnwrapNext(c: Aead, ring: seq<KeyVersion>, keys: seq<Key>, start: map<Key, Val>, i: nat)
    requires i < |keys| && keys[i] in start && AllUnwrap(c, ring, keys[..i], start)
    ensures AllUnwrap(c, ring, keys[..i + 1], start) <==> Unwraps(c, ring, start[keys[i]])
    ensures AllUnwrap(c, ring, [keys[i]], start) <==> Unwraps(c, ring, start[keys[i]])
    ensures AllUnwrap(c, ring, keys, start) ==> Unwraps(c, ring, start[keys[i]])
  {
    assert keys[..i + 1] == keys[..i] + [keys[i]];
  }

  lemma ReadableUnwraps(c: Aead, ring: seq<KeyVersion>, more: seq<KeyVersion>, keys: seq<Key>, start: map<Key, Val>)
    requires Readable(c, ring, start).Keys == start.Keys
    ensures AllUnwrap(c, ring + more, keys, start)
  {
    forall k | k in keys && k in start ensures Unwraps(c, ring + more, start[k]) {
      assert k in Readable(c, ring, start);
      UnwrapsGrown(c, ring, more, start[k]);
    }
  }

  datatype Outcome = Rotated(count: nat) | VersionsExhausted | Failed(error: Error)

  /** All envelopes unwrap under a grown ring if they did before. */
  lemma UnwrapsGrown(c: Aead, ring: seq<KeyVersion>, more: seq<KeyVersion>, e: Bytes)
    requires Unwraps(c, ring, e)
    ensures Unwraps(c, ring + more, e)
  {
    KekForExtends(ring, more, VersionOf(e));
  }

  class EnvelopeStore {
    const cipher: Aead
    const keyring: Keyring
    var inner: map<Key, Val>

    ghost predicate Valid()
      reads this, keyring
    {
      Lawful(cipher) && keyring.Valid()
    }

    ghost function Contents(): map<Key, Val>
      reads this, keyring
    {
      Readable(cipher, keyring.versions, inner)
    }

    constructor (c: Aead, ring: Keyring)
      requires Lawful(c) && ring.Valid()
      ensures Valid() && Contents() == map[] && inner == map[] && cipher == c && keyring == ring
    {
      cipher := c;
      keyring := ring;
      inner := map[];
    }

    /** The random data key and nonces are arguments. */
    method Put(key: Key, value: Val, dek: Secret, wrapNonce: Nonce, dataNonce: Nonce)
      requires Valid()
      modifies this
      ensures Valid() && Contents() == old(Contents())[key := value]
      ensures inner.Keys == old(inner.Keys) + {key}
    {
      var e := Encrypt(cipher, keyring.versions, dek, wrapNonce, dataNonce, value, key);
      RoundTrip(cipher, keyring.versions, [], dek, wrapNonce, dataNonce, value, key);
      assert keyring.versions + [] == keyring.versions;
      inner := inner[key := e];
    }

    method Get(key: Key) returns (r: Result<Option<Val>>)
      requires Valid()
      ensures key in Contents() ==> r == Ok(Some(Contents()[key]))
      ensures key !in inner ==> r == Ok(None)
      ensures key in inner && key !in Contents() ==> r.Err?
    {
      if key !in inner { return Ok(None); }
      match Decrypt(cipher, keyring.versions, inner[key], key)
      case Ok(p) => return Ok(Some(p));
      case Err(error) => return Err(error);
    }

    method Delete(key: Key)
      requires Valid()
      modifies this
      ensures Valid() && Contents() == old(Contents()) - {key} && inner == old(inner) - {key}
    {
      inner := inner - {key};
    }

    /** Wraps the envelopes again in order, and stops at the first that does not unwrap. */
    method RewrapAll(keys: seq<Key>, nonce: nat -> Nonce) returns (r: Outcome, ghost done: nat)
      requires Valid() && forall k :: k in keys <==> k in inner
      requires Ascending(keys)
      modifies this
      ensures Valid() && done <= |keys|
      ensures Halfway(cipher, keyring.versions, keys, old(inner), inner, done)
      ensures r.Rotated? ==> r.count == done == |keys|
      ensures r.Rotated? <==> AllUnwrap(cipher, keyring.versions, keys, old(inner))
      ensures AllUnwrap(cipher, keyring.versions, keys[..done], old(inner))
      ensures !r.Rotated? ==> done < |keys| && !AllUnwrap(cipher, keyring.versions, [keys[done]], old(inner))
      ensures !r.VersionsExhausted?
    {
      ghost var start := inner;
      var entries := inner;
      HalfwayStart(cipher, keyring.versions, keys, start);
      done := 0;
      assert AllUnwrap(cipher, keyring.versions, keys[..0], start);
      hide AllUnwrap, Halfway, Unwraps, Kept, Current, Rewrap;
      for i := 0 to |keys|
        invariant done == i && Halfway(cipher, keyring.versions, keys, start, inner, i)
        invariant AllUnwrap(cipher, keyring.versions, keys[..i], start)
      {
        assert keys[i] in keys;
        UnwrapNext(cipher, keyring.versions, keys, start, i);
        RewrapStep(cipher, keyring.versions, entries[keys[i]], nonce(i));
        match Rewrap(cipher, keyring.versions, entries[keys[i]], nonce(i))
        case Err(error) => return Failed(error), i;
        case Ok(e) =>
          HalfwayNext(cipher, keyring.versions, keys, start, inner, i, e);
          inner := inner[keys[i] := e];
          done := i + 1;
      }
      assert keys[..|keys|] == keys;
      r := Rotated(|keys|);
    }

    method RewrapStore(nonce: nat -> Nonce, ghost ring: seq<KeyVersion>, ghost more: seq<KeyVersion>)
      returns (r: Outcome)
      requires Valid() && keyring.versions == ring + more
      modifies this
      ensures Valid() && inner.Keys == old(inner.Keys) && !r.VersionsExhausted?
      ensures Submap(Readable(cipher, ring, old(inner)), Readable(cipher, ring + more, inner))
      ensures r.Rotated? ==> r.count == |inner.Keys| && AllRotated(cipher, ring + more, old(inner), inner)
      ensures Readable(cipher, ring, old(inner)).Keys == old(inner).Keys ==> r.Rotated?
    {
      var keys := Sorted(inner.Keys);
      SortedAscending(inner.Keys);
      ghost var start := inner;
      ghost var done;
      r, done := RewrapAll(keys, nonce);
      HalfwayPreserves(cipher, ring, more, keys, start, inner, done);
      if r.Rotated? { HalfwayDone(cipher, keyring.versions, keys, start, inner); }
      if Readable(cipher, ring, start).Keys == start.Keys { ReadableUnwraps(cipher, ring, more, keys, start); }
    }

    /** In a build with overflow checks. Rotation loses nothing: however far it gets, every value readable
        before is readable after. When it completes, every envelope is wrapped under the new key and its
        data section is unchanged. */
    method RotateKek(newKek: Secret, nonce: nat -> Nonce) returns (r: Outcome)
      requires Valid()
      modifies this, keyring
      ensures Valid() && inner.Keys == old(inner.Keys)
      ensures Submap(old(Contents()), Contents())
      ensures r.VersionsExhausted? <==> old(|keyring.versions|) == U32 - 1
      ensures !r.VersionsExhausted? ==>
                keyring.versions == old(keyring.versions) + [KeyVersion(old(|keyring.versions|) + 1, newKek)]
      ensures r.Rotated? ==> r.count == |inner.Keys| && AllRotated(cipher, keyring.versions, old(inner), inner)
      ensures old(Contents().Keys == inner.Keys) ==> r.Rotated? || r.VersionsExhausted?
    {
      ghost var ring := keyring.versions;
      var v := keyring.Rotate(newKek, true);
      if v.None? { return VersionsExhausted; }
      r := RewrapStore(nonce, ring, [KeyVersion(v.value, newKek)]);
    }
  }

  // ---------------------------------------------------------------------
  // Rotation over a store with expiries
  // ---------------------------------------------------------------------

  lemma {:induction false} WriteAllKeys(s: T.State, pairs: seq<(Key, Val)>)
    ensures forall k :: k in T.WriteAll(s, pairs).data <==> k in s.data || k in Keys(pairs)
    ensures forall k :: k in T.WriteAll(s, pairs).ttl <==> k in s.ttl && k !in Keys(pairs)
    ensures forall k :: k in T.WriteAll(s, pairs).ttl ==> T.WriteAll(s, pairs).ttl[k] == s.ttl[k]
    decreases |pairs|
  {
    if pairs != [] {
      var front, last := pairs[..|pairs| - 1], pairs[|pairs| - 1];
      WriteAllKeys(s, front);
      assert Keys(pairs) == Keys(front) + [last.0];
    }
  }

  /** Rotation writes every envelope back with a plain `put`, and a plain `put` clears the expiry: over
      a store with expiries, every key visible when the rotation ran stays visible for good. */
  lemma RotationClearsExpiries(s: T.State, pairs: seq<(Key, Val)>, now: nat, later: nat)
    requires now <= later && forall k :: k in T.View(s, now) <==> k in Keys(pairs)
    ensures T.View(T.WriteAll(s, pairs), later).Keys == T.View(s, now).Keys
  {
    WriteAllKeys(s, pairs);
  }
}
