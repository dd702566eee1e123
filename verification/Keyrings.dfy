/** Versions of the key-encryption key: the last one wraps, all of them unwrap. */
module Keyrings {
  import opened LinkedMaps
  import opened ByteOrder
  import opened Words

  type Secret = s: seq<byte> | |s| == 32 witness seq(32, _ => 0)

  datatype KeyVersion = KeyVersion(version: nat, kek: Secret)

  /** Versions count up from 1 without gaps and fit 32 bits. */
  predicate Consecutive(versions: seq<KeyVersion>) {
    && 0 < |versions| < U32
    && forall i :: 0 <= i < |versions| ==> versions[i].version == i + 1
  }

  /** The first key with the version. */
  function KekFor(versions: seq<KeyVersion>, v: nat): Option<Secret>
    decreases |versions|
  {
    if versions == [] then None
    else if versions[0].version == v then Some(versions[0].kek)
    else KekFor(versions[1..], v)
  }

  lemma {:induction false} FirstMatch(versions: seq<KeyVersion>, i: nat)
    requires i < |versions|
    requires forall j :: 0 <= j < i ==> versions[j].version != versions[i].version
    ensures KekFor(versions, versions[i].version) == Some(versions[i].kek)
  {
    if i > 0 { FirstMatch(versions[1..], i - 1); }
  }

  lemma {:induction false} NoMatch(versions: seq<KeyVersion>, v: nat)
    requires forall j :: 0 <= j < |versions| ==> versions[j].version != v
    ensures KekFor(versions, v) == None
  {
    if versions != [] { NoMatch(versions[1..], v); }
  }

  /** Every version from 1 to the active one has its own key, and no other version has one. */
  lemma KekForIs(versions: seq<KeyVersion>, v: nat)
    requires Consecutive(versions)
    ensures KekFor(versions, v) == if 1 <= v <= |versions| then Some(versions[v - 1].kek) else None
  {
    if 1 <= v <= |versions| { FirstMatch(versions, v - 1); } else { NoMatch(versions, v); }
  }

  /** A key once in the ring stays under its version when more are added. */
  lemma {:induction false} KekForExtends(versions: seq<KeyVersion>, more: seq<KeyVersion>, v: nat)
    requires KekFor(versions, v).Some?
    ensures KekFor(versions + more, v) == KekFor(versions, v)
  {
    assert (versions + more)[1..] == versions[1..] + more;
    if versions[0].version != v { KekForExtends(versions[1..], more, v); }
  }

  class Keyring {
    var versions: seq<KeyVersion>

    ghost predicate Valid()
      reads this
    {
      Consecutive(versions)
    }

    constructor (kek: Secret)
      ensures Valid() && versions == [KeyVersion(1, kek)]
    {
      versions := [KeyVersion(1, kek)];
    }

    method ActiveVersion() returns (v: nat)
      requires Valid()
      ensures v == |versions|
    {
      v := versions[|versions| - 1].version;
    }

    method ActiveKek() returns (kek: Secret)
      requires Valid()
      ensures KekFor(versions, |versions|) == Some(kek)
    {
      KekForIs(versions, |versions|);
      kek := versions[|versions| - 1].kek;
    }

    method KekForVersion(v: nat) returns (kek: Option<Secret>)
      requires Valid()
      ensures kek == KekFor(versions, v)
      ensures kek.Some? <==> 1 <= v <= |versions|
    {
      KekForIs(versions, v);
      for i := 0 to |versions|
        invariant forall j :: 0 <= j < i ==> versions[j].version != v
      {
        if versions[i].version == v {
          FirstMatch(versions, i);
          return Some(versions[i].kek);
        }
      }
      NoMatch(versions, v);
      kek := None;
    }

    /** The next version number. At the last 32-bit version the increment overflows: a build with overflow
        checks panics, for which `None` stands, and one without wraps to version 0. */
    method Rotate(kek: Secret, overflowChecks: bool) returns (v: Option<nat>)
      requires Valid()
      modifies this
      ensures v.None? <==> overflowChecks && old(|versions|) == U32 - 1
      ensures v.None? ==> versions == old(versions)
      ensures v.Some? ==>
                v.value == (old(|versions|) + 1) % U32 && versions == old(versions) + [KeyVersion(v.value, kek)]
      ensures Valid() <==> overflowChecks || old(|versions|) < U32 - 1
    {
      var active := ActiveVersion();
      if active + 1 >= U32 {
        if overflowChecks { return None; }
        versions := versions + [KeyVersion(0, kek)];
        return Some(0);
      }
      versions := versions + [KeyVersion(active + 1, kek)];
      v := Some(active + 1);
    }
  }

  /** After a wrap the new key is still found under version 0, but the key added next takes version 1
      again, where the search finds the oldest key instead. */
  lemma WrapHidesNextKey(versions: seq<KeyVersion>, kek: Secret, next: Secret)
    requires Consecutive(versions)
    ensures KekFor(versions + [KeyVersion(0, kek)], 0) == Some(kek)
    ensures KekFor(versions + [KeyVersion(0, kek)] + [KeyVersion(1, next)], 1) == Some(versions[0].kek)
  {
    var wrapped := versions + [KeyVersion(0, kek)];
    FirstMatch(wrapped, |versions|);
    KekForIs(versions, 1);
    KekForExtends(versions, [KeyVersion(0, kek)], 1);
    KekForExtends(wrapped, [KeyVersion(1, next)], 1);
  }
}
