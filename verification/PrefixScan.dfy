/** Prefix scans by key range: `prefix_upper_bound` and the default `prefix_scan`. */
module PrefixScan {
  import opened LinkedMaps
  import opened ByteOrder

  /** The least key above every key that starts with the prefix, if there is one. */
  function UpperBound(p: Key): Option<Key> {
    if p == [] then None
    else match UpperBound(p[1..])
      case Some(u) => Some([p[0]] + u)
      case None => if p[0] == 255 then None else Some([p[0] + 1])
  }

  ghost predicate AllFF(p: Key) {
    forall i :: 0 <= i < |p| ==> p[i] == 255
  }

  /** There is no upper bound exactly for prefixes made of 0xFF bytes only, the empty one included. */
  lemma {:induction false} NoBoundIff(p: Key)
    ensures UpperBound(p).None? <==> AllFF(p)
  {
    if p != [] {
      NoBoundIff(p[1..]);
      assert AllFF(p) <==> p[0] == 255 && AllFF(p[1..]) by {
        assert AllFF(p) ==> AllFF(p[1..]);
        if p[0] == 255 && AllFF(p[1..]) {
          forall i | 0 <= i < |p| ensures p[i] == 255 {
            if i > 0 { assert p[i] == p[1..][i - 1]; }
          }
        }
      }
    }
  }

  lemma {:induction false} StartsWithTail(k: Key, p: Key)
    requires p != []
    ensures StartsWith(k, p) <==> k != [] && k[0] == p[0] && StartsWith(k[1..], p[1..])
  {
    if k != [] && |p| <= |k| {
      assert k[..|p|] == [k[0]] + k[1..][..|p| - 1];
      assert p == [p[0]] + p[1..];
      if k[0] == p[0] && k[1..][..|p| - 1] == p[1..] {
        assert k[..|p|] == p;
      }
      if k[..|p|] == p {
        assert k[0] == k[..|p|][0];
        assert k[1..][..|p| - 1] == k[..|p|][1..];
      }
    }
  }

  /** Being at or above an all-0xFF prefix means starting with it. */
  lemma {:induction false} AboveAllFF(k: Key, p: Key)
    requires AllFF(p)
    ensures LessEq(p, k) <==> StartsWith(k, p)
  {
    if p != [] {
      StartsWithTail(k, p);
      if k != [] {
        assert AllFF(p[1..]);
        AboveAllFF(k[1..], p[1..]);
        assert k == [k[0]] + k[1..] && p == [p[0]] + p[1..];
      }
    }
  }

  lemma LessEqTail(a: Key, b: Key)
    requires a != [] && b != []
    ensures LessEq(a, b) <==> a[0] < b[0] || (a[0] == b[0] && LessEq(a[1..], b[1..]))
  {
    assert a == [a[0]] + a[1..] && b == [b[0]] + b[1..];
    LessIrreflexive(a[1..]);
  }

  /** The keys from the prefix up to its bound are exactly the keys that start with it. */
  lemma {:induction false} RangeIsPrefix(k: Key, p: Key)
    requires UpperBound(p).Some?
    ensures LessEq(p, k) && Less(k, UpperBound(p).value) <==> StartsWith(k, p)
  {
    StartsWithTail(k, p);
    if k != [] {
      LessEqTail(p, k);
      NoBoundIff(p[1..]);
      if UpperBound(p[1..]).Some? {
        var u := UpperBound(p[1..]).value;
        assert ([p[0]] + u)[1..] == u;
        RangeIsPrefix(k[1..], p[1..]);
      } else {
        AboveAllFF(k[1..], p[1..]);
        assert Less(k, [p[0] + 1]) <==> k[0] < p[0] + 1 by {
          assert [p[0] + 1][1..] == [];
        }
      }
    }
  }

  /** Dropping trailing 0xFF bytes and incrementing the last one left computes the bound. */
  lemma {:induction false} UpperBoundAt(p: Key, n: nat)
    requires 1 <= n <= |p| && p[n - 1] != 255 && AllFF(p[n..])
    ensures UpperBound(p) == Some(p[..n - 1] + [p[n - 1] + 1])
  {
    NoBoundIff(p[1..]);
    if n == 1 {
      assert p[..0] + [p[0] + 1] == [p[0] + 1];
    } else {
      assert p[1..][n - 1..] == p[n..];
      UpperBoundAt(p[1..], n - 1);
      assert [p[0]] + (p[1..][..n - 2] + [p[n - 1] + 1]) == p[..n - 1] + [p[n - 1] + 1];
    }
  }

  /** `prefix_upper_bound`: pop 0xFF bytes off a copy until one can be incremented. */
  method PrefixUpperBound(prefix: Key) returns (bound: Option<Key>)
    ensures bound == UpperBound(prefix)
  {
    if prefix == [] { return None; }
    var upper := prefix;
    while upper != []
      invariant |upper| <= |prefix| && upper == prefix[..|upper|]
      invariant AllFF(prefix[|upper|..])
      decreases |upper|
    {
      var last := upper[|upper| - 1];
      if last == 255 {
        ghost var n := |upper| - 1;
        assert forall i :: 0 < i < |prefix[n..]| ==> prefix[n..][i] == prefix[n + 1..][i - 1];
        upper := upper[..|upper| - 1];
      } else {
        UpperBoundAt(prefix, |upper|);
        assert upper[..|upper| - 1] == prefix[..|upper| - 1];
        return Some(upper[..|upper| - 1] + [last + 1]);
      }
    }
    assert prefix[0..] == prefix;
    NoBoundIff(prefix);
    return None;
  }

  // ---------------------------------------------------------------------
  // Scans
  // ---------------------------------------------------------------------

  /** What `range(lo, hi)` must return of a store with contents `m`. */
  function InRange(m: map<Key, Val>, lo: Key, hi: Key): map<Key, Val> {
    map k | k in m && LessEq(lo, k) && Less(k, hi) :: m[k]
  }

  function WithPrefix(m: map<Key, Val>, p: Key): map<Key, Val> {
    map k | k in m && StartsWith(k, p) :: m[k]
  }

  /** Filter of an iterator over all pairs, as the all-0xFF arm does it. */
  method FilterPrefix(pairs: seq<(Key, Val)>, p: Key, ghost m: map<Key, Val>) returns (r: seq<(Key, Val)>)
    requires pairs == Listing(m)
    ensures r == Listing(WithPrefix(m, p))
  {
    r := [];
    ghost var all, sub := Sorted(m.Keys), WithPrefix(m, p);
    SortedAscending(m.Keys);
    SelectNone(all, sub);
    for i := 0 to |pairs|
      invariant Selects(r, all, i, sub)
    {
      assert all[i] in all && pairs[i] == (all[i], m[all[i]]);
      if StartsWith(pairs[i].0, p) {
        SelectKeep(r, all, i, sub);
        r := r + [pairs[i]];
      } else {
        SelectSkip(r, all, i, sub);
      }
    }
    SelectDone(r, all, sub);
  }

  /** The default `prefix_scan` of a store with contents `m`, through its `iter` and `range`. */
  method PrefixScan(m: map<Key, Val>, p: Key) returns (r: seq<(Key, Val)>)
    ensures r == Listing(WithPrefix(m, p))
  {
    if p == [] {
      assert WithPrefix(m, p) == m;
      return Listing(m);
    }
    var bound := PrefixUpperBound(p);
    match bound {
      case Some(hi) =>
        forall k ensures LessEq(p, k) && Less(k, hi) <==> StartsWith(k, p) { RangeIsPrefix(k, p); }
        assert InRange(m, p, hi) == WithPrefix(m, p);
        r := Listing(InRange(m, p, hi));
      case None =>
        r := FilterPrefix(Listing(m), p, m);
    }
  }

  /** The snapshot's default `prefix_scan` asks for the empty range when there is no bound. */
  function SnapshotPrefixScan(m: map<Key, Val>, p: Key): seq<(Key, Val)> {
    match UpperBound(p)
    case Some(hi) => Listing(InRange(m, p, hi))
    case None => Listing(InRange(m, [], []))
  }

  /** It is right exactly when the prefix has a bound or no key starts with it. */
  lemma SnapshotPrefixScanRightIff(m: map<Key, Val>, p: Key)
    ensures SnapshotPrefixScan(m, p) == Listing(WithPrefix(m, p))
            <==> !AllFF(p) || forall k :: k in m ==> !StartsWith(k, p)
  {
    NoBoundIff(p);
    if UpperBound(p).Some? {
      BoundedRange(m, p);
    } else {
      assert InRange(m, [], []) == map[];
      NothingListedIff(m, p);
    }
    hide UpperBound, Listing, WithPrefix, InRange, StartsWith, AllFF;
  }

  lemma BoundedRange(m: map<Key, Val>, p: Key)
    requires UpperBound(p).Some?
    ensures InRange(m, p, UpperBound(p).value) == WithPrefix(m, p)
  {
    forall k ensures LessEq(p, k) && Less(k, UpperBound(p).value) <==> StartsWith(k, p) { RangeIsPrefix(k, p); }
    hide Less, StartsWith, UpperBound;
  }

  lemma NothingListedIff(m: map<Key, Val>, p: Key)
    ensures Listing(map[]) == Listing(WithPrefix(m, p)) <==> forall k :: k in m ==> !StartsWith(k, p)
  {
    hide StartsWith, Sorted;
    if forall k :: k in m ==> !StartsWith(k, p) {
      assert WithPrefix(m, p) == map[];
    } else {
      var k :| k in m && StartsWith(k, p);
      assert k in WithPrefix(m, p).Keys;
      assert |WithPrefix(m, p).Keys| != 0;
    }
  }
}
