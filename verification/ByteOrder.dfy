/** Byte strings in lexicographic order, and key sets and maps listed in that order. */
module ByteOrder {

  type byte = x: int | 0 <= x < 256
  type Key = seq<byte>
  type Val = seq<byte>

  predicate Less(a: Key, b: Key) {
    if b == [] then false
    else if a == [] then true
    else a[0] < b[0] || (a[0] == b[0] && Less(a[1..], b[1..]))
  }

  predicate LessEq(a: Key, b: Key) {
    a == b || Less(a, b)
  }

  predicate StartsWith(k: Key, p: Key) {
    |p| <= |k| && k[..|p|] == p
  }

  lemma {:induction false} LessIrreflexive(a: Key)
    ensures !Less(a, a)
  {
    if a != [] { LessIrreflexive(a[1..]); }
  }

  lemma {:induction false} LessTransitive(a: Key, b: Key, c: Key)
    requires Less(a, b) && Less(b, c)
    ensures Less(a, c)
  {
    if a != [] && a[0] == b[0] == c[0] { LessTransitive(a[1..], b[1..], c[1..]); }
  }

  lemma {:induction false} LessTotal(a: Key, b: Key)
    ensures a == b || Less(a, b) || Less(b, a)
  {
    if a != [] && b != [] && a[0] == b[0] {
      LessTotal(a[1..], b[1..]);
      assert a[1..] == b[1..] ==> a == [a[0]] + a[1..] == b;
    }
  }

  // ---------------------------------------------------------------------
  // Sorted listings
  // ---------------------------------------------------------------------

  ghost predicate Ascending(s: seq<Key>) {
    forall i, j :: 0 <= i < j < |s| ==> Less(s[i], s[j])
  }

  predicate IsMin(m: Key, s: set<Key>) {
    m in s && forall x :: x in s ==> LessEq(m, x)
  }

  lemma {:induction false} MinExists(s: set<Key>) returns (m: Key)
    requires s != {}
    ensures IsMin(m, s)
  {
    var x :| x in s;
    if s == {x} {
      m := x;
    } else {
      var rest := s - {x};
      assert s == rest + {x};
      var n := MinExists(rest);
      LessTotal(x, n);
      m := if Less(x, n) then x else n;
      forall y | y in s ensures LessEq(m, y) {
        if y in rest && m == x && n != y { LessTransitive(x, n, y); }
      }
    }
  }

  lemma HasMin(s: set<Key>)
    requires s != {}
    ensures exists m :: IsMin(m, s)
  {
    var m := MinExists(s);
  }

  lemma MinUnique(m: Key, n: Key, s: set<Key>)
    requires IsMin(m, s) && IsMin(n, s)
    ensures m == n
  {
    if m != n {
      LessTransitive(m, n, m);
      LessIrreflexive(m);
    }
  }

  function Min(s: set<Key>): (m: Key)
    requires s != {}
    ensures IsMin(m, s)
  {
    HasMin(s);
    assert forall a, b :: IsMin(a, s) && IsMin(b, s) ==> a == b by {
      forall a, b | IsMin(a, s) && IsMin(b, s) ensures a == b { MinUnique(a, b, s); }
    }
    var m :| IsMin(m, s);
    m
  }

  /** The keys of a set in ascending order: what iterating a sorted store yields. */
  function Sorted(s: set<Key>): (r: seq<Key>)
    ensures forall k :: k in r <==> k in s
    ensures |r| == |s|
    decreases |s|
  {
    if s == {} then [] else
      var m := Min(s);
      [m] + Sorted(s - {m})
  }

  lemma {:induction false} SortedAscending(s: set<Key>)
    ensures Ascending(Sorted(s))
    decreases |s|
  {
    if s != {} {
      var m := Min(s);
      SortedAscending(s - {m});
      var rest := Sorted(s - {m});
      forall j | 0 <= j < |rest| ensures Less(m, rest[j]) {
        assert rest[j] in rest;
      }
    }
  }

  /** An ascending listing is determined by its elements. */
  lemma {:induction false} AscendingUnique(a: seq<Key>, b: seq<Key>)
    requires Ascending(a) && Ascending(b)
    requires forall k :: k in a <==> k in b
    ensures a == b
    decreases |a|
  {
    if a == [] {
      assert forall i :: 0 <= i < |b| ==> b[i] in b;
    } else {
      assert a[0] in a;
      assert b != [] && b[0] in b;
      FirstIsLeast(a, b[0]);
      FirstIsLeast(b, a[0]);
      if a[0] != b[0] {
        LessTransitive(a[0], b[0], a[0]);
        LessIrreflexive(a[0]);
      }
      RestElements(a);
      RestElements(b);
      AscendingUnique(a[1..], b[1..]);
      assert a == [a[0]] + a[1..] && b == [b[0]] + b[1..];
    }
  }

  lemma FirstIsLeast(a: seq<Key>, k: Key)
    requires Ascending(a) && k in a
    ensures LessEq(a[0], k)
  {
  }

  lemma RestElements(a: seq<Key>)
    requires Ascending(a) && a != []
    ensures Ascending(a[1..])
    ensures forall k :: k in a[1..] <==> k in a && k != a[0]
  {
    LessIrreflexive(a[0]);
    assert a == [a[0]] + a[1..];
    assert forall i :: 0 <= i < |a[1..]| ==> Less(a[0], a[1..][i]);
  }

  /** Sorting a set that is known through an ascending listing gives that listing. */
  lemma SortedIs(s: set<Key>, a: seq<Key>)
    requires Ascending(a) && forall k :: k in a <==> k in s
    ensures Sorted(s) == a
  {
    SortedAscending(s);
    AscendingUnique(Sorted(s), a);
  }

  /** The pairs of a map in ascending key order. */
  function Listing(m: map<Key, Val>): (r: seq<(Key, Val)>)
    ensures |r| == |m.Keys|
  {
    var keys := Sorted(m.Keys);
    seq(|keys|, i requires 0 <= i < |keys| => assert keys[i] in keys; (keys[i], m[keys[i]]))
  }

  function Keys(pairs: seq<(Key, Val)>): seq<Key> {
    seq(|pairs|, i requires 0 <= i < |pairs| => pairs[i].0)
  }

  /** A list of pairs is the listing of `m` when it is ascending and holds exactly the pairs of `m`. */
  lemma ListingIs(m: map<Key, Val>, pairs: seq<(Key, Val)>)
    requires Ascending(Keys(pairs))
    requires forall i :: 0 <= i < |pairs| ==> pairs[i].0 in m && m[pairs[i].0] == pairs[i].1
    requires forall k :: k in m ==> k in Keys(pairs)
    ensures Listing(m) == pairs
  {
    forall k ensures k in Keys(pairs) <==> k in m.Keys {
      if k in Keys(pairs) {
        var i :| 0 <= i < |Keys(pairs)| && Keys(pairs)[i] == k;
      }
    }
    SortedIs(m.Keys, Keys(pairs));
    forall i | 0 <= i < |pairs| ensures Listing(m)[i] == pairs[i] {
      assert Keys(pairs)[i] == pairs[i].0;
    }
  }

  lemma AscendingSnoc(a: seq<Key>, k: Key)
    requires Ascending(a) && forall x :: x in a ==> Less(x, k)
    ensures Ascending(a + [k])
  {
    assert forall i :: 0 <= i < |a| ==> a[i] in a;
  }

  // ---------------------------------------------------------------------
  // Scanning: walk all keys in order and keep those of a sub-map
  // ---------------------------------------------------------------------

  /** `r` lists the pairs of `sub` found among the first `i` keys of `all`. */
  ghost predicate Selects(r: seq<(Key, Val)>, all: seq<Key>, i: nat, sub: map<Key, Val>) {
    && i <= |all| && Ascending(all)
    && Ascending(Keys(r))
    && (forall k :: k in Keys(r) <==> k in all[..i] && k in sub)
    && (forall j :: 0 <= j < |r| ==> r[j].0 in sub && sub[r[j].0] == r[j].1)
  }

  lemma SelectNone(all: seq<Key>, sub: map<Key, Val>)
    requires Ascending(all)
    ensures Selects([], all, 0, sub)
  {
  }

  lemma SelectKeep(r: seq<(Key, Val)>, all: seq<Key>, i: nat, sub: map<Key, Val>)
    requires Selects(r, all, i, sub) && i < |all| && all[i] in sub
    ensures Selects(r + [(all[i], sub[all[i]])], all, i + 1, sub)
  {
    var r' := r + [(all[i], sub[all[i]])];
    assert all[..i + 1] == all[..i] + [all[i]];
    assert Keys(r') == Keys(r) + [all[i]];
    forall x | x in Keys(r) ensures Less(x, all[i]) {
      assert x in all[..i];
    }
    AscendingSnoc(Keys(r), all[i]);
  }

  lemma SelectSkip(r: seq<(Key, Val)>, all: seq<Key>, i: nat, sub: map<Key, Val>)
    requires Selects(r, all, i, sub) && i < |all| && all[i] !in sub
    ensures Selects(r, all, i + 1, sub)
  {
    assert all[..i + 1] == all[..i] + [all[i]];
  }

  lemma SelectDone(r: seq<(Key, Val)>, all: seq<Key>, sub: map<Key, Val>)
    requires Selects(r, all, |all|, sub) && forall k :: k in sub ==> k in all
    ensures r == Listing(sub)
  {
    assert all[..|all|] == all;
    ListingIs(sub, r);
  }
}
