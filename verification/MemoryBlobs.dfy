/** The in-memory blob store: byte quota and paginated listing. */
module MemoryBlobs {
  import opened LinkedMaps
  import opened ByteOrder
  import opened PrefixScan

  // ---------------------------------------------------------------------
  // Pagination
  // ---------------------------------------------------------------------

  datatype BlobMeta = BlobMeta(key: Key, size: nat)

  function Metas(pairs: seq<(Key, Val)>): (r: seq<BlobMeta>)
    ensures |r| == |pairs|
  {
    seq(|pairs|, i requires 0 <= i < |pairs| => BlobMeta(pairs[i].0, |pairs[i].1|))
  }

  function ListMeta(m: map<Key, Val>, p: Key): seq<BlobMeta> {
    Metas(Listing(WithPrefix(m, p)))
  }

  /** The blobs with the prefix strictly after the continuation token. */
  function After(m: map<Key, Val>, p: Key, start: Option<Key>): map<Key, Val> {
    map k | k in m && StartsWith(k, p) && (start.None? || Less(start.value, k)) :: m[k]
  }

  function Take<T>(s: seq<T>, n: nat): seq<T> { if |s| <= n then s else s[..n] }

  function ListMetaPage(m: map<Key, Val>, p: Key, start: Option<Key>, limit: nat): (r: seq<BlobMeta>)
    ensures |r| <= limit
  {
    Metas(Take(Listing(After(m, p, start)), limit))
  }

  /** Every blob with the prefix is listed once, in key order, with the number of its own bytes; a page
      after a token lists the next ones in the same way, as many as the limit allows. */
  lemma ListMetaExact(m: map<Key, Val>, p: Key, start: Option<Key>, limit: nat)
    ensures var all := ListMeta(m, p);
            && (forall i :: 0 <= i < |all| ==> all[i].key in m && all[i].size == |m[all[i].key]|)
            && MetaKeys(all) == Sorted(KeysAfter(m.Keys, p, None))
    ensures var page, rest := ListMetaPage(m, p, start, limit), Sorted(KeysAfter(m.Keys, p, start));
            && (forall i :: 0 <= i < |page| ==> page[i].key in m && page[i].size == |m[page[i].key]|)
            && |page| == (if limit < |rest| then limit else |rest|) && MetaKeys(page) == rest[..|page|]
  {
    hide Sorted, StartsWith, Less, Listing, Metas, Take, MetaKeys;
    var all, rest := WithPrefix(m, p), After(m, p, start);
    FirstListed(all, |Listing(all)|);
    TakeAll(Listing(all));
    assert Sorted(all.Keys)[..|Sorted(all.Keys)|] == Sorted(all.Keys);
    FirstListed(rest, limit);
    assert all.Keys == KeysAfter(m.Keys, p, None) && rest.Keys == KeysAfter(m.Keys, p, start);
  }

  lemma TakeAll<T>(s: seq<T>)
    ensures Take(s, |s|) == s
  {
  }

  lemma FirstListed(m: map<Key, Val>, limit: nat)
    ensures var page, keys := Metas(Take(Listing(m), limit)), Sorted(m.Keys);
            && |Listing(m)| == |keys|
            && (forall i :: 0 <= i < |page| ==> page[i].key in m && page[i].size == |m[page[i].key]|)
            && |page| == (if limit < |keys| then limit else |keys|) && MetaKeys(page) == keys[..|page|]
  {
    ListedSizes(m);
    hide Sorted, Listing;
  }

  /** The keys with the prefix, those after the token if there is one. */
  function KeysAfter(keys: set<Key>, p: Key, start: Option<Key>): set<Key> {
    set k | k in keys && StartsWith(k, p) && (start.Some? ==> Less(start.value, k))
  }

  function MetaKeys(metas: seq<BlobMeta>): seq<Key> {
    seq(|metas|, i requires 0 <= i < |metas| => metas[i].key)
  }

  lemma ListedSizes(m: map<Key, Val>)
    ensures var all := Listing(m);
            && |all| == |Sorted(m.Keys)|
            && forall i :: 0 <= i < |all| ==> all[i].0 == Sorted(m.Keys)[i] && all[i].0 in m && all[i].1 == m[all[i].0]
  {
    var keys := Sorted(m.Keys);
    assert forall i :: 0 <= i < |keys| ==> keys[i] in keys;
  }

  lemma RestAfterToken(m: map<Key, Val>, p: Key, all: seq<Key>, n: nat, i: nat)
    requires all == Sorted(WithPrefix(m, p).Keys) && Ascending(all) && 1 <= n <= i < |all|
    ensures var sub := After(m, p, Some(all[n - 1]));
            all[i] in sub && Listing(WithPrefix(m, p))[i] == (all[i], sub[all[i]])
  {
    assert all[i] in all;
  }

  lemma RestKeys(m: map<Key, Val>, p: Key, n: nat)
    requires 1 <= n <= |Listing(WithPrefix(m, p))|
    ensures var all := Sorted(WithPrefix(m, p).Keys);
            && |all| == |Listing(WithPrefix(m, p))| && Listing(WithPrefix(m, p))[n - 1].0 == all[n - 1]
            && Keys(Listing(WithPrefix(m, p))[n..]) == all[n..] && Ascending(all) && Ascending(all[n..])
  {
    hide WithPrefix, Listing, Sorted, Ascending;
    var part := WithPrefix(m, p);
    SortedAscending(part.Keys);
    ListingKeys(part);
    AscendingTail(Sorted(part.Keys), n);
    KeysTail(Listing(part), n);
    hide Keys;
  }

  lemma KeysTail(pairs: seq<(Key, Val)>, n: nat)
    requires 1 <= n <= |pairs|
    ensures |Keys(pairs)| == |pairs| && Keys(pairs[n..]) == Keys(pairs)[n..] && Keys(pairs)[n - 1] == pairs[n - 1].0
  {
  }

  lemma ListingKeys(m: map<Key, Val>)
    ensures Keys(Listing(m)) == Sorted(m.Keys)
  {
  }

  lemma AscendingTail(s: seq<Key>, n: nat)
    requires Ascending(s) && n <= |s|
    ensures Ascending(s[n..])
  {
  }

  lemma AfterTokenInRest(m: map<Key, Val>, p: Key, all: seq<Key>, n: nat, k: Key)
    requires all == Sorted(WithPrefix(m, p).Keys) && Ascending(all) && 1 <= n <= |all|
    requires k in After(m, p, Some(all[n - 1]))
    ensures k in all[n..]
  {
    assert k in all && Less(all[n - 1], k);
    hide After, WithPrefix, Sorted, Ascending, Less;
    var i :| 0 <= i < |all| && all[i] == k;
    if i < n { TokenNotBelow(all, i, n - 1); }
    assert all[n..][i - n] == k;
  }

  /** After the `n`-th listed key come exactly the rest of the listing. */
  lemma AfterIsRest(m: map<Key, Val>, p: Key, n: nat)
    requires 1 <= n <= |Listing(WithPrefix(m, p))|
    ensures Listing(After(m, p, Some(Listing(WithPrefix(m, p))[n - 1].0))) == Listing(WithPrefix(m, p))[n..]
  {
    hide After, WithPrefix, Sorted, Ascending, Less, Listing;
    var all, rest := Sorted(WithPrefix(m, p).Keys), Listing(WithPrefix(m, p))[n..];
    RestKeys(m, p, n);
    var sub := After(m, p, Some(all[n - 1]));
    forall i | 0 <= i < |rest| ensures rest[i].0 in sub && sub[rest[i].0] == rest[i].1 {
      RestAfterToken(m, p, all, n, n + i);
    }
    forall k | k in sub ensures k in Keys(rest) { AfterTokenInRest(m, p, all, n, k); }
    ListingIs(sub, rest);
  }

  lemma TokenNotBelow(all: seq<Key>, i: nat, j: nat)
    requires Ascending(all) && i <= j < |all|
    ensures !Less(all[j], all[i])
  {
    LessIrreflexive(all[i]);
    if i < j && Less(all[j], all[i]) { LessTransitive(all[i], all[j], all[i]); }
  }

  lemma AfterNothing(m: map<Key, Val>, p: Key)
    ensures After(m, p, None) == WithPrefix(m, p)
  {
  }

  lemma PageAt(m: map<Key, Val>, p: Key, n: nat, limit: nat)
    requires n <= |Listing(WithPrefix(m, p))|
    ensures var all := Listing(WithPrefix(m, p));
            var start := if n == 0 then None else Some(all[n - 1].0);
            ListMetaPage(m, p, start, limit) == Metas(Take(all[n..], limit))
  {
    if n == 0 {
      AfterNothing(m, p);
      assert Listing(WithPrefix(m, p))[0..] == Listing(WithPrefix(m, p));
    } else {
      AfterIsRest(m, p, n);
    }
  }

  lemma PageExtends(pairs: seq<(Key, Val)>, n: nat, limit: nat)
    requires n <= |pairs| && limit >= 1
    ensures var page := Metas(Take(pairs[n..], limit));
            && n + |page| <= |pairs|
            && (page == [] <==> n == |pairs|)
            && Metas(pairs[..n]) + page == Metas(pairs[..n + |page|])
            && (page != [] ==> page[|page| - 1].key == pairs[n + |page| - 1].0)
  {
  }

  /** The pages so far are the first part of the listing and the token is its last key. */
  ghost predicate Progress(m: map<Key, Val>, p: Key, pairs: seq<(Key, Val)>, got: seq<BlobMeta>, start: Option<Key>) {
    && pairs == Listing(WithPrefix(m, p))
    && |got| <= |pairs| && got == Metas(pairs[..|got|])
    && start == if |got| == 0 then None else Some(pairs[|got| - 1].0)
  }

  lemma NextPage(m: map<Key, Val>, p: Key, pairs: seq<(Key, Val)>, got: seq<BlobMeta>, start: Option<Key>, limit: nat)
    requires Progress(m, p, pairs, got, start) && limit >= 1
    ensures var page := ListMetaPage(m, p, start, limit);
            if page == [] then |got| == |pairs|
            else Progress(m, p, pairs, got + page, Some(page[|page| - 1].key))
  {
    hide Listing, WithPrefix, ListMetaPage, Metas, Take;
    PageAt(m, p, |got|, limit);
    PageExtends(pairs, |got|, limit);
  }

  method FetchPage(
    m: map<Key, Val>, p: Key, ghost pairs: seq<(Key, Val)>, got: seq<BlobMeta>, start: Option<Key>, limit: nat)
    returns (all: seq<BlobMeta>, next: Option<Key>, more: bool)
    requires Progress(m, p, pairs, got, start) && limit >= 1
    ensures Progress(m, p, pairs, all, next)
    ensures if more then |got| < |all| else all == got && |got| == |pairs|
  {
    hide Progress, ListMetaPage;
    NextPage(m, p, pairs, got, start, limit);
    var page := ListMetaPage(m, p, start, limit);
    if page == [] { return got, start, false; }
    return got + page, Some(page[|page| - 1].key), true;
  }

  /** Following the last key of each page until a page comes back empty yields the whole listing,
      each blob once and in order. */
  method FollowPages(m: map<Key, Val>, p: Key, limit: nat) returns (all: seq<BlobMeta>, calls: nat)
    requires limit >= 1
    ensures all == ListMeta(m, p)
    ensures calls <= |all| + 1
  {
    ghost var pairs := Listing(WithPrefix(m, p));
    var start, more := None, true;
    all, calls := [], 0;
    while more
      invariant Progress(m, p, pairs, all, start)
      invariant if more then calls <= |all| else |all| == |pairs| && calls <= |all| + 1
      decreases more, |pairs| - |all|
    {
      calls := calls + 1;
      all, start, more := FetchPage(m, p, pairs, all, start, limit);
    }
    assert pairs[..|all|] == pairs;
  }

  // ---------------------------------------------------------------------
  // Quota
  // ---------------------------------------------------------------------

  ghost function Total(keys: set<Key>, m: map<Key, Val>): nat
    requires keys <= m.Keys
  {
    if keys == {} then 0 else
      var k :| k in keys;
      |m[k]| + Total(keys - {k}, m)
  }

  lemma {:induction false} TotalWithout(keys: set<Key>, m: map<Key, Val>, k: Key)
    requires keys <= m.Keys && k in keys
    ensures Total(keys, m) == |m[k]| + Total(keys - {k}, m)
    decreases |keys|
  {
    var j :| j in keys && Total(keys, m) == |m[j]| + Total(keys - {j}, m);
    if j != k {
      TotalWithout(keys - {j}, m, k);
      TotalWithout(keys - {k}, m, j);
      assert keys - {j} - {k} == keys - {k} - {j};
    }
  }

  lemma {:induction false} TotalSame(keys: set<Key>, m: map<Key, Val>, n: map<Key, Val>)
    requires keys <= m.Keys && keys <= n.Keys && forall k :: k in keys ==> m[k] == n[k]
    ensures Total(keys, m) == Total(keys, n)
    decreases |keys|
  {
    if keys != {} {
      var k :| k in keys && Total(keys, m) == |m[k]| + Total(keys - {k}, m);
      TotalWithout(keys, n, k);
      TotalSame(keys - {k}, m, n);
    }
  }

  ghost function UsedBy(m: map<Key, Val>): nat { Total(m.Keys, m) }

  function SizeAt(m: map<Key, Val>, k: Key): nat { if k in m then |m[k]| else 0 }

  /** Nothing takes no bytes; so, key by key, the count is the sum of the sizes. */
  lemma UsedNothing()
    ensures UsedBy(map[]) == 0
  {
  }

  lemma UsedRemove(m: map<Key, Val>, k: Key)
    ensures UsedBy(m) == SizeAt(m, k) + UsedBy(m - {k})
  {
    if k in m {
      TotalWithout(m.Keys, m, k);
      assert (m - {k}).Keys == m.Keys - {k};
      TotalSame(m.Keys - {k}, m, m - {k});
    } else {
      assert m - {k} == m;
    }
  }

  lemma UsedPut(m: map<Key, Val>, k: Key, v: Val)
    ensures UsedBy(m[k := v]) == UsedBy(m) - SizeAt(m, k) + |v|
    ensures SizeAt(m, k) <= UsedBy(m)
  {
    UsedRemove(m, k);
    UsedRemove(m[k := v], k);
    assert m[k := v] - {k} == m - {k};
  }

  datatype BlobResult = Done | NotFound | QuotaExceeded(limit: nat, needed: nat)

  class MemoryBlobStore {
    var blobs: map<Key, Val>
    var usedBytes: nat
    const capacityBytes: Option<nat>

    /** The counter is the sum of the stored sizes and respects the limit. */
    ghost predicate Valid()
      reads this
    {
      usedBytes == UsedBy(blobs) && (capacityBytes.Some? ==> usedBytes <= capacityBytes.value)
    }

    constructor (capacity: Option<nat>)
      ensures Valid() && blobs == map[] && capacityBytes == capacity
    {
      blobs, usedBytes, capacityBytes := map[], 0, capacity;
    }

    /** Refused, with nothing changed, exactly when the contents afterwards would exceed the limit. */
    method Put(key: Key, data: Val) returns (r: BlobResult)
      requires Valid()
      modifies this
      ensures Valid()
      ensures r.Done? <==> capacityBytes.None? || UsedBy(old(blobs)[key := data]) <= capacityBytes.value
      ensures r.Done? ==> blobs == old(blobs)[key := data]
      ensures !r.Done? ==> r == QuotaExceeded(capacityBytes.value, UsedBy(old(blobs)[key := data]))
                           && blobs == old(blobs)
    {
      var displaced := SizeAt(blobs, key);
      UsedPut(blobs, key, data);
      if capacityBytes.Some? {
        var wouldBe := usedBytes - displaced + |data|;
        if wouldBe > capacityBytes.value {
          return QuotaExceeded(capacityBytes.value, wouldBe);
        }
      }
      usedBytes := usedBytes - displaced + |data|;
      blobs := blobs[key := data];
      r := Done;
    }

    method Delete(key: Key) returns (r: BlobResult)
      requires Valid()
      modifies this
      ensures Valid() && blobs == old(blobs) - {key}
      ensures r == if key in old(blobs) then Done else NotFound
    {
      UsedRemove(blobs, key);
      if key in blobs {
        usedBytes := usedBytes - |blobs[key]|;
        blobs := blobs - {key};
        r := Done;
      } else {
        r := NotFound;
      }
    }
  }
}
