/**
 What the all-consistent LIST finds out about the replicas. Listings are sorted and cut at a limit, so
 the check compares the heads of the listings, and what differs only past the limit is not seen.
 */
module ListDivergence {
  import opened Types
  import opened Sequences
  import opened Sorting
  import opened Strings
  import opened InMemoryStorage
  import opened ListConsistency
  import ReadModes

  // ---------------------------------------------------------------- sorted listings

  ghost predicate SamePairs(a: Listing, b: Listing) {
    |a| == |b| && forall i :: 0 <= i < |a| ==> Pair(a[i]) == Pair(b[i])
  }

  lemma KeysInPairs(a: Listing, b: Listing)
    requires Pairs(a) <= Pairs(b)
    ensures Elements(KeysOf(a)) <= Elements(KeysOf(b))
  {
    forall k | k in Elements(KeysOf(a)) ensures k in Elements(KeysOf(b)) {
      var i :| 0 <= i < |a| && a[i].key == k;
      assert Pair(a[i]) in Pairs(b);
      var j :| 0 <= j < |b| && Pair(b[j]) == Pair(a[i]);
      assert KeysOf(b)[j] == k;
    }
  }

  lemma SortedKeysUnique(a: Listing, b: Listing)
    requires StrictlyByKey(a) && StrictlyByKey(b) && Elements(KeysOf(a)) == Elements(KeysOf(b))
    ensures KeysOf(a) == KeysOf(b)
  {
    DistinctMultiset(KeysOf(a));
    DistinctMultiset(KeysOf(b));
    LexLeIsTotalOrder();
    SortedUnique(KeysOf(a), KeysOf(b), LexLe);
  }

  /** Sorted listings with the same pairs have them at the same positions. */
  lemma SortedPairsUnique(a: Listing, b: Listing)
    requires StrictlyByKey(a) && StrictlyByKey(b)
    ensures Pairs(a) == Pairs(b) <==> SamePairs(a, b)
  {
    if Pairs(a) == Pairs(b) {
      KeysInPairs(a, b);
      KeysInPairs(b, a);
      SortedKeysUnique(a, b);
      assert |a| == |KeysOf(a)| == |b|;
      forall i | 0 <= i < |a| ensures Pair(a[i]) == Pair(b[i]) {
        assert Pair(a[i]) in Pairs(b) && KeysOf(a)[i] == KeysOf(b)[i];
        var j :| 0 <= j < |b| && Pair(b[j]) == Pair(a[i]);
        assert b[j].key == b[i].key;
      }
    }
    if SamePairs(a, b) {
      SamePairsWithin(a, b);
      SamePairsWithin(b, a);
    }
  }

  lemma SamePairsWithin(a: Listing, b: Listing)
    requires SamePairs(a, b)
    ensures Pairs(a) <= Pairs(b)
  {
    forall p | p in Pairs(a) ensures p in Pairs(b) {
      var i :| 0 <= i < |a| && Pair(a[i]) == p;
      assert Pair(b[i]) == p;
    }
  }

  /** For sorted listings, cut or not, the check passes if and only if all are equal entry by entry. */
  lemma SortedCheckIsPointwise(results: seq<Result<Listing>>, primary: nat)
    requires primary < |results|
    requires forall i :: 0 <= i < |results| && results[i].Ok? ==> StrictlyByKey(results[i].value)
    ensures AllMatch(results, primary) <==>
              && (forall i :: 0 <= i < |results| ==> results[i].Ok?)
              && (forall i :: 0 <= i < |results| ==> SamePairs(results[i].value, results[primary].value))
  {
    ListingCheckIsExact(results, primary);
    forall i | 0 <= i < |results| && results[i].Ok? && results[primary].Ok?
      ensures Pairs(results[i].value) == Pairs(results[primary].value)
              <==> SamePairs(results[i].value, results[primary].value)
    {
      SortedPairsUnique(results[i].value, results[primary].value);
    }
  }

  // ---------------------------------------------------------------- what the heads say about the stores

  /** Both listings name the same keys, and the stores hold the same data under each of them. */
  ghost predicate HeadsAgree(a: Store, b: Store, la: Listing, lb: Listing) {
    KeysOf(la) == KeysOf(lb) && forall i :: 0 <= i < |la| ==> DataAt(a, la[i].key) == DataAt(b, la[i].key)
  }

  lemma EntryOf(store: Store, prefix: Option<string>, list: Listing, maxKeys: int, i: nat)
    requires IsListing(store, prefix, list) && i < |Truncate(list, maxKeys)|
    ensures var m := Truncate(list, maxKeys)[i];
            m.key in store && m == store[m.key].metadata && Matches(prefix, m.key)
  {
    assert list[i] in list;
  }

  lemma PairsDecide(etagOf: EtagFunction, a: Store, b: Store, prefix: Option<string>, maxKeys: int,
                    la: Listing, lb: Listing)
    requires Injective(etagOf) && WellFormed(etagOf, a) && WellFormed(etagOf, b)
    requires IsListing(a, prefix, la) && IsListing(b, prefix, lb)
    ensures SamePairs(Truncate(la, maxKeys), Truncate(lb, maxKeys))
            <==> HeadsAgree(a, b, Truncate(la, maxKeys), Truncate(lb, maxKeys))
  {
    var ha, hb := Truncate(la, maxKeys), Truncate(lb, maxKeys);
    assert |ha| == |KeysOf(ha)| && |hb| == |KeysOf(hb)|;
    if |ha| == |hb| {
      forall i | 0 <= i < |ha|
        ensures Pair(ha[i]) == Pair(hb[i]) <==> ha[i].key == hb[i].key && DataAt(a, ha[i].key) == DataAt(b, ha[i].key)
      {
        EntryOf(a, prefix, la, maxKeys, i);
        EntryOf(b, prefix, lb, maxKeys, i);
      }
      assert forall i :: 0 <= i < |ha| ==> (KeysOf(ha)[i] == KeysOf(hb)[i] <==> ha[i].key == hb[i].key);
    }
  }

  /**
   With ETags that tell data apart an all-consistent LIST, with any limit, succeeds if and only if every
   backend answers, all name the same first keys with the prefix, and all hold the same data under them.
   */
  lemma ListDetectsDivergence(etagOf: EtagFunction, stores: seq<Store>, prefix: Option<string>, maxKeys: int,
                              lists: seq<Listing>, results: seq<Result<Listing>>, primary: nat, order: seq<nat>,
                              r: Result<Listing>)
    requires Injective(etagOf) && primary < |stores| == |lists| == |results| && IsOrder(order, |stores|)
    requires forall i :: 0 <= i < |stores| ==> WellFormed(etagOf, stores[i]) && IsListing(stores[i], prefix, lists[i])
    requires forall i :: 0 <= i < |stores| && results[i].Ok? ==> results[i].value == Truncate(lists[i], maxKeys)
    requires ReadModes.ListAnswers(ReadModes.AllConsistent, results, primary, order, r)
    ensures r.Ok? <==>
              && (forall i :: 0 <= i < |results| ==> results[i].Ok?)
              && (forall i :: 0 <= i < |stores| ==>
                    HeadsAgree(stores[i], stores[primary], Truncate(lists[i], maxKeys), Truncate(lists[primary], maxKeys)))
  {
    SortedCheckIsPointwise(results, primary);
    forall i | 0 <= i < |stores|
      ensures SamePairs(Truncate(lists[i], maxKeys), Truncate(lists[primary], maxKeys))
              <==> HeadsAgree(stores[i], stores[primary], Truncate(lists[i], maxKeys), Truncate(lists[primary], maxKeys))
    {
      PairsDecide(etagOf, stores[i], stores[primary], prefix, maxKeys, lists[i], lists[primary]);
    }
  }

  // ---------------------------------------------------------------- exactly when nothing is missed

  /** Whole listings that agree leave no matching key out. */
  lemma WholeListsDecide(etagOf: EtagFunction, a: Store, b: Store, prefix: Option<string>, la: Listing, lb: Listing)
    requires WellFormed(etagOf, a) && WellFormed(etagOf, b)
    requires IsListing(a, prefix, la) && IsListing(b, prefix, lb) && HeadsAgree(a, b, la, lb)
    ensures SameUnder(prefix, a, b)
  {
    assert |la| == |KeysOf(la)| == |lb|;
    forall k | Matches(prefix, k) ensures DataAt(a, k) == DataAt(b, k) {
      if k in a {
        var i :| 0 <= i < |la| && la[i] == a[k].metadata;
        assert la[i].key == k;
      } else if k in b {
        var i :| 0 <= i < |lb| && lb[i] == b[k].metadata;
        assert KeysOf(la)[i] == KeysOf(lb)[i] == k;
      }
    }
  }

  lemma {:induction false} LongerIsAfter(s: string, more: string)
    ensures LexLe(s, s + more)
  {
    if s != [] {
      LongerIsAfter(s[1..], more);
      assert (s + more)[1..] == s[1..] + more;
    }
  }

  /** A key with the prefix that comes after all the keys of a listing. */
  lemma KeyAfter(etagOf: EtagFunction, store: Store, prefix: Option<string>, list: Listing) returns (k: string)
    requires WellFormed(etagOf, store) && IsListing(store, prefix, list)
    ensures Matches(prefix, k) && k !in store
    ensures forall i :: 0 <= i < |list| ==> LexLe(list[i].key, k) && list[i].key != k
  {
    if list == [] {
      k := if prefix.Some? then prefix.value else "";
    } else {
      var last := list[|list| - 1];
      assert last in list;
      k := last.key + "/";
      LongerIsAfter(last.key, "/");
      LexLeIsTotalOrder();
      forall i | 0 <= i < |list| ensures LexLe(list[i].key, k) && list[i].key != k {
        assert LexLe(list[i].key, last.key);
        assert i < |list| - 1 && list[i].key == k ==> last.key == k;
      }
      assert forall m :: m in list ==> m.key != k;
    }
  }

  /** A store that differs only past the limit: its listing is cut to the very same entries. */
  lemma LimitHidesDivergence(etagOf: EtagFunction, a: Store, prefix: Option<string>, maxKeys: nat, la: Listing)
    returns (b: Store, lb: Listing)
    requires WellFormed(etagOf, a) && IsListing(a, prefix, la) && |la| >= maxKeys
    ensures WellFormed(etagOf, b) && IsListing(b, prefix, lb)
    ensures Truncate(lb, maxKeys) == Truncate(la, maxKeys) && !SameUnder(prefix, a, b)
  {
    var k := KeyAfter(etagOf, a, prefix, la);
    var o := MakeObject(etagOf, k, [], 0);
    b := a[k := o];
    lb := la + [o.metadata];
    forall k' | k' in b && Matches(prefix, k') ensures b[k'].metadata in lb {
      assert k' != k ==> a[k'].metadata in la;
    }
    assert DataAt(b, k) != DataAt(a, k);
  }

  /**
   Exactly when the check of a backend against the primary misses nothing: no store that passes it can
   differ from the primary's under the prefix if and only if the primary has fewer matching keys than
   the limit, or there is no limit.
   */
  lemma NothingMissedExactlyBelowLimit(etagOf: EtagFunction, a: Store, prefix: Option<string>, maxKeys: int, la: Listing)
    requires Injective(etagOf) && WellFormed(etagOf, a) && IsListing(a, prefix, la)
    ensures (forall b, lb ::
               WellFormed(etagOf, b) && IsListing(b, prefix, lb)
               && Consistent(Truncate(lb, maxKeys), Truncate(la, maxKeys)) ==>
                 SameUnder(prefix, a, b))
            <==> maxKeys < 0 || |la| < maxKeys
  {
    if maxKeys < 0 || |la| < maxKeys {
      forall b, lb | WellFormed(etagOf, b) && IsListing(b, prefix, lb)
                     && Consistent(Truncate(lb, maxKeys), Truncate(la, maxKeys))
        ensures SameUnder(prefix, a, b)
      {
        ConsistentIsEquality(lb, la);
        SortedPairsUnique(la, lb);
        PairsDecide(etagOf, a, b, prefix, -1, la, lb);
        WholeListsDecide(etagOf, a, b, prefix, la, lb);
      }
    } else {
      var b, lb := LimitHidesDivergence(etagOf, a, prefix, maxKeys, la);
      ConsistentIsEquality(Truncate(lb, maxKeys), Truncate(la, maxKeys));
    }
  }
}
