/** The all-consistent listing: every backend must list the same keys with the same ETags. */
module ListConsistency {
  import opened Types
  import opened Sequences

  type Listing = seq<ObjectMetadata>

  /** The hash map built from a list: a later entry for a key replaces an earlier one. */
  function EtagMap(list: Listing): map<string, string> {
    if list == [] then map[]
    else EtagMap(list[..|list| - 1])[list[|list| - 1].key := list[|list| - 1].etag]
  }

  /** The check on one backend: as many objects, each with the ETag the primary has for its key. */
  predicate Consistent(list: Listing, primaryList: Listing) {
    && |list| == |primaryList|
    && forall o :: o in list ==> o.key in EtagMap(primaryList) && EtagMap(primaryList)[o.key] == o.etag
  }

  ghost predicate Listed(list: Listing, key: string) {
    exists p :: 0 <= p < |list| && list[p].key == key
  }

  /** The last entry for the object's key has the object's ETag. */
  ghost predicate ListedWith(list: Listing, o: ObjectMetadata) {
    exists p :: 0 <= p < |list| && list[p].key == o.key && list[p].etag == o.etag
                && forall q :: p < q < |list| ==> list[q].key != o.key
  }

  lemma {:induction false} EtagMapExactly(list: Listing, o: ObjectMetadata)
    ensures o.key in EtagMap(list) <==> Listed(list, o.key)
    ensures o.key in EtagMap(list) && EtagMap(list)[o.key] == o.etag <==> ListedWith(list, o)
  {
    if list != [] {
      var init, n := list[..|list| - 1], |list| - 1;
      EtagMapExactly(init, o);
      if list[n].key != o.key {
        if p :| 0 <= p < n && init[p].key == o.key {
          assert list[p].key == o.key;
        }
        if p :| 0 <= p < |list| && list[p].key == o.key {
          assert init[p].key == o.key;
        }
        if ListedWith(init, o) {
          var p :| 0 <= p < n && init[p].key == o.key && init[p].etag == o.etag
                   && forall q :: p < q < n ==> init[q].key != o.key;
          assert list[p].key == o.key && forall q :: p < q < |list| ==> list[q].key != o.key;
        }
        if ListedWith(list, o) {
          var p :| 0 <= p < |list| && list[p].key == o.key && list[p].etag == o.etag
                   && forall q :: p < q < |list| ==> list[q].key != o.key;
          assert init[p].key == o.key && forall q :: p < q < n ==> init[q].key != o.key;
        }
      } else {
        assert list[n].key == o.key;
      }
    }
  }

  /**
   What is first found wrong with a listing: its length; or else at its first entry that the primary does
   not list with this ETag, that the primary does not list the key, or lists it with another ETag.
   */
  ghost predicate IsMismatch(list: Listing, primaryList: Listing, cause: Failure) {
    if |list| != |primaryList| then cause == DifferentNumberOfObjects
    else exists k :: 0 <= k < |list| && !ListedWith(primaryList, list[k])
                     && (forall m :: 0 <= m < k ==> ListedWith(primaryList, list[m]))
                     && cause == if Listed(primaryList, list[k].key) then EtagMismatch else DifferentObjects
  }

  ghost predicate AllMatch(results: seq<Result<Listing>>, primary: nat)
    requires primary < |results|
  {
    && (forall i :: 0 <= i < |results| ==> results[i].Ok?)
    && (forall i :: 0 <= i < |results| && i != primary ==> Consistent(results[i].value, results[primary].value))
  }

  method ListAllConsistent(results: seq<Result<Listing>>, primary: nat) returns (r: Result<Listing>)
    requires primary < |results|
    ensures r.Ok? <==> AllMatch(results, primary)
    ensures r.Ok? ==> r == results[primary]
    ensures r.Err? ==> r.error.InternalError?
    ensures forall i :: 0 <= i < |results| && results[i].Err? && (forall j :: 0 <= j < i ==> results[j].Ok?)
                        ==> r == Err(InternalError(BackendFailed(i)))
    ensures r.Err? && (forall i :: 0 <= i < |results| ==> results[i].Ok?) ==>
              exists i :: 0 <= i < |results| && i != primary
                          && (forall j :: 0 <= j < i && j != primary ==>
                                Consistent(results[j].value, results[primary].value))
                          && IsMismatch(results[i].value, results[primary].value, r.error.cause)
  {
    var allLists: seq<(nat, Listing)> := [];
    for i := 0 to |results|
      invariant |allLists| == i
      invariant forall j :: 0 <= j < i ==> allLists[j].0 == j && results[j] == Ok(allLists[j].1)
    {
      match results[i] {
        case Ok(objects) => allLists := allLists + [(i, objects)];
        case Err(_) => return Err(InternalError(BackendFailed(i)));
      }
    }

    var primaryList := allLists[primary].1;
    var primaryMap: map<string, string> := map[];
    for i := 0 to |primaryList|
      invariant primaryMap == EtagMap(primaryList[..i])
    {
      assert primaryList[..i + 1][..i] == primaryList[..i];
      primaryMap := primaryMap[primaryList[i].key := primaryList[i].etag];
    }
    assert primaryList[..|primaryList|] == primaryList;

    for i := 0 to |allLists|
      invariant forall j :: 0 <= j < i && j != primary ==> Consistent(results[j].value, primaryList)
    {
      if i != primary {
        var objects := allLists[i].1;
        if |objects| != |primaryList| {
          return Err(InternalError(DifferentNumberOfObjects));
        }
        for k := 0 to |objects|
          invariant forall m :: 0 <= m < k ==> objects[m].key in primaryMap && primaryMap[objects[m].key] == objects[m].etag
          invariant forall m :: 0 <= m < k ==> ListedWith(primaryList, objects[m])
        {
          EtagMapExactly(primaryList, objects[k]);
          if objects[k].key !in primaryMap {
            assert objects[k] in results[i].value;
            return Err(InternalError(DifferentObjects));
          } else if objects[k].etag != primaryMap[objects[k].key] {
            assert objects[k] in results[i].value;
            return Err(InternalError(EtagMismatch));
          }
        }
      }
    }
    r := Ok(allLists[primary].1);
  }

  // ---------------------------------------------------------------- soundness and completeness

  function Pair(o: ObjectMetadata): (string, string) {
    (o.key, o.etag)
  }

  function Pairs(list: Listing): set<(string, string)> {
    set o | o in list :: Pair(o)
  }

  /** The contract of list_objects: one entry a key. */
  ghost predicate DistinctKeys(list: Listing) {
    forall i, j :: 0 <= i < j < |list| ==> list[i].key != list[j].key
  }

  lemma {:induction false} EtagMapAt(list: Listing, i: nat)
    requires DistinctKeys(list) && i < |list|
    ensures list[i].key in EtagMap(list) && EtagMap(list)[list[i].key] == list[i].etag
  {
    if i < |list| - 1 {
      EtagMapAt(list[..|list| - 1], i);
    }
  }

  lemma {:induction false} EtagMapFrom(list: Listing, key: string) returns (i: nat)
    requires key in EtagMap(list)
    ensures i < |list| && list[i].key == key
  {
    if list[|list| - 1].key == key {
      i := |list| - 1;
    } else {
      i := EtagMapFrom(list[..|list| - 1], key);
    }
  }

  lemma EtagMapPairs(list: Listing, key: string, etag: string)
    requires DistinctKeys(list)
    ensures (key in EtagMap(list) && EtagMap(list)[key] == etag) <==> (key, etag) in Pairs(list)
  {
    if key in EtagMap(list) && EtagMap(list)[key] == etag {
      var i := EtagMapFrom(list, key);
      EtagMapAt(list, i);
      assert list[i] in list && Pair(list[i]) == (key, etag);
    }
    if (key, etag) in Pairs(list) {
      var o :| o in list && Pair(o) == (key, etag);
      var i :| 0 <= i < |list| && list[i] == o;
      EtagMapAt(list, i);
    }
  }

  lemma PairsCount(list: Listing)
    requires DistinctKeys(list)
    ensures |Pairs(list)| == |list|
  {
    var pairs := seq(|list|, i requires 0 <= i < |list| => Pair(list[i]));
    DistinctCardinality(pairs);
    forall p ensures p in Elements(pairs) <==> p in Pairs(list) {
      if p in Pairs(list) {
        var i :| 0 <= i < |list| && Pair(list[i]) == p;
        assert pairs[i] == p;
      }
    }
    assert Elements(pairs) == Pairs(list);
  }

  /** The one-way check with equal lengths decides equality, because keys are distinct. */
  lemma ConsistentIsEquality(list: Listing, primaryList: Listing)
    requires DistinctKeys(list) && DistinctKeys(primaryList)
    ensures Consistent(list, primaryList) <==> Pairs(list) == Pairs(primaryList)
  {
    PairsCount(list);
    PairsCount(primaryList);
    forall o | o in list
      ensures (o.key in EtagMap(primaryList) && EtagMap(primaryList)[o.key] == o.etag) <==> Pair(o) in Pairs(primaryList)
    {
      EtagMapPairs(primaryList, o.key, o.etag);
    }
    if Consistent(list, primaryList) {
      SubsetOfEqualSize(Pairs(list), Pairs(primaryList));
    } else if Pairs(list) == Pairs(primaryList) {
      forall o | o in list ensures Pair(o) in Pairs(primaryList) {
        assert Pair(o) in Pairs(list);
      }
    }
  }

  /** With one entry a key, the check passes if and only if all list the primary's (key, ETag) pairs. */
  lemma ListingCheckIsExact(results: seq<Result<Listing>>, primary: nat)
    requires primary < |results|
    requires forall i :: 0 <= i < |results| && results[i].Ok? ==> DistinctKeys(results[i].value)
    ensures AllMatch(results, primary) <==>
              && (forall i :: 0 <= i < |results| ==> results[i].Ok?)
              && (forall i :: 0 <= i < |results| ==> Pairs(results[i].value) == Pairs(results[primary].value))
  {
    forall i | 0 <= i < |results| && results[i].Ok? && results[primary].Ok?
      ensures Consistent(results[i].value, results[primary].value)
              <==> Pairs(results[i].value) == Pairs(results[primary].value)
    {
      ConsistentIsEquality(results[i].value, results[primary].value);
    }
  }
}
