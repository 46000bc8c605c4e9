/** The in-memory backend: a hash map of stored objects that its methods update in place. */
module InMemoryStorage {
  import opened Types
  import opened Sequences
  import opened Sorting
  import opened Strings

  // ---------------------------------------------------------------- draining a body

  type Body = seq<Result<Bytes>>

  /** The whole body, or the first error in it. */
  function Drain(body: Body): Result<Bytes> {
    if body == [] then Ok([])
    else
      match Drain(body[..|body| - 1])
      case Err(e) => Err(e)
      case Ok(data) =>
        match body[|body| - 1]
        case Err(e) => Err(e)
        case Ok(chunk) => Ok(data + chunk)
  }

  lemma {:induction false} DrainStopsAtError(body: Body, i: nat)
    requires i < |body| && Drain(body[..i + 1]).Err?
    ensures Drain(body) == Drain(body[..i + 1])
    decreases |body|
  {
    if i + 1 < |body| {
      var init := body[..|body| - 1];
      assert init[..i + 1] == body[..i + 1];
      DrainStopsAtError(init, i);
    } else {
      assert body[..i + 1] == body;
    }
  }

  /** The stream a source is for the backend that drains it. */
  function BodyOf(source: Source): Body {
    seq(|source.chunks|, i requires 0 <= i < |source.chunks| => Ok(source.chunks[i]))
    + if source.fault.Some? then [Err(source.fault.value)] else []
  }

  lemma {:induction false} DrainChunks(chunks: seq<Bytes>)
    ensures Drain(BodyOf(Source(chunks, None))) == Ok(Concat(chunks))
  {
    var body := BodyOf(Source(chunks, None));
    if chunks != [] {
      var init := chunks[..|chunks| - 1];
      DrainChunks(init);
      assert body[..|body| - 1] == BodyOf(Source(init, None));
    }
  }

  /** Draining a source gives its concatenation, or the error it ends with. */
  lemma DrainSource(source: Source)
    ensures Drain(BodyOf(source)) ==
            if source.fault.Some? then Err(source.fault.value) else Ok(Concat(source.chunks))
  {
    DrainChunks(source.chunks);
    var body, clean := BodyOf(source), BodyOf(Source(source.chunks, None));
    if source.fault.Some? {
      assert body[..|body| - 1] == clean;
    } else {
      assert body == clean;
    }
  }

  // ---------------------------------------------------------------- listing

  predicate Matches(prefix: Option<string>, key: string) {
    prefix.Some? ==> StartsWith(key, prefix.value)
  }

  predicate KeyLe(a: ObjectMetadata, b: ObjectMetadata) {
    LexLe(a.key, b.key)
  }

  ghost predicate StrictlyByKey(list: seq<ObjectMetadata>) {
    forall i, j :: 0 <= i < j < |list| ==> LexLe(list[i].key, list[j].key) && list[i].key != list[j].key
  }

  /** The metadata of the matching objects, each once, in key order. */
  ghost predicate IsListing(store: Store, prefix: Option<string>, list: seq<ObjectMetadata>) {
    && StrictlyByKey(list)
    && (forall m :: m in list ==> m.key in store && m == store[m.key].metadata && Matches(prefix, m.key))
    && (forall k :: k in store && Matches(prefix, k) ==> store[k].metadata in list)
  }

  /** max_keys is cast to an unsigned size: a negative one is larger than any length. */
  function Truncate<T>(list: seq<T>, maxKeys: int): seq<T> {
    if 0 <= maxKeys < |list| then list[..maxKeys] else list
  }

  class InMemoryStorage {
    const etagOf: EtagFunction
    var objects: Store

    ghost predicate Valid()
      reads this
    {
      WellFormed(etagOf, objects)
    }

    constructor (etagOf: EtagFunction)
      ensures Valid() && this.etagOf == etagOf && objects == map[]
    {
      this.etagOf := etagOf;
      objects := map[];
    }

    /** The write that ends put_object, once the body has been drained into data. */
    method Insert(key: string, data: Bytes, now: int) returns (etag: string)
      requires Valid()
      modifies this
      ensures Valid() && etag == etagOf(data)
      ensures objects == old(objects)[key := MakeObject(etagOf, key, data, now)]
    {
      etag := etagOf(data);
      var metadata := ObjectMetadata(key, |data|, etag, now, "binary/octet-stream");
      objects := objects[key := StoredObject(data, metadata)];
    }

    /** Ok: the body ended and its concatenation is stored. Err: nothing was stored. */
    method PutObject(key: string, body: Body, now: int) returns (r: Result<string>)
      requires Valid()
      modifies this
      ensures Valid()
      ensures Drain(body).Ok? ==>
                && r == Ok(etagOf(Drain(body).value))
                && var data := Drain(body).value;
                   objects == old(objects)[key := StoredObject(data,
                     ObjectMetadata(key, |data|, etagOf(data), now, "binary/octet-stream"))]
      ensures Drain(body).Err? ==> r == Err(Drain(body).error) && objects == old(objects)
    {
      var data: Bytes := [];
      var i := 0;
      while i < |body|
        invariant 0 <= i <= |body|
        invariant Drain(body[..i]) == Ok(data)
        invariant objects == old(objects)
      {
        assert body[..i + 1][..i] == body[..i];
        match body[i] {
          case Err(e) =>
            DrainStopsAtError(body, i);
            return Err(e);
          case Ok(chunk) =>
            data := data + chunk;
        }
        i := i + 1;
      }
      assert body[..i] == body;
      var etag := Insert(key, data, now);
      r := Ok(etag);
    }

    method DeleteObject(key: string) returns (r: Result<()>)
      requires Valid()
      modifies this
      ensures Valid() && r == Ok(()) && objects == old(objects) - {key}
    {
      objects := map k | k in objects && k != key :: objects[k];
      assert objects == old(objects) - {key};
      r := Ok(());
    }

    method HeadObject(key: string) returns (r: Result<ObjectMetadata>)
      requires Valid()
      ensures r == (if key in objects then Ok(objects[key].metadata) else Err(NoSuchKey))
      ensures r.Ok? ==>
                && r.value.key == key
                && r.value.etag == etagOf(objects[key].data)
                && r.value.size == |objects[key].data|
    {
      if key in objects {
        return Ok(objects[key].metadata);
      }
      r := Err(NoSuchKey);
    }

    /** The data comes back as a stream of a single item. */
    method GetObject(key: string) returns (r: Result<(Body, ObjectMetadata)>)
      requires Valid()
      ensures key !in objects ==> r == Err(NoSuchKey)
      ensures key in objects ==>
                && r.Ok?
                && Drain(r.value.0) == Ok(objects[key].data)
                && r.value.1 == objects[key].metadata
    {
      if key !in objects {
        return Err(NoSuchKey);
      }
      var stream: Body := [Ok(objects[key].data)];
      assert stream[..|stream| - 1] == [];
      assert [] + objects[key].data == objects[key].data;
      r := Ok((stream, objects[key].metadata));
    }

    /**
     The result does not depend on the order in which the hash map yields its keys: the matching objects
     in ascending order of their keys, and if there are more than max_keys, the ones with the first keys.
     */
    method ListObjects(prefix: Option<string>, maxKeys: int, iteration: seq<string>)
      returns (r: Result<seq<ObjectMetadata>>)
      requires Valid()
      requires Distinct(iteration) && Elements(iteration) == objects.Keys
      ensures r.Ok?
      ensures exists list :: IsListing(objects, prefix, list) && r.value == Truncate(list, maxKeys)
      ensures forall i, j :: 0 <= i < j < |r.value| ==> Precedes(r.value[i].key, r.value[j].key)
      ensures forall m :: m in r.value ==>
                m.key in objects && m == objects[m.key].metadata && (prefix.Some? ==> prefix.value <= m.key)
      ensures forall k :: k in objects && (prefix.Some? ==> prefix.value <= k) ==>
                || objects[k].metadata in r.value
                || (|r.value| == maxKeys && forall m :: m in r.value ==> Precedes(m.key, k))
      ensures 0 <= maxKeys ==> |r.value| <= maxKeys
    {
      var results: seq<ObjectMetadata> := [];
      var i := 0;
      while i < |iteration|
        invariant 0 <= i <= |iteration|
        invariant forall m :: m in results ==> m.key in iteration[..i] && m.key in objects
        invariant forall m :: m in results ==> m == objects[m.key].metadata && Matches(prefix, m.key)
        invariant forall k :: k in iteration[..i] && Matches(prefix, k) ==>
                                k in objects && objects[k].metadata in results
        invariant forall a, b :: 0 <= a < b < |results| ==> results[a].key != results[b].key
      {
        var key := iteration[i];
        assert key in Elements(iteration);
        assert iteration[..i + 1] == iteration[..i] + [key];
        if Matches(prefix, key) {
          results := results + [objects[key].metadata];
        }
        i := i + 1;
      }
      assert iteration[..i] == iteration;
      ghost var unsorted := results;
      results := Sort(results, KeyLe);
      SortedByKeyIsListing(objects, prefix, unsorted);
      TruncatedListing(etagOf, objects, prefix, results, maxKeys);
      r := Ok(Truncate(results, maxKeys));
    }
  }

  /** What a listing cut at max_keys holds. */
  lemma TruncatedListing(etagOf: EtagFunction, store: Store, prefix: Option<string>, list: seq<ObjectMetadata>,
                         maxKeys: int)
    requires WellFormed(etagOf, store) && IsListing(store, prefix, list)
    ensures var cut := Truncate(list, maxKeys);
            && (forall i, j :: 0 <= i < j < |cut| ==> Precedes(cut[i].key, cut[j].key))
            && (forall m :: m in cut ==>
                  m.key in store && m == store[m.key].metadata && (prefix.Some? ==> prefix.value <= m.key))
            && (forall k :: k in store && (prefix.Some? ==> prefix.value <= k) ==>
                  || store[k].metadata in cut
                  || (|cut| == maxKeys && forall m :: m in cut ==> Precedes(m.key, k)))
            && (0 <= maxKeys ==> |cut| <= maxKeys)
  {
    var cut := Truncate(list, maxKeys);
    forall i, j | 0 <= i < j < |list| ensures Precedes(list[i].key, list[j].key) {
      LexLeIsPrecedes(list[i].key, list[j].key);
    }
    forall m | m in cut ensures m in list {
    }
    forall k | k in store && Matches(prefix, k) && store[k].metadata !in cut
      ensures |cut| == maxKeys && forall m :: m in cut ==> Precedes(m.key, k)
    {
      var j :| 0 <= j < |list| && list[j] == store[k].metadata;
      assert j >= |cut|;
    }
  }

  lemma KeyLeIsPreorder()
    ensures TotalPreorder(KeyLe)
  {
    LexLeIsTotalOrder();
    forall a, b ensures KeyLe(a, b) || KeyLe(b, a) {
      assert LexLe(a.key, b.key) || LexLe(b.key, a.key);
    }
    forall a, b, c | KeyLe(a, b) && KeyLe(b, c) ensures KeyLe(a, c) {
      assert LexLe(a.key, b.key) && LexLe(b.key, c.key);
    }
  }

  lemma SortedByKeyIsListing(store: Store, prefix: Option<string>, unsorted: seq<ObjectMetadata>)
    requires forall m :: m in unsorted ==> m.key in store && m == store[m.key].metadata && Matches(prefix, m.key)
    requires forall k :: k in store && Matches(prefix, k) ==> store[k].metadata in unsorted
    requires forall a, b :: 0 <= a < b < |unsorted| ==> unsorted[a].key != unsorted[b].key
    ensures IsListing(store, prefix, Sort(unsorted, KeyLe))
  {
    var list := Sort(unsorted, KeyLe);
    KeyLeIsPreorder();
    SortSorts(unsorted, KeyLe);
    SortPermutes(unsorted, KeyLe);
    forall m ensures m in list <==> m in unsorted {
      SortSameElements(unsorted, KeyLe, m);
    }
    forall i, j | 0 <= i < j < |list| ensures LexLe(list[i].key, list[j].key) && list[i].key != list[j].key {
      assert KeyLe(list[i], list[j]);
      if list[i].key == list[j].key {
        assert list[i] in list && list[j] in list;
        TwiceInMultiset(list, i, j);
        TwiceInSeq(unsorted, list[i]);
      }
    }
  }

  lemma TwiceInMultiset<T>(xs: seq<T>, i: nat, j: nat)
    requires i < j < |xs| && xs[i] == xs[j]
    ensures multiset(xs)[xs[i]] >= 2
  {
    assert xs == xs[..i] + [xs[i]] + xs[i + 1..j] + [xs[j]] + xs[j + 1..];
  }

  lemma {:induction false} TwiceInSeq<T>(xs: seq<T>, x: T)
    requires multiset(xs)[x] >= 2
    ensures exists i, j :: 0 <= i < j < |xs| && xs[i] == xs[j]
  {
    assert xs == [xs[0]] + xs[1..];
    if xs[0] == x {
      assert x in multiset(xs[1..]);
      var k :| 0 <= k < |xs[1..]| && xs[1..][k] == x;
      assert xs[0] == xs[k + 1];
    } else {
      TwiceInSeq(xs[1..], x);
      var i, j :| 0 <= i < j < |xs[1..]| && xs[1..][i] == xs[1..][j];
      assert xs[i + 1] == xs[j + 1];
    }
  }

  // ---------------------------------------------------------------- listings of equal stores

  /** The stores hold the same data under every key with the prefix. */
  ghost predicate SameUnder(prefix: Option<string>, a: Store, b: Store) {
    forall k :: Matches(prefix, k) ==> DataAt(a, k) == DataAt(b, k)
  }

  /** Where two in-memory stores hold the same data they differ at most in their time stamps. */
  lemma SameUpToTime(etagOf: EtagFunction, a: Store, b: Store, k: string)
    requires WellFormed(etagOf, a) && WellFormed(etagOf, b) && DataAt(a, k) == DataAt(b, k)
    ensures k in a <==> k in b
    ensures k in a ==> Timeless(a[k].metadata) == Timeless(b[k].metadata)
  {
  }

  function KeysOf(list: seq<ObjectMetadata>): (r: seq<string>)
    ensures |r| == |list| && forall i :: 0 <= i < |r| ==> r[i] == list[i].key
  {
    seq(|list|, i requires 0 <= i < |list| => list[i].key)
  }

  lemma {:induction false} DistinctMultiset<T>(xs: seq<T>)
    requires Distinct(xs)
    ensures multiset(xs) == multiset(Elements(xs))
  {
    if xs != [] {
      var init, last := xs[..|xs| - 1], xs[|xs| - 1];
      DistinctMultiset(init);
      assert xs == init + [last];
      assert Elements(xs) == Elements(init) + {last};
      assert last !in init;
    }
  }

  lemma ListingKeys(etagOf: EtagFunction, store: Store, prefix: Option<string>, list: seq<ObjectMetadata>)
    requires WellFormed(etagOf, store) && IsListing(store, prefix, list)
    ensures Sorted(KeysOf(list), LexLe) && Distinct(KeysOf(list))
    ensures Elements(KeysOf(list)) == set k | k in store && Matches(prefix, k)
  {
    var keys := KeysOf(list);
    forall k ensures k in keys <==> k in store && Matches(prefix, k) {
      if k in keys {
        var i :| 0 <= i < |keys| && keys[i] == k;
        assert list[i] in list;
      }
      if k in store && Matches(prefix, k) {
        var i :| 0 <= i < |list| && list[i] == store[k].metadata;
        assert keys[i] == k;
      }
    }
  }

  lemma ListingsHaveSameKeys(etagOf: EtagFunction, a: Store, b: Store, prefix: Option<string>,
                             la: seq<ObjectMetadata>, lb: seq<ObjectMetadata>)
    requires WellFormed(etagOf, a) && WellFormed(etagOf, b)
    requires forall k :: Matches(prefix, k) ==> (k in a <==> k in b)
    requires IsListing(a, prefix, la) && IsListing(b, prefix, lb)
    ensures KeysOf(la) == KeysOf(lb)
  {
    ListingKeys(etagOf, a, prefix, la);
    ListingKeys(etagOf, b, prefix, lb);
    DistinctMultiset(KeysOf(la));
    DistinctMultiset(KeysOf(lb));
    assert Elements(KeysOf(la)) == Elements(KeysOf(lb));
    LexLeIsTotalOrder();
    SortedUnique(KeysOf(la), KeysOf(lb), LexLe);
  }

  lemma ListingEntry(store: Store, prefix: Option<string>, list: seq<ObjectMetadata>, i: nat)
    requires IsListing(store, prefix, list) && i < |list|
    ensures list[i].key in store && list[i] == store[list[i].key].metadata
  {
    assert list[i] in list;
  }

  /**
   Listings of stores with the same contents under the prefix agree entry by entry up to the time stamps,
   however the two hash maps are iterated.
   */
  lemma ListingsAgree(etagOf: EtagFunction, a: Store, b: Store, prefix: Option<string>,
                      la: seq<ObjectMetadata>, lb: seq<ObjectMetadata>, maxKeys: int)
    requires WellFormed(etagOf, a) && WellFormed(etagOf, b) && SameUnder(prefix, a, b)
    requires IsListing(a, prefix, la) && IsListing(b, prefix, lb)
    ensures |Truncate(la, maxKeys)| == |Truncate(lb, maxKeys)|
    ensures forall i :: 0 <= i < |Truncate(la, maxKeys)| ==>
                          Timeless(Truncate(la, maxKeys)[i]) == Timeless(Truncate(lb, maxKeys)[i])
  {
    forall k | Matches(prefix, k) ensures k in a <==> k in b {
      SameUpToTime(etagOf, a, b, k);
    }
    ListingsHaveSameKeys(etagOf, a, b, prefix, la, lb);
    forall i | 0 <= i < |la| ensures Timeless(la[i]) == Timeless(lb[i]) {
      assert KeysOf(la)[i] == KeysOf(lb)[i];
      ListingEntry(a, prefix, la, i);
      ListingEntry(b, prefix, lb, i);
      SameUpToTime(etagOf, a, b, la[i].key);
    }
    assert |la| == |KeysOf(la)| == |lb|;
  }

  /** A store has one listing: it does not depend on the iteration order of the hash map. */
  lemma ListingUnique(etagOf: EtagFunction, store: Store, prefix: Option<string>,
                      la: seq<ObjectMetadata>, lb: seq<ObjectMetadata>)
    requires WellFormed(etagOf, store)
    requires IsListing(store, prefix, la) && IsListing(store, prefix, lb)
    ensures la == lb
  {
    ListingsHaveSameKeys(etagOf, store, store, prefix, la, lb);
    assert |la| == |KeysOf(la)| == |lb|;
    forall i | 0 <= i < |la| ensures la[i] == lb[i] {
      assert KeysOf(la)[i] == KeysOf(lb)[i];
      ListingEntry(store, prefix, la, i);
      ListingEntry(store, prefix, lb, i);
    }
  }
}
