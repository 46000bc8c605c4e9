/** GET, HEAD and LIST in the four read modes, and when they all give the same answer. */
module ReadModes {
  import opened Types
  import opened Sequences
  import opened InMemoryStorage
  import opened ReadHelpers
  import ListConsistency
  import MultiSync

  datatype ReadMode = PrimaryOnly | PrimaryFallback | BestEffort | AllConsistent

  const ETAG_OF_OBJECT := (o: StoredObject) => o.metadata.etag

  const ETAG_OF_METADATA := (m: ObjectMetadata) => m.etag

  predicate IsNoSuchKey(e: S3Error) {
    e == NoSuchKey
  }

  predicate NeverNotFound(e: S3Error) {
    false
  }

  /** The answer of GET and HEAD, by the helpers' specifications. */
  ghost function ReadAnswer<T>(mode: ReadMode, results: seq<Result<T>>, primary: nat, order: seq<nat>,
                               etagIn: T -> string): Result<T>
    requires primary < |results| && IsOrder(order, |results|)
  {
    match mode
    case PrimaryOnly => results[primary]
    case PrimaryFallback => TryPrimaryFallback(results, primary, IsNoSuchKey, NoSuchKey)
    case BestEffort => RaceAnswer(results, order, IsNoSuchKey, NoSuchKey)
    case AllConsistent =>
      if OneEtag(results, primary, etagIn) then results[primary]
      else if Successes(results) < |results| then
        Err(InternalError(OnlySomeSucceeded(Successes(results), |results|)))
      else Err(InternalError(EtagMismatch))
  }

  /** All backends before index i have failed. */
  ghost predicate FailedBefore<T>(results: seq<Result<T>>, i: nat) {
    forall j :: 0 <= j < i && j < |results| ==> results[j].Err?
  }

  /**
   What a caller of GET or HEAD can rely on. Fallback: only a real error of the primary leads to another
   backend, and to the first one that has the object. Race: the first backend that has the object or says
   that there is none, or else the last one's error. All consistent: one ETag everywhere, or an error.
   */
  ghost predicate Outcome<T>(mode: ReadMode, results: seq<Result<T>>, primary: nat, order: seq<nat>,
                             etagIn: T -> string, r: Result<T>)
    requires primary < |results| && IsOrder(order, |results|)
  {
    match mode
    case PrimaryOnly => r == results[primary]
    case PrimaryFallback =>
      && (results[primary].Ok? || results[primary] == Err(NoSuchKey) ==> r == results[primary])
      && (results[primary].Err? ==> r.Ok? || r == Err(NoSuchKey))
      && (r.Err? && results[primary] != Err(NoSuchKey) ==> FailedBefore(results, |results|))
      && (r.Ok? && results[primary].Err? ==>
            exists i :: 0 <= i < |results| && r == results[i] && FailedBefore(results, i))
    case BestEffort =>
      exists k :: 0 <= k < |order| && r == results[order[k]]
                  && (r.Ok? || r == Err(NoSuchKey) || k == |order| - 1)
                  && forall j :: 0 <= j < k ==> results[order[j]].Err? && results[order[j]] != Err(NoSuchKey)
    case AllConsistent =>
      && (r.Ok? <==>
            && (forall i :: 0 <= i < |results| ==> results[i].Ok?)
            && (forall i :: 0 <= i < |results| ==> etagIn(results[i].value) == etagIn(results[primary].value)))
      && (r.Ok? ==> r == results[primary])
      && (r.Err? ==> r.error.InternalError?)
  }

  lemma AnswerOutcome<T>(mode: ReadMode, results: seq<Result<T>>, primary: nat, order: seq<nat>, etagIn: T -> string)
    requires primary < |results| && IsOrder(order, |results|)
    ensures Outcome(mode, results, primary, order, etagIn, ReadAnswer(mode, results, primary, order, etagIn))
  {
    match mode
    case PrimaryOnly =>
    case PrimaryFallback => FallbackOutcome(results, primary, IsNoSuchKey, NoSuchKey);
    case BestEffort => var _ := RaceOutcome(results, order, IsNoSuchKey, NoSuchKey);
    case AllConsistent =>
  }

  method GetObject<T>(mode: ReadMode, results: seq<Result<T>>, primary: nat, order: seq<nat>, etagIn: T -> string)
    returns (r: Result<T>)
    requires primary < |results| && IsOrder(order, |results|)
    ensures r == ReadAnswer(mode, results, primary, order, etagIn)
    ensures Outcome(mode, results, primary, order, etagIn, r)
  {
    AnswerOutcome(mode, results, primary, order, etagIn);
    match mode {
      case PrimaryOnly => r := results[primary];
      case PrimaryFallback => r := TryPrimaryFallback(results, primary, IsNoSuchKey, NoSuchKey);
      case BestEffort => r := RaceAllBackends(results, order, IsNoSuchKey, NoSuchKey);
      case AllConsistent => r := VerifyAllConsistentEtag(results, primary, etagIn);
    }
  }

  /** HEAD's own fallback, written out where GET uses the helper. */
  function HeadPrimaryFallback(results: seq<Result<ObjectMetadata>>, primary: nat): Result<ObjectMetadata>
    requires primary < |results|
  {
    match results[primary]
    case Ok(metadata) => Ok(metadata)
    case Err(NoSuchKey) => Err(NoSuchKey)
    case Err(_) => HeadOthers(results, AllBut(|results|, primary))
  }

  function HeadOthers(results: seq<Result<ObjectMetadata>>, others: seq<nat>): Result<ObjectMetadata>
    requires forall i :: 0 <= i < |others| ==> others[i] < |results|
  {
    if others == [] then Err(NoSuchKey)
    else
      match results[others[0]]
      case Ok(metadata) => Ok(metadata)
      case Err(_) => HeadOthers(results, others[1..])
  }

  lemma {:induction false} HeadOthersIsFirstOk(results: seq<Result<ObjectMetadata>>, others: seq<nat>)
    requires forall i :: 0 <= i < |others| ==> others[i] < |results|
    ensures HeadOthers(results, others) == FirstOk(results, others, NoSuchKey)
  {
    if others != [] {
      HeadOthersIsFirstOk(results, others[1..]);
    }
  }

  method HeadObject(mode: ReadMode, results: seq<Result<ObjectMetadata>>, primary: nat, order: seq<nat>)
    returns (r: Result<ObjectMetadata>)
    requires primary < |results| && IsOrder(order, |results|)
    ensures r == ReadAnswer(mode, results, primary, order, ETAG_OF_METADATA)
    ensures Outcome(mode, results, primary, order, ETAG_OF_METADATA, r)
    ensures mode.AllConsistent? && r.Ok? ==>
              forall i :: 0 <= i < |results| ==> results[i].Ok? && results[i].value.etag == r.value.etag
  {
    AnswerOutcome(mode, results, primary, order, ETAG_OF_METADATA);
    match mode {
      case PrimaryOnly => r := results[primary];
      case PrimaryFallback =>
        HeadOthersIsFirstOk(results, AllBut(|results|, primary));
        r := HeadPrimaryFallback(results, primary);
      case BestEffort => r := RaceAllBackends(results, order, IsNoSuchKey, NoSuchKey);
      case AllConsistent => r := VerifyAllConsistentEtag(results, primary, ETAG_OF_METADATA);
    }
  }

  // ---------------------------------------------------------------- agreement of GET and HEAD

  /** All backends answer, with one ETag: every mode returns some backend's answer. */
  lemma AllAnswer<T>(mode: ReadMode, results: seq<Result<T>>, primary: nat, order: seq<nat>, etagIn: T -> string)
    requires primary < |results| && IsOrder(order, |results|)
    requires OneEtag(results, primary, etagIn)
    ensures ReadAnswer(mode, results, primary, order, etagIn) in results
  {
    RaceFinds(results, order, IsNoSuchKey, NoSuchKey);
  }

  /** No backend has the key: only the all-consistent mode does not say so. */
  lemma NoneHasKey<T>(mode: ReadMode, results: seq<Result<T>>, primary: nat, order: seq<nat>, etagIn: T -> string)
    requires primary < |results| && IsOrder(order, |results|)
    requires forall i :: 0 <= i < |results| ==> results[i] == Err(NoSuchKey)
    ensures ReadAnswer(mode, results, primary, order, etagIn) ==
            if mode.AllConsistent? then Err(InternalError(OnlySomeSucceeded(0, |results|))) else Err(NoSuchKey)
  {
    NoSuccess(results);
  }

  lemma {:induction false} NoSuccess<T>(results: seq<Result<T>>)
    requires forall i :: 0 <= i < |results| ==> results[i].Err?
    ensures Successes(results) == 0
  {
    if results != [] {
      NoSuccess(results[..|results| - 1]);
    }
  }

  /** What an in-memory backend answers to a GET; a HEAD answers with the metadata of it. */
  function GetFrom(store: Store, key: string): Result<StoredObject> {
    if key in store then Ok(store[key]) else Err(NoSuchKey)
  }

  function HeadFrom(store: Store, key: string): Result<ObjectMetadata> {
    if key in store then Ok(store[key].metadata) else Err(NoSuchKey)
  }

  function GetAll(stores: seq<Store>, key: string): (r: seq<Result<StoredObject>>)
    ensures |r| == |stores| && forall i :: 0 <= i < |r| ==> r[i] == GetFrom(stores[i], key)
  {
    seq(|stores|, i requires 0 <= i < |stores| => GetFrom(stores[i], key))
  }

  function HeadAll(stores: seq<Store>, key: string): (r: seq<Result<ObjectMetadata>>)
    ensures |r| == |stores| && forall i :: 0 <= i < |r| ==> r[i] == HeadFrom(stores[i], key)
  {
    seq(|stores|, i requires 0 <= i < |stores| => HeadFrom(stores[i], key))
  }

  /** In-memory stores that hold the same data under the key. */
  ghost predicate AgreeOn(etagOf: EtagFunction, stores: seq<Store>, key: string) {
    && (forall i :: 0 <= i < |stores| ==> WellFormed(etagOf, stores[i]))
    && (forall i, j :: 0 <= i < |stores| && 0 <= j < |stores| ==> DataAt(stores[i], key) == DataAt(stores[j], key))
  }

  /**
   When the replicas agree on a key and none fails, every read mode, in every completion order, gives the
   same object up to its time stamp; for an absent key all modes but one say NoSuchKey.
   */
  lemma ReadModesAgree(etagOf: EtagFunction, stores: seq<Store>, key: string, mode: ReadMode,
                       primary: nat, order: seq<nat>)
    requires AgreeOn(etagOf, stores, key) && primary < |stores| && IsOrder(order, |stores|)
    ensures var get := ReadAnswer(mode, GetAll(stores, key), primary, order, ETAG_OF_OBJECT);
            var head := ReadAnswer(mode, HeadAll(stores, key), primary, order, ETAG_OF_METADATA);
            if key in stores[primary] then
              && get.Ok? && get.value.data == stores[primary][key].data
              && Timeless(get.value.metadata) == Timeless(stores[primary][key].metadata)
              && head.Ok? && Timeless(head.value) == Timeless(stores[primary][key].metadata)
            else
              && get == (if mode.AllConsistent? then Err(InternalError(OnlySomeSucceeded(0, |stores|))) else Err(NoSuchKey))
              && head == (if mode.AllConsistent? then Err(InternalError(OnlySomeSucceeded(0, |stores|))) else Err(NoSuchKey))
  {
    var gets, heads := GetAll(stores, key), HeadAll(stores, key);
    forall i | 0 <= i < |stores|
      ensures key in stores[i] <==> key in stores[primary]
      ensures key in stores[i] ==>
                && stores[i][key].data == stores[primary][key].data
                && Timeless(stores[i][key].metadata) == Timeless(stores[primary][key].metadata)
    {
      assert DataAt(stores[i], key) == DataAt(stores[primary], key);
      SameUpToTime(etagOf, stores[i], stores[primary], key);
    }
    if key in stores[primary] {
      AllAnswer(mode, gets, primary, order, ETAG_OF_OBJECT);
      AllAnswer(mode, heads, primary, order, ETAG_OF_METADATA);
    } else {
      NoneHasKey(mode, gets, primary, order, ETAG_OF_OBJECT);
      NoneHasKey(mode, heads, primary, order, ETAG_OF_METADATA);
    }
  }

  /**
   All-consistent GET detects every divergence: with ETags that tell data apart, it succeeds if and
   only if every backend answers and they all hold the same data.
   */
  lemma AllConsistentDetectsDivergence(etagOf: EtagFunction, results: seq<Result<StoredObject>>,
                                       primary: nat, order: seq<nat>)
    requires Injective(etagOf) && primary < |results| && IsOrder(order, |results|)
    requires forall i :: 0 <= i < |results| && results[i].Ok? ==>
               results[i].value.metadata.etag == etagOf(results[i].value.data)
    ensures ReadAnswer(AllConsistent, results, primary, order, ETAG_OF_OBJECT).Ok? <==>
              && (forall i :: 0 <= i < |results| ==> results[i].Ok?)
              && (forall i :: 0 <= i < |results| ==> results[i].value.data == results[primary].value.data)
  {
    if OneEtag(results, primary, ETAG_OF_OBJECT) {
      forall i | 0 <= i < |results| ensures results[i].value.data == results[primary].value.data {
        assert ETAG_OF_OBJECT(results[i].value) == ETAG_OF_OBJECT(results[primary].value);
      }
    }
  }

  /**
   MULTI_SYNC with any read mode behaves as one map: in every reachable state, failures included, a GET
   of a key that has no operation in progress and is not dirty, and whose operations did not overlap,
   answers with what the reference map holds under it, in every mode and completion order. What goes on
   on other keys does not matter.
   */
  lemma MultiSyncReadsReference(etagOf: EtagFunction, s0: MultiSync.State, trace: seq<MultiSync.Action>,
                                key: string, mode: ReadMode, primary: nat, order: seq<nat>)
    requires MultiSync.Fresh(etagOf, s0, key) && primary < |s0.stores| && IsOrder(order, |s0.stores|)
    requires MultiSync.Runs(etagOf, s0, trace) && MultiSync.DisciplinedRun(etagOf, s0, trace, key)
    requires var s := MultiSync.After(etagOf, s0, trace);
             (forall o: nat :: !MultiSync.Active(s, o, key)) && key !in s.dirty
    ensures var s := MultiSync.After(etagOf, s0, trace);
            && |s.stores| == |s0.stores|
            && var get := ReadAnswer(mode, GetAll(s.stores, key), primary, order, ETAG_OF_OBJECT);
               var head := ReadAnswer(mode, HeadAll(s.stores, key), primary, order, ETAG_OF_METADATA);
               && (key in s.reference ==>
                     && get.Ok? && get.value.data == s.reference[key]
                     && head.Ok? && head.value.etag == etagOf(s.reference[key]))
               && (key !in s.reference ==>
                     var absent := if mode.AllConsistent? then InternalError(OnlySomeSucceeded(0, |s.stores|))
                                   else NoSuchKey;
                     get == Err(absent) && head == Err(absent))
  {
    var s := MultiSync.After(etagOf, s0, trace);
    MultiSync.ShapeAfter(etagOf, s0, |s0.stores|, trace);
    forall i | 0 <= i < |s.stores| ensures DataAt(s.stores[i], key) == Lookup(s.reference, key) {
      MultiSync.ReplicasFollowReference(etagOf, s0, trace, key, i);
    }
    ReadModesAgree(etagOf, s.stores, key, mode, primary, order);
  }

  // ---------------------------------------------------------------- LIST

  type Listing = ListConsistency.Listing

  /** The answer of LIST: any error of the primary leads to the others, and no error is decisive. */
  ghost predicate ListAnswers(mode: ReadMode, results: seq<Result<Listing>>, primary: nat, order: seq<nat>,
                              r: Result<Listing>)
    requires primary < |results| && IsOrder(order, |results|)
  {
    match mode
    case PrimaryOnly => r == results[primary]
    case PrimaryFallback =>
      r == TryPrimaryFallback(results, primary, NeverNotFound, InternalError(AllBackendsFailed))
    case BestEffort => r == RaceAnswer(results, order, NeverNotFound, InternalError(AllBackendsFailed))
    case AllConsistent =>
      && (r.Ok? <==> ListConsistency.AllMatch(results, primary))
      && (r.Ok? ==> r == results[primary])
      && (r.Err? ==> r.error.InternalError?)
  }

  /**
   What a caller of LIST can rely on. Fallback: any error of the primary leads to the first backend that
   lists. Race: the first completion that lists, or else the last one's error. All consistent: the
   primary's listing if and only if every backend lists as many objects, each with the ETag that the
   primary has for its key; otherwise an error that says which backend failed or what is wrong first.
   */
  ghost predicate ListOutcome(mode: ReadMode, results: seq<Result<Listing>>, primary: nat, order: seq<nat>,
                              r: Result<Listing>)
    requires primary < |results| && IsOrder(order, |results|)
  {
    match mode
    case PrimaryOnly => r == results[primary]
    case PrimaryFallback =>
      && (results[primary].Ok? ==> r == results[primary])
      && (r.Ok? && results[primary].Err? ==>
            exists i :: 0 <= i < |results| && r == results[i] && FailedBefore(results, i))
      && (r.Err? ==> r == Err(InternalError(AllBackendsFailed)) && FailedBefore(results, |results|))
    case BestEffort =>
      exists k :: 0 <= k < |order| && r == results[order[k]] && (r.Ok? || k == |order| - 1)
                  && forall j :: 0 <= j < k ==> results[order[j]].Err?
    case AllConsistent =>
      && (r.Ok? <==> ListConsistency.AllMatch(results, primary))
      && (r.Ok? ==> r == results[primary])
      && (r.Err? ==>
            && r.error.InternalError?
            && ((exists i :: 0 <= i < |results| && r.error.cause == BackendFailed(i) && results[i].Err?
                             && forall j :: 0 <= j < i ==> results[j].Ok?)
                || ((forall i :: 0 <= i < |results| ==> results[i].Ok?)
                    && exists i :: 0 <= i < |results| && i != primary
                                   && ListConsistency.IsMismatch(results[i].value, results[primary].value,
                                                                 r.error.cause))))
  }

  lemma {:induction false} FirstFailed(results: seq<Result<Listing>>, i: nat) returns (f: nat)
    requires i < |results| && results[i].Err?
    ensures f < |results| && results[f].Err? && forall j :: 0 <= j < f ==> results[j].Ok?
  {
    f := i;
    if j: nat :| j < i && results[j].Err? {
      f := FirstFailed(results, j);
    }
  }

  method ListObjects(mode: ReadMode, results: seq<Result<Listing>>, primary: nat, order: seq<nat>)
    returns (r: Result<Listing>)
    requires primary < |results| && IsOrder(order, |results|)
    ensures ListAnswers(mode, results, primary, order, r)
    ensures ListOutcome(mode, results, primary, order, r)
  {
    match mode {
      case PrimaryOnly => r := results[primary];
      case PrimaryFallback =>
        FallbackOutcome(results, primary, NeverNotFound, InternalError(AllBackendsFailed));
        r := results[primary];
        if r.Err? {
          r := FirstOk(results, AllBut(|results|, primary), InternalError(AllBackendsFailed));
        }
      case BestEffort =>
        var _ := RaceOutcome(results, order, NeverNotFound, InternalError(AllBackendsFailed));
        r := RaceAllBackends(results, order, NeverNotFound, InternalError(AllBackendsFailed));
      case AllConsistent =>
        r := ListConsistency.ListAllConsistent(results, primary);
        if i: nat :| i < |results| && results[i].Err? {
          var _ := FirstFailed(results, i);
        }
    }
  }

  ghost predicate SameEntries(a: Listing, b: Listing) {
    |a| == |b| && forall i :: 0 <= i < |a| ==> Timeless(a[i]) == Timeless(b[i])
  }

  lemma SameEntriesConsistent(a: Listing, b: Listing)
    requires SameEntries(a, b) && ListConsistency.DistinctKeys(b)
    ensures ListConsistency.Consistent(a, b)
  {
    forall o | o in a
      ensures o.key in ListConsistency.EtagMap(b) && ListConsistency.EtagMap(b)[o.key] == o.etag
    {
      var i :| 0 <= i < |a| && a[i] == o;
      assert Timeless(a[i]) == Timeless(b[i]);
      ListConsistency.EtagMapAt(b, i);
    }
  }

  lemma SameResultsAnswer(results: seq<Result<Listing>>, mode: ReadMode, primary: nat, order: seq<nat>,
                          r: Result<Listing>)
    requires primary < |results| && IsOrder(order, |results|) && ListAnswers(mode, results, primary, order, r)
    requires forall i :: 0 <= i < |results| ==> results[i].Ok?
    requires forall i :: 0 <= i < |results| ==> SameEntries(results[i].value, results[primary].value)
    requires ListConsistency.DistinctKeys(results[primary].value)
    ensures r.Ok? && SameEntries(r.value, results[primary].value)
  {
    forall i | 0 <= i < |results| ensures ListConsistency.Consistent(results[i].value, results[primary].value) {
      SameEntriesConsistent(results[i].value, results[primary].value);
    }
    RaceFinds(results, order, NeverNotFound, InternalError(AllBackendsFailed));
    assert r in results;
  }

  /**
   When the replicas agree under the prefix and none fails, every mode, in every completion order,
   answers LIST with the same keys and ETags in the same order, however the hash maps are iterated.
   */
  lemma ListModesAgree(etagOf: EtagFunction, stores: seq<Store>, prefix: Option<string>, maxKeys: int,
                       lists: seq<Listing>, mode: ReadMode, primary: nat, order: seq<nat>, r: Result<Listing>)
    requires |lists| == |stores| && primary < |stores| && IsOrder(order, |stores|)
    requires forall i :: 0 <= i < |stores| ==>
               WellFormed(etagOf, stores[i]) && SameUnder(prefix, stores[i], stores[primary])
    requires forall i :: 0 <= i < |stores| ==> IsListing(stores[i], prefix, lists[i])
    requires ListAnswers(mode, seq(|stores|, i requires 0 <= i < |stores| => Ok(Truncate(lists[i], maxKeys))),
                         primary, order, r)
    ensures r.Ok? && SameEntries(r.value, Truncate(lists[primary], maxKeys))
  {
    var results := seq(|stores|, i requires 0 <= i < |stores| => Ok(Truncate(lists[i], maxKeys)));
    forall i | 0 <= i < |stores| ensures SameEntries(results[i].value, results[primary].value) {
      ListingsAgree(etagOf, stores[i], stores[primary], prefix, lists[i], lists[primary], maxKeys);
    }
    SameResultsAnswer(results, mode, primary, order, r);
  }
}
