/**
 The helpers behind the read modes. Each takes the result that the operation has on each backend,
 by backend index; the race also takes the order in which the backends complete.
 */
module ReadHelpers {
  import opened Types
  import opened Sequences

  // ---------------------------------------------------------------- primary, then the others

  /** The first success among the backends listed, or the default error. */
  function FirstOk<T>(results: seq<Result<T>>, order: seq<nat>, default: S3Error): Result<T>
    requires forall i :: 0 <= i < |order| ==> order[i] < |results|
  {
    if order == [] then Err(default)
    else if results[order[0]].Ok? then results[order[0]]
    else FirstOk(results, order[1..], default)
  }

  function TryPrimaryFallback<T>(results: seq<Result<T>>, primary: nat,
                                 isNotFound: S3Error -> bool, notFound: S3Error): Result<T>
    requires primary < |results|
  {
    match results[primary]
    case Ok(v) => Ok(v)
    case Err(e) =>
      if isNotFound(e) then Err(e)
      else FirstOk(results, AllBut(|results|, primary), notFound)
  }

  lemma {:induction false} FirstOkFinds<T>(results: seq<Result<T>>, order: seq<nat>, default: S3Error)
    requires forall i :: 0 <= i < |order| ==> order[i] < |results|
    ensures var r := FirstOk(results, order, default);
            && (r.Err? ==> r == Err(default) && forall i :: 0 <= i < |order| ==> results[order[i]].Err?)
            && (r.Ok? ==> exists i :: 0 <= i < |order| && r == results[order[i]]
                                      && forall j :: 0 <= j < i ==> results[order[j]].Err?)
  {
    if order != [] && results[order[0]].Err? {
      var rest := order[1..];
      FirstOkFinds(results, rest, default);
      if FirstOk(results, rest, default).Ok? {
        var i :| 0 <= i < |rest| && FirstOk(results, rest, default) == results[rest[i]]
                 && forall j :: 0 <= j < i ==> results[rest[j]].Err?;
        assert order[i + 1] == rest[i];
        forall j | 0 <= j < i + 1 ensures results[order[j]].Err? {
          assert j > 0 ==> order[j] == rest[j - 1];
        }
      } else {
        forall i | 0 <= i < |order| ensures results[order[i]].Err? {
          assert i > 0 ==> order[i] == rest[i - 1];
        }
      }
    }
  }

  /**
   Only a real error of the primary leads to another backend, and then to the first one by index
   that succeeds; the others' errors are never returned.
   */
  lemma FallbackOutcome<T>(results: seq<Result<T>>, primary: nat, isNotFound: S3Error -> bool, notFound: S3Error)
    requires primary < |results|
    ensures var r := TryPrimaryFallback(results, primary, isNotFound, notFound);
            if results[primary].Ok? || isNotFound(results[primary].error) then r == results[primary]
            else if forall i :: 0 <= i < |results| ==> results[i].Err? then r == Err(notFound)
            else exists i :: 0 <= i < |results| && results[i].Ok? && r == results[i]
                             && forall j :: 0 <= j < i ==> results[j].Err?
  {
    var order := AllBut(|results|, primary);
    FirstOkFinds(results, order, notFound);
    if results[primary].Err? && !isNotFound(results[primary].error) {
      if FirstOk(results, order, notFound).Ok? {
        var i :| 0 <= i < |order| && FirstOk(results, order, notFound) == results[order[i]]
                 && forall j :: 0 <= j < i ==> results[order[j]].Err?;
        forall j | 0 <= j < order[i] ensures results[j].Err? {
          assert j < primary ==> order[j] == j;
          assert j > primary ==> order[j - 1] == j;
        }
      } else {
        forall i | 0 <= i < |results| ensures results[i].Err? {
          assert i < primary ==> order[i] == i;
          assert i > primary ==> order[i - 1] == i;
        }
      }
    }
  }

  // ---------------------------------------------------------------- the race

  predicate Decisive<T>(r: Result<T>, isNotFound: S3Error -> bool) {
    r.Ok? || isNotFound(r.error)
  }

  function RaceAnswer<T>(results: seq<Result<T>>, order: seq<nat>, isNotFound: S3Error -> bool,
                         notFound: S3Error): Result<T>
    requires forall i :: 0 <= i < |order| ==> order[i] < |results|
  {
    if order == [] then Err(notFound)
    else if Decisive(results[order[0]], isNotFound) || |order| == 1 then results[order[0]]
    else RaceAnswer(results, order[1..], isNotFound, notFound)
  }

  /** The first completion that is a success or says not found, or else the last one, an error. */
  lemma {:induction false} RaceOutcome<T>(results: seq<Result<T>>, order: seq<nat>, isNotFound: S3Error -> bool,
                                          notFound: S3Error)
    returns (k: nat)
    requires order != [] && forall i :: 0 <= i < |order| ==> order[i] < |results|
    ensures var r := RaceAnswer(results, order, isNotFound, notFound);
            && k < |order| && r == results[order[k]]
            && (r.Ok? || isNotFound(r.error) || k == |order| - 1)
            && forall j :: 0 <= j < k ==> results[order[j]].Err? && !isNotFound(results[order[j]].error)
  {
    k := 0;
    if !Decisive(results[order[0]], isNotFound) && |order| > 1 {
      var rest := order[1..];
      var m := RaceOutcome(results, rest, isNotFound, notFound);
      k := m + 1;
      forall j | 0 <= j < k ensures results[order[j]].Err? && !isNotFound(results[order[j]].error) {
        assert j > 0 ==> order[j] == rest[j - 1];
      }
    }
  }

  /**
   Drains the completions until a success or a not-found answer. A not-found answer that completes first
   is the result, even if another backend has the object.
   */
  method RaceAllBackends<T>(results: seq<Result<T>>, order: seq<nat>, isNotFound: S3Error -> bool,
                            notFound: S3Error)
    returns (r: Result<T>)
    requires IsOrder(order, |results|)
    ensures r == RaceAnswer(results, order, isNotFound, notFound)
    ensures results == [] ==> r == Err(notFound)
    ensures results != [] ==>
              exists k :: 0 <= k < |order| && r == results[order[k]]
                          && (r.Ok? || isNotFound(r.error) || k == |order| - 1)
                          && forall j :: 0 <= j < k ==> results[order[j]].Err? && !isNotFound(results[order[j]].error)
  {
    if order != [] {
      var _ := RaceOutcome(results, order, isNotFound, notFound);
    }
    var lastError: Option<S3Error> := None;
    var i := 0;
    while i < |order|
      invariant 0 <= i <= |order|
      invariant i == 0 ==> lastError == None
      invariant i > 0 ==> lastError.Some? && results[order[i - 1]] == Err(lastError.value)
      invariant RaceAnswer(results, order, isNotFound, notFound) ==
                if i < |order| then RaceAnswer(results, order[i..], isNotFound, notFound)
                else Err(if lastError.Some? then lastError.value else notFound)
    {
      assert order[i..][1..] == order[i + 1..];
      match results[order[i]] {
        case Ok(data) =>
          return Ok(data);
        case Err(e) =>
          if isNotFound(e) {
            return Err(e);
          }
          lastError := Some(e);
      }
      i := i + 1;
    }
    r := Err(if lastError.Some? then lastError.value else notFound);
  }

  /** The answers a race can have: the successes and not-founds if there are any, or else any backend's error. */
  ghost predicate Possible<T>(results: seq<Result<T>>, isNotFound: S3Error -> bool, notFound: S3Error, r: Result<T>) {
    if results == [] then r == Err(notFound)
    else if exists i :: 0 <= i < |results| && (results[i].Ok? || isNotFound(results[i].error)) then
      r in results && (r.Ok? || isNotFound(r.error))
    else r in results
  }

  lemma {:induction false} RaceFinds<T>(results: seq<Result<T>>, order: seq<nat>, isNotFound: S3Error -> bool,
                                        notFound: S3Error)
    requires order != [] && forall i :: 0 <= i < |order| ==> order[i] < |results|
    ensures var r := RaceAnswer(results, order, isNotFound, notFound);
            && r in results
            && (Decisive(r, isNotFound) <==> exists i :: 0 <= i < |order| && Decisive(results[order[i]], isNotFound))
            && (!Decisive(r, isNotFound) ==> r == results[order[|order| - 1]])
  {
    if !Decisive(results[order[0]], isNotFound) && |order| > 1 {
      var rest := order[1..];
      RaceFinds(results, rest, isNotFound, notFound);
      if exists i :: 0 <= i < |order| && Decisive(results[order[i]], isNotFound) {
        var i :| 0 <= i < |order| && Decisive(results[order[i]], isNotFound);
        assert rest[i - 1] == order[i];
      }
    }
  }

  lemma {:induction false} RaceLast<T>(results: seq<Result<T>>, order: seq<nat>, isNotFound: S3Error -> bool,
                                       notFound: S3Error)
    requires order != [] && forall i :: 0 <= i < |order| ==> order[i] < |results|
    requires forall i :: 0 <= i < |order| ==> !Decisive(results[order[i]], isNotFound)
    ensures RaceAnswer(results, order, isNotFound, notFound) == results[order[|order| - 1]]
  {
    if |order| > 1 {
      RaceLast(results, order[1..], isNotFound, notFound);
    }
  }

  /** Over all completion orders the possible answers are exactly these. */
  lemma RaceExactly<T>(results: seq<Result<T>>, isNotFound: S3Error -> bool, notFound: S3Error, r: Result<T>)
    ensures (exists order :: IsOrder(order, |results|) && RaceAnswer(results, order, isNotFound, notFound) == r)
            <==> Possible(results, isNotFound, notFound, r)
  {
    var n := |results|;
    if order :| IsOrder(order, n) && RaceAnswer(results, order, isNotFound, notFound) == r {
      if n > 0 {
        RaceFinds(results, order, isNotFound, notFound);
        if i :| 0 <= i < n && Decisive(results[i], isNotFound) {
          OrderIsOnto(order, n, i);
          var k :| 0 <= k < |order| && order[k] == i;
          assert Decisive(results[order[k]], isNotFound);
        }
      }
    }
    if Possible(results, isNotFound, notFound, r) {
      if n == 0 {
        assert IsOrder([], n) && RaceAnswer(results, [], isNotFound, notFound) == r;
      } else {
        var i :| 0 <= i < n && results[i] == r;
        if Decisive(r, isNotFound) {
          var order := [i] + AllBut(n, i);
          assert IsOrder(order, n) && RaceAnswer(results, order, isNotFound, notFound) == r;
        } else {
          var order := AllBut(n, i) + [i];
          assert IsOrder(order, n);
          RaceLast(results, order, isNotFound, notFound);
        }
      }
    }
  }

  // ---------------------------------------------------------------- all consistent

  function Successes<T>(results: seq<Result<T>>): nat {
    if results == [] then 0
    else Successes(results[..|results| - 1]) + if results[|results| - 1].Ok? then 1 else 0
  }

  lemma {:induction false} AllSucceed<T>(results: seq<Result<T>>)
    ensures Successes(results) == |set i | 0 <= i < |results| && results[i].Ok?| <= |results|
    ensures Successes(results) == |results| <==> forall i :: 0 <= i < |results| ==> results[i].Ok?
  {
    if results != [] {
      var init := results[..|results| - 1];
      AllSucceed(init);
      var before, all := set i | 0 <= i < |init| && init[i].Ok?, set i | 0 <= i < |results| && results[i].Ok?;
      assert all == before + if results[|init|].Ok? then {|init|} else {};
    }
  }

  /** All backends succeeded and returned one ETag. */
  ghost predicate OneEtag<T>(results: seq<Result<T>>, primary: nat, etagIn: T -> string)
    requires primary < |results|
  {
    && (forall i :: 0 <= i < |results| ==> results[i].Ok?)
    && (forall i :: 0 <= i < |results| ==> etagIn(results[i].value) == etagIn(results[primary].value))
  }

  /**
   Ok exactly when all backends returned one ETag, and then the primary's own result; otherwise an
   internal error, also when every backend says that there is no such key.
   */
  method VerifyAllConsistentEtag<T>(results: seq<Result<T>>, primary: nat, etagIn: T -> string)
    returns (r: Result<T>)
    requires primary < |results|
    ensures r.Ok? <==> OneEtag(results, primary, etagIn)
    ensures r.Ok? ==> r == results[primary]
    ensures r.Err? ==> r.error == InternalError(
              if Successes(results) < |results| then OnlySomeSucceeded(Successes(results), |results|) else EtagMismatch)
  {
    AllSucceed(results);
    var successful: seq<(nat, T)> := [];
    for i := 0 to |results|
      invariant |successful| == Successes(results[..i]) <= i
      invariant |successful| == i ==>
                  forall j :: 0 <= j < i ==> results[j] == Ok(successful[j].1) && successful[j].0 == j
      invariant |successful| < i ==> exists j :: 0 <= j < i && results[j].Err?
    {
      assert results[..i + 1][..i] == results[..i];
      match results[i] {
        case Ok(data) => successful := successful + [(i, data)];
        case Err(_) =>
      }
    }
    assert results[..|results|] == results;
    if |successful| != |results| {
      return Err(InternalError(OnlySomeSucceeded(|successful|, |results|)));
    }
    var primaryEtag := etagIn(successful[primary].1);
    for i := 0 to |successful|
      invariant forall j :: 0 <= j < i ==> etagIn(successful[j].1) == primaryEtag
    {
      if etagIn(successful[i].1) != primaryEtag {
        assert etagIn(results[i].value) != etagIn(results[primary].value);
        return Err(InternalError(EtagMismatch));
      }
    }
    r := Ok(successful[primary].1);
  }

  /** Ok exactly when all succeed, with the primary's result: the final unwrap cannot fail. */
  method VerifyAllSucceed<T>(results: seq<Result<T>>, primary: nat) returns (r: Result<T>)
    requires primary < |results|
    ensures r.Ok? <==> forall i :: 0 <= i < |results| ==> results[i].Ok?
    ensures r.Ok? ==> r == results[primary]
    ensures r.Err? ==> exists i :: 0 <= i < |results| && r.error == InternalError(BackendFailed(i))
                                   && results[i].Err? && forall j :: 0 <= j < i ==> results[j].Ok?
  {
    var primaryResult: Option<T> := None;
    for i := 0 to |results|
      invariant forall j :: 0 <= j < i ==> results[j].Ok?
      invariant primaryResult == if primary < i then Some(results[primary].value) else None
    {
      match results[i] {
        case Ok(data) =>
          if i == primary {
            primaryResult := Some(data);
          }
        case Err(_) =>
          return Err(InternalError(BackendFailed(i)));
      }
    }
    r := Ok(primaryResult.value);
  }
}
