/** Choosing the primary: the backend with the lowest median latency of its benchmark requests. */
module PrimaryByLatency {
  import opened Types
  import opened Sorting

  predicate NatLe(a: nat, b: nat) {
    a <= b
  }

  /** A backend and its median; no median if all its requests failed. */
  datatype Candidate = Candidate(backend: nat, p50: Option<nat>)

  /** The comparison of the final sort: a median before none, a lower one before a higher one. */
  predicate Faster(a: Candidate, b: Candidate) {
    match (a.p50, b.p50)
    case (Some(x), Some(y)) => x <= y
    case (Some(_), None) => true
    case (None, Some(_)) => false
    case (None, None) => true
  }

  function Median(samples: seq<nat>): nat
    requires samples != []
  {
    SortPermutes(samples, NatLe);
    Sort(samples, NatLe)[|samples| / 2]
  }

  function P50(samples: seq<nat>): Option<nat> {
    if samples == [] then None else Some(Median(samples))
  }

  /** The latencies of the requests that succeeded. */
  function Samples(responses: seq<Option<nat>>): seq<nat> {
    if responses == [] then []
    else Samples(responses[..|responses| - 1])
         + (var last := responses[|responses| - 1]; if last.Some? then [last.value] else [])
  }

  function Candidates(responses: seq<seq<Option<nat>>>): (r: seq<Candidate>)
    ensures |r| == |responses|
    ensures forall i :: 0 <= i < |r| ==> r[i] == Candidate(i, P50Of(responses, i))
  {
    seq(|responses|, i requires 0 <= i < |responses| => Candidate(i, P50Of(responses, i)))
  }

  // ---------------------------------------------------------------- the median is an order statistic

  function Below(xs: seq<nat>, v: nat): nat {
    if xs == [] then 0 else (if xs[0] < v then 1 else 0) + Below(xs[1..], v)
  }

  function UpTo(xs: seq<nat>, v: nat): nat {
    if xs == [] then 0 else (if xs[0] <= v then 1 else 0) + UpTo(xs[1..], v)
  }

  lemma {:induction false} InsertCounts(x: nat, xs: seq<nat>, v: nat)
    ensures Below(Insert(x, xs, NatLe), v) == Below([x] + xs, v)
    ensures UpTo(Insert(x, xs, NatLe), v) == UpTo([x] + xs, v)
  {
    assert ([x] + xs)[1..] == xs;
    if xs != [] && !NatLe(x, xs[0]) {
      InsertCounts(x, xs[1..], v);
      assert ([x] + xs[1..])[1..] == xs[1..];
      assert Insert(x, xs, NatLe)[1..] == Insert(x, xs[1..], NatLe);
    }
  }

  lemma {:induction false} SortCounts(xs: seq<nat>, v: nat)
    ensures Below(Sort(xs, NatLe), v) == Below(xs, v) && UpTo(Sort(xs, NatLe), v) == UpTo(xs, v)
  {
    if xs != [] {
      SortCounts(xs[1..], v);
      InsertCounts(xs[0], Sort(xs[1..], NatLe), v);
      assert ([xs[0]] + Sort(xs[1..], NatLe))[1..] == Sort(xs[1..], NatLe);
    }
  }

  lemma {:induction false} SortedCounts(xs: seq<nat>, k: nat)
    requires Sorted(xs, NatLe) && k < |xs|
    ensures Below(xs, xs[k]) <= k < UpTo(xs, xs[k])
  {
    if k > 0 {
      SortedCounts(xs[1..], k - 1);
      assert NatLe(xs[0], xs[k]);
    } else {
      NoneBelow(xs, xs[0]);
    }
  }

  lemma {:induction false} NoneBelow(xs: seq<nat>, v: nat)
    requires forall i :: 0 <= i < |xs| ==> v <= xs[i] || NatLe(v, xs[i])
    ensures Below(xs, v) == 0
  {
    if xs != [] {
      NoneBelow(xs[1..], v);
    }
  }

  lemma {:induction false} CountsGrow(xs: seq<nat>, v: nat, w: nat)
    requires v < w
    ensures UpTo(xs, v) <= Below(xs, w)
  {
    if xs != [] {
      CountsGrow(xs[1..], v, w);
    }
  }

  /** The p50 is a sample, and it is the only number with at most half below and more up to it. */
  lemma MedianByCounting(samples: seq<nat>, v: nat)
    requires samples != []
    ensures Median(samples) in samples
    ensures Below(samples, v) <= |samples| / 2 < UpTo(samples, v) <==> v == Median(samples)
  {
    var sorted, m := Sort(samples, NatLe), Median(samples);
    SortPermutes(samples, NatLe);
    SortSorts(samples, NatLe);
    SortedCounts(sorted, |samples| / 2);
    SortCounts(samples, m);
    SortSameElements<nat>(samples, NatLe, m);
    if v < m {
      CountsGrow(samples, v, m);
    } else if m < v {
      CountsGrow(samples, m, v);
    }
  }

  // ---------------------------------------------------------------- the choice

  /**
   v is the p50 of a backend's requests: it is the latency of one that succeeded, and of those that
   succeeded at most half, rounded down, were faster and more than that were not slower.
   */
  ghost predicate IsP50(responses: seq<Option<nat>>, v: nat) {
    && Some(v) in responses
    && |set k: nat | k < |responses| && responses[k].Some? && responses[k].value < v|
       <= |set k: nat | k < |responses| && responses[k].Some?| / 2
       < |set k: nat | k < |responses| && responses[k].Some? && responses[k].value <= v|
  }

  lemma CountsAppend(xs: seq<nat>, y: nat, v: nat)
    ensures Below(xs + [y], v) == Below(xs, v) + if y < v then 1 else 0
    ensures UpTo(xs + [y], v) == UpTo(xs, v) + if y <= v then 1 else 0
  {
    if xs != [] {
      CountsAppend(xs[1..], y, v);
      assert (xs + [y])[1..] == xs[1..] + [y];
    } else {
      assert ([y])[1..] == [];
      assert xs + [y] == [y];
    }
  }

  // The samples are the latencies of the successful requests, each as often as it was measured.

  lemma {:induction false} SampleSize(responses: seq<Option<nat>>)
    ensures |Samples(responses)| == |set k: nat | k < |responses| && responses[k].Some?|
  {
    if responses != [] {
      var init, last := responses[..|responses| - 1], responses[|responses| - 1];
      SampleSize(init);
      var before := set k: nat | k < |init| && init[k].Some?;
      var all := set k: nat | k < |responses| && responses[k].Some?;
      assert all == before + if last.Some? then {|init|} else {};
    }
  }

  lemma {:induction false} SampleBelow(responses: seq<Option<nat>>, v: nat)
    ensures Below(Samples(responses), v) == |set k: nat | k < |responses| && responses[k].Some? && responses[k].value < v|
  {
    if responses != [] {
      var init, last := responses[..|responses| - 1], responses[|responses| - 1];
      SampleBelow(init, v);
      if last.Some? {
        CountsAppend(Samples(init), last.value, v);
      } else {
        assert Samples(init) + [] == Samples(init);
      }
      var before := set k: nat | k < |init| && init[k].Some? && init[k].value < v;
      var all := set k: nat | k < |responses| && responses[k].Some? && responses[k].value < v;
      assert all == before + if last.Some? && last.value < v then {|init|} else {};
    }
  }

  lemma {:induction false} SampleUpTo(responses: seq<Option<nat>>, v: nat)
    ensures UpTo(Samples(responses), v) == |set k: nat | k < |responses| && responses[k].Some? && responses[k].value <= v|
  {
    if responses != [] {
      var init, last := responses[..|responses| - 1], responses[|responses| - 1];
      SampleUpTo(init, v);
      if last.Some? {
        CountsAppend(Samples(init), last.value, v);
      } else {
        assert Samples(init) + [] == Samples(init);
      }
      var before := set k: nat | k < |init| && init[k].Some? && init[k].value <= v;
      var all := set k: nat | k < |responses| && responses[k].Some? && responses[k].value <= v;
      assert all == before + if last.Some? && last.value <= v then {|init|} else {};
    }
  }

  lemma MultisetAppend(xs: seq<nat>, ys: seq<nat>, v: nat)
    ensures multiset(xs + ys)[v] == multiset(xs)[v] + multiset(ys)[v]
  {
  }

  lemma OneMore(last: Option<nat>, v: nat)
    ensures multiset(if last.Some? then [last.value] else [])[v] == if last == Some(v) then 1 else 0
  {
  }

  lemma MultiplicityStep(init: seq<Option<nat>>, last: Option<nat>, v: nat)
    ensures |set k: nat | k < |init + [last]| && (init + [last])[k] == Some(v)| ==
            |set k: nat | k < |init| && init[k] == Some(v)| + if last == Some(v) then 1 else 0
  {
    var before := set k: nat | k < |init| && init[k] == Some(v);
    var all := set k: nat | k < |init + [last]| && (init + [last])[k] == Some(v);
    assert all == before + if last == Some(v) then {|init|} else {};
  }

  lemma {:induction false} SampleMultiplicity(responses: seq<Option<nat>>, v: nat)
    ensures multiset(Samples(responses))[v] == |set k: nat | k < |responses| && responses[k] == Some(v)|
  {
    if responses != [] {
      var init, last := responses[..|responses| - 1], responses[|responses| - 1];
      SampleMultiplicity(init, v);
      MultiplicityStep(init, last, v);
      assert init + [last] == responses;
      MultisetAppend(Samples(init), if last.Some? then [last.value] else [], v);
      OneMore(last, v);
    }
  }

  lemma {:induction false} SampleMember(responses: seq<Option<nat>>, v: nat)
    ensures v in Samples(responses) <==> Some(v) in responses
  {
    if responses != [] {
      SampleMember(responses[..|responses| - 1], v);
    }
  }

  /** A backend has a p50 if and only if one of its requests succeeded, and then just one. */
  lemma P50Exactly(responses: seq<Option<nat>>)
    ensures P50(Samples(responses)).Some? <==> exists k :: 0 <= k < |responses| && responses[k].Some?
    ensures forall v: nat :: P50(Samples(responses)) == Some(v) <==> IsP50(responses, v)
  {
    var samples := Samples(responses);
    forall v: nat ensures P50(samples) == Some(v) <==> IsP50(responses, v) {
      P50At(responses, v);
    }
    if k :| 0 <= k < |responses| && responses[k].Some? {
      SampleMember(responses, responses[k].value);
    }
    if samples != [] {
      SampleMember(responses, samples[0]);
    }
  }

  lemma P50At(responses: seq<Option<nat>>, v: nat)
    ensures P50(Samples(responses)) == Some(v) <==> IsP50(responses, v)
  {
    SampleSize(responses);
    SampleBelow(responses, v);
    SampleUpTo(responses, v);
    SampleMember(responses, v);
    if Samples(responses) != [] {
      MedianByCounting(Samples(responses), v);
    }
  }

  /**
   The result of the choice: 0 if no request to any backend succeeded, else the first of the backends
   with the lowest p50.
   */
  ghost predicate IsChoice(responses: seq<seq<Option<nat>>>, best: nat) {
    && best < |responses|
    && ((forall i, k :: 0 <= i < |responses| && 0 <= k < |responses[i]| ==> responses[i][k].None?) ==> best == 0)
    && (forall i, k :: 0 <= i < |responses| && 0 <= k < |responses[i]| && responses[i][k].Some? ==>
          exists u: nat, v: nat ::
            IsP50(responses[best], u) && IsP50(responses[i], v) && u <= v && (i < best ==> u < v))
  }

  function P50Of(responses: seq<seq<Option<nat>>>, i: nat): Option<nat>
    requires i < |responses|
  {
    P50(Samples(responses[i]))
  }

  lemma FasterIsPreorder()
    ensures TotalPreorder(Faster)
  {
  }

  lemma {:induction false} FirstEqual(xs: seq<Candidate>, v: Candidate) returns (i: nat)
    requires EqualTo(xs, v, Faster) != []
    ensures i < |xs| && xs[i] == EqualTo(xs, v, Faster)[0]
    ensures forall j :: 0 <= j < i ==> !(Faster(xs[j], v) && Faster(v, xs[j]))
  {
    if Faster(xs[0], v) && Faster(v, xs[0]) {
      i := 0;
    } else {
      var k := FirstEqual(xs[1..], v);
      i := k + 1;
    }
  }

  /** The head of the sorted candidates comes before or with all of them, and first of its equals. */
  lemma SortedHead(candidates: seq<Candidate>) returns (first: nat)
    requires candidates != []
    ensures first < |candidates| == |Sort(candidates, Faster)|
    ensures candidates[first] == Sort(candidates, Faster)[0]
    ensures forall i :: 0 <= i < |candidates| ==> Faster(candidates[first], candidates[i])
    ensures forall i :: 0 <= i < first ==> !Faster(candidates[i], candidates[first])
  {
    var sorted := Sort(candidates, Faster);
    FasterIsPreorder();
    SortPermutes(candidates, Faster);
    SortSorts(candidates, Faster);
    SortStable(candidates, sorted[0], Faster);
    first := FirstEqual(candidates, sorted[0]);
    forall i | 0 <= i < |candidates| ensures Faster(sorted[0], candidates[i]) {
      SortSameElements(candidates, Faster, candidates[i]);
      var k :| 0 <= k < |sorted| && sorted[k] == candidates[i];
    }
  }

  lemma SortedHeadIsChoice(responses: seq<seq<Option<nat>>>)
    requires responses != []
    ensures |Sort(Candidates(responses), Faster)| == |responses|
    ensures var head := Sort(Candidates(responses), Faster)[0];
            IsChoice(responses, if head.p50.Some? then head.backend else 0)
  {
    var candidates := Candidates(responses);
    var first := SortedHead(candidates);
    forall i | 0 <= i < |responses|
      ensures candidates[i] == Candidate(i, P50Of(responses, i)) && Faster(candidates[first], candidates[i])
      ensures i < first ==> !Faster(candidates[i], candidates[first])
    {
    }
    FirstIsChoice(responses, first);
  }

  lemma FirstIsChoice(responses: seq<seq<Option<nat>>>, first: nat)
    requires first < |responses|
    requires forall i :: 0 <= i < |responses| && P50Of(responses, i).Some? ==>
               && P50Of(responses, first).Some?
               && P50Of(responses, first).value <= P50Of(responses, i).value
               && (i < first ==> P50Of(responses, first).value < P50Of(responses, i).value)
    ensures IsChoice(responses, if P50Of(responses, first).Some? then first else 0)
  {
    P50Exactly(responses[first]);
    var best := if P50Of(responses, first).Some? then first else 0;
    forall i, k | 0 <= i < |responses| && 0 <= k < |responses[i]| && responses[i][k].Some?
      ensures exists u: nat, v: nat ::
                IsP50(responses[best], u) && IsP50(responses[i], v) && u <= v && (i < best ==> u < v)
    {
      P50Exactly(responses[i]);
      var u, v := P50Of(responses, first).value, P50Of(responses, i).value;
      assert IsP50(responses[first], u) && IsP50(responses[i], v);
    }
  }

  method MedianOf(samples: seq<nat>) returns (p50: Option<nat>)
    ensures p50 == P50(samples)
  {
    if samples == [] {
      return None;
    }
    var latencies := Sort(samples, NatLe);
    SortPermutes(samples, NatLe);
    p50 := Some(latencies[|latencies| / 2]);
  }

  method Collect(responses: seq<Option<nat>>) returns (latencies: seq<nat>)
    ensures latencies == Samples(responses)
    ensures forall v :: multiset(latencies)[v] == |set k: nat | k < |responses| && responses[k] == Some(v)|
  {
    forall v: nat ensures multiset(Samples(responses))[v] == |set k: nat | k < |responses| && responses[k] == Some(v)| {
      SampleMultiplicity(responses, v);
    }
    latencies := [];
    for k := 0 to |responses|
      invariant latencies == Samples(responses[..k])
    {
      assert responses[..k + 1][..k] == responses[..k];
      match responses[k] {
        case Some(latency) => latencies := latencies + [latency];
        case None =>
      }
    }
    assert responses[..|responses|] == responses;
  }

  /** From the answers to the benchmark requests of each backend to the index of the primary. */
  method DeterminePrimaryByLatency(responses: seq<seq<Option<nat>>>) returns (best: nat)
    requires responses != []
    ensures IsChoice(responses, best)
  {
    var latenciesOf: seq<seq<nat>> := [];
    for i := 0 to |responses|
      invariant |latenciesOf| == i
      invariant forall j :: 0 <= j < i ==> latenciesOf[j] == Samples(responses[j])
    {
      var latencies := Collect(responses[i]);
      latenciesOf := latenciesOf + [latencies];
    }
    var p50s: seq<Candidate> := [];
    for i := 0 to |latenciesOf|
      invariant |p50s| == i
      invariant forall j :: 0 <= j < i ==> p50s[j] == Candidate(j, P50Of(responses, j))
    {
      var p50 := MedianOf(latenciesOf[i]);
      p50s := p50s + [Candidate(i, p50)];
    }
    assert p50s == Candidates(responses);
    SortedHeadIsChoice(responses);
    p50s := Sort(p50s, Faster);
    best := if p50s[0].p50.Some? then p50s[0].backend else 0;
  }
}
