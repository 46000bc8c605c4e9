/** The canonical query string of AWS Signature Version 4. */
module CanonicalQuery {
  import opened Sorting
  import opened Strings

  type Param = (string, string)

  /** One parameter: the name ends at the first '='; without one the value is empty. */
  function ParseParam(s: string): Param {
    match SplitOnce(s, '=')
    case Some(pair) => pair
    case None => (s, "")
  }

  function ParseAll(parts: seq<string>): (r: seq<Param>)
    ensures |r| == |parts| && forall i :: 0 <= i < |r| ==> r[i] == ParseParam(parts[i])
  {
    seq(|parts|, i requires 0 <= i < |parts| => ParseParam(parts[i]))
  }

  /** The parameters of a query string; the empty one has none. */
  function Params(query: string): seq<Param> {
    if query == "" then [] else ParseAll(Split(query, '&'))
  }

  /** By name, then by value. */
  predicate ParamLe(a: Param, b: Param) {
    if a.0 == b.0 then LexLe(a.1, b.1) else LexLe(a.0, b.0)
  }

  function Show(p: Param): string {
    p.0 + "=" + p.1
  }

  function ShowAll(params: seq<Param>): (r: seq<string>)
    ensures |r| == |params| && forall i :: 0 <= i < |r| ==> r[i] == Show(params[i])
  {
    seq(|params|, i requires 0 <= i < |params| => Show(params[i]))
  }

  function Canonical(query: string): string {
    Join(ShowAll(Sort(Params(query), ParamLe)), "&")
  }

  /**
   The parts of the result are those of the query, each with a '=' added if it has none, in ascending order
   by name and then by value; the empty query has no parts. The result holds the query's own parameters,
   sorted, and is the one string that prints them.
   */
  method CanonicalizeQueryString(query: string) returns (r: string)
    ensures r == Canonical(query)
    ensures query == "" <==> r == ""
    ensures query != "" ==> multiset(Split(r, '&')) == multiset(Completed(Split(query, '&')))
    ensures query != "" ==>
              forall i, j :: 0 <= i < j < |Split(r, '&')| ==>
                var x, y := SplitOnce(Split(r, '&')[i], '='), SplitOnce(Split(r, '&')[j], '=');
                && x.Some? && y.Some?
                && if x.value.0 == y.value.0 then x.value.1 == y.value.1 || Precedes(x.value.1, y.value.1)
                   else Precedes(x.value.0, y.value.0)
    ensures Params(r) == Sort(Params(query), ParamLe) && Sorted(Params(r), ParamLe)
    ensures multiset(Params(r)) == multiset(Params(query))
    ensures forall q :: Canonical(q) == r <==> multiset(Params(q)) == multiset(Params(query))
  {
    SameCanonical(query);
    if query != "" {
      PartsOfCanonical(query);
      OrderOfCanonical(query);
    }
    if query == "" {
      return "";
    }
    var params := ParseAll(Split(query, '&'));
    params := Sort(params, ParamLe);
    r := Join(ShowAll(params), "&");
  }

  // ---------------------------------------------------------------- the order is total

  lemma ParamLeIsTotalOrder()
    ensures TotalOrder(ParamLe)
  {
    forall a: Param, b: Param ensures ParamLe(a, b) || ParamLe(b, a) {
      LexLeTotal(a.0, b.0);
      LexLeTotal(a.1, b.1);
    }
    forall a: Param, b: Param, c: Param | ParamLe(a, b) && ParamLe(b, c) ensures ParamLe(a, c) {
      ParamLeTransitive(a, b, c);
    }
    forall a: Param, b: Param | ParamLe(a, b) && ParamLe(b, a) ensures a == b {
      if a.0 == b.0 {
        LexLeAntisymmetric(a.1, b.1);
      } else {
        LexLeAntisymmetric(a.0, b.0);
      }
    }
  }

  lemma ParamLeTransitive(a: Param, b: Param, c: Param)
    requires ParamLe(a, b) && ParamLe(b, c)
    ensures ParamLe(a, c)
  {
    if a.0 == b.0 == c.0 {
      LexLeTransitive(a.1, b.1, c.1);
    } else if a.0 == c.0 {
      LexLeAntisymmetric(a.0, b.0);
    } else if a.0 != b.0 && b.0 != c.0 {
      LexLeTransitive(a.0, b.0, c.0);
    }
  }

  // ---------------------------------------------------------------- printing and parsing

  /** No '&' in it, and no '=' in the name: what parsing yields. */
  ghost predicate Proper(p: Param) {
    '&' !in p.0 && '=' !in p.0 && '&' !in p.1
  }

  lemma ParsedIsProper(query: string, i: nat)
    requires i < |Params(query)|
    ensures Proper(Params(query)[i])
  {
    JoinOfSplit(query, '&');
    SplitOnceRebuilds(Split(query, '&')[i], '=');
  }

  lemma ParamsOfShown(params: seq<Param>)
    requires forall i :: 0 <= i < |params| ==> Proper(params[i])
    ensures Params(Join(ShowAll(params), "&")) == params
  {
    if params != [] {
      var parts := ShowAll(params);
      forall i | 0 <= i < |params| ensures '&' !in parts[i] && ParseParam(parts[i]) == params[i] {
        SplitOnceOfPair(params[i].0, params[i].1, '=');
      }
      SplitOfJoin(parts, '&');
      JoinNonEmpty(parts);
    }
  }

  lemma JoinNonEmpty(parts: seq<string>)
    requires parts != [] && parts[0] != ""
    ensures Join(parts, "&") != ""
  {
  }

  /** A part is shown with a '=', added at its end if there was none. */
  function Completed(parts: seq<string>): (r: seq<string>)
    ensures |r| == |parts|
    ensures forall i :: 0 <= i < |r| ==> r[i] == if '=' in parts[i] then parts[i] else parts[i] + "="
  {
    seq(|parts|, i requires 0 <= i < |parts| => var part := parts[i]; if '=' in part then part else part + "=")
  }

  lemma ShownIsCompleted(parts: seq<string>)
    ensures ShowAll(ParseAll(parts)) == Completed(parts)
  {
    forall i | 0 <= i < |parts| ensures Show(ParseParam(parts[i])) == Completed(parts)[i] {
      SplitOnceRebuilds(parts[i], '=');
    }
  }

  lemma ShowAppend(a: seq<Param>, b: seq<Param>)
    ensures ShowAll(a + b) == ShowAll(a) + ShowAll(b)
  {
  }

  lemma MultisetAround<T>(a: seq<T>, x: T, b: seq<T>)
    ensures multiset(a + [x] + b) == multiset(a + b) + multiset{x}
  {
  }

  lemma ShowAround(a: seq<Param>, p: Param, b: seq<Param>)
    ensures multiset(ShowAll(a + [p] + b)) == multiset(ShowAll(a + b)) + multiset{Show(p)}
    ensures multiset(a + [p] + b) == multiset(a + b) + multiset{p}
  {
    ShowAppend(a + [p], b);
    ShowAppend(a, [p]);
    ShowAppend(a, b);
    assert ShowAll([p]) == [Show(p)];
    MultisetAround(ShowAll(a), Show(p), ShowAll(b));
    MultisetAround(a, p, b);
  }

  lemma TakeOut(p: Param, xs: seq<Param>, ys: seq<Param>) returns (before: seq<Param>, after: seq<Param>)
    requires multiset([p] + xs) == multiset(ys)
    ensures ys == before + [p] + after && multiset(xs) == multiset(before + after)
  {
    assert p in multiset([p] + xs);
    var j :| 0 <= j < |ys| && ys[j] == p;
    before, after := ys[..j], ys[j + 1..];
    assert ys == before + [p] + after;
    ShowAround(before, p, after);
    assert multiset([p] + xs) - multiset{p} == multiset(xs);
  }

  lemma {:induction false} ShowPermutes(xs: seq<Param>, ys: seq<Param>)
    requires multiset(xs) == multiset(ys)
    ensures multiset(ShowAll(xs)) == multiset(ShowAll(ys))
    decreases |xs|
  {
    if xs == [] {
      assert |ys| == |multiset(ys)| == 0;
    } else {
      assert xs == [xs[0]] + xs[1..];
      var before, after := TakeOut(xs[0], xs[1..], ys);
      ShowAround(before, xs[0], after);
      ShowAround([], xs[0], xs[1..]);
      assert [] + [xs[0]] + xs[1..] == xs && [] + xs[1..] == xs[1..];
      ShowPermutes(xs[1..], before + after);
    }
  }

  lemma SplitCanonical(query: string)
    requires query != ""
    ensures Canonical(query) != "" && Split(Canonical(query), '&') == ShowAll(Sort(Params(query), ParamLe))
  {
    var params := Params(query);
    var sorted := Sort(params, ParamLe);
    SortPermutes(params, ParamLe);
    var parts := ShowAll(sorted);
    forall i | 0 <= i < |sorted| ensures '&' !in parts[i] {
      SortSameElements(params, ParamLe, sorted[i]);
      var k :| 0 <= k < |params| && params[k] == sorted[i];
      ParsedIsProper(query, k);
    }
    SplitOfJoin(parts, '&');
    JoinNonEmpty(parts);
  }

  lemma PartsOfCanonical(query: string)
    requires query != ""
    ensures Canonical(query) != ""
    ensures multiset(Split(Canonical(query), '&')) == multiset(Completed(Split(query, '&')))
  {
    var params := Params(query);
    SplitCanonical(query);
    SortPermutes(params, ParamLe);
    ShowPermutes(Sort(params, ParamLe), params);
    ShownIsCompleted(Split(query, '&'));
  }

  lemma OrderOfCanonical(query: string)
    requires query != ""
    ensures var parts := Split(Canonical(query), '&');
            forall i, j :: 0 <= i < j < |parts| ==>
              var x, y := SplitOnce(parts[i], '='), SplitOnce(parts[j], '=');
              && x.Some? && y.Some?
              && if x.value.0 == y.value.0 then x.value.1 == y.value.1 || Precedes(x.value.1, y.value.1)
                 else Precedes(x.value.0, y.value.0)
  {
    var params := Params(query);
    var sorted := Sort(params, ParamLe);
    SplitCanonical(query);
    ParamLeIsTotalOrder();
    SortSorts(params, ParamLe);
    forall i | 0 <= i < |sorted| ensures SplitOnce(Show(sorted[i]), '=').Some? && SplitOnce(Show(sorted[i]), '=').value == sorted[i] {
      SortSameElements(params, ParamLe, sorted[i]);
      var k :| 0 <= k < |params| && params[k] == sorted[i];
      ParsedIsProper(query, k);
      SplitOnceOfPair(sorted[i].0, sorted[i].1, '=');
    }
    forall i, j | 0 <= i < j < |sorted|
      ensures if sorted[i].0 == sorted[j].0 then sorted[i].1 == sorted[j].1 || Precedes(sorted[i].1, sorted[j].1)
              else Precedes(sorted[i].0, sorted[j].0)
    {
      assert ParamLe(sorted[i], sorted[j]);
      LexLeIsPrecedes(sorted[i].0, sorted[j].0);
      LexLeIsPrecedes(sorted[i].1, sorted[j].1);
    }
  }

  /** The canonical form lists the same parameters, sorted. */
  lemma ParamsOfCanonical(query: string)
    ensures Params(Canonical(query)) == Sort(Params(query), ParamLe)
  {
    var params := Params(query);
    var sorted := Sort(params, ParamLe);
    forall i | 0 <= i < |sorted| ensures Proper(sorted[i]) {
      SortSameElements(params, ParamLe, sorted[i]);
      var k :| 0 <= k < |params| && params[k] == sorted[i];
      ParsedIsProper(query, k);
    }
    ParamsOfShown(sorted);
  }

  /** Two query strings are canonically equal if and only if they have the same parameters as multisets. */
  lemma CanonicalIffSameParams(q: string, r: string)
    ensures Canonical(q) == Canonical(r) <==> multiset(Params(q)) == multiset(Params(r))
  {
    ParamsOfCanonical(q);
    ParamsOfCanonical(r);
    ParamLeIsTotalOrder();
    SortsAgree(Params(q), Params(r), ParamLe);
  }

  lemma SameCanonical(query: string)
    ensures Params(Canonical(query)) == Sort(Params(query), ParamLe) && Sorted(Params(Canonical(query)), ParamLe)
    ensures multiset(Params(Canonical(query))) == multiset(Params(query))
    ensures forall q :: Canonical(q) == Canonical(query) <==> multiset(Params(q)) == multiset(Params(query))
  {
    ParamsOfCanonical(query);
    ParamLeIsTotalOrder();
    SortPermutes(Params(query), ParamLe);
    SortSorts(Params(query), ParamLe);
    forall q ensures Canonical(q) == Canonical(query) <==> multiset(Params(q)) == multiset(Params(query)) {
      CanonicalIffSameParams(q, query);
    }
  }

  /** Canonicalising is idempotent, for every string. */
  lemma CanonicalIdempotent(query: string)
    ensures Canonical(Canonical(query)) == Canonical(query)
  {
    ParamsOfCanonical(query);
    ParamLeIsTotalOrder();
    SortSorts(Params(query), ParamLe);
    SortOfSorted(Sort(Params(query), ParamLe), ParamLe);
  }
}
