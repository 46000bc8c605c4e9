/** A stable sort by a comparison, as the standard library's sort_by is specified. */
module Sorting {

  ghost predicate TotalPreorder<T(!new)>(le: (T, T) -> bool) {
    && (forall a, b :: le(a, b) || le(b, a))
    && (forall a, b, c :: le(a, b) && le(b, c) ==> le(a, c))
  }

  ghost predicate TotalOrder<T(!new)>(le: (T, T) -> bool) {
    TotalPreorder(le) && forall a, b :: le(a, b) && le(b, a) ==> a == b
  }

  ghost predicate Sorted<T>(xs: seq<T>, le: (T, T) -> bool) {
    forall i, j :: 0 <= i < j < |xs| ==> le(xs[i], xs[j])
  }

  function Insert<T>(x: T, xs: seq<T>, le: (T, T) -> bool): seq<T> {
    if xs == [] || le(x, xs[0]) then [x] + xs else [xs[0]] + Insert(x, xs[1..], le)
  }

  function Sort<T>(xs: seq<T>, le: (T, T) -> bool): seq<T> {
    if xs == [] then [] else Insert(xs[0], Sort(xs[1..], le), le)
  }

  lemma {:induction false} InsertPermutes<T>(x: T, xs: seq<T>, le: (T, T) -> bool)
    ensures multiset(Insert(x, xs, le)) == multiset([x] + xs)
  {
    if xs != [] && !le(x, xs[0]) {
      InsertPermutes(x, xs[1..], le);
      assert [x] + xs == [x] + ([xs[0]] + xs[1..]);
    }
  }

  lemma {:induction false} SortPermutes<T>(xs: seq<T>, le: (T, T) -> bool)
    ensures multiset(Sort(xs, le)) == multiset(xs)
    ensures |Sort(xs, le)| == |xs|
  {
    if xs != [] {
      SortPermutes(xs[1..], le);
      InsertPermutes(xs[0], Sort(xs[1..], le), le);
      assert xs == [xs[0]] + xs[1..];
    }
    assert |Sort(xs, le)| == |multiset(Sort(xs, le))| == |multiset(xs)| == |xs|;
  }

  lemma SortSameElements<T>(xs: seq<T>, le: (T, T) -> bool, x: T)
    ensures x in Sort(xs, le) <==> x in xs
  {
    SortPermutes(xs, le);
    assert x in Sort(xs, le) <==> x in multiset(Sort(xs, le));
    assert x in xs <==> x in multiset(xs);
  }

  lemma {:induction false} InsertSorts<T(!new)>(x: T, xs: seq<T>, le: (T, T) -> bool)
    requires TotalPreorder(le) && Sorted(xs, le)
    ensures Sorted(Insert(x, xs, le), le)
  {
    if xs != [] && !le(x, xs[0]) {
      var rest := Insert(x, xs[1..], le);
      InsertSorts(x, xs[1..], le);
      InsertPermutes(x, xs[1..], le);
      forall k | 0 <= k < |rest| ensures le(xs[0], rest[k]) {
        assert rest[k] in multiset(rest);
        assert rest[k] in multiset([x] + xs[1..]);
        assert rest[k] in [x] + xs[1..];
      }
    }
  }

  lemma {:induction false} SortSorts<T(!new)>(xs: seq<T>, le: (T, T) -> bool)
    requires TotalPreorder(le)
    ensures Sorted(Sort(xs, le), le)
  {
    if xs != [] {
      SortSorts(xs[1..], le);
      InsertSorts(xs[0], Sort(xs[1..], le), le);
    }
  }

  lemma HeadIsLeast<T(!new)>(xs: seq<T>, le: (T, T) -> bool, x: T)
    requires TotalOrder(le) && Sorted(xs, le) && x in multiset(xs)
    ensures xs != [] && le(xs[0], x)
  {
    var i :| 0 <= i < |xs| && xs[i] == x;
    assert le(x, x);
  }

  lemma DropHead<T>(xs: seq<T>)
    requires xs != []
    ensures multiset(xs[1..]) == multiset(xs) - multiset{xs[0]}
  {
    assert xs == [xs[0]] + xs[1..];
  }

  /** Under a total order a multiset has just one sorted arrangement. */
  lemma {:induction false} SortedUnique<T(!new)>(xs: seq<T>, ys: seq<T>, le: (T, T) -> bool)
    requires TotalOrder(le) && Sorted(xs, le) && Sorted(ys, le)
    requires multiset(xs) == multiset(ys)
    ensures xs == ys
  {
    assert |xs| == |multiset(xs)| == |multiset(ys)| == |ys|;
    if xs != [] {
      HeadIsLeast(ys, le, xs[0]);
      HeadIsLeast(xs, le, ys[0]);
      DropHead(xs);
      DropHead(ys);
      SortedUnique(xs[1..], ys[1..], le);
      assert xs == [xs[0]] + xs[1..] && ys == [ys[0]] + ys[1..];
    }
  }

  lemma SortOfSorted<T(!new)>(xs: seq<T>, le: (T, T) -> bool)
    requires TotalOrder(le) && Sorted(xs, le)
    ensures Sort(xs, le) == xs
  {
    SortPermutes(xs, le);
    SortSorts(xs, le);
    SortedUnique(Sort(xs, le), xs, le);
  }

  /** Two sequences sort to the same result exactly when they hold the same elements. */
  lemma SortsAgree<T(!new)>(xs: seq<T>, ys: seq<T>, le: (T, T) -> bool)
    requires TotalOrder(le)
    ensures Sort(xs, le) == Sort(ys, le) <==> multiset(xs) == multiset(ys)
  {
    SortPermutes(xs, le);
    SortPermutes(ys, le);
    if multiset(xs) == multiset(ys) {
      SortSorts(xs, le);
      SortSorts(ys, le);
      SortedUnique(Sort(xs, le), Sort(ys, le), le);
    }
  }

  // ---------------------------------------------------------------- stability

  /** The elements that compare equal to v, in their order. */
  function EqualTo<T>(xs: seq<T>, v: T, le: (T, T) -> bool): seq<T> {
    if xs == [] then []
    else (if le(xs[0], v) && le(v, xs[0]) then [xs[0]] else []) + EqualTo(xs[1..], v, le)
  }

  lemma {:induction false} InsertStable<T(!new)>(x: T, xs: seq<T>, v: T, le: (T, T) -> bool)
    requires TotalPreorder(le)
    ensures EqualTo(Insert(x, xs, le), v, le) == EqualTo([x] + xs, v, le)
  {
    assert ([x] + xs)[1..] == xs;
    if xs != [] && !le(x, xs[0]) {
      InsertStable(x, xs[1..], v, le);
      assert ([x] + xs[1..])[1..] == xs[1..];
      assert Insert(x, xs, le)[1..] == Insert(x, xs[1..], le);
    }
  }

  /** The sort is stable: equal elements keep their order. */
  lemma {:induction false} SortStable<T(!new)>(xs: seq<T>, v: T, le: (T, T) -> bool)
    requires TotalPreorder(le)
    ensures EqualTo(Sort(xs, le), v, le) == EqualTo(xs, v, le)
  {
    if xs != [] {
      SortStable(xs[1..], v, le);
      InsertStable(xs[0], Sort(xs[1..], le), v, le);
      assert ([xs[0]] + Sort(xs[1..], le))[1..] == Sort(xs[1..], le);
    }
  }
}
