/** Facts about sequences that several modules share. */
module Sequences {
  import opened Types

  function Concat(chunks: seq<Bytes>): Bytes {
    if chunks == [] then [] else Concat(chunks[..|chunks| - 1]) + chunks[|chunks| - 1]
  }

  lemma ConcatOne(c: Bytes)
    ensures Concat([c]) == c
  {
    assert [c][..0] == [];
    assert Concat([]) == [];
  }

  /** Nothing is lost, doubled or reordered, however the data is cut into chunks. */
  lemma {:induction false} ConcatAppend(a: seq<Bytes>, b: seq<Bytes>)
    ensures Concat(a + b) == Concat(a) + Concat(b)
    decreases |b|
  {
    if b == [] {
      assert a + b == a;
    } else {
      var init, last := b[..|b| - 1], b[|b| - 1];
      ConcatAppend(a, init);
      assert (a + b)[..|a + b| - 1] == a + init;
    }
  }

  ghost predicate Distinct<T>(xs: seq<T>) {
    forall i, j :: 0 <= i < j < |xs| ==> xs[i] != xs[j]
  }

  function Elements<T>(xs: seq<T>): set<T> {
    set x | x in xs
  }

  lemma {:induction false} DistinctCardinality<T>(xs: seq<T>)
    requires Distinct(xs)
    ensures |Elements(xs)| == |xs|
  {
    if xs != [] {
      var init, last := xs[..|xs| - 1], xs[|xs| - 1];
      DistinctCardinality(init);
      assert Elements(xs) == Elements(init) + {last};
      assert last !in init;
    }
  }

  lemma SubsetOfEqualSize<T>(a: set<T>, b: set<T>)
    requires a <= b && |a| == |b|
    ensures a == b
  {
    assert b == a + (b - a);
    assert |b| == |a| + |b - a|;
  }

  /** A completion order of n tasks. */
  ghost predicate IsOrder(order: seq<nat>, n: nat) {
    |order| == n && Distinct(order) && forall i :: 0 <= i < n ==> order[i] < n
  }

  function Range(n: nat): (r: seq<nat>)
    ensures |r| == n && forall i :: 0 <= i < n ==> r[i] == i
  {
    seq(n, i => i)
  }

  /** Pigeonhole: n distinct numbers below n are all the numbers below n. */
  lemma OrderIsOnto(order: seq<nat>, n: nat, x: nat)
    requires IsOrder(order, n) && x < n
    ensures x in order
  {
    DistinctCardinality(order);
    DistinctCardinality(Range(n));
    assert Elements(order) <= Elements(Range(n)) by {
      forall y | y in order ensures y in Range(n) {
        assert Range(n)[y] == y;
      }
    }
    SubsetOfEqualSize(Elements(order), Elements(Range(n)));
    assert Range(n)[x] == x;
    assert x in Elements(Range(n));
    assert x in Elements(order);
  }

  function AllBut(n: nat, x: nat): (r: seq<nat>)
    requires x < n
    ensures |r| == n - 1
    ensures forall i :: 0 <= i < n - 1 ==> r[i] == if i < x then i else i + 1
  {
    seq(n - 1, i => if i < x then i else i + 1)
  }
}
