/**
  Facts about sequences used throughout the model: absence of duplicates,
  first occurrences, order-preserving de-duplication, and subsequences.
 */
module Sequences {

  /** No element occurs twice in `xs`. */
  predicate NoDups<T(==)>(xs: seq<T>) {
    forall i, j :: 0 <= i < j < |xs| ==> xs[i] != xs[j]
  }

  /** Position of the first occurrence of `x` in `xs`. */
  function FirstIndex<T(==)>(xs: seq<T>, x: T): (i: nat)
    requires x in xs
    ensures i < |xs| && xs[i] == x
    ensures x !in xs[..i]
  {
    if xs[0] == x then 0
    else
      var i' := FirstIndex(xs[1..], x);
      assert xs[..1 + i'] == [xs[0]] + xs[1..][..i'];
      1 + i'
  }

  /** An element of a prefix has the same first occurrence in the prefix as in the whole. */
  lemma FirstIndexPrefix<T>(xs: seq<T>, n: nat, x: T)
    requires n <= |xs| && x in xs[..n]
    ensures FirstIndex(xs, x) == FirstIndex(xs[..n], x)
  {
    var i := FirstIndex(xs[..n], x);
    assert xs[..n][..i] == xs[..i];
  }

  /**
    The elements of `xs` with repetitions dropped, each one kept at its first
    occurrence. This is the order in which Python's insertion-ordered `dict`
    presents its keys, and the order in which the model lets SQL `DISTINCT`
    return values.
   */
  function Distinct<T(==)>(xs: seq<T>): (d: seq<T>)
    ensures NoDups(d)
    ensures forall k :: 0 <= k < |d| ==> d[k] in xs
    ensures forall k :: 0 <= k < |xs| ==> xs[k] in d
  {
    if |xs| == 0 then []
    else
      var d := Distinct(xs[..|xs| - 1]);
      if xs[|xs| - 1] in d then d else d + [xs[|xs| - 1]]
  }

  /** The elements of `d` occur in `xs` in the order of their first occurrences there. */
  predicate InFirstOccurrenceOrder<T(==)>(xs: seq<T>, d: seq<T>)
    requires forall k :: 0 <= k < |d| ==> d[k] in xs
  {
    forall i, j :: 0 <= i < j < |d| ==> FirstIndex(xs, d[i]) < FirstIndex(xs, d[j])
  }

  /** Appending an element moves no earlier first occurrence, and a new element occurs first at the end. */
  lemma FirstIndexAppend<T>(xs: seq<T>, x: T, y: T)
    requires y in xs + [x]
    ensures y in xs ==> FirstIndex(xs + [x], y) == FirstIndex(xs, y) < |xs|
    ensures y !in xs ==> FirstIndex(xs + [x], y) == |xs|
  {
    if y in xs {
      assert (xs + [x])[..|xs|] == xs;
      FirstIndexPrefix(xs + [x], |xs|, y);
    }
  }

  /** `Distinct` lists the kept elements in the order of their first occurrences. */
  lemma {:induction false} DistinctKeepsFirstOccurrenceOrder<T>(xs: seq<T>)
    ensures InFirstOccurrenceOrder(xs, Distinct(xs))
  {
    if |xs| > 0 {
      var init := xs[..|xs| - 1];
      var last := xs[|xs| - 1];
      assert xs == init + [last];
      var d := Distinct(init);
      DistinctKeepsFirstOccurrenceOrder(init);
      var r := Distinct(xs);
      forall i, j | 0 <= i < j < |r| ensures FirstIndex(xs, r[i]) < FirstIndex(xs, r[j]) {
        FirstIndexAppend(init, last, r[i]);
        FirstIndexAppend(init, last, r[j]);
        assert r[i] == d[i];
        if j < |d| {
          assert r[j] == d[j];
        }
      }
    }
  }

  /** `xs` can be obtained from `ys` by deleting elements, keeping order. */
  predicate IsSubsequence<T(==)>(xs: seq<T>, ys: seq<T>)
    decreases |ys|
  {
    if |xs| == 0 then true
    else if |ys| == 0 then false
    else (xs[0] == ys[0] && IsSubsequence(xs[1..], ys[1..])) || IsSubsequence(xs, ys[1..])
  }

  /** Every element of a subsequence is an element of the whole. */
  lemma {:induction false} SubsequenceElements<T>(xs: seq<T>, ys: seq<T>)
    requires IsSubsequence(xs, ys)
    ensures forall x :: x in xs ==> x in ys
    decreases |ys|
  {
    if |xs| == 0 {
    } else if xs[0] == ys[0] && IsSubsequence(xs[1..], ys[1..]) {
      SubsequenceElements(xs[1..], ys[1..]);
      forall x | x in xs ensures x in ys {
        if x != xs[0] {
          assert x in xs[1..];
          assert x in ys[1..];
        }
      }
    } else {
      SubsequenceElements(xs, ys[1..]);
    }
  }

  /** A subsequence of a duplicate-free sequence is duplicate-free. */
  lemma {:induction false} SubsequenceNoDups<T>(xs: seq<T>, ys: seq<T>)
    requires IsSubsequence(xs, ys) && NoDups(ys)
    ensures NoDups(xs)
    decreases |ys|
  {
    if |xs| == 0 {
    } else if xs[0] == ys[0] && IsSubsequence(xs[1..], ys[1..]) {
      assert NoDups(ys[1..]) by {
        forall i, j | 0 <= i < j < |ys[1..]| ensures ys[1..][i] != ys[1..][j] {
          assert ys[1..][i] == ys[i + 1] && ys[1..][j] == ys[j + 1];
        }
      }
      SubsequenceNoDups(xs[1..], ys[1..]);
      SubsequenceElements(xs[1..], ys[1..]);
      assert ys[0] !in ys[1..];
      forall i, j | 0 <= i < j < |xs| ensures xs[i] != xs[j] {
        assert xs[j] == xs[1..][j - 1];
        if i > 0 {
          assert xs[i] == xs[1..][i - 1];
        }
      }
    } else {
      assert NoDups(ys[1..]) by {
        forall i, j | 0 <= i < j < |ys[1..]| ensures ys[1..][i] != ys[1..][j] {
          assert ys[1..][i] == ys[i + 1] && ys[1..][j] == ys[j + 1];
        }
      }
      SubsequenceNoDups(xs, ys[1..]);
    }
  }
}
