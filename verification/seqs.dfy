/**
 Sequence vocabulary shared by the model: distinctness, order-preserving
 subsequences, first occurrences, and de-duplication in first-seen order
 (the iteration order of a JavaScript `Set` filled from a list).
 */
module Seqs {

  /** No element of `xs` occurs twice. */
  predicate NoDup<T(==)>(xs: seq<T>) {
    forall i, j :: 0 <= i < j < |xs| ==> xs[i] != xs[j]
  }

  /** `a` is obtained from `b` by deleting elements, keeping the order of the rest. */
  predicate IsSubseq<T(==)>(a: seq<T>, b: seq<T>)
    decreases |b|
  {
    || a == []
    || (&& b != []
        && ((a[0] == b[0] && IsSubseq(a[1..], b[1..])) || IsSubseq(a, b[1..])))
  }

  /** Every sequence is a subsequence of itself. */
  lemma {:induction false} SubseqRefl<T>(xs: seq<T>)
    ensures IsSubseq(xs, xs)
  {
    if xs != [] {
      SubseqRefl(xs[1..]);
    }
  }

  /** Position of the first occurrence of `x` in `xs`. */
  function IndexOf<T(==)>(xs: seq<T>, x: T): (i: nat)
    requires x in xs
    ensures i < |xs| && xs[i] == x
    ensures x !in xs[..i]
  {
    if xs[0] == x then 0
    else
      var k := IndexOf(xs[1..], x);
      assert xs[..k + 1] == [xs[0]] + xs[1..][..k];
      1 + k
  }

  /** The elements of `r` appear in the order of their first occurrence in `xs`. */
  ghost predicate FirstSeenOrder<T(!new)>(r: seq<T>, xs: seq<T>)
    requires forall x :: x in r ==> x in xs
  {
    forall i, j :: 0 <= i < j < |r| ==> IndexOf(xs, r[i]) < IndexOf(xs, r[j])
  }

  /** Reference definition of de-duplication, independent of how it is computed:
      each distinct element of `xs` once, in first-seen order. */
  ghost predicate IsFirstSeenDedup<T(!new)>(r: seq<T>, xs: seq<T>) {
    && NoDup(r)
    && (forall x :: x in r <==> x in xs)
    && FirstSeenOrder(r, xs)
  }

  /** De-duplication as a JavaScript `Set` performs it: scanning left to right,
      an element is kept the first time it is seen and dropped afterwards. */
  function Dedup<T(==,!new)>(xs: seq<T>): (r: seq<T>)
    ensures NoDup(r)
    ensures forall x :: x in r <==> x in xs
    ensures |r| <= |xs|
  {
    if xs == [] then []
    else
      var d := Dedup(xs[..|xs| - 1]);
      assert xs == xs[..|xs| - 1] + [xs[|xs| - 1]];
      if xs[|xs| - 1] in d then d else d + [xs[|xs| - 1]]
  }

  /** Extending `xs` cannot move the first occurrence of an element already in it. */
  lemma IndexOfPrefix<T(!new)>(xs: seq<T>, y: T, x: T)
    requires x in xs
    ensures x in xs + [y]
    ensures IndexOf(xs + [y], x) == IndexOf(xs, x)
  {
    var zs := xs + [y];
    var i := IndexOf(xs, x);
    assert zs[i] == x;
    assert zs[..i] == xs[..i];
  }

  /** `Dedup` meets the reference definition. */
  lemma {:induction false} DedupIsFirstSeen<T(!new)>(xs: seq<T>)
    ensures IsFirstSeenDedup(Dedup(xs), xs)
  {
    if xs != [] {
      var init := xs[..|xs| - 1];
      var y := xs[|xs| - 1];
      assert xs == init + [y];
      DedupIsFirstSeen(init);
      var d := Dedup(init);
      var r := Dedup(xs);
      forall x | x in d
        ensures IndexOf(xs, x) == IndexOf(init, x)
      {
        IndexOfPrefix(init, y, x);
      }
      if y !in d {
        assert r == d + [y];
        assert y !in init;
        var iy := IndexOf(xs, y);
        assert iy == |init|;
        forall i, j | 0 <= i < j < |r|
          ensures IndexOf(xs, r[i]) < IndexOf(xs, r[j])
        {
          if j < |d| {
            assert r[i] == d[i] && r[j] == d[j];
          } else {
            assert r[i] == d[i];
            assert IndexOf(init, d[i]) < |init|;
          }
        }
      } else {
        assert r == d;
      }
    }
  }

  /** Dropping the head keeps the first-seen order of the rest. */
  lemma FirstSeenOrderTail<T(!new)>(r: seq<T>, xs: seq<T>)
    requires r != []
    requires forall x :: x in r ==> x in xs
    requires FirstSeenOrder(r, xs)
    ensures forall x :: x in r[1..] ==> x in xs
    ensures FirstSeenOrder(r[1..], xs)
  {
  }

  /** Two non-empty sequences with the same elements, both in first-seen
      order, start with the same element: the one seen first in `xs`. */
  lemma FirstSeenSameHead<T(!new)>(r: seq<T>, s: seq<T>, xs: seq<T>)
    requires r != [] && s != []
    requires forall x :: x in r ==> x in xs
    requires forall x :: x in r <==> x in s
    requires FirstSeenOrder(r, xs) && FirstSeenOrder(s, xs)
    ensures r[0] == s[0]
  {
    assert r[0] in r && s[0] in s;
    var k :| 0 <= k < |r| && r[k] == s[0];
    var m :| 0 <= m < |s| && s[m] == r[0];
    assert k == 0 || m == 0;
  }

  /** Removing a common head from two duplicate-free sequences with the same
      elements leaves two sequences with the same elements. */
  lemma SameElementsTail<T>(r: seq<T>, s: seq<T>)
    requires r != [] && s != [] && r[0] == s[0]
    requires NoDup(r) && NoDup(s)
    requires forall x :: x in r <==> x in s
    ensures forall x :: x in r[1..] <==> x in s[1..]
  {
    forall x
      ensures x in r[1..] ==> x in s[1..]
      ensures x in s[1..] ==> x in r[1..]
    {
      if x in r[1..] {
        var i :| 0 <= i < |r| - 1 && r[1..][i] == x;
        assert r[i + 1] == x;
        assert x in r;
        var j :| 0 <= j < |s| && s[j] == x;
        assert j != 0;
        assert s[1..][j - 1] == x;
      }
      if x in s[1..] {
        var i :| 0 <= i < |s| - 1 && s[1..][i] == x;
        assert s[i + 1] == x;
        assert x in s;
        var j :| 0 <= j < |r| && r[j] == x;
        assert j != 0;
        assert r[1..][j - 1] == x;
      }
    }
  }

  /** Two duplicate-free sequences holding the same elements, both ordered by
      first occurrence in `xs`, are equal. */
  lemma {:induction false} FirstSeenUnique<T(!new)>(r: seq<T>, s: seq<T>, xs: seq<T>)
    requires forall x :: x in r ==> x in xs
    requires forall x :: x in r <==> x in s
    requires NoDup(r) && NoDup(s)
    requires FirstSeenOrder(r, xs) && FirstSeenOrder(s, xs)
    ensures r == s
    decreases |r|
  {
    if r == [] {
      assert forall i :: 0 <= i < |s| ==> s[i] in s;
    } else {
      assert s != [] by { assert r[0] in s; }
      FirstSeenSameHead(r, s, xs);
      SameElementsTail(r, s);
      FirstSeenOrderTail(r, xs);
      FirstSeenOrderTail(s, xs);
      assert NoDup(r[1..]) && NoDup(s[1..]);
      FirstSeenUnique(r[1..], s[1..], xs);
      assert r == [r[0]] + r[1..];
      assert s == [s[0]] + s[1..];
    }
  }

  /** `Dedup(xs)` is the only sequence meeting the reference definition. */
  lemma DedupCharacterized<T(!new)>(r: seq<T>, xs: seq<T>)
    ensures IsFirstSeenDedup(r, xs) <==> r == Dedup(xs)
  {
    DedupIsFirstSeen(xs);
    if IsFirstSeenDedup(r, xs) {
      FirstSeenUnique(r, Dedup(xs), xs);
    }
  }
}
