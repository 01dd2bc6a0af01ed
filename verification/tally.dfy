/**
 * Counting occurrences in a sequence and listing its distinct elements in
 * order of first occurrence: the two facts Python code relies on when it
 * builds a dict by scanning a list.
 */
module Tally {

  /** How many times `x` occurs in `xs`. */
  function Count<T(==)>(xs: seq<T>, x: T): (n: nat)
    ensures n <= |xs|
    ensures n > 0 <==> x in xs
  {
    if xs == [] then 0
    else
      assert xs == xs[..|xs| - 1] + [xs[|xs| - 1]];
      Count(xs[..|xs| - 1], x) + (if xs[|xs| - 1] == x then 1 else 0)
  }

  lemma {:induction false} CountAppend<T>(xs: seq<T>, ys: seq<T>, x: T)
    ensures Count(xs + ys, x) == Count(xs, x) + Count(ys, x)
    decreases |ys|
  {
    if ys != [] {
      var zs := ys[..|ys| - 1];
      assert (xs + ys)[..|xs + ys| - 1] == xs + zs;
      CountAppend(xs, zs, x);
    } else {
      assert xs + ys == xs;
    }
  }

  /** Position of the first occurrence of `x`. */
  function IndexOf<T(==)>(xs: seq<T>, x: T): (i: nat)
    requires x in xs
    ensures i < |xs| && xs[i] == x && x !in xs[..i]
  {
    if xs[0] == x then 0
    else
      assert xs == [xs[0]] + xs[1..];
      var j := IndexOf(xs[1..], x);
      assert xs[..j + 1] == [xs[0]] + xs[1..][..j];
      j + 1
  }

  /** The distinct elements of `xs`, each where it first occurs. */
  function FirstSeen<T(==,!new)>(xs: seq<T>): (ds: seq<T>)
    ensures forall x :: x in ds <==> x in xs
    ensures forall i, j :: 0 <= i < j < |ds| ==> ds[i] != ds[j]
  {
    if xs == [] then []
    else
      var ds := FirstSeen(xs[..|xs| - 1]);
      var x := xs[|xs| - 1];
      assert xs == xs[..|xs| - 1] + [x];
      if x in ds then ds else ds + [x]
  }

  /** One more element is listed at the end exactly when it is new. */
  lemma FirstSeenSnoc<T(!new)>(xs: seq<T>, x: T)
    ensures FirstSeen(xs + [x]) == if x in xs then FirstSeen(xs) else FirstSeen(xs) + [x]
  {
    assert (xs + [x])[..|xs + [x]| - 1] == xs;
  }

  /** `FirstSeen` lists elements in the order of their first occurrences. */
  lemma {:induction false} FirstSeenOrdered<T(!new)>(xs: seq<T>)
    ensures forall i, j :: 0 <= i < j < |FirstSeen(xs)| ==>
      IndexOf(xs, FirstSeen(xs)[i]) < IndexOf(xs, FirstSeen(xs)[j])
  {
    if xs != [] {
      var pre := xs[..|xs| - 1];
      var x := xs[|xs| - 1];
      assert xs == pre + [x];
      FirstSeenOrdered(pre);
      var ds := FirstSeen(xs);
      var dp := FirstSeen(pre);
      forall y | y in pre
        ensures IndexOf(xs, y) == IndexOf(pre, y)
      {
        IndexOfAppend(pre, [x], y);
      }
      if x !in pre {
        assert IndexOf(xs, x) == |pre| by { IndexOfUnique(xs, x, |pre|); }
      }
      forall i, j | 0 <= i < j < |ds|
        ensures IndexOf(xs, ds[i]) < IndexOf(xs, ds[j])
      {
        assert ds[i] == dp[i] && dp[i] in pre;
        assert IndexOf(xs, ds[i]) == IndexOf(pre, dp[i]) < |pre|;
        if j < |dp| {
          assert ds[j] == dp[j] && dp[j] in pre;
          assert IndexOf(xs, ds[j]) == IndexOf(pre, dp[j]);
          assert IndexOf(pre, dp[i]) < IndexOf(pre, dp[j]);
        } else {
          assert x !in pre && ds[j] == x;
        }
      }
    }
  }

  /** Of two distinct elements, the one that occurs first is listed first. */
  lemma FirstSeenIndexOrder<T(!new)>(xs: seq<T>, a: nat, b: nat)
    requires a < |FirstSeen(xs)| && b < |FirstSeen(xs)|
    requires IndexOf(xs, FirstSeen(xs)[a]) < IndexOf(xs, FirstSeen(xs)[b])
    ensures a < b
  {
    FirstSeenOrdered(xs);
  }

  lemma {:induction false} IndexOfAppend<T>(xs: seq<T>, ys: seq<T>, x: T)
    requires x in xs
    ensures IndexOf(xs + ys, x) == IndexOf(xs, x)
  {
    var i := IndexOf(xs, x);
    assert (xs + ys)[i] == x && (xs + ys)[..i] == xs[..i];
    IndexOfUnique(xs + ys, x, i);
  }

  /** The first occurrence is characterised by being an occurrence with none before it. */
  lemma {:induction false} IndexOfUnique<T>(xs: seq<T>, x: T, i: nat)
    requires i < |xs| && xs[i] == x && x !in xs[..i]
    ensures IndexOf(xs, x) == i
  {
  }
}
