/** Permutations of 0..n, and the destinations that a stable counting sort gives its elements. */
module Permutation {

  ghost predicate IsPermutation(p: seq<int>, n: nat) {
    && |p| == n
    && (forall i | 0 <= i < n :: 0 <= p[i] < n)
    && (forall i, j | 0 <= i < j < n :: p[i] != p[j])
  }

  ghost function Compose<T>(xs: seq<T>, p: seq<int>): (ys: seq<T>)
    requires IsPermutation(p, |xs|)
    ensures |ys| == |xs|
  {
    seq(|xs|, k requires 0 <= k < |xs| => xs[p[k]])
  }

  ghost function Without<T>(xs: seq<T>, j: int): (ys: seq<T>)
    requires 0 <= j < |xs|
    ensures |ys| == |xs| - 1
  {
    xs[..j] + xs[j + 1..]
  }

  /** The permutation without its last entry, renumbered. */
  ghost function ClosedUp(p: seq<int>): (q: seq<int>)
    requires |p| > 0
    ensures |q| == |p| - 1
  {
    seq(|p| - 1, k requires 0 <= k < |p| - 1 => if p[k] > p[|p| - 1] then p[k] - 1 else p[k])
  }

  lemma ClosedUpPermutes(p: seq<int>, n: nat)
    requires IsPermutation(p, n + 1)
    ensures IsPermutation(ClosedUp(p), n)
  {
    var q := ClosedUp(p);
    forall i | 0 <= i < n
      ensures 0 <= q[i] < n
    {
      assert p[i] != p[n];
    }
    forall i, j | 0 <= i < j < n
      ensures q[i] != q[j]
    {
      assert p[i] != p[j] && p[i] != p[n] && p[j] != p[n];
    }
  }

  lemma ComposeSplit<T>(xs: seq<T>, p: seq<int>, n: nat)
    requires IsPermutation(p, |xs|) && |xs| == n + 1 && IsPermutation(ClosedUp(p), n)
    ensures Compose(xs, p) == Compose(Without(xs, p[n]), ClosedUp(p)) + [xs[p[n]]]
  {
    var ys, zs := Compose(xs, p), Compose(Without(xs, p[n]), ClosedUp(p));
    forall k | 0 <= k < n
      ensures ys[k] == zs[k]
    {
      assert p[k] != p[n];
      assert ys[k] == xs[p[k]] && zs[k] == Without(xs, p[n])[ClosedUp(p)[k]];
    }
  }

  /** Rearranging a sequence by a permutation keeps its elements. */
  lemma {:induction false} ComposeKeepsElements<T>(xs: seq<T>, p: seq<int>)
    requires IsPermutation(p, |xs|)
    ensures multiset(Compose(xs, p)) == multiset(xs)
    decreases |xs|
  {
    if xs != [] {
      hide Compose, ClosedUp;
      var n := |xs| - 1;
      var j := p[n];
      ClosedUpPermutes(p, n);
      ComposeKeepsElements(Without(xs, j), ClosedUp(p));
      ComposeSplit(xs, p, n);
      assert xs == xs[..j] + [xs[j]] + xs[j + 1..];
    }
  }

  /** Every index is hit. */
  lemma Hit(p: seq<int>, n: nat, k: int) returns (i: int)
    requires IsPermutation(p, n) && 0 <= k < n
    ensures 0 <= i < n && p[i] == k
  {
    var all := seq(n, i => i);
    ComposeKeepsElements(all, p);
    assert Compose(all, p) == p;
    assert all[k] == k;
    assert k in multiset(p);
    i :| 0 <= i < n && p[i] == k;
  }

  lemma HitSome(p: seq<int>, n: nat, k: int)
    requires IsPermutation(p, n) && 0 <= k < n
    ensures exists i :: 0 <= i < n && p[i] == k
  {
    var i := Hit(p, n, k);
  }

  ghost function Preimage(p: seq<int>, n: nat, k: int): (i: int)
    requires IsPermutation(p, n) && 0 <= k < n
    ensures 0 <= i < n && p[i] == k
  {
    HitSome(p, n, k);
    var i :| 0 <= i < n && p[i] == k;
    i
  }

  ghost function Inverse(p: seq<int>, n: nat): (q: seq<int>)
    requires IsPermutation(p, n)
    ensures |q| == n && forall k | 0 <= k < n :: 0 <= q[k] < n && p[q[k]] == k
  {
    seq(n, k requires 0 <= k < n => Preimage(p, n, k))
  }

  lemma InverseOf(p: seq<int>, n: nat)
    requires IsPermutation(p, n)
    ensures IsPermutation(Inverse(p, n), n)
    ensures forall i | 0 <= i < n :: Inverse(p, n)[p[i]] == i
  {
    var q := Inverse(p, n);
    forall i | 0 <= i < n
      ensures q[p[i]] == i
    {
      var j := q[p[i]];
      assert p[j] == p[i];
    }
  }

  // ---------------------------------------------------------------- stable ranks

  /** How many of the first `i` elements are smaller than `c`. */
  ghost function Less(xs: seq<int>, c: int, i: nat): (r: nat)
    requires i <= |xs|
    ensures r <= i
  {
    if i == 0 then 0 else Less(xs, c, i - 1) + (if xs[i - 1] < c then 1 else 0)
  }

  /** How many of the first `i` elements equal `c`. */
  ghost function Equal(xs: seq<int>, c: int, i: nat): (r: nat)
    requires i <= |xs|
    ensures r <= i
  {
    if i == 0 then 0 else Equal(xs, c, i - 1) + (if xs[i - 1] == c then 1 else 0)
  }

  /** Where a stable sort puts element `i`: after all smaller ones and all earlier equal ones. */
  ghost function Dest(xs: seq<int>, i: nat): nat
    requires i < |xs|
  {
    Less(xs, xs[i], |xs|) + Equal(xs, xs[i], i)
  }

  lemma {:induction false} NothingLess(xs: seq<int>, i: nat)
    requires i <= |xs| && forall k | 0 <= k < |xs| :: 0 <= xs[k]
    ensures Less(xs, 0, i) == 0
  {
    if i > 0 {
      NothingLess(xs, i - 1);
    }
  }

  lemma {:induction false} LessStep(xs: seq<int>, c: int, i: nat)
    requires i <= |xs|
    ensures Less(xs, c + 1, i) == Less(xs, c, i) + Equal(xs, c, i)
  {
    if i > 0 {
      LessStep(xs, c, i - 1);
    }
  }

  lemma {:induction false} LessMonotone(xs: seq<int>, c: int, d: int, i: nat)
    requires i <= |xs| && c <= d
    ensures Less(xs, c, i) <= Less(xs, d, i)
  {
    if i > 0 {
      LessMonotone(xs, c, d, i - 1);
    }
  }

  lemma {:induction false} EqualMonotone(xs: seq<int>, c: int, i: nat, j: nat)
    requires i <= j <= |xs|
    ensures Equal(xs, c, i) <= Equal(xs, c, j)
    ensures i < j && xs[i] == c ==> Equal(xs, c, i) < Equal(xs, c, j)
    decreases j
  {
    if i < j {
      EqualMonotone(xs, c, i, j - 1);
    }
  }

  /** Destinations lie in the range of their value. */
  lemma DestRange(xs: seq<int>, i: nat)
    requires i < |xs|
    ensures Less(xs, xs[i], |xs|) <= Dest(xs, i) < Less(xs, xs[i] + 1, |xs|) <= |xs|
  {
    LessStep(xs, xs[i], |xs|);
    EqualMonotone(xs, xs[i], i, |xs|);
  }

  /** Destinations follow the order of values, and equal values keep their order. */
  lemma DestOrder(xs: seq<int>, i: nat, j: nat)
    requires i < |xs| && j < |xs| && (xs[i] < xs[j] || (xs[i] == xs[j] && i < j))
    ensures Dest(xs, i) < Dest(xs, j)
  {
    if xs[i] < xs[j] {
      DestRange(xs, i);
      LessMonotone(xs, xs[i] + 1, xs[j], |xs|);
    } else {
      EqualMonotone(xs, xs[i], i, j);
    }
  }

  ghost function Dests(xs: seq<int>): (p: seq<int>)
    ensures |p| == |xs|
  {
    seq(|xs|, i requires 0 <= i < |xs| => Dest(xs, i))
  }

  /** The destinations are a permutation. */
  lemma DestsPermute(xs: seq<int>)
    ensures IsPermutation(Dests(xs), |xs|)
  {
    hide Less, Equal;
    var p := Dests(xs);
    forall i | 0 <= i < |xs|
      ensures 0 <= p[i] < |xs|
    {
      DestRange(xs, i);
    }
    forall i, j | 0 <= i < j < |xs|
      ensures p[i] != p[j]
    {
      if xs[j] < xs[i] {
        DestOrder(xs, j, i);
      } else {
        DestOrder(xs, i, j);
      }
    }
  }
}
