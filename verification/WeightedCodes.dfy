/** Weighted code lengths. */
module WeightedCodes {
  // The step of Huffman's construction: a lower bound on the weighted length of every code survives merging the two
  // lightest weights.

  import opened Arith

  /** The weighted length of the open entries before `i`. */
  ghost function Cost(open: seq<bool>, w: seq<int>, l: seq<int>, i: nat): int
    requires i <= |open| == |w| == |l|
  {
    if i == 0 then 0 else Cost(open, w, l, i - 1) + (if open[i - 1] then w[i - 1] * l[i - 1] else 0)
  }

  /** The lengths of the open entries are between 0 and `d`. */
  ghost predicate Within(open: seq<bool>, l: seq<int>, d: int) {
    |open| == |l| && forall k | 0 <= k < |l| && open[k] :: 0 <= l[k] <= d
  }

  /** The Kraft sum of the open entries before `i`, scaled by 2^d. */
  ghost function Kraft(open: seq<bool>, l: seq<int>, d: int, i: nat): int
    requires Within(open, l, d) && i <= |open|
  {
    if i == 0 then 0 else Kraft(open, l, d, i - 1) + (if open[i - 1] then Pow2(d - l[i - 1]) else 0)
  }

  /** The lengths are those of a prefix code. */
  ghost predicate IsCode(open: seq<bool>, l: seq<int>, d: int) {
    d >= 0 && Within(open, l, d) && Kraft(open, l, d, |open|) <= Pow2(d)
  }

  /** Every code costs at least `b`. */
  ghost predicate Bound(open: seq<bool>, w: seq<int>, b: int)
    requires |open| == |w|
  {
    forall l, d | IsCode(open, l, d) :: |l| == |open| && Cost(open, w, l, |open|) >= b
  }

  // ---------------------------------------------------------------- changing one entry

  lemma {:induction false} CostSet(open: seq<bool>, w: seq<int>, l: seq<int>, i: nat, x: nat, v: int)
    requires i <= |open| == |w| == |l| && x < |l|
    ensures Cost(open, w, l[x := v], i) == Cost(open, w, l, i) + (if x < i && open[x] then w[x] * (v - l[x]) else 0)
  {
    if i > 0 {
      CostSet(open, w, l, i - 1, x, v);
      if x == i - 1 {
        assert w[x] * v == w[x] * l[x] + w[x] * (v - l[x]);
      }
    }
  }

  lemma {:induction false} CostOpen(open: seq<bool>, w: seq<int>, l: seq<int>, i: nat, x: nat)
    requires i <= |open| == |w| == |l| && x < i && !open[x]
    ensures Cost(open[x := true], w, l, i) == Cost(open, w, l, i) + w[x] * l[x]
  {
    if i - 1 == x {
      CostFrame(open, open[x := true], w, l, i - 1);
    } else {
      CostOpen(open, w, l, i - 1, x);
    }
  }

  lemma {:induction false} CostFrame(open: seq<bool>, open': seq<bool>, w: seq<int>, l: seq<int>, i: nat)
    requires i <= |open| == |open'| == |w| == |l| && forall k | 0 <= k < i :: open[k] == open'[k]
    ensures Cost(open, w, l, i) == Cost(open', w, l, i)
  {
    if i > 0 {
      CostFrame(open, open', w, l, i - 1);
    }
  }

  /** The Kraft term of an entry. */
  ghost function Term(d: int, v: int): int
    requires 0 <= v <= d
  {
    Pow2(d - v)
  }

  lemma {:induction false} KraftSet(open: seq<bool>, l: seq<int>, d: int, i: nat, x: nat, v: int)
    requires Within(open, l, d) && i <= |open| && x < |l| && open[x] && 0 <= v <= d
    ensures Within(open, l[x := v], d)
    ensures Kraft(open, l[x := v], d, i) == Kraft(open, l, d, i) + (if x < i then Term(d, v) - Term(d, l[x]) else 0)
  {
    hide Pow2;
    if i > 0 {
      KraftSet(open, l, d, i - 1, x, v);
    }
  }

  lemma {:induction false} KraftFrame(open: seq<bool>, open': seq<bool>, l: seq<int>, l': seq<int>, d: int, i: nat)
    requires Within(open, l, d) && Within(open', l', d) && i <= |open| == |open'|
    requires forall k | 0 <= k < i :: open[k] == open'[k] && (open[k] ==> l[k] == l'[k])
    ensures Kraft(open, l, d, i) == Kraft(open', l', d, i)
  {
    hide Pow2;
    if i > 0 {
      KraftFrame(open, open', l, l', d, i - 1);
    }
  }

  lemma {:induction false} KraftOpen(open: seq<bool>, l: seq<int>, d: int, i: nat, x: nat)
    requires Within(open, l, d) && i <= |open| && x < i && !open[x] && 0 <= l[x] <= d
    ensures Within(open[x := true], l, d)
    ensures Kraft(open[x := true], l, d, i) == Kraft(open, l, d, i) + Term(d, l[x])
  {
    hide Pow2;
    if i - 1 == x {
      KraftFrame(open, open[x := true], l, l, d, i - 1);
    } else {
      KraftOpen(open, l, d, i - 1, x);
    }
  }

  // ---------------------------------------------------------------- exchanging two lengths

  ghost function Swapped(l: seq<int>, x: nat, p: nat): seq<int>
    requires x < |l| && p < |l|
  {
    l[x := l[p]][p := l[x]]
  }

  lemma SwapProduct(a: int, b: int, u: int, v: int)
    requires a <= b && u <= v
    ensures a * (v - u) + b * (u - v) <= 0
  {
    MulNonNegative(b - a, v - u);
    assert a * (v - u) + b * (u - v) == -((b - a) * (v - u));
  }

  lemma MulNonNegative(x: int, y: int)
    requires x >= 0 && y >= 0
    ensures x * y >= 0
  {
  }

  /** The lighter of two entries may take the longer length. */
  lemma SwapCosts(open: seq<bool>, w: seq<int>, l: seq<int>, d: int, x: nat, p: nat)
    requires IsCode(open, l, d) && |w| == |open| && x < |open| && p < |open| && open[x] && open[p]
    requires w[x] <= w[p] && l[x] <= l[p]
    ensures IsCode(open, Swapped(l, x, p), d)
    ensures Cost(open, w, Swapped(l, x, p), |open|) <= Cost(open, w, l, |open|)
  {
    hide Kraft, Cost, Pow2, Term;
    if x == p {
      assert Swapped(l, x, p) == l;
    } else {
      var u, v, n := l[x], l[p], |open|;
      var l1 := l[x := v];
      CostSet(open, w, l, n, x, v);
      CostSet(open, w, l1, n, p, u);
      KraftSet(open, l, d, n, x, v);
      KraftSet(open, l1, d, n, p, u);
      SwapProduct(w[x], w[p], u, v);
    }
  }

  // ---------------------------------------------------------------- shortening the longest code

  /** All open entries but `x` are shorter than `m`. */
  ghost predicate Longest(open: seq<bool>, l: seq<int>, x: int, m: int) {
    |open| == |l| && 0 <= x < |l| && open[x] && l[x] == m && forall k | 0 <= k < |l| && open[k] && k != x :: l[k] < m
  }

  lemma EvenTerm(d: int, m: int, v: int) returns (t: int)
    requires 0 <= v < m <= d
    ensures Term(d, v) == 2 * Pow2(d - m) * t
  {
    t := Pow2(m - 1 - v);
    Pow2Add(d - m + 1, m - 1 - v);
    assert d - m + 1 + (m - 1 - v) == d - v;
  }

  lemma {:induction false} OthersEven(open: seq<bool>, l: seq<int>, d: int, x: int, m: int, i: nat) returns (t: int)
    requires Within(open, l, d) && Longest(open, l, x, m) && i <= |open|
    ensures Kraft(open, l, d, i) == 2 * Pow2(d - m) * t + (if x < i then Pow2(d - m) else 0)
  {
    hide Pow2;
    if i == 0 {
      t := 0;
      assert 2 * Pow2(d - m) * 0 == 0;
    } else {
      t := OthersEven(open, l, d, x, m, i - 1);
      if open[i - 1] && i - 1 != x {
        var s := EvenTerm(d, m, l[i - 1]);
        var p := 2 * Pow2(d - m);
        assert p * t + p * s == p * (t + s);
        t := t + s;
      }
    }
  }

  lemma RoundUp(c: int, t: int, h: int)
    requires c > 0 && 2 * c * t + c <= 2 * c * h
    ensures 2 * c * t + 2 * c <= 2 * c * h
  {
    var u := 2 * c;
    assert u * (h - t) == u * h - u * t >= c;
    if h - t <= 0 {
      MulNonNegative(u, t - h);
      assert u * (t - h) == -(u * (h - t));
    }
    MulGap(u, h - t);
  }

  lemma HalfScale(d: int, m: int)
    requires 1 <= m <= d
    ensures Pow2(d) == 2 * Pow2(d - m) * Pow2(m - 1) && Term(d, m - 1) == 2 * Pow2(d - m) && Term(d, m) == Pow2(d - m)
  {
    Pow2Add(d - m + 1, m - 1);
    assert d - m + 1 + (m - 1) == d;
  }

  /** A single longest code can be one shorter. */
  lemma Shorten(open: seq<bool>, w: seq<int>, l: seq<int>, d: int, x: nat, m: int)
    requires IsCode(open, l, d) && |w| == |open| && Longest(open, l, x, m) && w[x] >= 0 && m >= 1
    ensures IsCode(open, l[x := m - 1], d)
    ensures Cost(open, w, l[x := m - 1], |open|) <= Cost(open, w, l, |open|)
  {
    hide Kraft, Cost, Pow2, Term;
    var n := |open|;
    var t := OthersEven(open, l, d, x, m, n);
    HalfScale(d, m);
    Pow2Positive(d - m);
    RoundUp(Pow2(d - m), t, Pow2(m - 1));
    KraftSet(open, l, d, n, x, m - 1);
    CostSet(open, w, l, n, x, m - 1);
    assert w[x] * (m - 1 - l[x]) == -w[x];
  }

  lemma Pow2Positive(k: nat)
    ensures Pow2(k) > 0
  {
  }

  // ---------------------------------------------------------------- merging two entries

  ghost function Merge(open: seq<bool>, x: nat, y: nat, j: nat): (r: seq<bool>)
    requires x < |open| && y < |open| && j < |open|
    ensures |r| == |open|
  {
    open[x := false][y := false][j := true]
  }

  /** Two longest codes of equal length become one code, one shorter. */
  lemma MergeEqual(open: seq<bool>, w: seq<int>, l: seq<int>, d: int, x: nat, y: nat, j: nat)
    requires IsCode(open, l, d) && |w| == |open| && x < |open| && y < |open| && j < |open| && x != y && open[x]
        && open[y] && !open[j]
    requires l[x] == l[y] >= 1 && w[j] == w[x] + w[y]
    ensures IsCode(Merge(open, x, y, j), l[j := l[x] - 1], d)
    ensures Cost(Merge(open, x, y, j), w, l[j := l[x] - 1], |open|) == Cost(open, w, l, |open|) - w[j]
  {
    hide Kraft, Cost, Pow2, Term;
    var n, m := |open|, l[x];
    var l' := l[j := m - 1];
    var o2 := open[x := false][y := false];
    var o1 := o2[y := true];
    assert o1[x := true] == open;
    CostSet(open, w, l, n, j, m - 1);
    KraftFrame(open, open, l, l', d, n);
    CostOpen(o1, w, l', n, x);
    CostOpen(o2, w, l', n, y);
    CostOpen(o2, w, l', n, j);
    KraftOpen(o1, l', d, n, x);
    KraftOpen(o2, l', d, n, y);
    KraftOpen(o2, l', d, n, j);
    HalfScale(d, m);
    assert w[j] * (m - 1) == w[x] * m + w[y] * m - w[j];
  }

  /** What two entries cost when they hang one below the merged entry. */
  lemma CostMerge(open: seq<bool>, w: seq<int>, l: seq<int>, x: nat, y: nat, j: nat)
    requires |open| == |w| == |l| && x < |open| && y < |open| && j < |open| && x != y && open[x] && open[y] && !open[j]
    requires l[x] == l[y] == l[j] + 1 && w[j] == w[x] + w[y]
    ensures Cost(open, w, l, |open|) == Cost(Merge(open, x, y, j), w, l, |open|) + w[j]
  {
    hide Cost;
    var n := |open|;
    var o2 := open[x := false][y := false];
    var o1 := o2[y := true];
    assert o1[x := true] == open;
    CostOpen(o1, w, l, n, x);
    CostOpen(o2, w, l, n, y);
    CostOpen(o2, w, l, n, j);
    MergedProduct(w[x], w[y], l[j]);
  }

  lemma MergedProduct(a: int, b: int, p: int)
    ensures (a + b) * p == a * (p + 1) + b * (p + 1) - (a + b)
  {
  }

  /** A longest open entry other than `skip`. */
  lemma {:induction false} LongestOf(open: seq<bool>, l: seq<int>, skip: int, some: nat, i: nat) returns (p: nat)
    requires |open| == |l| && some < |l| && open[some] && some != skip && i <= |l|
    ensures p < |l| && open[p] && p != skip && l[some] <= l[p]
    ensures forall k | 0 <= k < i && open[k] && k != skip :: l[k] <= l[p]
  {
    p := some;
    if i > 0 {
      p := LongestOf(open, l, skip, some, i - 1);
      if open[i - 1] && i - 1 != skip && l[i - 1] > l[p] {
        p := i - 1;
      }
    }
  }

  /** `x` and `y` are the two lightest open entries. */
  ghost predicate Lightest(open: seq<bool>, w: seq<int>, x: int, y: int) {
    && |open| == |w| && 0 <= x < |w| && 0 <= y < |w| && x != y && open[x] && open[y] && 0 <= w[x] <= w[y]
    && forall k | 0 <= k < |w| && open[k] && k != x && k != y :: w[y] <= w[k]
  }

  ghost function Ones(n: nat): seq<int> {
    seq(n, i => 1)
  }

  /** The sum of all lengths. */
  ghost function Tall(open: seq<bool>, l: seq<int>): int
    requires |open| == |l|
  {
    Cost(open, Ones(|open|), l, |open|)
  }

  /** The two lightest entries may have the two longest codes. */
  lemma LongestFirst(open: seq<bool>, w: seq<int>, l: seq<int>, d: int, x: nat, y: nat) returns (l': seq<int>)
    requires IsCode(open, l, d) && Lightest(open, w, x, y)
    ensures IsCode(open, l', d) && |l'| == |open| && Cost(open, w, l', |open|) <= Cost(open, w, l, |open|)
    ensures Tall(open, l') <= Tall(open, l)
    ensures l'[x] >= l'[y] && forall k | 0 <= k < |l'| && open[k] && k != x && k != y :: l'[k] <= l'[y]
  {
    hide Kraft, Cost, Pow2;
    var p := LongestOf(open, l, -1, x, |l|);
    var l1 := Swapped(l, x, p);
    SwapCosts(open, w, l, d, x, p);
    SwapCosts(open, Ones(|open|), l, d, x, p);
    var q := LongestOf(open, l1, x, y, |l|);
    l' := Swapped(l1, y, q);
    SwapCosts(open, w, l1, d, y, q);
    SwapCosts(open, Ones(|open|), l1, d, y, q);
  }

  lemma {:induction false} LengthsAdd(open: seq<bool>, l: seq<int>, d: int, i: nat)
    requires Within(open, l, d) && i <= |open|
    ensures Cost(open, Ones(|open|), l, i) >= 0
  {
    if i > 0 {
      LengthsAdd(open, l, d, i - 1);
    }
  }

  lemma {:induction false} TwoEntries(open: seq<bool>, l: seq<int>, d: int, x: nat, y: nat)
    requires IsCode(open, l, d) && x < |open| && y < |open| && x != y && open[x] && open[y]
    ensures l[x] >= 1 || l[y] >= 1
  {
    hide Kraft, Pow2;
    if l[x] == 0 && l[y] == 0 {
      var n := |open|;
      var o1 := open[x := false];
      var o2 := o1[y := false];
      assert o2[y := true] == o1 && o1[x := true] == open;
      KraftOpen(o1, l, d, n, x);
      KraftOpen(o2, l, d, n, y);
      Pow2Positive(d);
      KraftNonNegative(o2, l, d, n);
    }
  }

  lemma {:induction false} KraftNonNegative(open: seq<bool>, l: seq<int>, d: int, i: nat)
    requires Within(open, l, d) && i <= |open|
    ensures Kraft(open, l, d, i) >= 0
  {
    if i > 0 {
      KraftNonNegative(open, l, d, i - 1);
    }
  }

  lemma BoundOf(open: seq<bool>, w: seq<int>, b: int, l: seq<int>, d: int)
    requires |open| == |w| && Bound(open, w, b) && IsCode(open, l, d)
    ensures |l| == |open| && Cost(open, w, l, |open|) >= b
  {
  }

  lemma Shorter(open: seq<bool>, l: seq<int>, x: nat, m: int)
    requires |open| == |l| && x < |l| && open[x] && l[x] == m
    ensures Tall(open, l[x := m - 1]) == Tall(open, l) - 1
  {
    CostSet(open, Ones(|open|), l, |open|, x, m - 1);
  }

  lemma TallPositive(open: seq<bool>, l: seq<int>, d: int)
    requires IsCode(open, l, d)
    ensures |l| == |open| && Tall(open, l) >= 0
  {
    LengthsAdd(open, l, d, |open|);
  }

  /** Any code costs at least what the best code of the merged entries costs, and the merged weight. */
  lemma {:induction false} MergeCase(open: seq<bool>, w: seq<int>, l: seq<int>, d: int, x: nat, y: nat, j: nat, b: int)
    requires IsCode(open, l, d) && |l| == |open| && Lightest(open, w, x, y) && j < |open| && !open[j]
        && w[j] == w[x] + w[y]
    requires Bound(Merge(open, x, y, j), w, b)
    ensures Cost(open, w, l, |open|) >= b + w[j]
    decreases Tall(open, l)
  {
    hide IsCode, Cost, Bound, Tall, Merge;
    var l' := LongestFirst(open, w, l, d, x, y);
    TwoLongest(open, l', d, x, y);
    if l'[x] == l'[y] {
      MergeEqual(open, w, l', d, x, y, j);
      BoundOf(Merge(open, x, y, j), w, b, l'[j := l'[x] - 1], d);
    } else {
      var m := l'[x];
      Shorten(open, w, l', d, x, m);
      Shorter(open, l', x, m);
      TallPositive(open, l'[x := m - 1], d);
      MergeCase(open, w, l'[x := m - 1], d, x, y, j, b);
    }
  }

  lemma TwoLongest(open: seq<bool>, l: seq<int>, d: int, x: nat, y: nat)
    requires IsCode(open, l, d) && |l| == |open| && x < |l| && y < |l| && x != y && open[x] && open[y] && l[x] >= l[y]
    ensures l[x] >= 1
  {
    TwoEntries(open, l, d, x, y);
  }

  /** A bound on all codes of the merged entries bounds, with the merged weight, all codes of the entries. */
  lemma MergeBound(open: seq<bool>, w: seq<int>, x: nat, y: nat, j: nat, b: int)
    requires Lightest(open, w, x, y) && j < |open| && !open[j] && w[j] == w[x] + w[y]
    requires Bound(Merge(open, x, y, j), w, b)
    ensures Bound(open, w, b + w[j])
  {
    hide Cost, Merge, Kraft;
    forall l, d | IsCode(open, l, d)
      ensures |l| == |open| && Cost(open, w, l, |open|) >= b + w[j]
    {
      MergeCase(open, w, l, d, x, y, j, b);
    }
  }
}
