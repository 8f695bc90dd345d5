/** The inverse transform. */
module InverseBwt {
  // The Burrows-Wheeler transform of a block and its inversion through the tt vector.

  import opened Permutation

  /** Bytes. */
  ghost predicate Block(b: seq<int>) {
    |b| > 0 && forall i | 0 <= i < |b| :: 0 <= b[i] < 256
  }

  function Rot(b: seq<int>, j: int): (r: seq<int>)
    requires 0 <= j <= |b|
    ensures |r| == |b|
  {
    b[j..] + b[..j]
  }

  // ---------------------------------------------------------------- lexicographic order

  ghost predicate LexLe(x: seq<int>, y: seq<int>) {
    x == [] || (y != [] && (x[0] < y[0] || (x[0] == y[0] && LexLe(x[1..], y[1..]))))
  }

  lemma {:induction false} LexAntisymmetric(x: seq<int>, y: seq<int>)
    requires LexLe(x, y) && LexLe(y, x)
    ensures x == y
  {
    if x != [] {
      LexAntisymmetric(x[1..], y[1..]);
      assert x == [x[0]] + x[1..] && y == [y[0]] + y[1..];
    }
  }

  lemma {:induction false} LexPrefix(x: seq<int>, y: seq<int>, m: nat)
    requires LexLe(x, y) && m <= |x| == |y|
    ensures LexLe(x[..m], y[..m])
  {
    if m > 0 && x[0] == y[0] {
      LexPrefix(x[1..], y[1..], m - 1);
      assert x[..m][1..] == x[1..][..m - 1] && y[..m][1..] == y[1..][..m - 1];
    }
  }

  lemma LexCons(c: int, x: seq<int>, y: seq<int>)
    requires LexLe(x, y)
    ensures LexLe([c] + x, [c] + y)
  {
    assert ([c] + x)[1..] == x && ([c] + y)[1..] == y;
  }

  ghost predicate Sorted(rows: seq<seq<int>>) {
    forall i, j | 0 <= i < j < |rows| :: LexLe(rows[i], rows[j])
  }

  /** Two sorted arrangements of the same rows are equal. */
  lemma {:induction false} SortedUnique(xs: seq<seq<int>>, ys: seq<seq<int>>)
    requires Sorted(xs) && Sorted(ys) && multiset(xs) == multiset(ys)
    ensures xs == ys
  {
    assert |xs| == |multiset(xs)| == |multiset(ys)| == |ys|;
    if xs != [] {
      LeastFirst(xs, ys);
      LeastFirst(ys, xs);
      LexAntisymmetric(xs[0], ys[0]);
      TailElements(xs, ys);
      SortedUnique(xs[1..], ys[1..]);
      assert xs == [xs[0]] + xs[1..] && ys == [ys[0]] + ys[1..];
    }
  }

  lemma TailElements(xs: seq<seq<int>>, ys: seq<seq<int>>)
    requires xs != [] && ys != [] && xs[0] == ys[0] && multiset(xs) == multiset(ys)
    ensures multiset(xs[1..]) == multiset(ys[1..])
  {
    var a, b := multiset(xs[1..]), multiset(ys[1..]);
    assert xs == [xs[0]] + xs[1..] && ys == [ys[0]] + ys[1..];
    assert multiset{xs[0]} + a == multiset{xs[0]} + b;
    assert a == (multiset{xs[0]} + a) - multiset{xs[0]};
    assert b == (multiset{xs[0]} + b) - multiset{xs[0]};
  }

  lemma LeastFirst(xs: seq<seq<int>>, ys: seq<seq<int>>)
    requires Sorted(xs) && xs != [] && ys != [] && multiset(xs) == multiset(ys)
    ensures LexLe(xs[0], ys[0])
  {
    assert ys[0] in multiset(xs);
    var i :| 0 <= i < |xs| && xs[i] == ys[0];
    LexReflexive(ys[0]);
  }

  lemma {:induction false} LexReflexive(x: seq<int>)
    ensures LexLe(x, x)
  {
    if x != [] {
      LexReflexive(x[1..]);
    }
  }

  // ---------------------------------------------------------------- the transform

  function Prev(j: int, n: int): int {
    if j == 0 then n - 1 else j - 1
  }

  ghost function Rows(b: seq<int>, q: seq<int>): (rows: seq<seq<int>>)
    requires forall i | 0 <= i < |q| :: 0 <= q[i] <= |b|
    ensures |rows| == |q|
  {
    seq(|q|, i requires 0 <= i < |q| => Rot(b, q[i]))
  }

  /** `ptr` lists the rotations of the block in order; equal rotations may come in any order. */
  ghost predicate SortsRotations(b: seq<int>, ptr: seq<int>) {
    IsPermutation(ptr, |b|) && Sorted(Rows(b, ptr))
  }

  /** The characters before the starts of the sorted rotations. */
  ghost function LastColumn(b: seq<int>, ptr: seq<int>): (l: seq<int>)
    requires IsPermutation(ptr, |b|)
    ensures |l| == |b|
  {
    seq(|b|, i requires 0 <= i < |b| => b[Prev(ptr[i], |b|)])
  }

  lemma RotStep(b: seq<int>, j: int)
    requires 0 <= j < |b|
    ensures Rot(b, j + 1) == Rot(b, j)[1..] + [Rot(b, j)[0]]
    ensures Rot(b, j)[0] == b[j]
  {
  }

  /** A rotation one earlier starts with the last character of the row. */
  lemma RotBefore(b: seq<int>, j: int)
    requires 0 <= j < |b|
    ensures Rot(b, Prev(j, |b|)) == [b[Prev(j, |b|)]] + Rot(b, j)[..|b| - 1]
  {
  }

  /** The rows in the order in which the tt vector links them. */
  ghost function Linked(b: seq<int>, ptr: seq<int>): (q: seq<int>)
    requires IsPermutation(ptr, |b|)
    ensures |q| == |b| && forall k | 0 <= k < |b| :: 0 <= q[k] < |b|
  {
    var psi := Psi(LastColumn(b, ptr));
    seq(|b|, k requires 0 <= k < |b| => Prev(ptr[psi[k]], |b|))
  }

  /** The row whose last character is the k-th character of the first column. */
  ghost function Psi(l: seq<int>): (psi: seq<int>)
    ensures |psi| == |l| && forall k | 0 <= k < |l| :: 0 <= psi[k] < |l| && Dest(l, psi[k]) == k
  {
    DestsPermute(l);
    Inverse(Dests(l), |l|)
  }

  lemma PsiInverse(l: seq<int>)
    ensures IsPermutation(Psi(l), |l|)
    ensures forall i | 0 <= i < |l| :: Dest(l, i) < |l| && Psi(l)[Dest(l, i)] == i
  {
    hide Dest;
    DestsPermute(l);
    InverseOf(Dests(l), |l|);
    forall i | 0 <= i < |l|
      ensures Dest(l, i) < |l| && Psi(l)[Dest(l, i)] == i
    {
      DestRange(l, i);
      assert Dests(l)[i] == Dest(l, i);
    }
  }

  lemma LinkedPermutes(b: seq<int>, ptr: seq<int>)
    requires IsPermutation(ptr, |b|)
    ensures IsPermutation(Linked(b, ptr), |b|)
  {
    var psi, q := Psi(LastColumn(b, ptr)), Linked(b, ptr);
    PsiInverse(LastColumn(b, ptr));
    forall i, j | 0 <= i < j < |b|
      ensures q[i] != q[j]
    {
      assert psi[i] != psi[j];
      if psi[i] < psi[j] {
        assert ptr[psi[i]] != ptr[psi[j]];
      } else {
        assert ptr[psi[j]] != ptr[psi[i]];
      }
    }
  }

  /** Rows taken in linked order are sorted: by first character, and among equal ones as before. */
  lemma LinkedSorted(b: seq<int>, ptr: seq<int>)
    requires SortsRotations(b, ptr)
    ensures Sorted(Rows(b, Linked(b, ptr)))
  {
    hide LexLe, Dest;
    var l := LastColumn(b, ptr);
    var psi, rows := Psi(l), Rows(b, Linked(b, ptr));
    forall k, m | 0 <= k < m < |b|
      ensures LexLe(rows[k], rows[m])
    {
      var i, j := psi[k], psi[m];
      RotBefore(b, ptr[i]);
      RotBefore(b, ptr[j]);
      if l[j] < l[i] || (l[j] == l[i] && j < i) {
        DestOrder(l, j, i);
      } else if l[i] < l[j] {
        LexHead(rows[k], rows[m]);
      } else {
        assert LexLe(Rows(b, ptr)[i], Rows(b, ptr)[j]);
        LexPrefix(Rot(b, ptr[i]), Rot(b, ptr[j]), |b| - 1);
        LexCons(l[i], Rot(b, ptr[i])[..|b| - 1], Rot(b, ptr[j])[..|b| - 1]);
      }
    }
  }

  lemma LexHead(x: seq<int>, y: seq<int>)
    requires x != [] && y != [] && x[0] < y[0]
    ensures LexLe(x, y)
  {
  }

  /** Linking a row leads to the same rotation, one character on. */
  lemma LinkMeans(b: seq<int>, ptr: seq<int>, k: int)
    requires SortsRotations(b, ptr) && 0 <= k < |b|
    ensures var i := Psi(LastColumn(b, ptr))[k];
            Rot(b, Prev(ptr[i], |b|)) == Rot(b, ptr[k])
  {
    hide Sorted, LexLe, Psi;
    var all := seq(|b|, j requires 0 <= j < |b| => Rot(b, j));
    LinkedPermutes(b, ptr);
    LinkedSorted(b, ptr);
    assert Compose(all, ptr) == Rows(b, ptr);
    assert Compose(all, Linked(b, ptr)) == Rows(b, Linked(b, ptr));
    ComposeKeepsElements(all, ptr);
    ComposeKeepsElements(all, Linked(b, ptr));
    SortedUnique(Rows(b, ptr), Rows(b, Linked(b, ptr)));
    assert Rows(b, ptr)[k] == Rows(b, Linked(b, ptr))[k];
  }

  // ---------------------------------------------------------------- the encoder's side

  /** Finds the row of the unrotated block; the assertion after the search cannot fail. */
  method FindOrigin(ptr: seq<int>) returns (origPtr: int)
    requires IsPermutation(ptr, |ptr|) && |ptr| > 0
    ensures 0 <= origPtr < |ptr| && ptr[origPtr] == 0
  {
    ghost var k := Hit(ptr, |ptr|, 0);
    origPtr := -1;
    for i := 0 to |ptr|
      invariant origPtr == -1 && k >= i
    {
      if ptr[i] == 0 {
        origPtr := i;
        break;
      }
    }
    assert origPtr != -1;
  }

  // ---------------------------------------------------------------- the decoder's side

  /** From counts of every byte to the number of smaller bytes. */
  method FillCftab(cftab: array<int>, unzftab: seq<int>, ghost l: seq<int>)
    requires cftab.Length == 257 && |unzftab| == 256
    requires forall i | 0 <= i < |l| :: 0 <= l[i] < 256
    requires forall c | 0 <= c < 256 :: unzftab[c] == Equal(l, c, |l|)
    modifies cftab
    ensures forall c | 0 <= c <= 256 :: cftab[c] == Less(l, c, |l|)
  {
    cftab[0] := 0;
    for i := 1 to 257
      invariant cftab[0] == 0 && forall c | 1 <= c < i :: cftab[c] == unzftab[c - 1]
    {
      cftab[i] := unzftab[i - 1];
    }
    NothingLess(l, |l|);
    for i := 1 to 257
      invariant forall c | 0 <= c < i :: cftab[c] == Less(l, c, |l|)
      invariant forall c | i <= c < 257 :: cftab[c] == unzftab[c - 1]
    {
      LessStep(l, i - 1, |l|);
      cftab[i] := cftab[i] + cftab[i - 1];
    }
  }

  /** An entry of tt: a byte of the last column, and above it the row that it leads to. */
  ghost function Entry(l: seq<int>, k: int, i: int): int
    requires 0 <= k < |l|
  {
    l[k] + 256 * (if Psi(l)[k] < i then Psi(l)[k] else 0)
  }

  /** Processing byte `i` changes the entry at its destination and no other. */
  lemma EntryStep(l: seq<int>, i: nat, k: nat)
    requires i < |l| && k < |l|
    ensures Entry(l, k, i) % 256 == l[k] % 256
    ensures Entry(l, k, i + 1) == Entry(l, k, i) + (if k == Dest(l, i) then 256 * i else 0)
  {
    hide Dest, Psi;
    PsiInverse(l);
  }

  /** Links every byte of the last column to its place in the first column. */
  method ComputeTt(tt: array<int>, cftab: array<int>, ghost l: seq<int>)
    requires tt != cftab && tt[..] == l && cftab.Length == 257
    requires forall i | 0 <= i < |l| :: 0 <= l[i] < 256
    requires forall c | 0 <= c < 256 :: cftab[c] == Less(l, c, |l|)
    modifies tt, cftab
    ensures Threaded(tt[..], l)
  {
    hide Less, Psi, Dest;
    for i := 0 to tt.Length
      invariant forall k | 0 <= k < |l| :: tt[k] == Entry(l, k, i)
      invariant forall c | 0 <= c < 256 :: cftab[c] == Less(l, c, |l|) + Equal(l, c, i)
    {
      hide Entry, Equal;
      EntryStep(l, i, i);
      var uc := tt[i] % 256;
      DestIs(l, i);
      DestRange(l, i);
      forall k | 0 <= k < |l|
        ensures Entry(l, k, i + 1) == Entry(l, k, i) + (if k == Dest(l, i) then 256 * i else 0)
      {
        EntryStep(l, i, k);
      }
      tt[cftab[uc]] := tt[cftab[uc]] + 256 * i;
      EqualSteps(l, i);
      cftab[uc] := cftab[uc] + 1;
    }
  }

  lemma DestIs(l: seq<int>, i: nat)
    requires i < |l|
    ensures Dest(l, i) == Less(l, l[i], |l|) + Equal(l, l[i], i)
  {
  }

  lemma EqualSteps(l: seq<int>, i: nat)
    requires i < |l|
    ensures forall c :: Equal(l, c, i + 1) == Equal(l, c, i) + (if l[i] == c then 1 else 0)
  {
  }

  /** One link: the byte met is the next byte of the block, and the row moves on by one rotation. */
  lemma WalkStep(b: seq<int>, ptr: seq<int>, row: int, m: nat)
    requires SortsRotations(b, ptr) && 0 <= row < |b| && m < |b| && Rot(b, ptr[row]) == Rot(b, m)
    ensures var i := Psi(LastColumn(b, ptr))[row];
            LastColumn(b, ptr)[i] == b[m] && Rot(b, ptr[i]) == Rot(b, m + 1)
  {
    hide Sorted, Psi;
    LinkMeans(b, ptr, row);
    var j := ptr[Psi(LastColumn(b, ptr))[row]];
    RotStep(b, m);
    RotStep(b, Prev(j, |b|));
    RotWraps(b, j);
  }

  lemma RotWraps(b: seq<int>, j: int)
    requires 0 <= j < |b|
    ensures Rot(b, Prev(j, |b|) + 1) == Rot(b, j)
  {
  }

  /** The row reached from `row` by following `n` links. */
  ghost function RowAfter(l: seq<int>, row: int, n: nat): (r: int)
    requires 0 <= row < |l|
    ensures 0 <= r < |l|
  {
    if n == 0 then row else Psi(l)[RowAfter(l, row, n - 1)]
  }

  /** The bytes met on the way. */
  ghost function Follow(l: seq<int>, row: int, n: nat): (xs: seq<int>)
    requires 0 <= row < |l|
    ensures |xs| == n
  {
    seq(n, i requires 0 <= i < n => l[RowAfter(l, row, i + 1)])
  }

  /** Every entry holds a byte of the column and, above it, the row that it leads to. */
  ghost predicate Threaded(tt: seq<int>, l: seq<int>) {
    |tt| == |l| && forall k {:trigger tt[k]} | 0 <= k < |l| :: 0 <= l[k] < 256 && tt[k] == l[k] + 256 * Psi(l)[k]
  }

  lemma ThreadedAt(tt: seq<int>, l: seq<int>, k: int)
    requires Threaded(tt, l) && 0 <= k < |l|
    ensures |tt| == |l| && tt[k] % 256 == l[k] && tt[k] / 256 == Psi(l)[k]
  {
    hide Psi;
    assert tt[k] == l[k] + 256 * Psi(l)[k];
    EntryParts(l[k], Psi(l)[k]);
  }

  lemma EntryParts(c: int, p: int)
    requires 0 <= c < 256
    ensures (c + 256 * p) % 256 == c && (c + 256 * p) / 256 == p
  {
  }

  lemma FollowNone(l: seq<int>, row: int)
    requires 0 <= row < |l|
    ensures Follow(l, row, 0) == [] && RowAfter(l, row, 1) == Psi(l)[row]
  {
    assert RowAfter(l, row, 0) == row;
  }

  lemma FollowMore(l: seq<int>, row: int, m: nat)
    requires 0 <= row < |l|
    ensures Follow(l, row, m + 1) == Follow(l, row, m) + [l[RowAfter(l, row, m + 1)]]
    ensures RowAfter(l, row, m + 2) == Psi(l)[RowAfter(l, row, m + 1)]
  {
    hide Psi;
  }

  /** Follows `n` links from the origin. */
  method Unwind(tt: array<int>, origPtr: int, n: nat, ghost l: seq<int>) returns (out: seq<int>)
    requires 0 <= origPtr < |l| == tt.Length && Threaded(tt[..], l)
    ensures out == Follow(l, origPtr, n)
  {
    hide Psi, RowAfter, Follow, Threaded;
    FollowNone(l, origPtr);
    ThreadedAt(tt[..], l, origPtr);
    var tPos := tt[origPtr] / 256;
    out := [];
    for m := 0 to n
      invariant tPos == RowAfter(l, origPtr, m + 1) && out == Follow(l, origPtr, m)
    {
      FollowMore(l, origPtr, m);
      ThreadedAt(tt[..], l, tPos);
      tPos := tt[tPos];
      out := out + [tPos % 256];
      tPos := tPos / 256;
    }
  }

  lemma {:induction false} RowIs(b: seq<int>, ptr: seq<int>, origPtr: int, m: nat)
    requires SortsRotations(b, ptr) && 0 <= origPtr < |b| && ptr[origPtr] == 0 && m <= |b|
    ensures Rot(b, ptr[RowAfter(LastColumn(b, ptr), origPtr, m)]) == Rot(b, m)
  {
    hide Sorted, Psi, Rows, Rot;
    if m > 0 {
      RowIs(b, ptr, origPtr, m - 1);
      WalkStep(b, ptr, RowAfter(LastColumn(b, ptr), origPtr, m - 1), m - 1);
    }
  }

  /** From the row of the block itself, the bytes met are the block. */
  lemma FollowBlock(b: seq<int>, ptr: seq<int>, origPtr: int)
    requires SortsRotations(b, ptr) && 0 <= origPtr < |b| && ptr[origPtr] == 0
    ensures Follow(LastColumn(b, ptr), origPtr, |b|) == b
  {
    hide Sorted, Psi, Rows, Rot;
    var l := LastColumn(b, ptr);
    forall m | 0 <= m < |b|
      ensures Follow(l, origPtr, |b|)[m] == b[m]
    {
      RowIs(b, ptr, origPtr, m);
      WalkStep(b, ptr, RowAfter(l, origPtr, m), m);
    }
  }
}
