/** Partitioning the iterations of a loop among threads. */
module Pardo {
  import opened Arith

  function Blk(n: int, threads: int): int
    requires threads >= 1
  {
    n / threads
  }

  function Times(blk: int, t: int): int {
    blk * t
  }

  /** Where the iterations of thread `t` begin, before they are aligned to the increment. */
  function M1(first: int, last: int, threads: int, t: int): int
    requires threads >= 1
  {
    if first == 0 && last == threads then t
    else
      var blk := Blk(last - first, threads);
      if blk == 0 then (if first + t >= last then first + t + 1 else first + t)
      else Times(blk, t) + first
  }

  /** Where they end. */
  function M2(first: int, last: int, threads: int, t: int): int
    requires threads >= 1
  {
    if first == 0 && last == threads then t + 1
    else
      var blk := Blk(last - first, threads);
      if blk == 0 then first + t + 1
      else if t < threads - 1 then Times(blk, t) + first + blk
      else last
  }

  /** `i` is a whole number of increments from the first iteration. */
  predicate Aligned(first: int, inc: int, i: int)
    requires inc >= 1
  {
    (i - first) % inc == 0
  }

  /** Thread `t` runs iteration `i`. */
  predicate Runs(first: int, last: int, inc: int, threads: int, t: int, i: int)
    requires threads >= 1 && inc >= 1
  {
    M1(first, last, threads, t) <= i < M2(first, last, threads, t) && Aligned(first, inc, i)
  }

  /** The bounds cut off at the end of the loop. */
  function Lo(first: int, last: int, threads: int, t: int): int
    requires threads >= 1
  {
    var m := M1(first, last, threads, t);
    if m < last then m else last
  }

  function Hi(first: int, last: int, threads: int, t: int): int
    requires threads >= 1
  {
    var m := M2(first, last, threads, t);
    if m < last then m else last
  }

  /** The threads' pieces follow each other without gap and cover the whole range. */
  lemma Pieces(first: int, last: int, threads: int, t: int)
    requires threads >= 1 && first <= last && 0 <= t < threads
    ensures first <= Lo(first, last, threads, t) <= Hi(first, last, threads, t) <= last
    ensures t == 0 ==> Lo(first, last, threads, t) == first
    ensures t == threads - 1 ==> Hi(first, last, threads, t) == last
    ensures t < threads - 1 ==> Hi(first, last, threads, t) == Lo(first, last, threads, t + 1)
    ensures Lo(first, last, threads, t) < Hi(first, last, threads, t) ==>
              Lo(first, last, threads, t) == M1(first, last, threads, t)
                  && Hi(first, last, threads, t) == M2(first, last, threads, t)
    ensures Lo(first, last, threads, t) == Hi(first, last, threads, t) ==>
        M1(first, last, threads, t) >= M2(first, last, threads, t)
  {
    hide Blk, Times;
    var n := last - first;
    BlockBounds(n, threads, t);
    if t < threads - 1 {
      BlockBounds(n, threads, t + 1);
    }
  }

  /** With enough iterations every thread but the last gets the same number of consecutive ones, and the last gets the
      rest; with fewer, each of the first threads gets one. */
  lemma Shares(first: int, last: int, threads: int, t: int)
    requires threads >= 1 && first <= last && 0 <= t < threads
    ensures last - first >= threads ==>
              var share := (last - first) / threads;
              && M1(first, last, threads, t) == first + t * share
              && M2(first, last, threads, t) == if t < threads - 1 then first + t * share + share else last
    ensures last - first < threads ==>
              if t < last - first
              then M1(first, last, threads, t) == first + t && M2(first, last, threads, t) == first + t + 1
              else M1(first, last, threads, t) >= M2(first, last, threads, t)
  {
    BlockBounds(last - first, threads, t);
    if first == 0 && last == threads {
      ModUnique(last, threads, 1, 0);
    }
  }

  lemma BlockBounds(n: int, threads: int, t: int)
    requires threads >= 1 && n >= 0 && 0 <= t < threads
    ensures 0 <= Blk(n, threads) && 0 <= Times(Blk(n, threads), t) && Times(Blk(n, threads), t) + Blk(n, threads) <= n
    ensures Times(Blk(n, threads), t + 1) == Times(Blk(n, threads), t) + Blk(n, threads)
    ensures Times(Blk(n, threads), 0) == 0
    ensures Blk(n, threads) == 0 <==> n < threads
  {
    var b := n / threads;
    assert n == threads * b + n % threads;
    Grow(b, t, threads - 1);
    assert b * (threads - 1) + b == b * threads;
    if b >= 1 {
      MulGap(threads, b);
    }
  }

  lemma Grow(b: int, x: int, y: int)
    requires b >= 0 && 0 <= x <= y
    ensures 0 <= b * x <= b * y
  {
    assert b * y - b * x == b * (y - x);
  }

  lemma {:induction false} LoMonotone(first: int, last: int, threads: int, t: int, u: int)
    requires threads >= 1 && first <= last && 0 <= t < u < threads
    ensures Hi(first, last, threads, t) <= Lo(first, last, threads, u)
    decreases u
  {
    Pieces(first, last, threads, t);
    if t < u - 1 {
      LoMonotone(first, last, threads, t, u - 1);
      Pieces(first, last, threads, u - 1);
    }
  }

  /** The thread that runs iteration `i`. */
  lemma {:induction false} FindOwner(first: int, last: int, threads: int, i: int, u: int) returns (t: int)
    requires threads >= 1 && first <= i < last && 0 <= u < threads && i < Hi(first, last, threads, u)
    ensures 0 <= t <= u && Lo(first, last, threads, t) <= i < Hi(first, last, threads, t)
  {
    Pieces(first, last, threads, u);
    if Lo(first, last, threads, u) <= i {
      t := u;
    } else {
      Pieces(first, last, threads, u - 1);
      t := FindOwner(first, last, threads, i, u - 1);
    }
  }

  /** Every iteration of the loop is run by exactly one thread, and no thread runs anything else. */
  lemma Partition(first: int, last: int, inc: int, threads: int, i: int)
    requires threads >= 1 && inc >= 1 && first <= last
    ensures first <= i < last && Aligned(first, inc, i) <==>
        exists t :: 0 <= t < threads && Runs(first, last, inc, threads, t, i)
    ensures forall t, u | 0 <= t < u < threads ::
        !(Runs(first, last, inc, threads, t, i) && Runs(first, last, inc, threads, u, i))
  {
    hide M1, M2;
    forall t | 0 <= t < threads
      ensures Runs(first, last, inc, threads, t, i) <==>
          Lo(first, last, threads, t) <= i < Hi(first, last, threads, t) && Aligned(first, inc, i)
      ensures first <= Lo(first, last, threads, t) <= Hi(first, last, threads, t) <= last
    {
      Pieces(first, last, threads, t);
    }
    if first <= i < last && Aligned(first, inc, i) {
      Pieces(first, last, threads, threads - 1);
      var t := FindOwner(first, last, threads, i, threads - 1);
    }
    forall t, u | 0 <= t < u < threads
      ensures !(Runs(first, last, inc, threads, t, i) && Runs(first, last, inc, threads, u, i))
    {
      LoMonotone(first, last, threads, t, u);
    }
  }

  /** The values that the loop variable of thread `me` takes. */
  method Iterate(first: int, last: int, inc: int, threads: int, me: int) returns (run: seq<int>)
    requires threads >= 1 && inc >= 1 && first <= last && 0 <= me < threads
    ensures forall i :: i in run <==> Runs(first, last, inc, threads, me, i)
    ensures forall a, b | 0 <= a < b < |run| :: run[a] < run[b]
  {
    hide M1, M2, Aligned;
    var m1, m2 := M1(first, last, threads, me), M2(first, last, threads, me);
    ghost var m0 := m1;
    while inc > 1 && !Aligned(first, inc, m1)
      invariant m0 <= m1 && forall i | m0 <= i < m1 :: !Aligned(first, inc, i)
      decreases Steps(first, inc, m1)
    {
      OneStep(first, inc, m1);
      m1 := m1 + 1;
    }
    AlignedByOne(first, m1);
    run := [];
    var i := m1;
    while i < m2
      invariant m1 <= i && Aligned(first, inc, i)
      invariant forall k :: k in run <==> m1 <= k < i && k < m2 && Aligned(first, inc, k)
      invariant forall a, b | 0 <= a < b < |run| :: run[a] < run[b]
      decreases m2 - i
    {
      assert forall a | 0 <= a < |run| :: run[a] in run;
      run := run + [i];
      NextAligned(first, inc, i);
      i := i + inc;
    }
  }

  lemma AlignedByOne(first: int, i: int)
    ensures Aligned(first, 1, i)
  {
  }

  /** How far the next aligned iteration is. */
  ghost function Steps(first: int, inc: int, i: int): int
    requires inc >= 1
  {
    var r := (i - first) % inc;
    if r == 0 then 0 else inc - r
  }

  lemma OneStep(first: int, inc: int, i: int)
    requires inc > 1 && !Aligned(first, inc, i)
    ensures 0 <= Steps(first, inc, i + 1) < Steps(first, inc, i)
  {
    NextRemainder(i - first, inc);
    assert i + 1 - first == i - first + 1;
  }

  lemma NextAligned(first: int, inc: int, i: int)
    requires inc >= 1 && Aligned(first, inc, i)
    ensures Aligned(first, inc, i + inc) && forall k | i < k < i + inc :: !Aligned(first, inc, k)
  {
    SkipRemainders(i - first, inc);
    assert i + inc - first == i - first + inc;
    forall k | i < k < i + inc
      ensures !Aligned(first, inc, k)
    {
      var y := k - first;
      assert y % inc != 0;
    }
  }

  lemma NextRemainder(x: int, inc: int)
    requires inc > 1 && x % inc > 0
    ensures (x + 1) % inc == 0 || (x + 1) % inc == x % inc + 1
  {
    var q, r := x / inc, x % inc;
    if r + 1 == inc {
      ModUnique(x + 1, inc, q + 1, 0);
    } else {
      ModUnique(x + 1, inc, q, r + 1);
    }
  }

  lemma SkipRemainders(x: int, inc: int)
    requires inc >= 1 && x % inc == 0
    ensures (x + inc) % inc == 0 && forall y {:trigger y % inc} | x < y < x + inc :: y % inc != 0
  {
    var q := x / inc;
    ModUnique(x + inc, inc, q + 1, 0);
    forall y {:trigger y % inc} | x < y < x + inc
      ensures y % inc != 0
    {
      ModUnique(y, inc, q, y - x);
    }
  }
}
