/** The fallback quicksort. */
module FallbackSort {
  // Insertion sort after a gap-4 pass, and a three-way quicksort with an explicit stack.

  import opened Arith

  const STACK_SIZE := 100
  const SMALL := 10

  // ---------------------------------------------------------------- permutations of a range

  /** `t` rearranges `s` between `lo` and `hi` and agrees with it elsewhere. */
  ghost predicate Rearranged(s: seq<int>, t: seq<int>, lo: int, hi: int) {
    && |s| == |t| && multiset(s) == multiset(t)
    && forall k | 0 <= k < |s| && !(lo <= k <= hi) :: s[k] == t[k]
  }

  function Swapped(s: seq<int>, i: int, j: int): (t: seq<int>)
    requires 0 <= i < |s| && 0 <= j < |s|
    ensures |t| == |s|
  {
    s[i := s[j]][j := s[i]]
  }

  lemma SwapRearranges(s: seq<int>, t: seq<int>, i: int, j: int, lo: int, hi: int)
    requires Rearranged(s, t, lo, hi) && 0 <= lo <= i <= hi && lo <= j <= hi < |s|
    ensures Rearranged(s, Swapped(t, i, j), lo, hi)
  {
    SwapElements(t, i, j);
  }

  lemma SwapElements(s: seq<int>, i: int, j: int)
    requires 0 <= i < |s| && 0 <= j < |s|
    ensures multiset(Swapped(s, i, j)) == multiset(s)
  {
    var t := s[i := s[j]];
    assert multiset(t) == multiset(s) - multiset{s[i]} + multiset{s[j]};
    assert multiset(t[j := s[i]]) == multiset(t) - multiset{t[j]} + multiset{s[i]};
  }

  /** Every element of the range was in the range before. */
  lemma RangeElements(s: seq<int>, t: seq<int>, lo: int, hi: int, p: int) returns (p': int)
    requires Rearranged(s, t, lo, hi) && 0 <= lo <= p <= hi < |s|
    ensures lo <= p' <= hi && s[p'] == t[p]
  {
    var a, b := s[lo..hi + 1], t[lo..hi + 1];
    SliceElements(s, t, lo, hi);
    assert b[p - lo] == t[p];
    assert t[p] in multiset(b);
    assert t[p] in a;
    var k :| 0 <= k < |a| && a[k] == t[p];
    p' := lo + k;
  }

  lemma ThreeParts(s: seq<int>, lo: int, hi: int)
    requires 0 <= lo <= hi + 1 <= |s|
    ensures multiset(s) == multiset(s[..lo]) + multiset(s[lo..hi + 1]) + multiset(s[hi + 1..])
  {
    assert s == s[..lo] + s[lo..hi + 1] + s[hi + 1..];
  }

  lemma SliceElements(s: seq<int>, t: seq<int>, lo: int, hi: int)
    requires Rearranged(s, t, lo, hi) && 0 <= lo <= hi + 1 <= |s|
    ensures multiset(s[lo..hi + 1]) == multiset(t[lo..hi + 1])
  {
    ThreeParts(s, lo, hi);
    ThreeParts(t, lo, hi);
    assert s[..lo] == t[..lo] && s[hi + 1..] == t[hi + 1..];
    Cancel(multiset(s[..lo]), multiset(s[lo..hi + 1]), multiset(t[lo..hi + 1]), multiset(s[hi + 1..]));
  }

  lemma Cancel(x: multiset<int>, a: multiset<int>, b: multiset<int>, y: multiset<int>)
    requires x + a + y == x + b + y
    ensures a == b
  {
    forall e
      ensures a[e] == b[e]
    {
      assert (x + a + y)[e] == (x + b + y)[e];
    }
  }

  ghost predicate Indices(s: seq<int>, n: int) {
    forall k | 0 <= k < |s| :: 0 <= s[k] < n
  }

  lemma RearrangedIndices(s: seq<int>, t: seq<int>, lo: int, hi: int, n: int)
    requires Rearranged(s, t, lo, hi) && Indices(s, n)
    ensures Indices(t, n)
  {
    forall k | 0 <= k < |t|
      ensures 0 <= t[k] < n
    {
      assert t[k] in multiset(t);
      assert t[k] in s;
    }
  }

  // ---------------------------------------------------------------- insertion sort

  function Key(eclass: seq<int>, i: int): int {
    if 0 <= i < |eclass| then eclass[i] else 0
  }

  ghost predicate Sorted(s: seq<int>, eclass: seq<int>, lo: int, hi: int) {
    forall p, q | 0 <= lo <= p <= q <= hi < |s| :: Key(eclass, s[p]) <= Key(eclass, s[q])
  }

  /** With gap 1: the elements from `i + 1` to `j - 1`, all with smaller keys than `ec`, have moved down by one. */
  ghost predicate MovedDown(was: seq<int>, now: seq<int>, eclass: seq<int>, i: int, j: int, ec: int) {
    && |was| == |now| && 0 <= i < j <= |was|
    && (forall k {:trigger now[k]} | 0 <= k < |was| :: now[k] == if i <= k < j - 1 then was[k + 1] else was[k])
    && forall k | i < k < j :: Key(eclass, was[k]) < ec
  }

  /** Moves `fmap[i]` up in steps of `gap` past smaller keys. */
  method Insert(fmap: array<int>, eclass: seq<int>, i: int, hi: int, gap: int)
    requires 0 <= i && 1 <= gap && i + gap <= hi < fmap.Length && Indices(fmap[..], |eclass|)
    modifies fmap
    ensures Rearranged(old(fmap[..]), fmap[..], i, hi) && Indices(fmap[..], |eclass|)
    ensures gap == 1 && old(Sorted(fmap[..], eclass, i + 1, hi)) ==> Sorted(fmap[..], eclass, i, hi)
  {
    hide Rearranged, MovedDown, Sorted;
    ghost var was := fmap[..];
    var tmp := fmap[i];
    var ec := eclass[tmp];
    var j := i + gap;
    assert was[i := tmp] == was;
    RearrangedSame(was, i, hi);
    MovedNone(was, eclass, i, ec);
    while j <= hi && ec > eclass[fmap[j]]
      invariant i + gap <= j <= hi + gap && Indices(fmap[..], |eclass|)
      invariant Rearranged(was, fmap[..][j - gap := tmp], i, hi)
      invariant gap == 1 ==> MovedDown(was, fmap[..], eclass, i, j, ec)
      decreases hi - j
    {
      ghost var s, now := fmap[..][j - gap := tmp], fmap[..];
      SwapRearranges(was, s, j - gap, j, i, hi);
      if gap == 1 {
        MoveOne(was, now, eclass, i, j, ec);
      }
      fmap[j - gap] := fmap[j];
      assert fmap[..] == now[j - gap := now[j]];
      assert fmap[..][j := tmp] == Swapped(s, j - gap, j);
      j := j + gap;
    }
    ghost var now := fmap[..];
    fmap[j - gap] := tmp;
    assert fmap[..] == now[j - gap := tmp];
    RearrangedIndices(was, fmap[..], i, hi, |eclass|);
    if gap == 1 && Sorted(was, eclass, i + 1, hi) {
      InsertSorted(was, now, eclass, i, hi, j, tmp);
    }
  }

  lemma RearrangedSame(s: seq<int>, lo: int, hi: int)
    ensures Rearranged(s, s, lo, hi)
  {
  }

  lemma MovedNone(was: seq<int>, eclass: seq<int>, i: int, ec: int)
    requires 0 <= i < |was|
    ensures MovedDown(was, was, eclass, i, i + 1, ec)
  {
  }

  lemma MoveOne(was: seq<int>, now: seq<int>, eclass: seq<int>, i: int, j: int, ec: int)
    requires MovedDown(was, now, eclass, i, j, ec) && j < |was| && Key(eclass, now[j]) < ec
    ensures MovedDown(was, now[j - 1 := now[j]], eclass, i, j + 1, ec)
  {
  }

  lemma InsertSorted(was: seq<int>, now: seq<int>, eclass: seq<int>, i: int, hi: int, j: int, tmp: int)
    requires MovedDown(was, now, eclass, i, j, Key(eclass, tmp)) && j <= hi + 1 <= |was|
        && Sorted(was, eclass, i + 1, hi)
    requires j <= hi ==> Key(eclass, tmp) <= Key(eclass, now[j])
    ensures Sorted(now[j - 1 := tmp], eclass, i, hi)
  {
  }

  /** A pass with gap 4 over longer ranges, then insertion sort. */
  method SimpleSort(fmap: array<int>, eclass: seq<int>, lo: int, hi: int)
    requires 0 <= lo <= hi + 1 <= fmap.Length && Indices(fmap[..], |eclass|)
    modifies fmap
    ensures Rearranged(old(fmap[..]), fmap[..], lo, hi) && Indices(fmap[..], |eclass|)
    ensures Sorted(fmap[..], eclass, lo, hi)
  {
    if lo == hi { return; }
    var i;
    if hi - lo > 3 {
      i := hi - 4;
      while i >= lo
        invariant lo - 1 <= i <= hi - 4 && Indices(fmap[..], |eclass|) && Rearranged(old(fmap[..]), fmap[..], lo, hi)
      {
        ghost var s := fmap[..];
        Insert(fmap, eclass, i, hi, 4);
        Widen(old(fmap[..]), s, fmap[..], lo, hi, i);
        i := i - 1;
      }
    }
    i := hi - 1;
    while i >= lo
      invariant lo - 1 <= i <= hi - 1 || (i == hi - 1 && hi < lo)
      invariant Indices(fmap[..], |eclass|) && Rearranged(old(fmap[..]), fmap[..], lo, hi)
      invariant Sorted(fmap[..], eclass, i + 1, hi)
    {
      ghost var s := fmap[..];
      Insert(fmap, eclass, i, hi, 1);
      Widen(old(fmap[..]), s, fmap[..], lo, hi, i);
      i := i - 1;
    }
  }

  lemma Widen(r: seq<int>, s: seq<int>, t: seq<int>, lo: int, hi: int, i: int)
    requires Rearranged(r, s, lo, hi) && Rearranged(s, t, i, hi) && lo <= i
    ensures Rearranged(r, t, lo, hi)
  {
  }

  // ---------------------------------------------------------------- three-way partition

  /** Between `lo` and `hi`: keys equal to `med`, smaller ones, unknown ones, larger ones, and equal ones again. */
  ghost predicate Parted(s: seq<int>, eclass: seq<int>, med: int, lo: int, ltLo: int, unLo: int, unHi: int, gtHi: int,
      hi: int) {
    && 0 <= lo <= ltLo <= unLo <= unHi + 1 <= gtHi + 1 <= hi + 1 <= |s|
    && (forall k | lo <= k < ltLo :: Key(eclass, s[k]) == med)
    && (forall k | ltLo <= k < unLo :: Key(eclass, s[k]) < med)
    && (forall k | unHi < k <= gtHi :: Key(eclass, s[k]) > med)
    && (forall k | gtHi < k <= hi :: Key(eclass, s[k]) == med)
  }

  method Swap(fmap: array<int>, i: int, j: int, ghost was: seq<int>, ghost lo: int, ghost hi: int, ghost n: int)
    requires 0 <= lo <= i <= hi && lo <= j <= hi < fmap.Length && Rearranged(was, fmap[..], lo, hi)
        && Indices(fmap[..], n)
    modifies fmap
    ensures fmap[..] == Swapped(old(fmap[..]), i, j) && Rearranged(was, fmap[..], lo, hi) && Indices(fmap[..], n)
  {
    SwapRearranges(was, fmap[..], i, j, lo, hi);
    fmap[i], fmap[j] := fmap[j], fmap[i];
  }

  /** Scans up past keys that are not larger. */
  method ScanUp(fmap: array<int>, eclass: seq<int>, med: int, ghost was: seq<int>, lo: int, ltLo0: int, unLo0: int,
      unHi: int, gtHi: int, hi: int)
    returns (ltLo: int, unLo: int)
    requires Parted(fmap[..], eclass, med, lo, ltLo0, unLo0, unHi, gtHi, hi)
    requires Rearranged(was, fmap[..], lo, hi) && Indices(fmap[..], |eclass|)
    modifies fmap
    ensures Parted(fmap[..], eclass, med, lo, ltLo, unLo, unHi, gtHi, hi) && unLo0 <= unLo && ltLo0 <= ltLo
    ensures unLo <= unHi ==> Key(eclass, fmap[unLo]) > med
    ensures Rearranged(was, fmap[..], lo, hi) && Indices(fmap[..], |eclass|)
  {
    hide Rearranged;
    ltLo, unLo := ltLo0, unLo0;
    while unLo <= unHi
      invariant Parted(fmap[..], eclass, med, lo, ltLo, unLo, unHi, gtHi, hi) && unLo0 <= unLo && ltLo0 <= ltLo
      invariant Rearranged(was, fmap[..], lo, hi) && Indices(fmap[..], |eclass|)
      decreases unHi - unLo
    {
      var n := eclass[fmap[unLo]] - med;
      if n == 0 {
        Swap(fmap, unLo, ltLo, was, lo, hi, |eclass|);
        ltLo, unLo := ltLo + 1, unLo + 1;
        continue;
      }
      if n > 0 { break; }
      unLo := unLo + 1;
    }
  }

  /** Scans down past keys that are not smaller. */
  method ScanDown(fmap: array<int>, eclass: seq<int>, med: int, ghost was: seq<int>, lo: int, ltLo: int, unLo: int,
      unHi0: int, gtHi0: int, hi: int)
    returns (unHi: int, gtHi: int)
    requires Parted(fmap[..], eclass, med, lo, ltLo, unLo, unHi0, gtHi0, hi)
    requires Rearranged(was, fmap[..], lo, hi) && Indices(fmap[..], |eclass|)
    modifies fmap
    ensures Parted(fmap[..], eclass, med, lo, ltLo, unLo, unHi, gtHi, hi) && unHi <= unHi0 && gtHi <= gtHi0
    ensures unLo <= unHi ==> Key(eclass, fmap[unHi]) < med
    ensures unLo <= unHi0 ==> fmap[unLo] == old(fmap[unLo]) || unHi < unLo
    ensures Rearranged(was, fmap[..], lo, hi) && Indices(fmap[..], |eclass|)
  {
    hide Rearranged, Parted;
    PartedBounds(fmap[..], eclass, med, lo, ltLo, unLo, unHi0, gtHi0, hi);
    unHi, gtHi := unHi0, gtHi0;
    while unLo <= unHi
      invariant 0 <= lo <= unLo <= unHi + 1 <= gtHi + 1 <= hi + 1 <= fmap.Length
      invariant Parted(fmap[..], eclass, med, lo, ltLo, unLo, unHi, gtHi, hi) && unHi <= unHi0 && gtHi <= gtHi0
      invariant Rearranged(was, fmap[..], lo, hi) && Indices(fmap[..], |eclass|)
      invariant unLo <= unHi ==> fmap[unLo] == old(fmap[unLo])
      decreases unHi - unLo
    {
      var n := eclass[fmap[unHi]] - med;
      if n == 0 {
        DownEqual(fmap[..], eclass, med, lo, ltLo, unLo, unHi, gtHi, hi);
        Swap(fmap, unHi, gtHi, was, lo, hi, |eclass|);
        gtHi, unHi := gtHi - 1, unHi - 1;
        continue;
      }
      if n < 0 { break; }
      DownGreater(fmap[..], eclass, med, lo, ltLo, unLo, unHi, gtHi, hi);
      unHi := unHi - 1;
    }
  }

  lemma PartedBounds(s: seq<int>, eclass: seq<int>, med: int, lo: int, ltLo: int, unLo: int, unHi: int, gtHi: int,
      hi: int)
    requires Parted(s, eclass, med, lo, ltLo, unLo, unHi, gtHi, hi)
    ensures 0 <= lo <= ltLo <= unLo <= unHi + 1 <= gtHi + 1 <= hi + 1 <= |s|
  {
  }

  lemma DownEqual(s: seq<int>, eclass: seq<int>, med: int, lo: int, ltLo: int, unLo: int, unHi: int, gtHi: int, hi: int)
    requires Parted(s, eclass, med, lo, ltLo, unLo, unHi, gtHi, hi) && unLo <= unHi && Key(eclass, s[unHi]) == med
    ensures Parted(Swapped(s, unHi, gtHi), eclass, med, lo, ltLo, unLo, unHi - 1, gtHi - 1, hi)
  {
  }

  lemma DownGreater(s: seq<int>, eclass: seq<int>, med: int, lo: int, ltLo: int, unLo: int, unHi: int, gtHi: int,
      hi: int)
    requires Parted(s, eclass, med, lo, ltLo, unLo, unHi, gtHi, hi) && unLo <= unHi && Key(eclass, s[unHi]) > med
    ensures Parted(s, eclass, med, lo, ltLo, unLo, unHi - 1, gtHi, hi)
  {
  }

  /** Gathers the keys smaller than `med` and those larger, with the equal ones at both ends. */
  method Gather(fmap: array<int>, eclass: seq<int>, med: int, lo: int, hi: int)
    returns (ltLo: int, unLo: int, unHi: int, gtHi: int)
    requires 0 <= lo <= hi < fmap.Length && Indices(fmap[..], |eclass|)
    modifies fmap
    ensures Rearranged(old(fmap[..]), fmap[..], lo, hi) && Indices(fmap[..], |eclass|)
    ensures Parted(fmap[..], eclass, med, lo, ltLo, unLo, unHi, gtHi, hi) && unHi == unLo - 1
  {
    hide Rearranged;
    ghost var was := fmap[..];
    RearrangedSame(was, lo, hi);
    ltLo, unLo, unHi, gtHi := lo, lo, hi, hi;
    while true
      invariant Parted(fmap[..], eclass, med, lo, ltLo, unLo, unHi, gtHi, hi)
      invariant Rearranged(was, fmap[..], lo, hi) && Indices(fmap[..], |eclass|)
      decreases unHi - unLo
    {
      ltLo, unLo := ScanUp(fmap, eclass, med, was, lo, ltLo, unLo, unHi, gtHi, hi);
      unHi, gtHi := ScanDown(fmap, eclass, med, was, lo, ltLo, unLo, unHi, gtHi, hi);
      if unLo > unHi { break; }
      Swap(fmap, unLo, unHi, was, lo, hi, |eclass|);
      unLo, unHi := unLo + 1, unHi - 1;
    }
  }

  /** Exchanges two disjoint runs of `n` elements. */
  method SwapRuns(fmap: array<int>, p1: int, p2: int, n: int, ghost was: seq<int>, ghost lo: int, ghost hi: int,
      ghost bound: int)
    requires 0 <= n && 0 <= lo <= p1 && p1 + n <= p2 && p2 + n <= hi + 1 <= fmap.Length
    requires Rearranged(was, fmap[..], lo, hi) && Indices(fmap[..], bound)
    modifies fmap
    ensures Rearranged(was, fmap[..], lo, hi) && Indices(fmap[..], bound)
    ensures RunsSwapped(old(fmap[..]), fmap[..], p1, p2, n)
  {
    hide Rearranged;
    var i := 0;
    while i < n
      invariant 0 <= i <= n && Rearranged(was, fmap[..], lo, hi) && Indices(fmap[..], bound)
      invariant RunsSwapped(old(fmap[..]), fmap[..], p1, p2, i)
    {
      Swap(fmap, p1 + i, p2 + i, was, lo, hi, bound);
      i := i + 1;
    }
  }

  /** Smaller keys up to `n`, keys equal to `med` between `n` and `m`, larger keys from `m` on. */
  ghost predicate Split3(s: seq<int>, eclass: seq<int>, med: int, lo: int, n: int, m: int, hi: int) {
    && 0 <= lo <= n + 1 <= m <= hi + 1 <= |s|
    && (forall k | lo <= k <= n :: Key(eclass, s[k]) < med)
    && (forall k | n < k < m :: Key(eclass, s[k]) == med)
    && (forall k | m <= k <= hi :: Key(eclass, s[k]) > med)
  }

  /** Partitions a range around `med`; reports when all keys are equal to it. */
  method Partition(fmap: array<int>, eclass: seq<int>, med: int, lo: int, hi: int) returns (equal: bool, n: int, m: int)
    requires 0 <= lo <= hi < fmap.Length && Indices(fmap[..], |eclass|)
    modifies fmap
    ensures Rearranged(old(fmap[..]), fmap[..], lo, hi) && Indices(fmap[..], |eclass|)
    ensures equal ==> forall k | lo <= k <= hi :: Key(eclass, fmap[k]) == med
    ensures !equal ==> Split3(fmap[..], eclass, med, lo, n, m, hi) && (lo <= n || m <= hi)
  {
    hide Rearranged, Parted, RunsSwapped, Split3;
    var ltLo, unLo, unHi, gtHi := Gather(fmap, eclass, med, lo, hi);
    PartedBounds(fmap[..], eclass, med, lo, ltLo, unLo, unHi, gtHi, hi);
    if gtHi < ltLo {
      AllEqual(fmap[..], eclass, med, lo, ltLo, unLo, unHi, gtHi, hi);
      return true, 0, 0;
    }
    ghost var s := fmap[..];
    n := if ltLo - lo < unLo - ltLo then ltLo - lo else unLo - ltLo;
    SwapRuns(fmap, lo, unLo - n, n, old(fmap[..]), lo, hi, |eclass|);
    ghost var t := fmap[..];
    m := if hi - gtHi < gtHi - unHi then hi - gtHi else gtHi - unHi;
    SwapRuns(fmap, unLo, hi - m + 1, m, old(fmap[..]), lo, hi, |eclass|);
    PartedSplits(s, t, fmap[..], eclass, med, lo, ltLo, unLo, gtHi, hi, n, m);
    n := lo + unLo - ltLo - 1;
    m := hi - (gtHi - unHi) + 1;
    equal := false;
  }

  lemma AllEqual(s: seq<int>, eclass: seq<int>, med: int, lo: int, ltLo: int, unLo: int, unHi: int, gtHi: int, hi: int)
    requires Parted(s, eclass, med, lo, ltLo, unLo, unHi, gtHi, hi) && unHi == unLo - 1 && gtHi < ltLo
    ensures forall k | lo <= k <= hi :: Key(eclass, s[k]) == med
  {
  }

  lemma PartedSplits(s: seq<int>, t: seq<int>, u: seq<int>, eclass: seq<int>, med: int, lo: int, ltLo: int, unLo: int,
      gtHi: int, hi: int, n: int, m: int)
    requires Parted(s, eclass, med, lo, ltLo, unLo, unLo - 1, gtHi, hi)
    requires n == (if ltLo - lo < unLo - ltLo then ltLo - lo else unLo - ltLo) && RunsSwapped(s, t, lo, unLo - n, n)
    requires m == (if hi - gtHi < gtHi - (unLo - 1) then hi - gtHi else gtHi - (unLo - 1))
        && RunsSwapped(t, u, unLo, hi - m + 1, m)
    ensures Split3(u, eclass, med, lo, lo + unLo - ltLo - 1, hi - (gtHi - (unLo - 1)) + 1, hi)
  {
    FrontMoved(s, t, eclass, med, lo, ltLo, unLo, n);
    BackMoved(t, u, eclass, med, unLo, gtHi, hi, m);
  }

  ghost predicate RunsSwapped(s: seq<int>, t: seq<int>, p1: int, p2: int, n: int) {
    && |s| == |t| && 0 <= n && 0 <= p1 && p1 + n <= p2 && p2 + n <= |s|
    && forall k {:trigger t[k]} | 0 <= k < |s| ::
         t[k] == if p1 <= k < p1 + n then s[k - p1 + p2] else if p2 <= k < p2 + n then s[k - p2 + p1] else s[k]
  }

  lemma FrontMoved(s: seq<int>, t: seq<int>, eclass: seq<int>, med: int, lo: int, ltLo: int, unLo: int, n: int)
    requires lo <= ltLo <= unLo && n == (if ltLo - lo < unLo - ltLo then ltLo - lo else unLo - ltLo)
    requires RunsSwapped(s, t, lo, unLo - n, n)
    requires forall k | lo <= k < ltLo :: Key(eclass, s[k]) == med
    requires forall k | ltLo <= k < unLo :: Key(eclass, s[k]) < med
    ensures forall k | lo <= k < lo + unLo - ltLo :: Key(eclass, t[k]) < med
    ensures forall k | lo + unLo - ltLo <= k < unLo :: Key(eclass, t[k]) == med
  {
  }

  lemma BackMoved(s: seq<int>, t: seq<int>, eclass: seq<int>, med: int, unLo: int, gtHi: int, hi: int, m: int)
    requires unLo - 1 <= gtHi <= hi && m == (if hi - gtHi < gtHi - (unLo - 1) then hi - gtHi else gtHi - (unLo - 1))
    requires RunsSwapped(s, t, unLo, hi - m + 1, m)
    requires forall k | unLo <= k <= gtHi :: Key(eclass, s[k]) > med
    requires forall k | gtHi < k <= hi :: Key(eclass, s[k]) == med
    ensures forall k | unLo <= k < hi - (gtHi - (unLo - 1)) + 1 :: Key(eclass, t[k]) == med
    ensures forall k | hi - (gtHi - (unLo - 1)) + 1 <= k <= hi :: Key(eclass, t[k]) > med
  {
  }

  // ---------------------------------------------------------------- the stack

  datatype Range = Range(lo: int, hi: int)

  ghost function Size(r: Range): int {
    r.hi - r.lo + 1
  }

  ghost function Total(st: seq<Range>): int {
    if st == [] then 0 else Total(st[..|st| - 1]) + Size(st[|st| - 1])
  }

  ghost predicate Nonnegative(st: seq<Range>) {
    forall i | 0 <= i < |st| :: Size(st[i]) >= 0
  }

  lemma TotalMore(st: seq<Range>, r: Range)
    ensures Total(st + [r]) == Total(st) + Size(r)
  {
    assert (st + [r])[..|st|] == st;
  }

  lemma {:induction false} TotalFirst(st: seq<Range>)
    requires st != []
    ensures Total(st) == Size(st[0]) + Total(st[1..])
  {
    if |st| > 1 {
      var st' := st[..|st| - 1];
      TotalFirst(st');
      assert st[1..] == st'[1..] + [st[|st| - 1]];
      TotalMore(st'[1..], st[|st| - 1]);
    } else {
      assert st == [] + [st[0]] && st[1..] == [];
      TotalMore([], st[0]);
    }
  }

  lemma {:induction false} TotalNonnegative(st: seq<Range>)
    requires Nonnegative(st)
    ensures Total(st) >= 0
  {
    if st != [] {
      TotalNonnegative(st[..|st| - 1]);
    }
  }

  lemma TotalNone()
    ensures Total([]) == 0
  {
  }

  /** Every range but the top one is not empty, and at least as long as all those above it together. */
  ghost predicate Tower(st: seq<Range>) {
    forall i | 0 <= i < |st| - 1 :: Size(st[i]) >= 1 && Size(st[i]) >= Total(st[i + 1..])
  }

  /** The stack is at most logarithmically deep. */
  lemma {:induction false} Depth(st: seq<Range>)
    requires Tower(st) && Nonnegative(st) && |st| >= 2
    ensures Pow2(|st| - 2) <= Total(st)
  {
    TotalFirst(st);
    var rest := st[1..];
    TotalNonnegative(rest);
    assert Size(st[0]) >= 1 && Size(st[0]) >= Total(st[0 + 1..]);
    if |st| > 2 {
      forall i | 0 <= i < |rest| - 1
        ensures Size(rest[i]) >= 1 && Size(rest[i]) >= Total(rest[i + 1..])
      {
        assert rest[i] == st[i + 1] && rest[i + 1..] == st[i + 1 + 1..];
      }
      Depth(rest);
    }
  }

  lemma TotalSplit(above: seq<Range>, top: Range, big: Range, small: Range)
    ensures Total(above + [big, small]) == Total(above + [top]) - Size(top) + Size(big) + Size(small)
  {
    assert above + [big, small] == above + [big] + [small];
    TotalMore(above, big);
    TotalMore(above + [big], small);
    TotalMore(above, top);
  }

  lemma TowerAt(below: seq<Range>, top: Range, big: Range, small: Range, i: int)
    requires Tower(below + [top]) && 0 <= i < |below| && Size(big) + Size(small) < Size(top)
    ensures Size(below[i]) >= 1 && Size(below[i]) >= Total((below + [big, small])[i + 1..])
  {
    hide Total;
    var above := below[i + 1..];
    assert (below + [big, small])[i + 1..] == above + [big, small];
    var st := below + [top];
    assert st[i + 1..] == above + [top] && st[i] == below[i];
    TotalSplit(above, top, big, small);
  }

  /** Replacing the top range by a longer and a shorter part of it keeps the tower. */
  lemma TowerSplit(below: seq<Range>, top: Range, big: Range, small: Range)
    requires Tower(below + [top]) && Nonnegative(below)
    requires Size(big) >= Size(small) >= 0 && Size(big) >= 1 && Size(big) + Size(small) < Size(top)
    ensures Tower(below + [big, small]) && Nonnegative(below + [big, small])
    ensures Total(below + [big, small]) < Total(below + [top])
  {
    hide Total;
    var now := below + [big, small];
    TotalSplit(below, top, big, small);
    forall i | 0 <= i < |now| - 1
      ensures Size(now[i]) >= 1 && Size(now[i]) >= Total(now[i + 1..])
    {
      if i < |below| {
        TowerAt(below, top, big, small, i);
      } else {
        assert now[i + 1..] == [] + [small];
        TotalMore([], small);
        TotalNone();
      }
    }
  }

  lemma TowerPop(below: seq<Range>, top: Range)
    requires Tower(below + [top]) && Nonnegative(below + [top])
    ensures Tower(below) && Nonnegative(below) && Total(below) == Total(below + [top]) - Size(top) && Size(top) >= 0
  {
    hide Total;
    var st := below + [top];
    TotalMore(below, top);
    assert st[|below|] == top;
    forall i | 0 <= i < |below|
      ensures Size(below[i]) >= 0
    {
      assert st[i] == below[i];
    }
    forall i | 0 <= i < |below| - 1
      ensures Size(below[i]) >= 1 && Size(below[i]) >= Total(below[i + 1..])
    {
      assert st[i] == below[i] && st[i + 1..] == below[i + 1..] + [top];
      TotalMore(below[i + 1..], top);
    }
  }

  // ---------------------------------------------------------------- what is left to sort

  ghost predicate Apart(st: seq<Range>) {
    forall i, j | 0 <= i < j < |st| :: st[i].hi < st[j].lo || st[j].hi < st[i].lo
  }

  ghost predicate Within(st: seq<Range>, lo: int, hi: int) {
    forall i | 0 <= i < |st| :: lo <= st[i].lo && st[i].hi <= hi && Size(st[i]) >= 0
  }

  ghost predicate Covered(st: seq<Range>, p: int, q: int) {
    exists i :: 0 <= i < |st| && st[i].lo <= p && q <= st[i].hi
  }

  /** Any two elements are in order unless some range of the stack still holds both. */
  ghost predicate Settled(s: seq<int>, eclass: seq<int>, st: seq<Range>, lo: int, hi: int) {
    forall p, q | 0 <= lo <= p < q <= hi < |s| :: Key(eclass, s[p]) <= Key(eclass, s[q]) || Covered(st, p, q)
  }

  /** Within `lo..hi`, only pairs inside one of the parts may be out of order. */
  ghost predicate OnlyIn(t: seq<int>, eclass: seq<int>, lo: int, hi: int, parts: seq<Range>) {
    forall p, q | 0 <= lo <= p < q <= hi < |t| :: Key(eclass, t[p]) <= Key(eclass, t[q]) || Covered(parts, p, q)
  }

  lemma SettledStep(s: seq<int>, t: seq<int>, eclass: seq<int>, below: seq<Range>, top: Range, parts: seq<Range>,
      lo: int, hi: int)
    requires Settled(s, eclass, below + [top], lo, hi) && Apart(below + [top]) && Within(below + [top], lo, hi)
        && 0 <= lo && hi < |s|
    requires Rearranged(s, t, top.lo, top.hi) && lo <= top.lo && top.hi <= hi
    requires OnlyIn(t, eclass, top.lo, top.hi, parts)
    ensures Settled(t, eclass, below + parts, lo, hi)
  {
    var st := below + [top];
    assert st[|below|] == top;
    forall p, q | lo <= p < q <= hi
      ensures Key(eclass, t[p]) <= Key(eclass, t[q]) || Covered(below + parts, p, q)
    {
      if top.lo <= p && q <= top.hi {
        if Covered(parts, p, q) {
          var i :| 0 <= i < |parts| && parts[i].lo <= p && q <= parts[i].hi;
          assert (below + parts)[|below| + i] == parts[i];
        }
      } else {
        var p', q' := p, q;
        if top.lo <= p <= top.hi {
          p' := RangeElements(s, t, top.lo, top.hi, p);
        } else if top.lo <= q <= top.hi {
          q' := RangeElements(s, t, top.lo, top.hi, q);
        }
        assert t[p] == s[p'] && t[q] == s[q'] && p' < q';
        if !(Key(eclass, s[p']) <= Key(eclass, s[q'])) {
          CoveredBelow(below, top, p', q', p, q, parts);
        }
      }
    }
  }

  lemma CoveredBelow(below: seq<Range>, top: Range, p0: int, q0: int, p: int, q: int, parts: seq<Range>)
    requires Apart(below + [top]) && Covered(below + [top], p0, q0) && p0 < q0
    requires p0 == p || (top.lo <= p0 <= top.hi && top.lo <= p <= top.hi)
    requires q0 == q || (top.lo <= q0 <= top.hi && top.lo <= q <= top.hi)
    requires !(top.lo <= p && q <= top.hi)
    ensures p == p0 && q == q0 && Covered(below + parts, p, q)
  {
    var st := below + [top];
    var i :| 0 <= i < |st| && st[i].lo <= p0 && q0 <= st[i].hi;
    assert st[|below|] == top;
    if i < |below| {
      assert st[i].hi < top.lo || top.hi < st[i].lo;
      assert (below + parts)[i] == st[i];
    }
  }

  // ---------------------------------------------------------------- quicksort

  /** The two arrays hold the stack. */
  ghost predicate Held(los: seq<int>, his: seq<int>, st: seq<Range>) {
    |st| <= |los| == |his| && forall k | 0 <= k < |st| :: st[k] == Range(los[k], his[k])
  }

  /** What the stack keeps: a tower of disjoint ranges that together are no longer than the whole. */
  ghost predicate Stacked(st: seq<Range>, lo: int, hi: int) {
    Tower(st) && Nonnegative(st) && Apart(st) && Within(st, lo, hi) && Total(st) <= hi - lo + 1
  }

  lemma StackDepth(st: seq<Range>, lo: int, hi: int)
    requires Stacked(st, lo, hi)
    ensures |st| >= 2 ==> Pow2(|st| - 2) <= hi - lo + 1
    ensures hi - lo + 1 <= 0x7fff_ffff ==> |st| <= 33
  {
    hide Pow2, Tower, Total;
    if |st| >= 2 {
      Depth(st);
      if |st| > 33 {
        assert |st| - 2 >= 32;
        Pow2Monotone(32, |st| - 2);
        WordPowers();
      }
    }
  }

  lemma StackPop(below: seq<Range>, top: Range, lo: int, hi: int)
    requires Stacked(below + [top], lo, hi)
    ensures Stacked(below, lo, hi) && lo <= top.lo && top.hi <= hi && Size(top) >= 0
        && 0 <= Total(below) == Total(below + [top]) - Size(top)
  {
    hide Total, Tower;
    TowerPop(below, top);
    TotalNonnegative(below);
    var st := below + [top];
    assert st[|below|] == top;
    forall i | 0 <= i < |below|
      ensures lo <= below[i].lo && below[i].hi <= hi && Size(below[i]) >= 0
    {
      assert st[i] == below[i];
    }
    forall i, j | 0 <= i < j < |below|
      ensures below[i].hi < below[j].lo || below[j].hi < below[i].lo
    {
      assert st[i] == below[i] && st[j] == below[j];
    }
  }

  /** The two parts of the top range, the longer one first. */
  lemma StackSplit(below: seq<Range>, top: Range, big: Range, small: Range, lo: int, hi: int)
    requires Stacked(below + [top], lo, hi)
    requires Size(big) >= Size(small) >= 0 && Size(big) >= 1 && Size(big) + Size(small) < Size(top)
    requires top.lo <= big.lo && big.hi <= top.hi && top.lo <= small.lo && small.hi <= top.hi
    requires big.hi < small.lo || small.hi < big.lo
    ensures Stacked(below + [big, small], lo, hi) && 0 <= Total(below + [big, small]) < Total(below + [top])
  {
    hide Total, Tower;
    StackPop(below, top, lo, hi);
    TowerSplit(below, top, big, small);
    TotalNonnegative(below + [big, small]);
    var st, now := below + [top], below + [big, small];
    assert st[|below|] == top;
    forall i, j | 0 <= i < j < |now|
      ensures now[i].hi < now[j].lo || now[j].hi < now[i].lo
    {
      if j < |below| {
        assert now[i] == below[i] && now[j] == below[j];
      } else if i < |below| {
        assert st[i] == below[i] == now[i];
        assert st[i].hi < top.lo || top.hi < st[i].lo;
      }
    }
  }

  /** Some key equal to the pivot lies between the two parts. */
  lemma PivotStays(s: seq<int>, t: seq<int>, eclass: seq<int>, med: int, lo: int, n: int, m: int, hi: int, p: int)
    requires Rearranged(s, t, lo, hi) && 0 <= lo <= p <= hi < |s| && Key(eclass, s[p]) == med
    requires Split3(t, eclass, med, lo, n, m, hi)
    ensures n + 1 < m
  {
    var p' := RangeElements(t, s, lo, hi, p);
  }

  /** After the partition only pairs within one part may be out of order. */
  lemma PartsLeft(t: seq<int>, eclass: seq<int>, med: int, lo: int, n: int, m: int, hi: int, parts: seq<Range>)
    requires Split3(t, eclass, med, lo, n, m, hi)
    requires |parts| == 2
        && ((parts[0] == Range(lo, n) && parts[1] == Range(m, hi))
        || (parts[0] == Range(m, hi) && parts[1] == Range(lo, n)))
    ensures OnlyIn(t, eclass, lo, hi, parts)
  {
    forall p, q | lo <= p < q <= hi
      ensures Key(eclass, t[p]) <= Key(eclass, t[q]) || Covered(parts, p, q)
    {
      if q <= n || m <= p {
        assert (parts[0].lo <= p && q <= parts[0].hi) || (parts[1].lo <= p && q <= parts[1].hi);
      }
    }
  }

  lemma Chain(r: seq<int>, s: seq<int>, t: seq<int>, lo: int, hi: int, lo': int, hi': int)
    requires Rearranged(r, s, lo, hi) && Rearranged(s, t, lo', hi') && lo <= lo' && hi' <= hi
    ensures Rearranged(r, t, lo, hi)
  {
  }

  /** Sorts one range completely or splits it in two, and says what remains. */
  method SortRange(fmap: array<int>, eclass: seq<int>, lo: int, hi: int, r: int) returns (r': int, parts: seq<Range>)
    requires 0 <= lo <= hi + 1 <= fmap.Length && Indices(fmap[..], |eclass|) && 0 <= r < 32768
    modifies fmap
    ensures 0 <= r' < 32768 && Rearranged(old(fmap[..]), fmap[..], lo, hi) && Indices(fmap[..], |eclass|)
    ensures OnlyIn(fmap[..], eclass, lo, hi, parts)
    ensures parts == [] || (|parts| == 2 && Size(parts[0]) >= Size(parts[1]) >= 0 && Size(parts[0]) >= 1
        && Size(parts[0]) + Size(parts[1]) < hi - lo + 1)
    ensures forall i | 0 <= i < |parts| :: lo <= parts[i].lo && parts[i].hi <= hi
    ensures |parts| == 2 ==> parts[0].hi < parts[1].lo || parts[1].hi < parts[0].lo
  {
    hide Rearranged, Split3;
    r', parts := r, [];
    if hi - lo < SMALL {
      SimpleSort(fmap, eclass, lo, hi);
      return;
    }
    r' := (r * 7621 + 1) % 32768;
    var r3 := r' % 3;
    var p := if r3 == 0 then lo else if r3 == 1 then (lo + hi) / 2 else hi;
    var med := eclass[fmap[p]];
    ghost var s := fmap[..];
    var equal, n, m := Partition(fmap, eclass, med, lo, hi);
    if equal { return; }
    PivotStays(s, fmap[..], eclass, med, lo, n, m, hi, p);
    SplitBounds(fmap[..], eclass, med, lo, n, m, hi);
    if n - lo > hi - m {
      parts := [Range(lo, n), Range(m, hi)];
    } else {
      parts := [Range(m, hi), Range(lo, n)];
    }
    PartsLeft(fmap[..], eclass, med, lo, n, m, hi, parts);
  }

  lemma SplitBounds(s: seq<int>, eclass: seq<int>, med: int, lo: int, n: int, m: int, hi: int)
    requires Split3(s, eclass, med, lo, n, m, hi)
    ensures 0 <= lo <= n + 1 <= m <= hi + 1 <= |s|
  {
  }

  lemma FirstRange(s: seq<int>, eclass: seq<int>, los: seq<int>, his: seq<int>, lo: int, hi: int)
    requires lo <= hi + 1 && |los| == |his| == STACK_SIZE && los[0] == lo && his[0] == hi
    ensures Stacked([Range(lo, hi)], lo, hi) && Settled(s, eclass, [Range(lo, hi)], lo, hi)
        && Held(los, his, [Range(lo, hi)])
    ensures Rearranged(s, s, lo, hi) && Total([Range(lo, hi)]) >= 0
  {
    var st := [Range(lo, hi)];
    assert st == [] + [Range(lo, hi)];
    TotalMore([], Range(lo, hi));
    TotalNone();
    forall p, q | lo <= p < q <= hi
      ensures Covered(st, p, q)
    {
      assert st[0].lo <= p && q <= st[0].hi;
    }
  }

  lemma HeldTop(los: seq<int>, his: seq<int>, below: seq<Range>, top: Range)
    requires Held(los, his, below + [top])
    ensures |below| < |los| == |his| && top == Range(los[|below|], his[|below|]) && Held(los, his, below)
  {
    var st := below + [top];
    assert st[|below|] == top;
    forall k | 0 <= k < |below|
      ensures below[k] == Range(los[k], his[k])
    {
      assert st[k] == below[k];
    }
  }

  lemma HeldPush(los: seq<int>, his: seq<int>, below: seq<Range>, a: Range, b: Range)
    requires Held(los, his, below) && |below| + 2 <= |los|
    ensures Held(los[|below| := a.lo][|below| + 1 := b.lo], his[|below| := a.hi][|below| + 1 := b.hi], below + [a, b])
  {
  }

  method PushTwo(stackLo: array<int>, stackHi: array<int>, sp: int, a: Range, b: Range, ghost below: seq<Range>)
    returns (sp': int)
    requires Held(stackLo[..], stackHi[..], below) && sp == |below| && sp + 2 <= stackLo.Length == stackHi.Length
        && stackLo != stackHi
    modifies stackLo, stackHi
    ensures sp' == sp + 2 && Held(stackLo[..], stackHi[..], below + [a, b])
  {
    HeldPush(stackLo[..], stackHi[..], below, a, b);
    ghost var los, his := stackLo[..], stackHi[..];
    stackLo[sp], stackHi[sp] := a.lo, a.hi;
    stackLo[sp + 1], stackHi[sp + 1] := b.lo, b.hi;
    assert stackLo[..] == los[sp := a.lo][sp + 1 := b.lo] && stackHi[..] == his[sp := a.hi][sp + 1 := b.hi];
    sp' := sp + 2;
  }

  lemma SettledNext(s: seq<int>, t: seq<int>, eclass: seq<int>, below: seq<Range>, top: Range, parts: seq<Range>,
      lo: int, hi: int)
    requires Settled(s, eclass, below + [top], lo, hi) && Stacked(below + [top], lo, hi) && 0 <= lo && hi < |s|
    requires Rearranged(s, t, top.lo, top.hi) && lo <= top.lo && top.hi <= hi
    requires OnlyIn(t, eclass, top.lo, top.hi, parts)
    ensures Settled(t, eclass, below + parts, lo, hi)
  {
    SettledStep(s, t, eclass, below, top, parts, lo, hi);
  }

  lemma SettledSorted(s: seq<int>, eclass: seq<int>, lo: int, hi: int)
    requires Settled(s, eclass, [], lo, hi)
    ensures Sorted(s, eclass, lo, hi)
  {
  }

  /** Sorts a range by class.  The stack never holds more ranges than a logarithm of the length allows, so it does not
      overflow. */
  method QSort3(fmap: array<int>, eclass: seq<int>, loSt: int, hiSt: int) returns (ghost depth: nat)
    requires 0 <= loSt <= hiSt + 1 <= fmap.Length <= 0x7fff_ffff && Indices(fmap[..], |eclass|)
    requires forall i | 0 <= i < |eclass| :: 0 <= eclass[i] <= 0x7fff_ffff
    modifies fmap
    ensures Rearranged(old(fmap[..]), fmap[..], loSt, hiSt)
    ensures Sorted(fmap[..], eclass, loSt, hiSt)
    ensures depth >= 2 ==> Pow2(depth - 2) <= hiSt - loSt + 1
  {
    hide Rearranged, Settled, Stacked, Total, Held, Sorted, Pow2, OnlyIn, Indices;
    var stackLo, stackHi := new int[STACK_SIZE], new int[STACK_SIZE];
    var r, sp := 0, 0;
    stackLo[sp], stackHi[sp], sp := loSt, hiSt, 1;
    ghost var st := [Range(loSt, hiSt)];
    depth := 1;
    FirstRange(fmap[..], eclass, stackLo[..], stackHi[..], loSt, hiSt);
    while sp > 0
      invariant sp == |st| && 0 <= r < 32768 && (depth >= 2 ==> Pow2(depth - 2) <= hiSt - loSt + 1)
      invariant Held(stackLo[..], stackHi[..], st) && Stacked(st, loSt, hiSt)
      invariant Rearranged(old(fmap[..]), fmap[..], loSt, hiSt) && Indices(fmap[..], |eclass|)
      invariant Settled(fmap[..], eclass, st, loSt, hiSt)
      invariant Total(st) >= 0
      decreases 2 * Total(st) + |st|
    {
      StackDepth(st, loSt, hiSt);
      if sp > depth { depth := sp; }
      assert sp < STACK_SIZE;
      ghost var below, top := st[..sp - 1], st[sp - 1];
      assert st == below + [top];
      StackPop(below, top, loSt, hiSt);
      HeldTop(stackLo[..], stackHi[..], below, top);
      sp := sp - 1;
      var lo, hi := stackLo[sp], stackHi[sp];
      ghost var s := fmap[..];
      var parts;
      r, parts := SortRange(fmap, eclass, lo, hi, r);
      Chain(old(fmap[..]), s, fmap[..], loSt, hiSt, lo, hi);
      SettledNext(s, fmap[..], eclass, below, top, parts, loSt, hiSt);
      if |parts| == 2 {
        assert parts == [parts[0], parts[1]];
        StackSplit(below, top, parts[0], parts[1], loSt, hiSt);
        sp := PushTwo(stackLo, stackHi, sp, parts[0], parts[1], below);
      } else {
        assert below + [] == below;
      }
      st := below + parts;
    }
    SettledSorted(fmap[..], eclass, loSt, hiSt);
  }
}
