/** Boyer-Moore search. */
module BoyerMoore {
  // The suffix table, the two shift tables and the search loop.

  const ASIZE := 256

  // ---------------------------------------------------------------- common suffixes

  /** Byte `t` equals the byte as far from the end of `x` as `t` is from `i`. */
  predicate Same(x: seq<int>, t: int, i: int) {
    0 <= t <= i < |x| && x[t] == x[t + |x| - 1 - i]
  }

  /** The `k` bytes of `x` that end at `i` are its last `k` bytes. */
  ghost predicate Agrees(x: seq<int>, i: int, k: int) {
    && 0 <= k <= i + 1 <= |x|
    && forall t | i - k < t <= i :: Same(x, t, i)
  }

  /** `k` is the length of the longest common suffix of `x[..i + 1]` and `x`. */
  ghost predicate IsSuffix(x: seq<int>, i: int, k: int) {
    Agrees(x, i, k) && (k == i + 1 || !Same(x, i - k, i))
  }

  /** Inside a window that agrees with the end of `x`, suffixes are those found further right. */
  lemma SuffixInWindow(x: seq<int>, i: int, f: int, g: int, k: int)
    requires -1 <= g < i <= f < |x| && Agrees(x, f, f - g) && IsSuffix(x, i + |x| - 1 - f, k)
    ensures k < i - g ==> IsSuffix(x, i, k)
    ensures k >= i - g ==> Agrees(x, i, i - g)
  {
    var d := |x| - 1 - f;
    forall t | i - k < t <= i && g < t
      ensures Same(x, t, i)
    {
      assert Same(x, t, f) && Same(x, t + d, i + d);
    }
    if k < i - g {
      assert Same(x, i - k, f) && !Same(x, i + d - k, i + d);
    }
  }

  lemma AgreesMore(x: seq<int>, f: int, g: int)
    requires 0 <= g && Agrees(x, f, f - g) && x[g] == x[g + |x| - 1 - f]
    ensures Agrees(x, f, f - (g - 1))
  {
  }

  method Suffixes(x: seq<int>) returns (suff: array<int>)
    requires |x| >= 1
    ensures fresh(suff) && suff.Length == |x| && forall i | 0 <= i < |x| :: IsSuffix(x, i, suff[i])
  {
    var m := |x|;
    suff := new int[m];
    var f := 0;
    suff[m - 1] := m;
    WholeSuffix(x);
    var g := m - 1;
    var i := m - 2;
    while i >= 0
      invariant -1 <= i <= m - 2 && -1 <= g <= m - 1
      invariant forall k | i < k < m :: IsSuffix(x, k, suff[k])
      invariant g <= i ==> i < f < m - 1 && Agrees(x, f, f - g)
    {
      hide Agrees, IsSuffix;
      if i > g && suff[i + m - 1 - f] < i - g {
        SuffixInWindow(x, i, f, g, suff[i + m - 1 - f]);
        suff[i] := suff[i + m - 1 - f];
      } else {
        if i > g {
          SuffixInWindow(x, i, f, g, suff[i + m - 1 - f]);
        } else {
          AgreesNone(x, i);
        }
        if i < g { g := i; }
        f := i;
        while g >= 0 && x[g] == x[g + m - 1 - f]
          invariant -1 <= g <= f && Agrees(x, f, f - g) && forall k | i < k < m :: IsSuffix(x, k, suff[k])
        {
          AgreesMore(x, f, g);
          g := g - 1;
        }
        SuffixFound(x, f, g);
        suff[i] := f - g;
      }
      i := i - 1;
    }
  }

  lemma WholeSuffix(x: seq<int>)
    requires |x| >= 1
    ensures IsSuffix(x, |x| - 1, |x|)
  {
  }

  lemma AgreesNone(x: seq<int>, i: int)
    requires 0 <= i < |x|
    ensures Agrees(x, i, 0)
  {
  }

  lemma SuffixFound(x: seq<int>, f: int, g: int)
    requires -1 <= g <= f < |x| && Agrees(x, f, f - g) && (g >= 0 ==> x[g] != x[g + |x| - 1 - f])
    ensures IsSuffix(x, f, f - g)
  {
  }

  // ---------------------------------------------------------------- shifts

  /** Shifting by `s` after a mismatch at `j` can give a match: the bytes known to agree agree again, and the byte that
      comes to stand at the mismatch differs from the one that failed. */
  ghost predicate GoodShift(x: seq<int>, j: int, s: int) {
    && (forall p | 0 <= j < p < |x| && 0 <= s <= p :: x[p - s] == x[p])
    && (0 <= s <= j < |x| ==> x[j - s] != x[j])
  }

  /** A good shift, and no smaller one is. */
  ghost predicate LeastShift(x: seq<int>, j: int, s: int) {
    && 1 <= s <= |x| && GoodShift(x, j, s)
    && forall s' | 1 <= s' < s :: !GoodShift(x, j, s')
  }

  /** Good shifts read off the suffix table. */
  lemma ShiftFromSuffix(x: seq<int>, j: int, s: int, k: int)
    requires 0 <= j < |x| && 1 <= s < |x| && IsSuffix(x, |x| - 1 - s, k)
    ensures GoodShift(x, j, s) <==> k == |x| - 1 - j || (k == |x| - s && s > j)
  {
    var m, i, p := |x|, |x| - 1 - s, |x| - 1 - k;
    assert k < m - s ==> !Same(x, i - k, i);
    if k < m - s && k < m - 1 - j {
      assert x[p - s] != x[p];
    } else if k > m - 1 - j && s <= j {
      assert Same(x, j - s, i);
    } else {
      forall q | j < q < m && s <= q
        ensures x[q - s] == x[q]
      {
        assert Same(x, q - s, i);
      }
    }
  }

  /** Shifting by `s` puts a prefix of the pattern under its end. */
  predicate Border(suff: seq<int>, s: int) {
    s == |suff| || (0 <= s < |suff| && suff[|suff| - 1 - s] == |suff| - s)
  }

  /** Shifting by `s` puts the agreeing part under an equal part that ends in another byte at `j`. */
  predicate Reach(suff: seq<int>, j: int, s: int) {
    1 <= s < |suff| && suff[|suff| - 1 - s] == |suff| - 1 - j
  }

  ghost predicate BorderShift(suff: seq<int>, j: int, s: int) {
    j < s <= |suff| && Border(suff, s) && forall s' | j < s' < s :: !Border(suff, s')
  }

  /** The entry chosen for `j` once all shifts from `low` on have been considered. */
  ghost predicate Chosen(suff: seq<int>, j: int, s: int, low: int) {
    || (low <= s && Reach(suff, j, s) && forall s' | low <= s' < s :: !Reach(suff, j, s'))
    || (BorderShift(suff, j, s) && forall s' | low <= s' :: !Reach(suff, j, s'))
  }

  ghost predicate SuffixTable(x: seq<int>, suff: seq<int>) {
    |suff| == |x| && forall i | 0 <= i < |x| :: IsSuffix(x, i, suff[i])
  }

  lemma ShiftTest(x: seq<int>, suff: seq<int>, j: int, s: int)
    requires SuffixTable(x, suff) && 0 <= j < |x| && 1 <= s <= |x|
    ensures GoodShift(x, j, s) <==> Reach(suff, j, s) || (s > j && Border(suff, s))
    ensures Reach(suff, j, s) ==> s <= j + 1
  {
    if s < |x| {
      ShiftFromSuffix(x, j, s, suff[|x| - 1 - s]);
    }
  }

  /** What the table ends up with is the least good shift. */
  lemma ChosenIsLeast(x: seq<int>, suff: seq<int>, j: int, s: int)
    requires SuffixTable(x, suff) && 0 <= j < |x| && Chosen(suff, j, s, 1)
    ensures LeastShift(x, j, s)
  {
    ShiftTest(x, suff, j, s);
    forall s' | 1 <= s' < s
      ensures !GoodShift(x, j, s')
    {
      ShiftTest(x, suff, j, s');
    }
  }

  /** Shifts that keep a border, for every position. */
  method FillBorders(suff: array<int>, bmGs: array<int>)
    requires suff != bmGs && suff.Length == bmGs.Length >= 1
        && (forall q | 0 <= q < bmGs.Length :: bmGs[q] == bmGs.Length)
    modifies bmGs
    ensures forall q | 0 <= q < bmGs.Length :: BorderShift(suff[..], q, bmGs[q])
  {
    var m, j, i := bmGs.Length, 0, bmGs.Length - 1;
    while i >= -1
      invariant -2 <= i <= m - 1 && 0 <= j <= m && j <= m - 1 - i && (i == -2 ==> j == m)
      invariant forall q | 0 <= q < j :: BorderShift(suff[..], q, bmGs[q])
      invariant forall q | j <= q < m :: bmGs[q] == m
      invariant forall s | j < s < m - 1 - i :: !Border(suff[..], s)
    {
      assert Border(suff[..], m - 1 - i) <==> i == -1 || suff[i] == i + 1;
      if i == -1 || suff[i] == i + 1 {
        while j < m - 1 - i
          invariant 0 <= j <= m - 1 - i
          invariant forall q | 0 <= q < j :: BorderShift(suff[..], q, bmGs[q])
          invariant forall q | j <= q < m :: bmGs[q] == m
          invariant forall s | j < s < m - 1 - i :: !Border(suff[..], s)
        {
          if bmGs[j] == m { bmGs[j] := m - 1 - i; }
          j := j + 1;
        }
      }
      i := i - 1;
    }
  }

  method PreBmGs(x: seq<int>) returns (bmGs: array<int>)
    requires |x| >= 1
    ensures fresh(bmGs) && bmGs.Length == |x| && forall j | 0 <= j < |x| :: LeastShift(x, j, bmGs[j])
  {
    hide LeastShift, IsSuffix;
    var m := |x|;
    var suff := Suffixes(x);
    bmGs := new int[m](_ => m);
    FillBorders(suff, bmGs);
    ghost var table := suff[..];
    assert SuffixTable(x, table);
    NothingReaches(table, bmGs[..]);
    var i := 0;
    while i <= m - 2
      invariant 0 <= i && (i <= m - 1) && suff[..] == table
      invariant forall q | 0 <= q < m :: Chosen(table, q, bmGs[q], m - i)
    {
      SuffixBound(x, i, suff[i]);
      ghost var was := bmGs[..];
      bmGs[m - 1 - suff[i]] := m - 1 - i;
      ChooseNext(table, was, i);
      assert bmGs[..] == was[m - 1 - suff[i] := m - 1 - i];
      i := i + 1;
    }
    forall j | 0 <= j < m
      ensures LeastShift(x, j, bmGs[j])
    {
      ChosenIsLeast(x, table, j, bmGs[j]);
    }
  }

  lemma NothingReaches(suff: seq<int>, gs: seq<int>)
    requires |suff| == |gs| && forall q | 0 <= q < |gs| :: BorderShift(suff, q, gs[q])
    ensures forall q | 0 <= q < |gs| :: Chosen(suff, q, gs[q], |gs|)
  {
  }

  lemma SuffixBound(x: seq<int>, i: int, k: int)
    requires IsSuffix(x, i, k)
    ensures 0 <= k <= i + 1
  {
  }

  /** Recording the next smaller shift. */
  lemma ChooseNext(suff: seq<int>, gs: seq<int>, i: int)
    requires |suff| == |gs| && 0 <= i <= |gs| - 2 && 0 <= suff[i] <= i + 1
    requires forall q | 0 <= q < |gs| :: Chosen(suff, q, gs[q], |gs| - i)
    ensures var gs' := gs[|gs| - 1 - suff[i] := |gs| - 1 - i];
            forall q | 0 <= q < |gs| :: Chosen(suff, q, gs'[q], |gs| - (i + 1))
  {
    var m := |gs|;
    var gs' := gs[m - 1 - suff[i] := m - 1 - i];
    forall q | 0 <= q < m
      ensures Chosen(suff, q, gs'[q], m - (i + 1))
    {
      assert Chosen(suff, q, gs[q], m - i);
      assert Reach(suff, q, m - 1 - i) <==> q == m - 1 - suff[i];
    }
  }

  // ---------------------------------------------------------------- bad characters

  /** `d` is the distance of the last `c` before the final byte from the end of the pattern, or its length. */
  ghost predicate IsDistance(x: seq<int>, k: int, c: int, d: int) {
    && 1 <= d <= |x| && (d < |x| ==> |x| - 1 - d < k && x[|x| - 1 - d] == c)
    && forall i | |x| - 1 - d < i < k :: 0 <= i < |x| ==> x[i] != c
  }

  method PreBmBc(x: seq<int>) returns (bmBc: array<int>)
    requires |x| >= 1 && forall i | 0 <= i < |x| :: 0 <= x[i] < 256
    ensures fresh(bmBc) && bmBc.Length == ASIZE && forall c | 0 <= c < ASIZE :: IsDistance(x, |x| - 1, c, bmBc[c])
  {
    var m := |x|;
    bmBc := new int[ASIZE](_ => m);
    for i := 0 to m - 1
      invariant forall c | 0 <= c < ASIZE :: IsDistance(x, i, c, bmBc[c])
    {
      bmBc[x[i]] := m - i - 1;
    }
  }

  // ---------------------------------------------------------------- search

  /** A prepared pattern. */
  datatype Bm = Bm(icase: bool, x: seq<int>, bmGs: seq<int>, bmBc: seq<int>)

  function Fold(icase: bool, c: int): (r: int)
    ensures 0 <= c < ASIZE ==> 0 <= r < ASIZE
  {
    if icase && 65 <= c <= 90 then c + 32 else c
  }

  ghost predicate Prepared(bm: Bm) {
    && |bm.x| >= 1 && |bm.bmGs| == |bm.x| && |bm.bmBc| == ASIZE
    && (forall j | 0 <= j < |bm.x| :: LeastShift(bm.x, j, bm.bmGs[j]))
    && forall c | 0 <= c < ASIZE :: IsDistance(bm.x, |bm.x| - 1, c, bm.bmBc[c])
  }

  method BmInit(x: seq<int>, icase: bool) returns (bm: Bm)
    requires |x| >= 1 && forall i | 0 <= i < |x| :: 0 <= x[i] < 256
    ensures Prepared(bm) && bm.icase == icase && |bm.x| == |x|
        && forall i | 0 <= i < |x| :: bm.x[i] == Fold(icase, x[i])
    ensures forall y, p :: Occurs(bm, y, p) <==> (if icase then StandsIgnoringCase(x, y, p) else Stands(x, y, p))
  {
    var saved := seq(|x|, i requires 0 <= i < |x| => Fold(icase, x[i]));
    var bmGs := PreBmGs(saved);
    var bmBc := PreBmBc(saved);
    bm := Bm(icase, saved, bmGs[..], bmBc[..]);
    forall y, p
      ensures Occurs(bm, y, p) <==> (if icase then StandsIgnoringCase(x, y, p) else Stands(x, y, p))
    {
      if icase {
        OccursIgnoringCase(bm, x, y, p);
      } else {
        OccursPlain(bm, x, y, p);
      }
    }
  }

  ghost predicate Text(y: seq<int>) {
    forall i | 0 <= i < |y| :: 0 <= y[i] < 256
  }

  /** The pattern occurs in `y` at `p`. */
  ghost predicate Occurs(bm: Bm, y: seq<int>, p: int) {
    0 <= p && p + |bm.x| <= |y| && forall k | 0 <= k < |bm.x| :: bm.x[k] == Fold(bm.icase, y[p + k])
  }

  /** The bytes of `x` stand in `y` at `p`. */
  ghost predicate Stands(x: seq<int>, y: seq<int>, p: int) {
    0 <= p && p + |x| <= |y| && y[p..p + |x|] == x
  }

  /** A capital letter and its small letter. */
  ghost predicate Capital(a: int, b: int) {
    'A' as int <= a <= 'Z' as int && 'a' as int <= b <= 'z' as int && b == a + 32
  }

  /** The bytes of `x` stand in `y` at `p`, up to the case of letters. */
  ghost predicate StandsIgnoringCase(x: seq<int>, y: seq<int>, p: int) {
    && 0 <= p && p + |x| <= |y|
    && forall k | 0 <= k < |x| :: x[k] == y[p + k] || Capital(x[k], y[p + k]) || Capital(y[p + k], x[k])
  }

  /** A pattern that respects case occurs exactly where its bytes stand. */
  lemma OccursPlain(bm: Bm, x: seq<int>, y: seq<int>, p: int)
    requires !bm.icase && |bm.x| == |x| && forall i | 0 <= i < |x| :: bm.x[i] == Fold(false, x[i])
    ensures Occurs(bm, y, p) <==> Stands(x, y, p)
  {
    if Occurs(bm, y, p) {
      forall k | 0 <= k < |x|
        ensures y[p..p + |x|][k] == x[k]
      {
        assert bm.x[k] == Fold(bm.icase, y[p + k]);
      }
    }
    if Stands(x, y, p) {
      forall k | 0 <= k < |bm.x|
        ensures bm.x[k] == Fold(bm.icase, y[p + k])
      {
        assert y[p..p + |x|][k] == x[k];
      }
    }
  }

  /** A pattern that ignores case occurs exactly where bytes that differ at most in case stand. */
  lemma OccursIgnoringCase(bm: Bm, x: seq<int>, y: seq<int>, p: int)
    requires bm.icase && |bm.x| == |x| && forall i | 0 <= i < |x| :: bm.x[i] == Fold(true, x[i])
    ensures Occurs(bm, y, p) <==> StandsIgnoringCase(x, y, p)
  {
    forall k | 0 <= k < |x| && 0 <= p && p + |x| <= |y|
      ensures bm.x[k] == Fold(bm.icase, y[p + k]) <==>
                x[k] == y[p + k] || Capital(x[k], y[p + k]) || Capital(y[p + k], x[k])
    {
    }
  }

  /** At `j` the pattern agrees with the text after position `i`. */
  ghost predicate AgreesAfter(bm: Bm, y: seq<int>, j: int, i: int) {
    0 <= j && j + |bm.x| <= |y| && -1 <= i < |bm.x| && forall k | i < k < |bm.x| :: bm.x[k] == Fold(bm.icase, y[j + k])
  }

  lemma OccursAt(bm: Bm, y: seq<int>, p: int, q: int)
    requires Occurs(bm, y, p) && p <= q < p + |bm.x|
    ensures bm.x[q - p] == Fold(bm.icase, y[q])
  {
    assert q == p + (q - p);
  }

  /** An occurrence further right makes its distance a good shift. */
  lemma OccurrenceIsGood(bm: Bm, y: seq<int>, j: int, i: int, s: int)
    requires 0 <= i < |bm.x| && AgreesAfter(bm, y, j, i) && (bm.x[i] != Fold(bm.icase, y[j + i]) || i == 0)
    requires s >= 1 && Occurs(bm, y, j + s)
    ensures GoodShift(bm.x, i, s)
  {
    forall p | i < p < |bm.x| && s <= p
      ensures bm.x[p - s] == bm.x[p]
    {
      OccursAt(bm, y, j + s, j + p);
    }
    if s <= i {
      OccursAt(bm, y, j + s, j + i);
    }
  }

  /** No good-suffix shift skips an occurrence. */
  lemma GoodSuffixSafe(bm: Bm, y: seq<int>, j: int, i: int, s: int)
    requires Prepared(bm) && 0 <= i < |bm.x| && AgreesAfter(bm, y, j, i)
    requires bm.x[i] != Fold(bm.icase, y[j + i]) || i == 0
    requires 1 <= s < bm.bmGs[i]
    ensures !Occurs(bm, y, j + s)
  {
    assert LeastShift(bm.x, i, bm.bmGs[i]);
    if Occurs(bm, y, j + s) {
      OccurrenceIsGood(bm, y, j, i, s);
    }
  }

  /** No bad-character shift skips an occurrence. */
  lemma BadCharacterSafe(bm: Bm, y: seq<int>, j: int, i: int, s: int)
    requires Prepared(bm) && Text(y) && 0 <= i < |bm.x| && 0 <= j && j + |bm.x| <= |y|
    requires 1 <= s < bm.bmBc[Fold(bm.icase, y[j + i])] - |bm.x| + 1 + i
    ensures !Occurs(bm, y, j + s)
  {
    var c := Fold(bm.icase, y[j + i]);
    assert IsDistance(bm.x, |bm.x| - 1, c, bm.bmBc[c]);
    if Occurs(bm, y, j + s) {
      OccursAt(bm, y, j + s, j + i);
    }
  }

  /** The caller's function, given the positions reported so far. */
  datatype Callback = NoCallback | Call(fun: seq<int> -> int)

  /** Exactly the occurrences before `j` have been reported, in increasing order. */
  ghost predicate Reported(bm: Bm, y: seq<int>, visited: seq<int>, j: int) {
    && (forall a, b | 0 <= a < b < |visited| :: visited[a] < visited[b])
    && (forall p :: p in visited <==> p < j && Occurs(bm, y, p))
  }

  lemma ReportedSkip(bm: Bm, y: seq<int>, visited: seq<int>, j: int, j': int)
    requires Reported(bm, y, visited, j) && j <= j' && forall p | j <= p < j' :: !Occurs(bm, y, p)
    ensures Reported(bm, y, visited, j')
  {
  }

  lemma ReportedMore(bm: Bm, y: seq<int>, visited: seq<int>, j: int)
    requires Reported(bm, y, visited, j) && Occurs(bm, y, j)
    ensures Reported(bm, y, visited + [j], j + 1)
  {
    var now := visited + [j];
    forall a, b | 0 <= a < b < |now|
      ensures now[a] < now[b]
    {
      if b == |visited| {
        assert visited[a] in visited;
      }
    }
  }

  /** Finds how far down from the end the pattern agrees with the text at `j`; `behind` when it reads beyond the
      text. */
  method Compare(bm: Bm, y: seq<int>, j: int) returns (i: int, behind: bool)
    requires Prepared(bm) && 0 <= j
    ensures behind <==> j + |bm.x| > |y|
    ensures !behind ==> AgreesAfter(bm, y, j, i) && (i >= 0 ==> bm.x[i] != Fold(bm.icase, y[i + j]))
    ensures !behind ==> (i < 0 <==> Occurs(bm, y, j))
  {
    i := |bm.x| - 1;
    while i >= 0
      invariant i == |bm.x| - 1 || AgreesAfter(bm, y, j, i)
    {
      if i + j >= |y| {
        return i, true;
      }
      if bm.x[i] != Fold(bm.icase, y[i + j]) {
        return i, false;
      }
      i := i - 1;
    }
    behind := false;
  }

  /** What the search returns, or that it reads beyond the text. */
  datatype Found = Value(code: int) | BeyondText

  /** Reports every occurrence to the callback until it returns something else than zero; without a callback, returns
      the first occurrence.  The returned count starts at 32.  The loop compares with an unsigned difference, which
      wraps when the text is shorter than the pattern; the search reads beyond the text exactly then. */
  method Search(bm: Bm, y: seq<int>, mfun: Callback) returns (r: Found, visited: seq<int>)
    requires Prepared(bm) && Text(y)
    ensures r.BeyondText? <==> |bm.x| > |y|
    ensures r.BeyondText? ==> visited == []
    ensures mfun.Call? ==> forall k | 1 <= k < |visited| :: mfun.fun(visited[..k]) == 0
    ensures r.Value? && mfun.Call? && (visited == [] || mfun.fun(visited) == 0) ==>
              r.code == 32 + |visited| && Reported(bm, y, visited, |y|)
    ensures mfun.Call? && visited != [] && mfun.fun(visited) != 0 ==>
              && r == Value(if mfun.fun(visited) < 0 then mfun.fun(visited) else 32 + |visited|)
              && Reported(bm, y, visited, visited[|visited| - 1] + 1)
    ensures r.Value? && mfun.NoCallback? ==>
              || (r.code == -1 && forall p :: !Occurs(bm, y, p))
              || (Occurs(bm, y, r.code) && forall p | p < r.code :: !Occurs(bm, y, p))
  {
    var m, j, nm := |bm.x|, 0, 32;
    visited := [];
    while m > |y| || j <= |y| - m
      invariant 0 <= j && nm == 32 + |visited| && (m > |y| ==> visited == [])
      invariant Reported(bm, y, visited, j)
      invariant mfun.Call? ==> forall k | 1 <= k <= |visited| :: mfun.fun(visited[..k]) == 0
      invariant mfun.NoCallback? ==> visited == []
      decreases |y| - j
    {
      var i, behind := Compare(bm, y, j);
      if behind {
        return BeyondText, visited;
      }
      var shift;
      if i < 0 {
        if mfun.NoCallback? {
          return Value(j), visited;
        }
        ReportedMore(bm, y, visited, j);
        assert forall k | 1 <= k <= |visited| :: (visited + [j])[..k] == visited[..k];
        visited := visited + [j];
        assert visited[..|visited|] == visited;
        nm := nm + 1;
        var c := mfun.fun(visited);
        if c != 0 {
          return Value(if c < 0 then c else nm), visited;
        }
        shift := bm.bmGs[0];
        SkipMatch(bm, y, visited, j);
      } else {
        var c := Fold(bm.icase, y[i + j]);
        shift := if bm.bmGs[i] < bm.bmBc[c] - m + 1 + i then bm.bmBc[c] - m + 1 + i else bm.bmGs[i];
        SkipMismatch(bm, y, visited, j, i, shift);
      }
      j := j + shift;
    }
    NoneLater(bm, y, visited, j);
    assert visited[..|visited|] == visited;
    r := Value(if mfun.NoCallback? then -1 else nm);
  }

  lemma SkipMatch(bm: Bm, y: seq<int>, visited: seq<int>, j: int)
    requires Prepared(bm) && Reported(bm, y, visited, j + 1) && Occurs(bm, y, j)
    ensures bm.bmGs[0] >= 1 && Reported(bm, y, visited, j + bm.bmGs[0])
  {
    assert LeastShift(bm.x, 0, bm.bmGs[0]);
    forall p | j + 1 <= p < j + bm.bmGs[0]
      ensures !Occurs(bm, y, p)
    {
      GoodSuffixSafe(bm, y, j, 0, p - j);
    }
    ReportedSkip(bm, y, visited, j + 1, j + bm.bmGs[0]);
  }

  lemma SkipMismatch(bm: Bm, y: seq<int>, visited: seq<int>, j: int, i: int, shift: int)
    requires Prepared(bm) && Text(y) && Reported(bm, y, visited, j) && AgreesAfter(bm, y, j, i) && i >= 0
    requires bm.x[i] != Fold(bm.icase, y[i + j])
    requires var bad := bm.bmBc[Fold(bm.icase, y[i + j])] - |bm.x| + 1 + i;
             shift == if bm.bmGs[i] < bad then bad else bm.bmGs[i]
    ensures shift >= 1 && Reported(bm, y, visited, j + shift)
  {
    assert LeastShift(bm.x, i, bm.bmGs[i]);
    forall p | j <= p < j + shift
      ensures !Occurs(bm, y, p)
    {
      if p == j {
        if Occurs(bm, y, j) { OccursAt(bm, y, j, j + i); }
      } else if p - j < bm.bmGs[i] {
        GoodSuffixSafe(bm, y, j, i, p - j);
      } else {
        BadCharacterSafe(bm, y, j, i, p - j);
      }
    }
    ReportedSkip(bm, y, visited, j, j + shift);
  }

  lemma NoneLater(bm: Bm, y: seq<int>, visited: seq<int>, j: int)
    requires Reported(bm, y, visited, j) && j > |y| - |bm.x| && |bm.x| >= 1
    ensures Reported(bm, y, visited, |y|)
  {
  }
}
