/** Compressed blocks are self-delimiting. */
module UniqueCode {
  // Bits that begin with compressed forms of two blocks begin with forms of the same block.

  import opened Arith
  import opened BitStrings
  import opened BlockCodec
  import opened BlockHeader
  import opened BlockStream
  import opened InverseBwt
  import opened MtfCode
  import opened Permutation
  import opened Sequences
  import opened StreamCalls
  import opened StreamCodec
  import C = CanonicalCode

  // ---------------------------------------------------------------- the parts of the header

  lemma UnaryUnique(bits: seq<int>, pos: int, i: nat, j: nat)
    requires pos >= 0 && At(bits, pos, Unary(i)) && At(bits, pos, Unary(j))
    ensures i == j
  {
    hide At;
    AtSlice(bits, pos, Unary(i));
    AtSlice(bits, pos, Unary(j));
    assert Unary(i)[i] == 0 && Unary(j)[j] == 0;
  }

  lemma RanksUnique(bits: seq<int>, pos: int, n: nat, x: seq<int>, y: seq<int>)
    requires |x| == |y| && pos >= 0 && RanksAt(bits, pos, n, x) && RanksAt(bits, pos, n, y)
    ensures x == y
  {
    hide At, Flatten, Unary, ToFront, Order;
    OrderStart(x, n);
    OrderStart(y, n);
    for i := 0 to |x|
      invariant x[..i] == y[..i] && UnaryBits(x, n)[..i] == UnaryBits(y, n)[..i] && Order(x, n, i) == Order(y, n, i)
    {
      RankHere(bits, pos, n, x, i);
      RankHere(bits, pos, n, y, i);
      UnaryUnique(bits, pos + |Flatten(UnaryBits(x, n)[..i])|, RankAt(x, n, i), RankAt(y, n, i));
      assert UnaryBits(x, n)[i] == UnaryBits(y, n)[i];
    }
  }

  lemma SelectorsUnique(bits: seq<int>, pos: int, x: seq<int>, n: nat, y: seq<int>, m: nat)
    requires pos >= 0 && Selectors(x, n) && Selectors(y, m) && At(bits, pos, SelectorBits(x, n))
        && At(bits, pos, SelectorBits(y, m))
    ensures x == y && n == m
  {
    hide At, Flatten, BitsOf, Pow2, UnaryBits;
    SmallPowers();
    AtSplit(bits, pos, BitsOf(3, n) + BitsOf(15, |x|), Flatten(UnaryBits(x, n)));
    AtSplit(bits, pos, BitsOf(3, n), BitsOf(15, |x|));
    AtSplit(bits, pos, BitsOf(3, m) + BitsOf(15, |y|), Flatten(UnaryBits(y, m)));
    AtSplit(bits, pos, BitsOf(3, m), BitsOf(15, |y|));
    NumberUnique(bits, pos, 3, n, m);
    NumberUnique(bits, pos + 3, 15, |x|, |y|);
    RanksUnique(bits, pos + 18, n, x, y);
  }

  lemma {:induction false} DeltaUnique(bits: seq<int>, pos: int, a: int, b: int, c: int)
    requires At(bits, pos, Delta(a, b)) && At(bits, pos, Delta(a, c))
    ensures b == c
    decreases if a < b then b - a else a - b
  {
    hide At, Delta;
    DeltaAt(bits, pos, a, b);
    DeltaAt(bits, pos, a, c);
    if a < b {
      DeltaUnique(bits, pos + 2, a + 1, b, c);
    } else if a > b {
      DeltaUnique(bits, pos + 2, a - 1, b, c);
    }
  }

  lemma DeltasUnique(bits: seq<int>, pos: int, x: seq<int>, y: seq<int>)
    requires |x| == |y| >= 1 && x[0] == y[0] && DeltasAt(bits, pos, x) && DeltasAt(bits, pos, y)
    ensures x == y
  {
    hide DeltasAt, DeltaBits, Flatten;
    for i := 0 to |x|
      invariant x[..i] == y[..i] && DeltaBits(x)[..i] == DeltaBits(y)[..i]
    {
      NextDelta(bits, pos, x, y, i);
    }
  }

  lemma NextDelta(bits: seq<int>, pos: int, x: seq<int>, y: seq<int>, i: nat)
    requires |x| == |y| && i < |x| && x[0] == y[0] && DeltasAt(bits, pos, x) && DeltasAt(bits, pos, y)
    requires x[..i] == y[..i] && DeltaBits(x)[..i] == DeltaBits(y)[..i]
    ensures x[..i + 1] == y[..i + 1] && DeltaBits(x)[..i + 1] == DeltaBits(y)[..i + 1]
  {
    hide At, DeltasAt, Flatten, Delta;
    DeltaHere(bits, pos, x, i);
    DeltaHere(bits, pos, y, i);
    assert i > 0 ==> x[..i][i - 1] == y[..i][i - 1];
    DeltaUnique(bits, pos + |Flatten(DeltaBits(x)[..i])|, Before(x, i), x[i], y[i]);
    assert DeltaBits(x)[i] == DeltaBits(y)[i];
  }

  lemma LengthsUnique(bits: seq<int>, pos: int, x: seq<int>, y: seq<int>, alphaSize: int)
    requires CodeLengths(x, alphaSize) && CodeLengths(y, alphaSize) && At(bits, pos, LengthBits(x))
        && At(bits, pos, LengthBits(y))
    ensures x == y
  {
    hide At, BitsOf, Flatten, Pow2, DeltaBits;
    SmallPowers();
    AtSplit(bits, pos, BitsOf(5, x[0]), Flatten(DeltaBits(x)));
    AtSplit(bits, pos, BitsOf(5, y[0]), Flatten(DeltaBits(y)));
    NumberUnique(bits, pos, 5, x[0], y[0]);
    DeltasUnique(bits, pos + 5, x, y);
  }

  // ---------------------------------------------------------------- the tables and the symbols

  lemma TightSame(x: Table, y: Table, alphaSize: int)
    requires Ready(x, alphaSize) && Ready(y, alphaSize) && Tight(x) && Tight(y) && x.len == y.len
    ensures SameCode(x, y)
  {
  }

  lemma TablesUnique(bits: seq<int>, pos: int, xs: seq<Table>, ys: seq<Table>, alphaSize: int)
    requires |xs| == |ys| && TablesAt(bits, pos, xs, alphaSize) && TablesAt(bits, pos, ys, alphaSize)
    requires (forall t | 0 <= t < |xs| :: Tight(xs[t])) && forall t | 0 <= t < |ys| :: Tight(ys[t])
    ensures forall t | 0 <= t < |xs| :: SameCode(xs[t], ys[t])
    ensures TablesBits(xs, alphaSize) == TablesBits(ys, alphaSize)
  {
    hide At, Flatten, LengthBits, Ready, Tight, SameCode;
    for t := 0 to |xs|
      invariant TablesBits(xs, alphaSize)[..t] == TablesBits(ys, alphaSize)[..t]
      invariant forall i | 0 <= i < t :: SameCode(xs[i], ys[i])
    {
      TableHere(bits, pos, xs, alphaSize, t);
      TableHere(bits, pos, ys, alphaSize, t);
      LengthsUnique(bits, pos + |Flatten(TablesBits(xs, alphaSize)[..t])|, xs[t].len, ys[t].len, alphaSize);
      TightSame(xs[t], ys[t], alphaSize);
      assert TablesBits(xs, alphaSize)[t] == TablesBits(ys, alphaSize)[t];
    }
  }

  lemma {:induction false} SameSoFar(x: seq<int>, y: seq<int>, tabs: seq<Table>, selectors: seq<int>, alphaSize: int,
      n: nat)
    requires Selected(tabs, selectors, alphaSize) && Coverable(x, selectors, alphaSize)
        && Coverable(y, selectors, alphaSize)
    requires n <= |x| && n <= |y| && x[..n] == y[..n]
    ensures CodesBits(x, tabs, selectors, alphaSize, n) == CodesBits(y, tabs, selectors, alphaSize, n)
  {
    hide Ready, BitsOf;
    if n > 0 {
      assert x[..n - 1] == x[..n][..n - 1] && y[..n - 1] == y[..n][..n - 1] && x[..n][n - 1] == y[..n][n - 1];
      SameSoFar(x, y, tabs, selectors, alphaSize, n - 1);
      CodesStep(x, tabs, selectors, alphaSize, n - 1);
      CodesStep(y, tabs, selectors, alphaSize, n - 1);
    }
  }

  lemma SymbolUnique(bits: seq<int>, x: seq<int>, y: seq<int>, tabs: seq<Table>, selectors: seq<int>, alphaSize: int,
      i: nat)
    requires Bits(bits) && Selected(tabs, selectors, alphaSize)
    requires Encodes(bits, x, tabs, selectors, alphaSize) && Encodes(bits, y, tabs, selectors, alphaSize)
    requires i < |x| && i < |y| && x[..i] == y[..i]
    ensures x[i] == y[i]
  {
    hide CodesBits, Encodes, Ready, C.BeginsWith, Selected, Coverable;
    EncodesCoverable(bits, x, tabs, selectors, alphaSize);
    EncodesCoverable(bits, y, tabs, selectors, alphaSize);
    SameSoFar(x, y, tabs, selectors, alphaSize, i);
    var pos := |CodesBits(x, tabs, selectors, alphaSize, i)|;
    NextCode(bits, x, tabs, selectors, alphaSize, i, pos);
    NextCode(bits, y, tabs, selectors, alphaSize, i, pos);
    OneSymbol(bits[pos..], tabs[selectors[i / GROUP]], alphaSize, x[i], y[i]);
  }

  lemma EncodesCoverable(bits: seq<int>, x: seq<int>, tabs: seq<Table>, selectors: seq<int>, alphaSize: int)
    requires Selected(tabs, selectors, alphaSize) && Encodes(bits, x, tabs, selectors, alphaSize)
    ensures Coverable(x, selectors, alphaSize) && |x| <= GROUP * |selectors|
    ensures forall k | 0 <= k < |selectors| :: 0 <= selectors[k] < |tabs|
    ensures EndsOnce(x, alphaSize)
  {
    hide CodesBits, Ready;
  }

  lemma OneSymbol(bits: seq<int>, tab: Table, alphaSize: int, v: int, w: int)
    requires Bits(bits) && Ready(tab, alphaSize) && 0 <= v && 0 <= w
    requires C.BeginsWith(bits, tab.len, tab.minLen, v) && C.BeginsWith(bits, tab.len, tab.minLen, w)
    ensures v == w
  {
    hide C.BeginsWith;
    C.PrefixFree(bits, tab.len, tab.minLen, tab.maxLen, v, w);
  }

  lemma SymbolsUnique(bits: seq<int>, x: seq<int>, y: seq<int>, tabs: seq<Table>, selectors: seq<int>, alphaSize: int)
    requires Bits(bits) && Selected(tabs, selectors, alphaSize)
    requires Encodes(bits, x, tabs, selectors, alphaSize) && Encodes(bits, y, tabs, selectors, alphaSize)
    ensures x == y
  {
    hide Encodes, Selected, Coverable;
    EncodesCoverable(bits, x, tabs, selectors, alphaSize);
    EncodesCoverable(bits, y, tabs, selectors, alphaSize);
    var i := 0;
    while i < |x| && i < |y|
      invariant i <= |x| && i <= |y| && x[..i] == y[..i]
    {
      SymbolUnique(bits, x, y, tabs, selectors, alphaSize, i);
      i := i + 1;
    }
    SameEnds(x, y, alphaSize, i);
  }

  /** The end-of-block symbol stands at both ends, so neither goes on behind the other. */
  lemma SameEnds(x: seq<int>, y: seq<int>, alphaSize: int, i: nat)
    requires EndsOnce(x, alphaSize) && EndsOnce(y, alphaSize) && i <= |x| && i <= |y| && (i == |x| || i == |y|)
        && x[..i] == y[..i]
    ensures x == y
  {
    assert i > 0;
    assert x[i - 1] == x[..i][i - 1] == y[..i][i - 1] == y[i - 1];
    assert x[..|x|] == x && y[..|y|] == y;
  }

  // ---------------------------------------------------------------- the block

  lemma RankUnique(inUse: seq<bool>, c: int, d: int)
    requires |inUse| == 256 && 0 <= c < 256 && 0 <= d < 256 && inUse[c] && inUse[d] && Rank(inUse, c) == Rank(inUse, d)
    ensures c == d
  {
    hide Rank;
    if c < d {
      RankGrows(inUse, c, d);
    } else if d < c {
      RankGrows(inUse, d, c);
    }
  }

  lemma ColumnUnique(inUse: seq<bool>, x: seq<int>, y: seq<int>)
    requires |inUse| == 256 && Bytes(x) && Bytes(y) && RanksOf(inUse, x) == RanksOf(inUse, y)
    requires (forall i | 0 <= i < |x| :: inUse[x[i]]) && forall i | 0 <= i < |y| :: inUse[y[i]]
    ensures x == y
  {
    hide Rank;
    assert |RanksOf(inUse, x)| == |RanksOf(inUse, y)|;
    forall i | 0 <= i < |x|
      ensures x[i] == y[i]
    {
      assert RanksOf(inUse, x)[i] == RanksOf(inUse, y)[i];
      RankUnique(inUse, x[i], y[i]);
    }
  }

  /** Layouts with the same symbols, bytes in use and origin describe the same block. */
  lemma SameLayout(x: seq<int>, y: seq<int>, k: Layout, m: Layout)
    requires Describes(k, x) && Describes(m, y) && InUse(x) == InUse(y) && k.syms == m.syms && k.origPtr == m.origPtr
    ensures x == y
  {
    hide Codes, Rank, SortsRotations, RanksOf, FeedAll, Follow, Psi, RowAfter;
    SortedPointers(x, k.ptr);
    SortedPointers(y, m.ptr);
    ColumnInUse(x, k.ptr);
    ColumnInUse(y, m.ptr);
    var a, b := LastColumn(x, k.ptr), LastColumn(y, m.ptr);
    ColumnUnique(InUse(x), a, b);
    assert |x| == |a| == |b| == |y|;
    FollowBlock(x, k.ptr, k.origPtr);
    FollowBlock(y, m.ptr, m.origPtr);
  }

  /** The bits of a block determine the block. */
  lemma BlockUnique(bits: seq<int>, level: int, x: seq<int>, y: seq<int>, k: Layout, m: Layout)
    requires Bits(bits) && BlockAt(bits, 0, level, x, k) && BlockAt(bits, 0, level, y, m)
    ensures x == y
  {
    hide At, BitsOf, MapBits, SelectorBits, TablesBits, CodesBits, BlockData, Rank, Ready, Tight, Flatten, Selected;
    hide Coverable, Codes, Carries, EndsOnce, TablesAt;
    BlockCodec.BlockParts(bits, 0, level, x, k);
    BlockCodec.BlockParts(bits, 0, level, y, m);
    OriginsUnique(bits, k.origPtr, m.origPtr);
    MapBitsAt(bits, 24, InUse(x));
    MapBitsAt(bits, 24, InUse(y));
    MapUnique(bits, 24, RowFlags(InUse(x)), InUse(x), 24 + |MapBits(InUse(x))|,
        RowFlags(InUse(y)), InUse(y), 24 + |MapBits(InUse(y))|);
    var p2 := 24 + |MapBits(InUse(x))|;
    SelectorsUnique(bits, p2, k.selectors, |k.tabs|, m.selectors, |m.tabs|);
    var p3, a := p2 + |SelectorBits(k.selectors, |k.tabs|)|, AlphaSize(x);
    CodesFacts(k, a);
    CodesFacts(m, a);
    TablesUnique(bits, p3, k.tabs, m.tabs, a);
    var p4 := p3 + |Flatten(TablesBits(k.tabs, a))|;
    SameBits(m.syms, m.tabs, k.tabs, m.selectors, a, |m.syms|);
    NowEncodes(bits, p4, k.syms, k.tabs, k.selectors, a);
    NowEncodes(bits, p4, m.syms, k.tabs, k.selectors, a);
    SymbolsUnique(bits[p4..], k.syms, m.syms, k.tabs, k.selectors, a);
    SameLayout(x, y, k, m);
  }

  lemma OriginsUnique(bits: seq<int>, v: int, w: int)
    requires 0 <= v < 900_000 && 0 <= w < 900_000 && At(bits, 0, BitsOf(24, v)) && At(bits, 0, BitsOf(24, w))
    ensures v == w
  {
    hide At, BitsOf, Pow2;
    SmallPowers();
    NumberUnique(bits, 0, 24, v, w);
  }

  lemma NowEncodes(bits: seq<int>, pos: int, syms: seq<int>, tabs: seq<Table>, selectors: seq<int>, alphaSize: int)
    requires Selected(tabs, selectors, alphaSize) && Coverable(syms, selectors, alphaSize) && EndsOnce(syms, alphaSize)
    requires At(bits, pos, CodesBits(syms, tabs, selectors, alphaSize, |syms|)) && Bits(bits)
    requires forall t | 0 <= t < |tabs| :: Prefix(tabs[t])
    ensures 0 <= pos <= |bits| && Bits(bits[pos..]) && Encodes(bits[pos..], syms, tabs, selectors, alphaSize)
  {
    hide CodesBits, Selected, Coverable;
  }

  /** A faithful compressor is self-delimiting: no compressed block begins the compressed form of another. */
  lemma FaithfulDelimits(u: Setup)
    requires IsSetup(u) && Faithful(u)
    ensures SelfDelimiting(u)
  {
    hide BlockData, Describes;
    forall x, y | BlockBytes(u.level, x) && BlockBytes(u.level, y) && CodeOf(u, x) <= CodeOf(u, y)
      ensures x == y
    {
      var bits := CodeOf(u, y);
      assert IsEncoding(CodeOf(u, x), x) && IsEncoding(bits, y);
      var k :| Describes(k, x) && CodeOf(u, x) == BlockData(k, x);
      var m :| Describes(m, y) && bits == BlockData(m, y);
      assert bits[0..] == bits;
      BlockUnique(bits, u.level, x, y, k, m);
    }
  }

  /** So the bytes of a stream determine its input, and finishing with the last bytes shows exactly when the last byte
      fills the block. */
  lemma FaithfulFinish(u: Setup, a: seq<int>, b: seq<int>, xs: seq<int>, ys: seq<int>)
    requires IsSetup(u) && Faithful(u) && Bytes(a + b)
    requires Blocks(FinishBlocks(u.level, a, b)) && IsStream(u, FinishBlocks(u.level, a, b), xs)
    requires Blocks(Ended(Split(u.level, a + b))) && IsStream(u, Ended(Split(u.level, a + b)), ys)
    ensures xs == ys <==> b == [] || !Full(u.level, LastCurrent(u.level, a + b))
  {
    hide SelfDelimiting, IsStream, FinishBlocks, Split, Ended, Full, LastCurrent, Blocks, Faithful;
    FaithfulDelimits(u);
    FinishBytes(u, a, b, xs, ys);
  }
}
