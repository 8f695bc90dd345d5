/** A block that is known bit by bit. */
module KnownBlock {
  // What a bzip2 file holds for the word "banana".  The conventions of the format all have a part in it: the sorted
  // rotations, the ranks and run digits of the last column, the map of bytes in use, the unary selectors, the steps
  // between code lengths and the canonical codes.

  import opened Arith
  import opened BitStrings
  import opened BlockCodec
  import opened BlockHeader
  import opened HuffmanLengths
  import opened HuffmanTree
  import opened InverseBwt
  import opened MtfCode
  import opened MtfSegments
  import opened Permutation
  import opened Sequences
  import C = CanonicalCode
  import E = SomeEncoding

  const TEXT: seq<int> := [98, 97, 110, 97, 110, 97]

  // ---------------------------------------------------------------- the sorted rotations

  const PTR: seq<int> := [5, 3, 1, 0, 4, 2]

  lemma {:induction false} SortedBySteps(rows: seq<seq<int>>, i: nat, j: nat)
    requires forall k {:trigger rows[k]} | 0 <= k < |rows| - 1 :: LexLe(rows[k], rows[k + 1])
    requires i < j < |rows|
    ensures LexLe(rows[i], rows[j])
  {
    hide LexLe;
    if i + 1 < j {
      SortedBySteps(rows, i, j - 1);
      E.LexTransitive(rows[i], rows[j - 1], rows[j]);
    }
  }

  /** The rotations of the word in their order. */
  const ROWS: seq<seq<int>> := [
    [97, 98, 97, 110, 97, 110], [97, 110, 97, 98, 97, 110], [97, 110, 97, 110, 97, 98],
    [98, 97, 110, 97, 110, 97], [110, 97, 98, 97, 110, 97], [110, 97, 110, 97, 98, 97]]

  lemma RowsAre()
    ensures IsPermutation(PTR, |TEXT|) && Rows(TEXT, PTR) == ROWS
  {
    var rows := Rows(TEXT, PTR);
    assert rows[0] == ROWS[0];
    assert rows[1] == ROWS[1];
    assert rows[2] == ROWS[2];
    assert rows[3] == ROWS[3];
    assert rows[4] == ROWS[4];
    assert rows[5] == ROWS[5];
  }

  /** Rows that agree up to a smaller byte. */
  lemma {:induction false} LexAt(x: seq<int>, y: seq<int>, k: nat)
    requires k < |x| && k < |y| && x[..k] == y[..k] && x[k] < y[k]
    ensures LexLe(x, y)
  {
    if k > 0 {
      assert x[0] == x[..k][0] == y[..k][0] == y[0];
      assert x[1..][..k - 1] == x[..k][1..] == y[..k][1..] == y[1..][..k - 1];
      LexAt(x[1..], y[1..], k - 1);
    }
  }

  lemma RowsSorted()
    ensures SortsRotations(TEXT, PTR)
  {
    hide LexLe, Rows;
    RowsAre();
    LexAt(ROWS[0], ROWS[1], 1);
    LexAt(ROWS[1], ROWS[2], 3);
    LexAt(ROWS[2], ROWS[3], 0);
    LexAt(ROWS[3], ROWS[4], 0);
    LexAt(ROWS[4], ROWS[5], 2);
    forall i, j | 0 <= i < j < |ROWS|
      ensures LexLe(ROWS[i], ROWS[j])
    {
      SortedBySteps(ROWS, i, j);
    }
  }

  lemma ColumnIs()
    requires IsPermutation(PTR, |TEXT|)
    ensures LastColumn(TEXT, PTR) == [110, 110, 98, 97, 97, 97]
  {
  }

  // ---------------------------------------------------------------- the symbols

  const SYMS: seq<int> := [3, 0, 3, 3, 1, 4]

  lemma {:induction false} RankSame(inUse: seq<bool>, lo: nat, hi: nat)
    requires lo <= hi <= |inUse| && forall c | lo <= c < hi :: !inUse[c]
    ensures Rank(inUse, hi) == Rank(inUse, lo)
  {
    if lo < hi {
      RankSame(inUse, lo, hi - 1);
    }
  }

  lemma RanksAre()
    ensures var inUse := InUse(TEXT);
            Rank(inUse, 97) == 0 && Rank(inUse, 98) == 1 && Rank(inUse, 110) == 2 && Rank(inUse, 256) == 3
  {
    var inUse := InUse(TEXT);
    assert TEXT[1] == 97 && TEXT[0] == 98 && TEXT[2] == 110;
    RankSame(inUse, 0, 97);
    RankSame(inUse, 99, 110);
    RankSame(inUse, 111, 256);
  }

  lemma FeedMore(syms: seq<int>, sym: int)
    requires Symbols(syms) && 0 <= sym <= 256
    ensures Symbols(syms + [sym]) && FeedAll(syms + [sym]) == Feed(FeedAll(syms), sym)
  {
    assert (syms + [sym])[..|syms|] == syms;
  }

  /** What the symbols mean after each step, as far as it matters. */
  ghost predicate Means(syms: seq<int>, front: seq<int>, weight: nat, out: seq<int>) {
    && Symbols(syms) && |front| == 3
    && var m := FeedAll(syms); m.list[..3] == front && m.weight == weight && m.out == out
  }

  lemma StartMeans()
    ensures Means([], [0, 1, 2], 1, [])
  {
    assert Ranks()[..3] == [0, 1, 2];
  }

  lemma NextMeans(syms: seq<int>, a: int, b: int, c: int, weight: nat, out: seq<int>)
    requires Means(syms, [a, b, c], weight, out)
    ensures Means(syms + [0], [a, b, c], 2 * weight, out + Repeat(a, weight))
    ensures Means(syms + [1], [a, b, c], 2 * weight, out + Repeat(a, 2 * weight))
    ensures Means(syms + [3], [c, a, b], 1, out + [c])
  {
    FeedMore(syms, 0);
    FeedMore(syms, 1);
    FeedMore(syms, 3);
    var list := FeedAll(syms).list;
    assert [a, b, c] == list[..3];
    assert list[0] == a && list[1] == b && list[2] == c;
    assert MoveToFront(list, 2)[..3] == [c, a, b];
  }

  lemma SymbolsMean()
    ensures StandsFor(SYMS, 3, [2, 2, 1, 0, 0, 0])
  {
    hide FeedAll, Symbols;
    StartMeans();
    NextMeans([], 0, 1, 2, 1, []);
    assert [] + [3] == [3] && [] + [2] == [2];
    NextMeans([3], 2, 0, 1, 1, [2]);
    assert [3] + [0] == [3, 0] && [2] + Repeat(2, 1) == [2, 2];
    NextMeans([3, 0], 2, 0, 1, 2, [2, 2]);
    assert [3, 0] + [3] == [3, 0, 3] && [2, 2] + [1] == [2, 2, 1];
    NextMeans([3, 0, 3], 1, 2, 0, 1, [2, 2, 1]);
    assert [3, 0, 3] + [3] == [3, 0, 3, 3] && [2, 2, 1] + [0] == [2, 2, 1, 0];
    NextMeans([3, 0, 3, 3], 0, 1, 2, 1, [2, 2, 1, 0]);
    assert [3, 0, 3, 3] + [1] == [3, 0, 3, 3, 1] && [2, 2, 1, 0] + Repeat(0, 2) == [2, 2, 1, 0, 0, 0];
    assert SYMS[..|SYMS| - 1] == [3, 0, 3, 3, 1];
  }

  // ---------------------------------------------------------------- the coding tables

  const LENGTHS_0: seq<int> := [3, 3, 2, 2, 2]
  const LENGTHS_1: seq<int> := [3, 3, 3, 1, 3]

  ghost function TableFor(len: seq<int>, minLen: nat, maxLen: nat, order: seq<int>): Table {
    Table(len, minLen, maxLen, [],
          seq(C.MAX_CODE_LEN, n => if minLen <= n <= maxLen then C.Limit(len, minLen, n) else 0),
          seq(C.MAX_CODE_LEN, n => if minLen <= n <= maxLen then C.BaseOf(len, minLen, n) else 0),
          seq(MAX_ALPHA, k => if 0 <= k < |order| then order[k] else 0))
  }

  ghost const TABLES: seq<Table> := [
    TableFor(LENGTHS_0, 2, 3, [2, 3, 4, 0, 1]), TableFor(LENGTHS_1, 1, 3, [3, 0, 1, 2, 4])]

  ghost function One(b: bool): int {
    if b then 1 else 0
  }

  lemma CountFive(len: seq<int>, n: int)
    requires |len| == 5
    ensures C.CountTo(len, n, 0) == 0 && C.CountTo(len, n, 1) == One(len[0] == n)
    ensures C.CountTo(len, n, 2) == One(len[0] == n) + One(len[1] == n)
    ensures C.CountTo(len, n, 3) == One(len[0] == n) + One(len[1] == n) + One(len[2] == n)
    ensures C.CountTo(len, n, 4) == One(len[0] == n) + One(len[1] == n) + One(len[2] == n) + One(len[3] == n)
    ensures C.CountOf(len, n) ==
              One(len[0] == n) + One(len[1] == n) + One(len[2] == n) + One(len[3] == n) + One(len[4] == n)
  {
  }

  /** How many codes are shorter, and the first code of each length. */
  lemma LevelsAre(len: seq<int>, minLen: nat)
    requires |len| == 5 && 1 <= minLen <= 2
    ensures C.Below(len, 1) == C.CountOf(len, 0) && C.Below(len, 2) == C.CountOf(len, 0) + C.CountOf(len, 1)
    ensures C.Below(len, 3) == C.CountOf(len, 0) + C.CountOf(len, 1) + C.CountOf(len, 2)
    ensures C.First(len, minLen, minLen) == 0
    ensures C.First(len, 1, 3) == 2 * (2 * C.CountOf(len, 1) + C.CountOf(len, 2))
    ensures C.First(len, 2, 3) == 2 * C.CountOf(len, 2)
  {
    hide C.CountOf;
    assert C.Below(len, 0) == 0;
    assert C.First(len, 1, 2) == 2 * C.CountOf(len, 1);
  }

  lemma CountsOf(len: seq<int>)
    requires len == LENGTHS_0 || len == LENGTHS_1
    ensures C.CountOf(len, 0) == 0 && C.CountOf(len, 1) == One(len == LENGTHS_1)
    ensures C.CountOf(len, 2) == if len == LENGTHS_0 then 3 else 0
    ensures C.CountOf(len, 3) == if len == LENGTHS_0 then 2 else 4
  {
    hide C.CountOf;
    CountFive(len, 0);
    CountFive(len, 1);
    CountFive(len, 2);
    CountFive(len, 3);
  }

  lemma PlacesAre()
    ensures C.Place(LENGTHS_0, 0) == 3 && C.Place(LENGTHS_0, 1) == 4 && C.Place(LENGTHS_0, 2) == 0
    ensures C.Place(LENGTHS_0, 3) == 1 && C.Place(LENGTHS_0, 4) == 2
    ensures C.Place(LENGTHS_1, 0) == 1 && C.Place(LENGTHS_1, 1) == 2 && C.Place(LENGTHS_1, 2) == 3
    ensures C.Place(LENGTHS_1, 3) == 0 && C.Place(LENGTHS_1, 4) == 4
  {
    hide C.CountOf, C.CountTo, C.Below;
    CountsOf(LENGTHS_0);
    CountsOf(LENGTHS_1);
    LevelsAre(LENGTHS_0, 2);
    LevelsAre(LENGTHS_1, 1);
    CountFive(LENGTHS_0, 2);
    CountFive(LENGTHS_0, 3);
    CountFive(LENGTHS_1, 1);
    CountFive(LENGTHS_1, 3);
  }

  lemma KraftMore(len: seq<int>, x: int, d: int)
    requires 0 <= x <= d && forall i | 0 <= i < |len| :: 0 <= len[i] <= d
    ensures KraftSum(len + [x], d) == KraftSum(len, d) + Pow2(d - x)
  {
    hide Pow2;
    assert (len + [x])[..|len|] == len;
  }

  lemma KraftNone(d: int)
    ensures KraftSum([], d) == 0
  {
  }

  lemma KraftFive(a: int, b: int, c: int, d: int, e: int)
    requires 0 <= a <= 3 && 0 <= b <= 3 && 0 <= c <= 3 && 0 <= d <= 3 && 0 <= e <= 3
    ensures KraftSum([a, b, c, d, e], 3) == Pow2(3 - a) + Pow2(3 - b) + Pow2(3 - c) + Pow2(3 - d) + Pow2(3 - e)
  {
    hide Pow2, KraftSum;
    KraftNone(3);
    KraftMore([], a, 3);
    KraftMore([] + [a], b, 3);
    KraftMore([] + [a] + [b], c, 3);
    KraftMore([] + [a] + [b] + [c], d, 3);
    KraftMore([] + [a] + [b] + [c] + [d], e, 3);
    assert [] + [a] + [b] + [c] + [d] + [e] == [a, b, c, d, e];
  }

  lemma TablesReady()
    ensures forall t | 0 <= t < 2 :: Ready(TABLES[t], 5) && Tight(TABLES[t]) && Prefix(TABLES[t])
  {
    hide C.CountOf, C.CountTo, C.Below, C.First, C.Place, KraftSum;
    PlacesAre();
    KraftFive(3, 3, 2, 2, 2);
    KraftFive(3, 3, 3, 1, 3);
    assert Pow2(0) == 1 && Pow2(1) == 2 && Pow2(2) == 4 && Pow2(3) == 8;
    assert LENGTHS_0[0] == 3 && LENGTHS_0[2] == 2 && LENGTHS_1[0] == 3 && LENGTHS_1[3] == 1;
  }

  ghost const LAYOUT: Layout := Layout(PTR, 3, TABLES, [1], SYMS)

  /** This is one way of compressing the word. */
  lemma LayoutDescribes()
    ensures AlphaSize(TEXT) == 5 && Describes(LAYOUT, TEXT)
  {
    hide Ready, Tight, Prefix, StandsFor, Rank, SortsRotations, LastColumn;
    RowsSorted();
    RowsAre();
    ColumnIs();
    RanksAre();
    SymbolsMean();
    TablesReady();
    assert RanksOf(InUse(TEXT), [110, 110, 98, 97, 97, 97]) == [2, 2, 1, 0, 0, 0];
  }

  // ---------------------------------------------------------------- its bits

  /** Bit strings are appended as numbers. */
  lemma Append(m: nat, h: int, k: nat, l: int, p: int)
    requires p == Pow2(k) && 0 <= l < p
    ensures BitsOf(m, h) + BitsOf(k, l) == BitsOf(m + k, h * p + l)
  {
    hide BitsOf, Pow2;
    BitsOfSplit(m, k, h, l);
  }

  lemma Powers()
    ensures Pow2(1) == 2 && Pow2(2) == 4 && Pow2(3) == 8 && Pow2(4) == 16 && Pow2(5) == 32
    ensures Pow2(7) == 0x80 && Pow2(13) == 0x2000
    ensures Pow2(12) == 0x1000 && Pow2(15) == 0x8000 && Pow2(16) == 0x1_0000 && Pow2(18) == 0x4_0000
    ensures Pow2(30) == 0x4000_0000 && Pow2(32) == 0x1_0000_0000 && Pow2(42) == 0x400_0000_0000
    ensures Pow2(62) == 0x4000_0000_0000_0000 && Pow2(94) == 0x4000_0000_0000_0000_0000_0000
  {
    assert Pow2(1) == 2 && Pow2(2) == 4 && Pow2(3) == 8 && Pow2(4) == 16 && Pow2(5) == 32;
    Pow2Add(4, 4);
    Pow2Add(8, 4);
    Pow2Add(4, 3);
    Pow2Add(12, 1);
    Pow2Add(12, 3);
    Pow2Add(8, 8);
    Pow2Add(16, 2);
    Pow2Add(15, 15);
    Pow2Add(16, 16);
    Pow2Add(30, 12);
    Pow2Add(32, 30);
    Pow2Add(62, 32);
  }

  lemma TwoBits()
    ensures BitsOf(1, 0) == [0] && BitsOf(2, 0) == [0, 0] && BitsOf(2, 1) == [0, 1] && BitsOf(2, 2) == [1, 0]
        && BitsOf(2, 3) == [1, 1]
  {
    assert BitsOf(0, 0) == [];
    assert BitsOf(1, 0) == BitsOf(0, 0) + [0] && BitsOf(1, 1) == BitsOf(0, 0) + [1];
  }

  lemma FewBits()
    ensures BitsOf(3, 6) == [1, 1, 0] && BitsOf(5, 30) == [1, 1, 1, 1, 0] && BitsOf(5, 20) == [1, 0, 1, 0, 0]
    ensures BitsOf(4, 0) == [0, 0, 0, 0] && BitsOf(4, 2) == [0, 0, 1, 0] && BitsOf(4, 6) == [0, 1, 1, 0]
  {
    hide BitsOf, Pow2;
    Powers();
    TwoBits();
    Append(2, 3, 1, 0, 2);
    Append(2, 3, 2, 3, 4);
    Append(4, 15, 1, 0, 2);
    Append(2, 2, 2, 2, 4);
    Append(4, 10, 1, 0, 2);
    Append(2, 0, 2, 0, 4);
    Append(2, 0, 2, 2, 4);
    Append(2, 1, 2, 2, 4);
  }

  lemma {:induction false} FlattenOnly(xs: seq<seq<int>>, i: nat)
    requires i < |xs| && forall k | 0 <= k < |xs| && k != i :: xs[k] == []
    ensures Flatten(xs) == xs[i]
    decreases |xs|
  {
    var n := |xs| - 1;
    if i < n {
      FlattenOnly(xs[..n], i);
      assert Flatten(xs) == Flatten(xs[..n]) + [];
    } else {
      FlattenNone(xs[..n]);
      assert Flatten(xs) == [] + xs[n];
    }
  }

  lemma {:induction false} FlattenNone(xs: seq<seq<int>>)
    requires forall k | 0 <= k < |xs| :: xs[k] == []
    ensures Flatten(xs) == []
  {
    if xs != [] {
      FlattenNone(xs[..|xs| - 1]);
    }
  }

  /** Only the seventh row has bytes in use. */
  lemma MapRows()
    ensures RowFlags(InUse(TEXT)) ==
              [false, false, false, false, false, false, true, false,
               false, false, false, false, false, false, false, false]
    ensures Row(InUse(TEXT), 6) ==
              [false, true, true, false, false, false, false, false,
               false, false, false, false, false, false, true, false]
  {
    var x := InUse(TEXT);
    assert TEXT[1] == 97 && TEXT[0] == 98 && TEXT[2] == 110;
    assert forall c | 0 <= c < 256 :: x[c] <==> c == 97 || c == 98 || c == 110;
    assert Row(x, 6)[1];
    forall i | 0 <= i < 16 && i != 6
      ensures true !in Row(x, i)
    {
    }
  }

  lemma FlagsConcat(xs: seq<bool>, ys: seq<bool>)
    ensures FlagBits(xs + ys) == FlagBits(xs) + FlagBits(ys)
  {
  }

  lemma FourFlags()
    ensures FlagBits([false, false, false, false]) == BitsOf(4, 0)
    ensures FlagBits([false, false, true, false]) == BitsOf(4, 2)
    ensures FlagBits([false, true, true, false]) == BitsOf(4, 6)
  {
    hide BitsOf;
    FewBits();
  }

  lemma JoinFlags(a: seq<bool>, b: seq<bool>, c: seq<bool>, d: seq<bool>, p: int, q: int, r: int, s: int)
    requires 0 <= q < 16 && 0 <= r < 16 && 0 <= s < 16
    requires FlagBits(a) == BitsOf(4, p) && FlagBits(b) == BitsOf(4, q)
    requires FlagBits(c) == BitsOf(4, r) && FlagBits(d) == BitsOf(4, s)
    ensures FlagBits(a + b + c + d) == BitsOf(16, 0x1000 * p + 0x100 * q + 0x10 * r + s)
  {
    hide BitsOf, Pow2, FlagBits;
    Powers();
    FlagsConcat(a, b);
    FlagsConcat(a + b, c);
    FlagsConcat(a + b + c, d);
    Append(4, p, 4, q, 16);
    Append(8, 0x10 * p + q, 4, r, 16);
    Append(12, 0x100 * p + 0x10 * q + r, 4, s, 16);
  }

  /** Two rows of flags as numbers. */
  lemma FlagsAre()
    ensures FlagBits([false, false, false, false, false, false, true, false,
                      false, false, false, false, false, false, false, false]) == BitsOf(16, 0x0200)
    ensures FlagBits([false, true, true, false, false, false, false, false,
                      false, false, false, false, false, false, true, false]) == BitsOf(16, 0x6002)
  {
    hide BitsOf, FlagBits;
    var none, third, both := [false, false, false, false], [false, false, true, false], [false, true, true, false];
    FourFlags();
    JoinFlags(none, third, none, none, 0, 2, 0, 0);
    JoinFlags(both, none, none, third, 6, 0, 0, 2);
    assert none + third + none + none ==
      [false, false, false, false, false, false, true, false,
       false, false, false, false, false, false, false, false];
    assert both + none + none + third ==
      [false, true, true, false, false, false, false, false,
       false, false, false, false, false, false, true, false];
  }

  lemma MapIs()
    ensures MapBits(InUse(TEXT)) == BitsOf(32, 0x0200_6002)
  {
    hide BitsOf, Row, RowFlags, Flatten, Pow2, FlagBits;
    var x := InUse(TEXT);
    MapRows();
    Powers();
    FlagsAre();
    FlattenOnly(RowBits(RowFlags(x), x), 6);
    Append(16, 0x0200, 16, 0x6002, 0x1_0000);
  }

  lemma RankIs()
    ensures RankAt([1], 2, 0) == 1
  {
    hide RankAt;
    assert Order([1], 2, 0) == Start(2) == [0, 1];
  }

  lemma SelectorsAre()
    ensures Selectors([1], 2) && SelectorBits([1], 2) == BitsOf(20, 0x4_0006)
  {
    hide BitsOf, Pow2, RankAt, Flatten;
    Powers();
    TwoBits();
    RankIs();
    assert Unary(1) == [1, 0];
    FlattenOnly(UnaryBits([1], 2), 0);
    Append(3, 2, 15, 1, 0x8000);
    Append(18, 0x1_0001, 2, 2, 4);
  }

  lemma FlattenFive(a: seq<int>, b: seq<int>, c: seq<int>, d: seq<int>, e: seq<int>)
    ensures Flatten([a, b, c, d, e]) == a + b + c + d + e
  {
    hide Flatten;
    FlattenNone([]);
    FlattenMore([], a);
    FlattenMore([a], b);
    FlattenMore([a, b], c);
    FlattenMore([a, b, c], d);
    FlattenMore([a, b, c, d], e);
    assert [] + [a] == [a] && [a] + [b] == [a, b] && [a, b] + [c] == [a, b, c];
    assert [a, b, c] + [d] == [a, b, c, d] && [a, b, c, d] + [e] == [a, b, c, d, e];
    assert [] + a == a;
  }

  lemma DeltasAre()
    ensures Delta(3, 3) == [0] && Delta(2, 2) == [0] && Delta(3, 2) == [1, 1, 0]
    ensures Delta(3, 1) == [1, 1, 1, 1, 0] && Delta(1, 3) == [1, 0, 1, 0, 0]
  {
    assert Delta(1, 1) == [0];
    assert Delta(2, 1) == [1, 1] + Delta(1, 1);
    assert Delta(2, 3) == [1, 0] + Delta(3, 3);
  }

  lemma LengthsAre()
    ensures LengthBits(LENGTHS_0) == BitsOf(12, 0x198) && LengthBits(LENGTHS_1) == BitsOf(18, 0x63d4)
  {
    hide BitsOf, Pow2, Delta, Flatten;
    Powers();
    TwoBits();
    FewBits();
    DeltasAre();
    var zero, down := [0], [1, 1, 0];
    assert DeltaBits(LENGTHS_0) == [zero, zero, down, zero, zero];
    FlattenFive(zero, zero, down, zero, zero);
    assert DeltaBits(LENGTHS_1) == [zero, zero, zero, [1, 1, 1, 1, 0], [1, 0, 1, 0, 0]];
    FlattenFive(zero, zero, zero, [1, 1, 1, 1, 0], [1, 0, 1, 0, 0]);
    Append(1, 0, 1, 0, 2);
    Append(2, 0, 3, 6, 8);
    Append(5, 6, 1, 0, 2);
    Append(6, 12, 1, 0, 2);
    Append(2, 0, 1, 0, 2);
    Append(3, 0, 5, 30, 32);
    Append(8, 30, 5, 20, 32);
    Append(5, 3, 7, 24, 128);
    Append(5, 3, 13, 0x3d4, 0x2000);
  }

  /** The codes of the second table that the symbols use. */
  lemma CodesAre()
    ensures |LENGTHS_1| == 5
    ensures C.CodeOf(LENGTHS_1, 1, 3) == 0 && C.CodeOf(LENGTHS_1, 1, 0) == 4
    ensures C.CodeOf(LENGTHS_1, 1, 1) == 5 && C.CodeOf(LENGTHS_1, 1, 4) == 7
  {
    hide C.CountOf, C.CountTo, C.Below, C.First;
    CountsOf(LENGTHS_1);
    LevelsAre(LENGTHS_1, 1);
    CountFive(LENGTHS_1, 1);
    CountFive(LENGTHS_1, 3);
  }

  ghost predicate Prepared() {
    Selected(TABLES, [1], 5) && Coverable(SYMS, [1], 5)
  }

  lemma NextCode(i: nat, v: int, n: nat, sym: int, len: nat, code: int)
    requires Prepared() && i < 6 && SYMS[i] == sym && LENGTHS_1[sym] == len && C.CodeOf(LENGTHS_1, 1, sym) == code
    requires 0 <= code < Pow2(len) && CodesBits(SYMS, TABLES, [1], 5, i) == BitsOf(n, v)
    ensures CodesBits(SYMS, TABLES, [1], 5, i + 1) == BitsOf(n + len, v * Pow2(len) + code)
  {
    hide BitsOf, Pow2, C.CodeOf, Selected;
    Append(n, v, len, code, Pow2(len));
    assert TableOf(TABLES, [1], i).len == LENGTHS_1 && TableOf(TABLES, [1], i).minLen == 1;
  }

  lemma SymbolBits()
    requires Prepared()
    ensures CodesBits(SYMS, TABLES, [1], 5, 6) == BitsOf(12, 0x42f)
  {
    hide BitsOf, Pow2, C.CodeOf, CodesBits, Prepared;
    Powers();
    CodesAre();
    NoCodes();
    NextCode(0, 0, 0, 3, 1, 0);
    NextCode(1, 0, 1, 0, 3, 4);
    NextCode(2, 4, 4, 3, 1, 0);
    NextCode(3, 8, 5, 3, 1, 0);
    NextCode(4, 16, 6, 1, 3, 5);
    NextCode(5, 133, 9, 4, 3, 7);
  }

  lemma NoCodes()
    requires Prepared()
    ensures CodesBits(SYMS, TABLES, [1], 5, 0) == BitsOf(0, 0)
  {
  }

  lemma FlattenTwo(a: seq<int>, b: seq<int>)
    ensures Flatten([a, b]) == a + b
  {
    hide Flatten;
    FlattenNone([]);
    FlattenMore([], a);
    FlattenMore([a], b);
    assert [] + [a] == [a] && [a] + [b] == [a, b] && [] + a == a;
  }

  lemma TablesAre()
    requires forall t | 0 <= t < |TABLES| :: Ready(TABLES[t], 5)
    ensures Flatten(TablesBits(TABLES, 5)) == BitsOf(30, 0x660_63d4)
  {
    hide BitsOf, Pow2, LengthBits, Flatten, Ready;
    Powers();
    LengthsAre();
    assert TablesBits(TABLES, 5) == [LengthBits(LENGTHS_0), LengthBits(LENGTHS_1)];
    FlattenTwo(LengthBits(LENGTHS_0), LengthBits(LENGTHS_1));
    Append(12, 0x198, 18, 0x63d4, 0x4_0000);
  }

  lemma CodedIs()
    requires Codes(LAYOUT, 5)
    ensures CodedBits(LAYOUT, 5) == BitsOf(62, 0x1000_1866_063d_442f)
  {
    hide BitsOf, Pow2, TablesBits, SelectorBits, CodesBits, Flatten, Ready, Coverable, Selectors;
    Powers();
    SelectorsAre();
    TablesAre();
    SymbolBits();
    Append(30, 0x660_63d4, 12, 0x42f, 0x1000);
    Append(20, 0x4_0006, 42, 0x66_063d_442f, 0x400_0000_0000);
  }

  /** The bits that stand for the word. */
  lemma DataIs()
    requires Describes(LAYOUT, TEXT) && AlphaSize(TEXT) == 5
    ensures BlockData(LAYOUT, TEXT) == BitsOf(118, 0xc080_1800_9000_1866_063d_442f)
  {
    hide BitsOf, Pow2, MapBits, CodedBits, Describes, AlphaSize;
    LayoutParts();
    Powers();
    MapIs();
    CodedIs();
    Append(32, 0x0200_6002, 62, 0x1000_1866_063d_442f, 0x4000_0000_0000_0000);
    Append(24, 3, 94, 0x80_1800_9000_1866_063d_442f, 0x4000_0000_0000_0000_0000_0000);
  }

  lemma LayoutParts()
    requires Describes(LAYOUT, TEXT) && AlphaSize(TEXT) == 5
    ensures Codes(LAYOUT, 5)
  {
    hide Codes, Sorts, AlphaSize;
  }

  /** The word is compressed to 118 bits: the row of the unrotated word, the map of its three bytes, one selector for
      the second of two tables, the lengths of both, and six symbols. */
  lemma WordEncoded()
    ensures IsEncoding(BitsOf(118, 0xc080_1800_9000_1866_063d_442f), TEXT)
  {
    hide Describes, BlockData, BitsOf, AlphaSize;
    LayoutDescribes();
    DataIs();
  }
}
