/** Every block has a compressed form. */
module SomeEncoding {
  // So there is a faithful compressor for every level and checksum table, and what is proved about faithful compressors
  // is not empty.

  import opened Arith
  import opened BitStrings
  import opened BlockCodec
  import opened BlockHeader
  import opened Fields
  import opened HuffmanLengths
  import opened HuffmanTree
  import opened InverseBwt
  import opened MtfCode
  import opened MtfSegments
  import opened Permutation
  import opened Sequences
  import C = CanonicalCode
  import D = StreamCodec
  import R = RunLength
  import S = BlockStream

  // ---------------------------------------------------------------- sorted rotations

  lemma {:induction false} LexTotal(x: seq<int>, y: seq<int>)
    ensures LexLe(x, y) || LexLe(y, x)
  {
    if x != [] && y != [] {
      LexTotal(x[1..], y[1..]);
    }
  }

  lemma {:induction false} LexTransitive(x: seq<int>, y: seq<int>, z: seq<int>)
    requires LexLe(x, y) && LexLe(y, z)
    ensures LexLe(x, z)
  {
    if x != [] && x[0] == y[0] && y[0] == z[0] {
      LexTransitive(x[1..], y[1..], z[1..]);
    }
  }

  /** Where a row goes among sorted rows. */
  lemma {:induction false} InsertionPoint(rows: seq<seq<int>>, x: seq<int>) returns (j: nat)
    requires Sorted(rows)
    ensures j <= |rows| && forall i | 0 <= i < j :: LexLe(rows[i], x)
    ensures forall i | j <= i < |rows| :: LexLe(x, rows[i])
  {
    if rows == [] {
      j := 0;
    } else {
      var n := |rows| - 1;
      LexTotal(rows[n], x);
      if LexLe(rows[n], x) {
        j := n + 1;
        forall i | 0 <= i < n
          ensures LexLe(rows[i], x)
        {
          LexTransitive(rows[i], rows[n], x);
        }
      } else {
        j := InsertionPoint(rows[..n], x);
        assert forall i | 0 <= i < n :: rows[i] == rows[..n][i];
      }
    }
  }

  ghost function Inserted<T>(xs: seq<T>, j: nat, x: T): (ys: seq<T>)
    requires j <= |xs|
    ensures |ys| == |xs| + 1 && ys[j] == x && (forall i | 0 <= i < j :: ys[i] == xs[i])
    ensures forall i | j < i < |ys| :: ys[i] == xs[i - 1]
  {
    xs[..j] + [x] + xs[j..]
  }

  lemma {:induction false} SomeOrder(b: seq<int>, n: nat) returns (ptr: seq<int>)
    requires n <= |b|
    ensures IsPermutation(ptr, n) && Sorted(Rows(b, ptr))
  {
    ptr := [];
    if n > 0 {
      hide Inserted, Sorted, LexLe, Rot;
      var q := SomeOrder(b, n - 1);
      var j := InsertionPoint(Rows(b, q), Rot(b, n - 1));
      ptr := Inserted(q, j, n - 1);
      InsertedPermutes(q, n, j);
      InsertedSorted(Rows(b, q), j, Rot(b, n - 1));
      assert Rows(b, ptr) == Inserted(Rows(b, q), j, Rot(b, n - 1));
    }
  }

  lemma InsertedPermutes(q: seq<int>, n: nat, j: nat)
    requires 0 < n && IsPermutation(q, n - 1) && j <= |q|
    ensures IsPermutation(Inserted(q, j, n - 1), n)
  {
    hide Inserted;
    var ptr := Inserted(q, j, n - 1);
    forall i, k | 0 <= i < k < n
      ensures ptr[i] != ptr[k]
    {
      assert ptr[i] == if i < j then q[i] else if i == j then n - 1 else q[i - 1];
      assert ptr[k] == if k < j then q[k] else if k == j then n - 1 else q[k - 1];
    }
  }

  lemma InsertedSorted(rows: seq<seq<int>>, j: nat, x: seq<int>)
    requires Sorted(rows) && j <= |rows|
    requires (forall i | 0 <= i < j :: LexLe(rows[i], x)) && forall i | j <= i < |rows| :: LexLe(x, rows[i])
    ensures Sorted(Inserted(rows, j, x))
  {
    hide LexLe, Inserted;
    var all := Inserted(rows, j, x);
    forall i, k | 0 <= i < k < |all|
      ensures LexLe(all[i], all[k])
    {
      assert all[i] == if i < j then rows[i] else if i == j then x else rows[i - 1];
      assert all[k] == if k < j then rows[k] else if k == j then x else rows[k - 1];
    }
  }

  // ---------------------------------------------------------------- symbols

  lemma SomeDigits(base: seq<int>, z: nat) returns (ds: seq<int>, w: nat)
    requires Symbols(base) && FeedAll(base).weight == 1
    ensures Run(base, ds, w, z)
  {
    hide Run, FeedAll, Symbols;
    RunStarts(base);
    ds, w := [], 1;
    if z > 0 {
      ds, w := MoreDigits(base, [], 1, 0, z - 1);
    }
  }

  lemma {:induction false} MoreDigits(base: seq<int>, ds: seq<int>, w: nat, done: nat, z: nat)
    returns (ds': seq<int>, w': nat)
    requires Run(base, ds, w, done) && w >= 1
    ensures Run(base, ds', w', done + (z + 1) * w)
    decreases z
  {
    hide Run;
    Digit(z, w);
    var sym := if z % 2 == 1 then RUNB else RUNA;
    RunStep(base, ds, w, done, sym);
    ds', w' := ds + [sym], 2 * w;
    if z >= 2 {
      ds', w' := MoreDigits(base, ds', w', done + if sym == RUNB then 2 * w else w, (z - 2) / 2);
    }
  }

  /** Symbols for a sequence of ranks, with some repetitions still pending. */
  lemma {:induction false} SomeSymbols(n: int, ranks: seq<int>) returns (syms: seq<int>, yy: seq<int>, zPend: nat)
    requires 1 <= n <= 256 && forall i | 0 <= i < |ranks| :: 0 <= ranks[i] < n
    ensures Encoded(syms, yy, n, zPend, ranks) && Covers(yy, n) && |syms| + zPend <= |ranks|
  {
    hide Encoded, Run, FeedAll, Symbols, MoveToFront, Repeat;
    if ranks == [] {
      syms, yy, zPend := [], seq(256, i => i), 0;
      EncodedEmpty(yy, n);
    } else {
      var m := |ranks| - 1;
      var ll := ranks[m];
      syms, yy, zPend := SomeSymbols(n, ranks[..m]);
      assert ranks == ranks[..m] + [ll];
      assert ll in yy[..n];
      if yy[0] == ll {
        EncodePending(syms, yy, n, zPend, ranks[..m]);
        zPend := zPend + 1;
      } else {
        var j :| 0 <= j < n && yy[..n][j] == ll;
        EncodedWeight(syms, yy, n, zPend, ranks[..m]);
        var ds, w := SomeDigits(syms, zPend);
        EncodeMove(syms, yy, n, zPend, ranks[..m], ds, w, j);
        CoversMoved(yy, n, j);
        FewDigits(syms, ds, w, zPend);
        syms, yy, zPend := syms + ds + [j + 1], MoveToFront(yy, j), 0;
      }
    }
  }

  lemma FewDigits(base: seq<int>, ds: seq<int>, w: nat, z: nat)
    requires Run(base, ds, w, z)
    ensures |ds| <= z
  {
  }

  lemma SymbolsExist(n: int, ranks: seq<int>) returns (syms: seq<int>)
    requires 1 <= n <= 256 && forall i | 0 <= i < |ranks| :: 0 <= ranks[i] < n
    ensures StandsFor(syms, n, ranks) && 1 <= |syms| <= |ranks| + 1
  {
    hide Encoded, Run, FeedAll, Symbols, StandsFor;
    var pre, yy, zPend := SomeSymbols(n, ranks);
    EncodedWeight(pre, yy, n, zPend, ranks);
    var ds, w := SomeDigits(pre, zPend);
    EncodeEnd(pre, yy, n, zPend, ranks, ds, w);
    FewDigits(pre, ds, w, zPend);
    syms := pre + ds + [n + 1];
  }

  // ---------------------------------------------------------------- a table

  /** All codes have nine bits. */
  ghost function FlatLengths(n: nat): (len: seq<int>)
    ensures |len| == n && forall i | 0 <= i < n :: len[i] == 9
  {
    seq(n, i => 9)
  }

  ghost function FlatTable(n: nat): Table {
    var len := FlatLengths(n);
    Table(len, 9, 9, [], seq(C.MAX_CODE_LEN, k => if k == 9 then C.Limit(len, 9, 9) else 0),
          seq(C.MAX_CODE_LEN, k => if k == 9 then C.BaseOf(len, 9, 9) else 0), seq(MAX_ALPHA, k => k))
  }

  lemma {:induction false} FlatKraft(n: nat)
    ensures KraftSum(FlatLengths(n), 9) == n
  {
    if n > 0 {
      FlatKraft(n - 1);
      assert FlatLengths(n)[..n - 1] == FlatLengths(n - 1);
      assert Pow2(0) == 1;
    }
  }

  lemma {:induction false} FlatCount(n: nat, m: int, i: nat)
    requires i <= n
    ensures C.CountTo(FlatLengths(n), m, i) == if m == 9 then i else 0
  {
    if i > 0 {
      FlatCount(n, m, i - 1);
    }
  }

  lemma {:induction false} FlatBelow(n: nat, m: nat)
    requires m <= 9
    ensures C.Below(FlatLengths(n), m) == 0
  {
    if m > 0 {
      FlatBelow(n, m - 1);
      FlatCount(n, m - 1, n);
    }
  }

  lemma FlatReady(n: nat)
    requires 1 <= n <= MAX_ALPHA
    ensures Ready(FlatTable(n), n) && Tight(FlatTable(n)) && Prefix(FlatTable(n))
  {
    var len := FlatLengths(n);
    FlatKraft(n);
    NinePower();
    FlatBelow(n, 9);
    forall i | 0 <= i < n
      ensures C.Place(len, i) == i
    {
      FlatCount(n, 9, i);
    }
    assert len[0] == 9;
  }

  lemma NinePower()
    ensures Pow2(9) == 512
  {
    assert Pow2(2) == 4 && Pow2(4) == 16 && Pow2(6) == 64 && Pow2(8) == 256;
  }

  // ---------------------------------------------------------------- bits as fields

  lemma {:induction false} BitsAsFields(bits: seq<int>) returns (fs: seq<Field>)
    requires Bits(bits)
    ensures AreFields(fs) && FieldsBits(fs) == bits
  {
    hide FieldsBits, AreFields, BitsOf;
    fs := [];
    FieldsNone();
    if bits != [] {
      var n := |bits| - 1;
      fs := BitsAsFields(bits[..n]);
      OneBitField(bits[n]);
      FieldsAppend(fs, Field(1, bits[n]));
      fs := fs + [Field(1, bits[n])];
      assert bits == bits[..n] + [bits[n]];
    }
  }

  lemma {:induction false} DeltaIsBits(a: int, b: int)
    ensures Bits(Delta(a, b))
    decreases if a < b then b - a else a - b
  {
    if a < b {
      DeltaIsBits(a + 1, b);
    } else if a > b {
      DeltaIsBits(a - 1, b);
    }
  }

  lemma LengthsAreBits(len: seq<int>)
    requires |len| >= 1 && CodeLengths(len, |len|)
    ensures Bits(LengthBits(len))
  {
    hide BitsOf, Delta;
    forall i | 0 <= i < |len|
      ensures Bits(DeltaBits(len)[i])
    {
      DeltaIsBits(Before(len, i), len[i]);
    }
    FlattenedBits(DeltaBits(len));
  }

  lemma UnaryIsBits(j: nat)
    ensures Bits(Unary(j))
  {
  }

  lemma SelectorsAreBits(selectors: seq<int>, n: nat)
    requires Selectors(selectors, n)
    ensures Bits(SelectorBits(selectors, n))
  {
    hide BitsOf, RankAt, Unary;
    forall k | 0 <= k < |selectors|
      ensures Bits(UnaryBits(selectors, n)[k])
    {
      UnaryIsBits(RankAt(selectors, n, k));
    }
    FlattenedBits(UnaryBits(selectors, n));
  }

  lemma CodedIsBits(k: Layout, alphaSize: int)
    requires alphaSize >= 1 && Codes(k, alphaSize)
    ensures Bits(CodedBits(k, alphaSize))
  {
    hide CodesBits, LengthBits, SelectorBits, Ready, Flatten;
    SelectorsAreBits(k.selectors, |k.tabs|);
    forall t | 0 <= t < |k.tabs|
      ensures Bits(TablesBits(k.tabs, alphaSize)[t])
    {
      ReadyLengths(k.tabs[t], alphaSize);
      LengthsAreBits(k.tabs[t].len);
    }
    FlattenedBits(TablesBits(k.tabs, alphaSize));
  }

  // ---------------------------------------------------------------- existence

  lemma LayoutExists(b: seq<int>) returns (k: Layout)
    requires Block(b) && |b| <= 900_000
    ensures Describes(k, b)
  {
    hide StandsFor, Rank, RanksOf, LexLe, Rot, Ready, Tight, Prefix, FlatTable;
    var ptr := SomeOrder(b, |b|);
    var origPtr := Hit(ptr, |b|, 0);
    ColumnInUse(b, ptr);
    SomeInUse(InUse(b), b);
    var n := Rank(InUse(b), 256);
    var col := LastColumn(b, ptr);
    RanksInside(InUse(b), col);
    var syms := SymbolsExist(n, RanksOf(InUse(b), col));
    FlatReady(n + 2);
    var selectors := seq((|syms| + GROUP - 1) / GROUP, i => 0);
    SymbolsCoverable(syms, n, RanksOf(InUse(b), col), selectors);
    k := Layout(ptr, origPtr, [FlatTable(n + 2), FlatTable(n + 2)], selectors, syms);
  }

  lemma RanksInside(inUse: seq<bool>, col: seq<int>)
    requires |inUse| == 256 && Bytes(col) && forall i | 0 <= i < |col| :: inUse[col[i]]
    ensures |RanksOf(inUse, col)| == |col|
    ensures forall i | 0 <= i < |col| :: 0 <= RanksOf(inUse, col)[i] < Rank(inUse, 256)
  {
    hide Rank;
    forall i | 0 <= i < |col|
      ensures 0 <= RanksOf(inUse, col)[i] < Rank(inUse, 256)
    {
      RankGrows(inUse, col[i], 256);
    }
  }

  /** Fields that write a compressed form of the block. */
  ghost predicate Writes(fs: seq<Field>, b: seq<int>) {
    AreFields(fs) && IsEncoding(FieldsBits(fs), b)
  }

  lemma EncodingExists(b: seq<int>)
    requires Block(b) && |b| <= 900_000
    ensures exists fs :: Writes(fs, b)
  {
    hide FieldsBits, AreFields, BitsOf, MapBits, CodedBits;
    var k := LayoutExists(b);
    LayoutAlpha(k, b);
    MapIsBits(InUse(b));
    CodedIsBits(k, AlphaSize(b));
    var fs := BitsAsFields(BlockData(k, b));
    assert Writes(fs, b);
  }

  lemma LayoutAlpha(k: Layout, b: seq<int>)
    requires Describes(k, b)
    ensures AlphaSize(b) >= 1 && Codes(k, AlphaSize(b))
  {
  }

  ghost function Encode(b: seq<int>): (fs: seq<Field>)
    ensures AreFields(fs)
    ensures Block(b) && |b| <= 900_000 ==> IsEncoding(FieldsBits(fs), b)
  {
    if Block(b) && |b| <= 900_000 then
      EncodingExists(b);
      var fs :| Writes(fs, b);
      fs
    else
      []
  }

  /** There is a faithful compressor for every level and checksum table. */
  lemma FaithfulExists(level: int, table: seq<int>) returns (u: S.Setup)
    requires 1 <= level <= 9 && R.Table(table)
    ensures u.level == level && u.table == table && S.IsSetup(u) && D.Faithful(u)
  {
    u := S.Setup(level, table, (x, inUse) => Encode(x));
  }
}
