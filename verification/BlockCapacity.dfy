/** How long a compressed block can be. */
module BlockCapacity {
  // The compressor writes a block over the array that held its plain bytes, and never writes behind its end.

  import opened Arith
  import opened BitStrings
  import opened BitStream
  import opened BlockCodec
  import opened BlockHeader
  import opened BlockStream
  import opened HuffmanLengths
  import opened InverseBwt
  import opened MtfCode
  import opened MtfSegments
  import opened Sequences
  import D = StreamCodec
  import L = StreamCalls
  import R = RunLength

  lemma {:induction false} FlattenLength(pieces: seq<seq<int>>, m: nat)
    requires forall i | 0 <= i < |pieces| :: |pieces[i]| <= m
    ensures |Flatten(pieces)| <= m * |pieces|
  {
    if pieces != [] {
      FlattenLength(pieces[..|pieces| - 1], m);
    }
  }

  lemma {:induction false} DeltaLength(a: int, b: int)
    ensures |Delta(a, b)| == 1 + 2 * (if a < b then b - a else a - b)
    decreases if a < b then b - a else a - b
  {
    if a < b {
      DeltaLength(a + 1, b);
    } else if a > b {
      DeltaLength(a - 1, b);
    }
  }

  lemma LengthsFit(len: seq<int>, alphaSize: int)
    requires CodeLengths(len, alphaSize) && alphaSize <= MAX_ALPHA
    ensures |LengthBits(len)| <= 5 + 39 * MAX_ALPHA
  {
    hide BitsOf, Delta, Flatten;
    var pieces := DeltaBits(len);
    forall i | 0 <= i < |pieces|
      ensures |pieces[i]| <= 39
    {
      DeltaLength(Before(len, i), len[i]);
    }
    FlattenLength(pieces, 39);
  }

  lemma TablesFit(tabs: seq<Table>, alphaSize: int)
    requires 1 <= alphaSize <= MAX_ALPHA && |tabs| <= 6 && forall t | 0 <= t < |tabs| :: Ready(tabs[t], alphaSize)
    ensures |Flatten(TablesBits(tabs, alphaSize))| <= 6 * (5 + 39 * MAX_ALPHA)
  {
    hide LengthBits, Flatten, Ready;
    var pieces := TablesBits(tabs, alphaSize);
    forall t | 0 <= t < |tabs|
      ensures |pieces[t]| <= 5 + 39 * MAX_ALPHA
    {
      ReadyLengths(tabs[t], alphaSize);
      LengthsFit(tabs[t].len, alphaSize);
    }
    FlattenLength(pieces, 5 + 39 * MAX_ALPHA);
  }

  lemma SelectorsFit(selectors: seq<int>, n: nat)
    requires Selectors(selectors, n)
    ensures |SelectorBits(selectors, n)| <= 18 + 6 * MAX_SELECTORS
  {
    hide BitsOf, Flatten, Order;
    FlattenLength(UnaryBits(selectors, n), 6);
  }

  lemma MapFits(x: seq<bool>)
    requires |x| == 256
    ensures |MapBits(x)| <= 16 + 256
  {
    hide Flatten, RowFlags;
    FlattenLength(RowBits(RowFlags(x), x), 16);
  }

  lemma {:induction false} CodesFit(syms: seq<int>, tabs: seq<Table>, selectors: seq<int>, alphaSize: int, n: nat)
    requires Selected(tabs, selectors, alphaSize) && Coverable(syms, selectors, alphaSize) && n <= |syms|
    ensures |CodesBits(syms, tabs, selectors, alphaSize, n)| <= 20 * n
  {
    hide Ready, BitsOf;
    if n > 0 {
      CodesFit(syms, tabs, selectors, alphaSize, n - 1);
      CodesStep(syms, tabs, selectors, alphaSize, n - 1);
      ReadyLengths(TableOf(tabs, selectors, n - 1), alphaSize);
    }
  }

  /** Every symbol stands for at least one rank. */
  lemma {:induction false} OutLength(syms: seq<int>)
    requires Symbols(syms)
    ensures |syms| <= |FeedAll(syms).out| && FeedAll(syms).weight >= 1
  {
    hide MoveToFront;
    if syms != [] {
      OutLength(syms[..|syms| - 1]);
    }
  }

  lemma SymbolsFit(syms: seq<int>, nInUse: int, ranks: seq<int>)
    requires StandsFor(syms, nInUse, ranks)
    ensures |syms| <= |ranks| + 1
  {
    hide FeedAll;
    OutLength(syms[..|syms| - 1]);
  }

  /** No compressed form of a block is longer than this. */
  lemma EncodingFits(code: seq<int>, b: seq<int>)
    requires IsEncoding(code, b)
    ensures |code| <= 168_748 + 20 * |b|
  {
    hide BitsOf, MapBits, SelectorBits, TablesBits, CodesBits, Flatten, Rank, StandsFor, Codes, RanksOf, SortsRotations;
    var k :| Describes(k, b) && code == BlockData(k, b);
    CodesFacts(k, AlphaSize(b));
    SomeInUse(InUse(b), b);
    MapFits(InUse(b));
    SelectorsFit(k.selectors, |k.tabs|);
    TablesFit(k.tabs, AlphaSize(b));
    CodesFit(k.syms, k.tabs, k.selectors, AlphaSize(b), |k.syms|);
    SortedPointers(b, k.ptr);
    SymbolsFit(k.syms, Rank(InUse(b), 256), RanksOf(InUse(b), LastColumn(b, k.ptr)));
  }

  /** Writing a block, with header and trailer as due, stays within the 4 * (100000 * level + 34) bytes of the array. */
  method SaveInPlace(s: Stream, isLast: bool)
    requires s.Valid() && s.bits.zbits == [] && (s.buf.nblock > 0 ==> s.blockCrc == BlockCrc(s.setup, s.buf.pairs))
    requires D.Faithful(s.setup)
    modifies s.bits
    ensures |s.bits.zbits| <= 4 * (100_000 * s.setup.level + 34)
  {
    hide R.Filled, R.Crc, R.CodedAll, R.PlainAll, Clean, Waiting, BytesBits, BitsOf, D.Faithful, BlockBits, HeaderBits;
    ghost var before := s.bits.Written();
    WaitingFew(s.bits);
    if s.buf.nblock > 0 {
      BlockFits(s);
    }
    HeaderLength(s.setup);
    TrailerLength(s.combinedCrc);
    s.CompressBlockSave(isLast);
  }

  lemma WaitingFew(bits: BitWriter)
    requires bits.Valid() && bits.zbits == []
    ensures |bits.Written()| <= 32
  {
    hide Waiting;
    BytesBitsNone();
  }

  lemma HeaderLength(u: Setup)
    ensures |HeaderBits(u)| == 32
  {
    hide BitsOf;
    assert |BytesBits(HEADER)| == 24;
  }

  lemma BlockFits(s: Stream)
    requires s.Valid() && D.Faithful(s.setup) && s.buf.nblock > 0
    ensures R.Pairs(s.buf.pairs) && |BlockBits(s.setup, s.buf.pairs)| <= 168_829 + 20 * 100_000 * s.setup.level
  {
    hide R.Crc, R.PlainAll, Clean, Waiting, BytesBits, BitsOf, BlockBits, L.Head;
    var u, ps := s.setup, s.buf.pairs;
    var x := R.CodedAll(ps);
    assert x == s.buf.block[..s.buf.nblock];
    EncodingFits(L.CodeOf(u, x), x);
    L.BlockParts(u, ps);
  }
}
