/** A stream that is known byte by byte. */
module KnownStream {
  // The 39 bytes of a bzip2 file of level nine that holds the word "banana": the compressor of this model can write
  // them, and the decompressor reads the word back.

  import opened Arith
  import opened BitStrings
  import opened BitStream
  import opened BlockStream
  import opened Checksum
  import opened ChecksumTable
  import opened Fields
  import opened KnownBlock
  import opened RunLength
  import opened Sequences
  import opened StreamFormat
  import D = StreamCodec
  import E = SomeEncoding
  import G = StreamCalls
  import K = BlockCodec

  const FILE: seq<int> := [
    0x42, 0x5a, 0x68, 0x39, 0x31, 0x41, 0x59, 0x26, 0x53, 0x59, 0xef, 0xb6, 0xec,
    0x01, 0x00, 0x00, 0x01, 0x81, 0x00, 0x30, 0x01, 0x20, 0x00, 0x30, 0xcc, 0x0c,
    0x7a, 0x88, 0x5e, 0x2e, 0xe4, 0x8a, 0x70, 0xa1, 0x21, 0xdf, 0x6d, 0xd8, 0x02]

  // ---------------------------------------------------------------- the checksum

  /** The top bit of a number below `2 * n`, and what it leaves. */
  ghost function TopBit(n: int, d: int): int {
    if d >= n then 1 else 0
  }

  ghost function Rest(n: int, d: int): int {
    if d >= n then d - n else d
  }

  ghost function XorDigit(d: int, e: int): (r: int)
    requires Digit(d) && Digit(e)
    ensures Digit(r)
  {
    var d', e' := Rest(8, d), Rest(8, e);
    var d'', e'' := Rest(4, d'), Rest(4, e');
    8 * Bit(TopBit(8, d), TopBit(8, e)) + 4 * Bit(TopBit(4, d'), TopBit(4, e'))
    + 2 * Bit(TopBit(2, d''), TopBit(2, e'')) + Bit(Rest(2, d''), Rest(2, e''))
  }

  lemma LastDigitXor(a: nat, d: int, c: nat, e: int)
    requires Digit(d) && Digit(e)
    ensures Xor(16 * a + d, 16 * c + e) == 16 * Xor(a, c) + XorDigit(d, e)
  {
    hide Xor;
    var d', e' := Rest(8, d), Rest(8, e);
    var d'', e'' := Rest(4, d'), Rest(4, e');
    FourBitsXor(a, TopBit(8, d), TopBit(4, d'), TopBit(2, d''), Rest(2, d''),
                c, TopBit(8, e), TopBit(4, e'), TopBit(2, e''), Rest(2, e''));
  }

  lemma OneDigitXor(d: int, e: int)
    requires Digit(d) && Digit(e)
    ensures Xor(d, e) == XorDigit(d, e)
  {
    hide Xor, XorDigit;
    XorNothing();
    LastDigitXor(0, d, 0, e);
  }

  lemma ByteXor(d1: int, d0: int, e1: int, e0: int)
    requires Digit(d1) && Digit(d0) && Digit(e1) && Digit(e0)
    ensures Xor(16 * d1 + d0, 16 * e1 + e0) == 16 * XorDigit(d1, e1) + XorDigit(d0, e0)
  {
    hide Xor, XorDigit;
    OneDigitXor(d1, e1);
    LastDigitXor(d1, d0, e1, e0);
  }

  /** Four digits below any others. */
  lemma HalfXor(a: nat, d3: int, d2: int, d1: int, d0: int, c: nat, e3: int, e2: int, e1: int, e0: int)
    requires Digit(d3) && Digit(d2) && Digit(d1) && Digit(d0) && Digit(e3) && Digit(e2) && Digit(e1) && Digit(e0)
    ensures Xor(0x1_0000 * a + 0x1000 * d3 + 0x100 * d2 + 0x10 * d1 + d0,
                0x1_0000 * c + 0x1000 * e3 + 0x100 * e2 + 0x10 * e1 + e0) ==
              0x1_0000 * Xor(a, c) + 0x1000 * XorDigit(d3, e3) + 0x100 * XorDigit(d2, e2) + 0x10 * XorDigit(d1, e1)
                + XorDigit(d0, e0)
  {
    hide Xor, XorDigit;
    LastDigitXor(a, d3, c, e3);
    LastDigitXor(16 * a + d3, d2, 16 * c + e3, e2);
    LastDigitXor(0x100 * a + 0x10 * d3 + d2, d1, 0x100 * c + 0x10 * e3 + e2, e1);
    LastDigitXor(0x1000 * a + 0x100 * d3 + 0x10 * d2 + d1, d0, 0x1000 * c + 0x100 * e3 + 0x10 * e2 + e1, e0);
  }

  lemma WordXor(d7: int, d6: int, d5: int, d4: int, d3: int, d2: int, d1: int, d0: int, e7: int, e6: int, e5: int,
      e4: int, e3: int, e2: int, e1: int, e0: int)
    requires Digit(d7) && Digit(d6) && Digit(d5) && Digit(d4) && Digit(d3) && Digit(d2) && Digit(d1) && Digit(d0)
    requires Digit(e7) && Digit(e6) && Digit(e5) && Digit(e4) && Digit(e3) && Digit(e2) && Digit(e1) && Digit(e0)
    ensures Xor(Hex(d7, d6, d5, d4, d3, d2, d1, d0), Hex(e7, e6, e5, e4, e3, e2, e1, e0)) ==
              Hex(XorDigit(d7, e7), XorDigit(d6, e6), XorDigit(d5, e5), XorDigit(d4, e4), XorDigit(d3, e3),
                  XorDigit(d2, e2), XorDigit(d1, e1), XorDigit(d0, e0))
  {
    hide Xor, XorDigit;
    XorNothing();
    HalfXor(0, d7, d6, d5, d4, 0, e7, e6, e5, e4);
    HalfXor(0x1000 * d7 + 0x100 * d6 + 0x10 * d5 + d4, d3, d2, d1, d0,
            0x1000 * e7 + 0x100 * e6 + 0x10 * e5 + e4, e3, e2, e1, e0);
  }

  lemma ShiftedUp(c7: int, c6: int, c5: int, c4: int, c3: int, c2: int, c1: int, c0: int)
    requires Digit(c7) && Digit(c6) && Digit(c5) && Digit(c4) && Digit(c3) && Digit(c2) && Digit(c1) && Digit(c0)
    ensures var crc := Hex(c7, c6, c5, c4, c3, c2, c1, c0);
            && 0 <= crc < WORD && crc / TOP == 16 * c7 + c6 && crc * 256 % WORD == Hex(c5, c4, c3, c2, c1, c0, 0, 0)
  {
  }

  lemma ZeroDigit(e: int)
    requires Digit(e)
    ensures XorDigit(0, e) == e
  {
  }

  /** One byte more, digit by digit. */
  lemma CrcStep(c7: int, c6: int, c5: int, c4: int, c3: int, c2: int, c1: int, c0: int, h1: int, h0: int, t7: int,
      t6: int, t5: int, t4: int, t3: int, t2: int, t1: int, t0: int)
    requires Digit(c7) && Digit(c6) && Digit(c5) && Digit(c4) && Digit(c3) && Digit(c2) && Digit(c1) && Digit(c0)
    requires Digit(t7) && Digit(t6) && Digit(t5) && Digit(t4) && Digit(t3) && Digit(t2) && Digit(t1) && Digit(t0)
    requires Digit(h1) && Digit(h0) && Table(CrcTable())
    requires CrcTable()[16 * XorDigit(c7, h1) + XorDigit(c6, h0)] == Hex(t7, t6, t5, t4, t3, t2, t1, t0)
    ensures 0 <= Hex(c7, c6, c5, c4, c3, c2, c1, c0) < WORD
    ensures UpdateCrc(CrcTable(), Hex(c7, c6, c5, c4, c3, c2, c1, c0), 16 * h1 + h0) ==
              Hex(XorDigit(c5, t7), XorDigit(c4, t6), XorDigit(c3, t5), XorDigit(c2, t4), XorDigit(c1, t3),
                  XorDigit(c0, t2), t1, t0)
  {
    hide Xor, XorDigit, CrcTable, Table, Hex;
    ShiftedUp(c7, c6, c5, c4, c3, c2, c1, c0);
    ByteXor(c7, c6, h1, h0);
    WordXor(c5, c4, c3, c2, c1, c0, 0, 0, t7, t6, t5, t4, t3, t2, t1, t0);
    ZeroDigit(t1);
    ZeroDigit(t0);
  }

  lemma EntriesAre()
    ensures CrcTable()[0x9d] == 0x14d0_bd4d && CrcTable()[0x8a] == 0x4686_3638 && CrcTable()[0x07] == 0x1e47_5005
    ensures CrcTable()[0xbb] == 0x9675_461f && CrcTable()[0xc4] == 0x4e8e_e645 && CrcTable()[0x32] == 0xddb0_56fe
  {
  }

  lemma TableIs()
    ensures Table(CrcTable())
  {
    hide IsCrcTable, CrcTable;
    CrcTableIs();
    TableFrom(CrcTable());
  }

  /** The register after each byte of the word. */
  lemma FirstUpdates()
    requires Table(CrcTable())
    ensures UpdateCrc(CrcTable(), 0xffff_ffff, 98) == 0xeb2f_424d
    ensures UpdateCrc(CrcTable(), 0xeb2f_424d, 97) == 0x69c4_7b38
    ensures UpdateCrc(CrcTable(), 0x69c4_7b38, 110) == 0xda3c_6805
  {
    hide CrcTable, Table, UpdateCrc;
    EntriesAre();
    CrcStep(15, 15, 15, 15, 15, 15, 15, 15, 6, 2, 1, 4, 13, 0, 11, 13, 4, 13);
    CrcStep(14, 11, 2, 15, 4, 2, 4, 13, 6, 1, 4, 6, 8, 6, 3, 6, 3, 8);
    CrcStep(6, 9, 12, 4, 7, 11, 3, 8, 6, 14, 1, 14, 4, 7, 5, 0, 0, 5);
  }

  lemma LastUpdates()
    requires Table(CrcTable())
    ensures UpdateCrc(CrcTable(), 0xda3c_6805, 97) == 0xaa1d_431f
    ensures UpdateCrc(CrcTable(), 0xaa1d_431f, 110) == 0x53cd_f945
    ensures UpdateCrc(CrcTable(), 0x53cd_f945, 97) == 0x1049_13fe
  {
    hide CrcTable, Table, UpdateCrc;
    EntriesAre();
    CrcStep(13, 10, 3, 12, 6, 8, 0, 5, 6, 1, 9, 6, 7, 5, 4, 6, 1, 15);
    CrcStep(10, 10, 1, 13, 4, 3, 1, 15, 6, 14, 4, 14, 8, 14, 14, 6, 4, 5);
    CrcStep(5, 3, 12, 13, 15, 9, 4, 5, 6, 1, 13, 13, 11, 0, 5, 6, 15, 14);
  }

  lemma CrcThree(table: seq<int>, xs: seq<int>, a: int, b: int, c: int)
    requires Table(table) && Bytes(xs) && 0 <= a < 256 && 0 <= b < 256 && 0 <= c < 256
    ensures Bytes(xs + [a, b, c])
    ensures Crc(table, xs + [a, b, c]) == UpdateCrc(table, UpdateCrc(table, UpdateCrc(table, Crc(table, xs), a), b), c)
  {
    hide Table, UpdateCrc, Crc;
    CrcMore(table, xs, a);
    CrcMore(table, xs + [a], b);
    CrcMore(table, xs + [a] + [b], c);
    assert xs + [a] + [b] + [c] == xs + [a, b, c];
  }

  lemma WordCrc()
    ensures Table(CrcTable()) && Bytes(TEXT) && Not32(Crc(CrcTable(), TEXT)) == 0xefb6_ec01
  {
    hide CrcTable, Table, UpdateCrc, Crc, Bytes;
    TableIs();
    CrcNone(CrcTable());
    FirstUpdates();
    LastUpdates();
    CrcThree(CrcTable(), [], 98, 97, 110);
    CrcThree(CrcTable(), [] + [98, 97, 110], 97, 110, 97);
    assert [] + [98, 97, 110] + [97, 110, 97] == TEXT;
  }

  lemma CrcNone(table: seq<int>)
    requires Table(table)
    ensures Bytes([]) && Crc(table, []) == 0xffff_ffff
  {
  }

  // ---------------------------------------------------------------- the runs

  /** Runs of one byte each. */
  ghost function Singles(xs: seq<int>): (ps: seq<Pair>)
    ensures |ps| == |xs|
  {
    seq(|xs|, i requires 0 <= i < |xs| => Pair(xs[i], 1))
  }

  lemma {:induction false} SinglesStand(xs: seq<int>)
    requires Bytes(xs)
    ensures Pairs(Singles(xs)) && PlainAll(Singles(xs)) == xs && CodedAll(Singles(xs)) == xs
  {
    hide PlainAll, CodedAll;
    if xs == [] {
      AllNone();
      assert Singles([]) == [];
    } else {
      var n := |xs| - 1;
      SinglesStand(xs[..n]);
      assert Singles(xs) == Singles(xs[..n]) + [Pair(xs[n], 1)];
      AllMore(Singles(xs[..n]), Pair(xs[n], 1));
      assert Coded(Pair(xs[n], 1)) == [xs[n]] == Plain(Pair(xs[n], 1));
      assert xs == xs[..n] + [xs[n]];
    }
  }

  /** Input without equal neighbours that does not fill a block. */
  lemma {:induction false} SinglesSplit(xs: seq<int>)
    requires Bytes(xs) && 0 < |xs| < 100 && forall i | 0 <= i < |xs| - 1 :: xs[i] != xs[i + 1]
    ensures Split(9, xs) == Splitter([], Runs(xs[|xs| - 1], 1, Singles(xs[..|xs| - 1])))
  {
    hide CodedAll;
    var n := |xs| - 1;
    SinglesStand(xs[..n]);
    assert xs == xs[..n] + [xs[n]];
    if n == 0 {
      assert xs[..0] == [] && Singles([]) == [];
      assert Split(9, []) == Splitter([], Runs(256, 0, []));
    } else {
      var m := n - 1;
      assert xs[m] != xs[m + 1];
      SinglesSplit(xs[..n]);
      assert xs[..n][..m] == xs[..m];
      assert Singles(xs[..n]) == Singles(xs[..m]) + [Pair(xs[m], 1)];
    }
  }

  lemma WordBlocks()
    ensures Bytes(TEXT) && FinishBlocks(9, TEXT, []) == [Singles(TEXT)]
  {
    hide Split;
    SinglesSplit(TEXT);
    assert Singles(TEXT) == Singles(TEXT[..5]) + [Pair(TEXT[5], 1)];
    assert [] + [Singles(TEXT)] == [Singles(TEXT)];
  }

  // ---------------------------------------------------------------- the bytes

  lemma SixBytes(a: int, b: int, c: int, d: int, e: int, f: int)
    requires 0 <= a < 256 && 0 <= b < 256 && 0 <= c < 256 && 0 <= d < 256 && 0 <= e < 256 && 0 <= f < 256
    ensures BytesBits([a, b, c, d, e, f]) ==
              BitsOf(48, 0x100_0000_0000 * a + 0x1_0000_0000 * b + 0x100_0000 * c + 0x1_0000 * d + 0x100 * e + f)
  {
    hide BytesBits, BitsOf, Pow2;
    WordPowers();
    FourBytes(a, b, c, d);
    BytesBitsMore([a, b, c, d], e);
    BytesBitsMore([a, b, c, d, e], f);
    assert [a, b, c, d] + [e] == [a, b, c, d, e] && [a, b, c, d, e] + [f] == [a, b, c, d, e, f];
    Append(8, a, 8, b, 256);
    Append(16, 0x100 * a + b, 8, c, 256);
    Append(24, 0x1_0000 * a + 0x100 * b + c, 8, d, 256);
    Append(32, 0x100_0000 * a + 0x1_0000 * b + 0x100 * c + d, 8, e, 256);
    Append(40, 0x1_0000_0000 * a + 0x100_0000 * b + 0x1_0000 * c + 0x100 * d + e, 8, f, 256);
  }

  lemma SixMore(xs: seq<int>, n: nat, v: int, a: int, b: int, c: int, d: int, e: int, f: int, w: int)
    requires BytesBits(xs) == BitsOf(n, v)
    requires 0 <= a < 256 && 0 <= b < 256 && 0 <= c < 256 && 0 <= d < 256 && 0 <= e < 256 && 0 <= f < 256
    requires w == 0x100_0000_0000 * a + 0x1_0000_0000 * b + 0x100_0000 * c + 0x1_0000 * d + 0x100 * e + f
    ensures BytesBits(xs + [a, b, c, d, e, f]) == BitsOf(n + 48, v * 0x1_0000_0000_0000 + w)
  {
    hide BytesBits, BitsOf, Pow2;
    LongPowers();
    SixBytes(a, b, c, d, e, f);
    BytesBitsConcat(xs, [a, b, c, d, e, f]);
    Append(n, v, 48, w, 0x1_0000_0000_0000);
  }

  lemma LongPowers()
    ensures Pow2(48) == 0x1_0000_0000_0000 && Pow2(1) == 2
    ensures Pow2(118) == 0x40_0000_0000_0000_0000_0000_0000_0000
  {
    Powers();
    WordPowers();
    Pow2Add(32, 16);
    Pow2Add(94, 24);
  }

  const START: seq<int> := [
    0x42, 0x5a, 0x68, 0x39, 0x31, 0x41, 0x59, 0x26, 0x53, 0x59, 0xef, 0xb6, 0xec, 0x01, 0x00, 0x00, 0x01, 0x81]

  /** The first half of the file as a number. */
  lemma StartIs()
    ensures BytesBits(START) == BitsOf(144, 0x425a_6839_3141_5926_5359_efb6_ec01_0000_0181)
  {
    hide BytesBits, BitsOf;
    BytesBitsNone();
    NoBits();
    SixMore([], 0, 0, 0x42, 0x5a, 0x68, 0x39, 0x31, 0x41, 0x425a_6839_3141);
    var xs := [] + [0x42, 0x5a, 0x68, 0x39, 0x31, 0x41];
    SixMore(xs, 48, 0x425a_6839_3141, 0x59, 0x26, 0x53, 0x59, 0xef, 0xb6, 0x5926_5359_efb6);
    var ys := xs + [0x59, 0x26, 0x53, 0x59, 0xef, 0xb6];
    SixMore(ys, 96, 0x425a_6839_3141_5926_5359_efb6, 0xec, 0x01, 0x00, 0x00, 0x01, 0x81, 0xec01_0000_0181);
    assert ys + [0xec, 0x01, 0x00, 0x00, 0x01, 0x81] == START;
  }

  lemma NoBits()
    ensures BitsOf(0, 0) == []
  {
  }

  lemma FileIs()
    ensures BytesBits(FILE) == BitsOf(312,
              0x42_5a68_3931_4159_2653_59ef_b6ec_0100_0001_8100_3001_2000_30cc_0c7a_885e_2ee4_8a70_a121_df6d_d802)
  {
    hide BytesBits, BitsOf, Pow2;
    StartIs();
    WordPowers();
    SixMore(START, 144, 0x425a_6839_3141_5926_5359_efb6_ec01_0000_0181,
            0x00, 0x30, 0x01, 0x20, 0x00, 0x30, 0x30_0120_0030);
    var xs := START + [0x00, 0x30, 0x01, 0x20, 0x00, 0x30];
    SixMore(xs, 192, 0x425a_6839_3141_5926_5359_efb6_ec01_0000_0181_0030_0120_0030,
            0xcc, 0x0c, 0x7a, 0x88, 0x5e, 0x2e, 0xcc0c_7a88_5e2e);
    var ys := xs + [0xcc, 0x0c, 0x7a, 0x88, 0x5e, 0x2e];
    var v := 0x425a_6839_3141_5926_5359_efb6_ec01_0000_0181_0030_0120_0030_cc0c_7a88_5e2e;
    SixMore(ys, 240, v, 0xe4, 0x8a, 0x70, 0xa1, 0x21, 0xdf, 0xe48a_70a1_21df);
    var zs := ys + [0xe4, 0x8a, 0x70, 0xa1, 0x21, 0xdf];
    BytesBitsMore(zs, 0x6d);
    BytesBitsMore(zs + [0x6d], 0xd8);
    BytesBitsMore(zs + [0x6d] + [0xd8], 0x02);
    var w := v * 0x1_0000_0000_0000 + 0xe48a_70a1_21df;
    Append(288, w, 8, 0x6d, 256);
    Append(296, w * 256 + 0x6d, 8, 0xd8, 256);
    Append(304, w * 0x1_0000 + 0x6dd8, 8, 0x02, 256);
    assert zs + [0x6d] + [0xd8] + [0x02] == FILE;
  }

  // ---------------------------------------------------------------- the stream

  /** A compressor that follows the source and writes these bits for the word. */
  ghost predicate Compresses(u: Setup) {
    && IsSetup(u) && D.Faithful(u) && u.level == 9 && u.table == CrcTable()
    && G.CodeOf(u, TEXT) == BitsOf(118, 0xc080_1800_9000_1866_063d_442f)
  }

  lemma CompressorExists() returns (u: Setup)
    ensures Compresses(u)
  {
    hide K.IsEncoding, CrcTable, FieldsBits, AreFields, BitsOf, E.Encode, Table;
    TableIs();
    WordEncoded();
    var fs := E.BitsAsFields(BitsOf(118, 0xc080_1800_9000_1866_063d_442f));
    u := Setup(9, CrcTable(), (x, inUse) => if x == TEXT then fs else E.Encode(x));
    forall x | G.BlockBytes(9, x)
      ensures K.IsEncoding(G.CodeOf(u, x), x)
    {
    }
  }

  lemma WordChecksums(u: Setup)
    requires IsSetup(u) && u.table == CrcTable()
    ensures Pairs(Singles(TEXT)) && BlockCrc(u, Singles(TEXT)) == 0xefb6_ec01
    ensures Blocks([Singles(TEXT)]) && CombinedCrc(u, [Singles(TEXT)]) == 0xefb6_ec01
  {
    hide IsSetup, CrcTable, Crc, PlainAll, CodedAll, Xor;
    WordCrc();
    SinglesStand(TEXT);
    var bs := [Singles(TEXT)];
    assert bs[..0] == [];
    assert CombinedCrc(u, []) == 0;
    XorZero(0xefb6_ec01);
  }

  lemma OpeningOfOne(u: Setup, ps: seq<Pair>)
    requires IsSetup(u) && Pairs(ps)
    ensures Blocks([ps]) && Opening(u, [ps]) == HeaderBits(u) + BlockBits(u, ps)
  {
    hide IsSetup, BlockBits, HeaderBits, Pairs;
    assert [ps][..0] == [];
    OpeningNone(u);
  }

  lemma WordBits(u: Setup)
    requires Compresses(u)
    ensures Pairs(Singles(TEXT))
    ensures BlockBits(u, Singles(TEXT)) == BytesBits(BLOCK_MAGIC) + BitsOf(32, 0xefb6_ec01) + BitsOf(1, 0)
              + BitsOf(118, 0xc080_1800_9000_1866_063d_442f)
  {
    hide D.Faithful, IsSetup, CrcTable, BitsOf, BytesBits, FieldsBits, PlainAll, CodedAll, BlockCrc, Singles, InUse;
    WordChecksums(u);
    SinglesAre();
  }

  lemma SinglesAre()
    ensures Pairs(Singles(TEXT)) && CodedAll(Singles(TEXT)) == TEXT
  {
    hide PlainAll, CodedAll;
    SinglesStand(TEXT);
  }

  /** The first 231 bits as a number. */
  lemma OpeningNumber()
    ensures BytesBits([0x42, 0x5a, 0x68, 0x39])
              + (BytesBits(BLOCK_MAGIC) + BitsOf(32, 0xefb6_ec01) + BitsOf(1, 0)
                 + BitsOf(118, 0xc080_1800_9000_1866_063d_442f)) ==
            BitsOf(231, 0x21_2d34_1c98_a0ac_9329_acf7_db76_0080_0000_c080_1800_9000_1866_063d_442f)
  {
    hide BitsOf, Pow2, BytesBits;
    BigEndianBits(0x425a_6839);
    LongPowers();
    WordPowers();
    SixBytes(0x31, 0x41, 0x59, 0x26, 0x53, 0x59);
    Append(32, 0x425a_6839, 48, 0x3141_5926_5359, 0x1_0000_0000_0000);
    Append(80, 0x425a_6839_3141_5926_5359, 32, 0xefb6_ec01, WORD);
    Append(112, 0x425a_6839_3141_5926_5359_efb6_ec01, 1, 0, 2);
    Append(113, 0x84b4_d072_6282_b24c_a6b3_df6d_d802, 118, 0xc080_1800_9000_1866_063d_442f,
           0x40_0000_0000_0000_0000_0000_0000_0000);
    Regroup(BytesBits([0x42, 0x5a, 0x68, 0x39]), BytesBits(BLOCK_MAGIC), BitsOf(32, 0xefb6_ec01), BitsOf(1, 0),
            BitsOf(118, 0xc080_1800_9000_1866_063d_442f));
  }

  lemma Regroup(a: seq<int>, b: seq<int>, c: seq<int>, d: seq<int>, e: seq<int>)
    ensures a + (b + c + d + e) == a + b + c + d + e
  {
  }

  lemma WordOpening(u: Setup)
    requires Compresses(u)
    ensures Blocks([Singles(TEXT)])
    ensures Opening(u, [Singles(TEXT)]) ==
              BitsOf(231, 0x21_2d34_1c98_a0ac_9329_acf7_db76_0080_0000_c080_1800_9000_1866_063d_442f)
  {
    hide D.Faithful, IsSetup, CrcTable, BitsOf, BytesBits, BlockBits, HeaderBits, Opening, Singles, G.CodeOf;
    WordBits(u);
    OpeningOfOne(u, Singles(TEXT));
    HeaderIs(u);
    OpeningNumber();
  }

  lemma OneZero()
    ensures Zeros(1) == BitsOf(1, 0)
  {
    TwoBits();
  }

  /** The last 81 bits after any others, as a number. */
  lemma ClosingNumber(v: int)
    ensures BitsOf(231, v) + BytesBits(END_MAGIC) + BitsOf(32, 0xefb6_ec01) + Zeros(1) ==
              BitsOf(312, ((v * 0x1_0000_0000_0000 + 0x1772_4538_5090) * WORD + 0xefb6_ec01) * 2)
  {
    hide BitsOf, Pow2, BytesBits, Zeros;
    OneZero();
    LongPowers();
    WordPowers();
    SixBytes(0x17, 0x72, 0x45, 0x38, 0x50, 0x90);
    Append(231, v, 48, 0x1772_4538_5090, 0x1_0000_0000_0000);
    Append(279, v * 0x1_0000_0000_0000 + 0x1772_4538_5090, 32, 0xefb6_ec01, WORD);
    Append(311, (v * 0x1_0000_0000_0000 + 0x1772_4538_5090) * WORD + 0xefb6_ec01, 1, 0, 2);
  }

  lemma FileBytes()
    ensures Bytes(FILE) && |FILE| == 39
  {
  }

  lemma StreamIsFile(u: Setup)
    requires Compresses(u)
    ensures Blocks([Singles(TEXT)]) && IsStream(u, [Singles(TEXT)], FILE)
  {
    hide D.Faithful, IsSetup, CrcTable, BitsOf, BytesBits, Opening, CombinedCrc, Zeros, Singles, Bytes;
    WordOpening(u);
    WordChecksums(u);
    FileIs();
    FileBytes();
    ClosingNumber(0x21_2d34_1c98_a0ac_9329_acf7_db76_0080_0000_c080_1800_9000_1866_063d_442f);
  }

  /** Compressing the word can give the 39 bytes. */
  lemma WordStream() returns (u: Setup)
    ensures Compresses(u) && IsSetup(u) && D.Faithful(u) && Blocks(FinishBlocks(9, TEXT, []))
    ensures IsStream(u, FinishBlocks(9, TEXT, []), FILE)
  {
    hide D.Faithful, IsStream, FinishBlocks;
    u := CompressorExists();
    WordBlocks();
    StreamIsFile(u);
  }

  /** Decompressing the 39 bytes gives the word. */
  method ReadFile() returns (status: D.DecodeStatus, out: seq<int>)
    ensures status == D.StreamOver && out == TEXT
  {
    hide D.Faithful, IsStream, IsSetup, CrcTable, Table, D.Accepted, D.HeaderIs, D.OverrunsAfter, BytesBits, D.StreamIn;
    TableIs();
    ghost var u := CompressorExists();
    FileReady(u);
    ghost var level, cs;
    status, out, level, cs := D.Decompress(CrcTable(), FILE, u, [Singles(TEXT)]);
    WordAlone();
  }

  lemma FileReady(u: Setup)
    requires Compresses(u)
    ensures Bytes(FILE) && D.StreamIn(FILE, CrcTable(), u, [Singles(TEXT)])
  {
    hide D.Faithful, IsStream, CrcTable, CodedAll, IsSetup, Singles, Bytes, Separated, G.CodeOf;
    FileBytes();
    StreamIsFile(u);
    SinglesAre();
    SinglesSeparated();
    TextBytes();
  }

  lemma TextBytes()
    ensures Bytes(TEXT)
  {
  }

  lemma SinglesSeparated()
    ensures Separated(Singles(TEXT))
  {
  }

  lemma WordAlone()
    ensures Blocks([Singles(TEXT)]) && PlainBlocks([Singles(TEXT)]) == TEXT
  {
    hide PlainAll;
    SinglesStand(TEXT);
    assert [Singles(TEXT)][..0] == [];
    assert PlainBlocks([]) == [];
    assert [] + TEXT == TEXT;
  }
}
