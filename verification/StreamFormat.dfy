/** What the words and the first and last bytes of a stream are. */
module StreamFormat {
  // The checksums in a stream, bit by bit, and the bytes that every stream begins with.

  import opened Arith
  import opened BitStrings
  import opened BitStream
  import opened BlockStream
  import opened Checksum
  import opened ChecksumTable
  import opened RunLength

  // ---------------------------------------------------------------- words, bit by bit

  lemma {:induction false} XorBits(n: nat, x: nat, y: nat, k: nat)
    requires k < n
    ensures BitsOf(n, Xor(x, y))[k] == if BitsOf(n, x)[k] == BitsOf(n, y)[k] then 0 else 1
  {
    XorHalves(x, y);
    if k < n - 1 {
      XorBits(n - 1, x / 2, y / 2, k);
    }
  }

  lemma ComplementHalves(p: int, x: int)
    requires 0 <= x < 2 * p
    ensures var y := 2 * p - 1 - x; y % 2 == 1 - x % 2 && y / 2 == p - 1 - x / 2 && 0 <= x / 2 < p
  {
  }

  lemma {:induction false} ComplementBits(n: nat, x: int, k: nat)
    requires 0 <= x < Pow2(n) && k < n
    ensures BitsOf(n, Pow2(n) - 1 - x)[k] == 1 - BitsOf(n, x)[k]
  {
    ComplementHalves(Pow2(n - 1), x);
    if k < n - 1 {
      ComplementBits(n - 1, x / 2, k);
    }
  }

  lemma {:induction false} ComplementXor(n: nat, x: int)
    requires 0 <= x < Pow2(n)
    ensures Xor(x, Pow2(n) - 1 - x) == Pow2(n) - 1
  {
    hide Xor;
    if n == 0 {
      XorNothing();
    } else {
      ComplementHalves(Pow2(n - 1), x);
      ComplementXor(n - 1, x / 2);
      XorHalves(x, Pow2(n) - 1 - x);
    }
  }

  /** The stored checksum is the register with every bit inverted. */
  lemma NotBits(x: int)
    requires 0 <= x < WORD
    ensures Xor(x, Not32(x)) == WORD - 1
    ensures forall k | 0 <= k < 32 :: BitsOf(32, Not32(x))[k] == 1 - BitsOf(32, x)[k]
  {
    hide Xor, BitsOf, Pow2;
    WordPowers();
    ComplementXor(32, x);
    forall k | 0 <= k < 32
      ensures BitsOf(32, Not32(x))[k] == 1 - BitsOf(32, x)[k]
    {
      ComplementBits(32, x, k);
    }
  }

  lemma OnePower()
    ensures Pow2(1) == 2
  {
  }

  lemma RotateIs(x: int)
    requires 0 <= x < WORD
    ensures var top, low := x / 0x8000_0000, x % 0x8000_0000;
            x == top * 0x8000_0000 + low && 0 <= top <= 1 && RotateLeft(x) == low * 2 + top
  {
  }

  /** Rotating moves every bit one place up and the top bit to the bottom. */
  lemma RotateBits(x: int)
    requires 0 <= x < WORD
    ensures BitsOf(32, RotateLeft(x)) == BitsOf(32, x)[1..] + BitsOf(32, x)[..1]
  {
    hide BitsOf, Pow2;
    WordPowers();
    OnePower();
    Pow2Add(1, 31);
    var top, low := x / 0x8000_0000, x % 0x8000_0000;
    BitsOfSplit(1, 31, top, low);
    BitsOfSplit(31, 1, low, top);
    RotateIs(x);
  }

  // ---------------------------------------------------------------- the checksums of a stream

  /** With the table of the source, a block's checksum inverts the remainder of its plain bytes. */
  lemma BlockCrcIs(u: Setup, ps: seq<Pair>)
    requires IsSetup(u) && Pairs(ps) && u.table == CrcTable()
    ensures Xor(BlockCrc(u, ps), Remainder(WORD - 1, BytesBits(PlainAll(ps)))) == WORD - 1
    ensures forall k | 0 <= k < 32 :: BitsOf(32, BlockCrc(u, ps))[k] ==
              1 - BitsOf(32, Remainder(WORD - 1, BytesBits(PlainAll(ps))))[k]
  {
    hide Xor, Remainder, Crc, CrcTable, BytesBits, PlainAll, BitsOf, Not32;
    SourceDivides(PlainAll(ps));
    var x := Crc(u.table, PlainAll(ps));
    NotBits(x);
    XorCommutes(x, Not32(x));
  }

  /** How many of the first `n` checksums of `m` blocks have a one in the place that their rotations move to `k`. */
  ghost function OnesAt(u: Setup, bs: seq<seq<Pair>>, m: nat, k: nat, n: nat): nat
    requires IsSetup(u) && Blocks(bs) && n <= |bs|
  {
    if n == 0 then 0 else OnesAt(u, bs, m, k, n - 1) + BitsOf(32, BlockCrc(u, bs[n - 1]))[(k + m - n) % 32]
  }

  lemma NextPlace(k: nat, d: int)
    requires k < 32
    ensures ((k + 1) % 32 + d - 1) % 32 == (k + d) % 32 && (k + 1) % 32 < 32
  {
    if k == 31 {
      assert (k + d) % 32 == (d - 1 + 32) % 32;
    }
  }

  lemma {:induction false} OnesRotated(u: Setup, bs: seq<seq<Pair>>, m: nat, k: nat, n: nat)
    requires IsSetup(u) && Blocks(bs) && n < m <= |bs| && k < 32
    ensures OnesAt(u, bs, m - 1, (k + 1) % 32, n) == OnesAt(u, bs, m, k, n)
  {
    hide BitsOf, BlockCrc, IsSetup;
    if n > 0 {
      OnesRotated(u, bs, m, k, n - 1);
      NextPlace(k, m - n);
    }
  }

  lemma NoOnes(u: Setup, bs: seq<seq<Pair>>, m: nat, k: nat)
    requires IsSetup(u) && Blocks(bs)
    ensures OnesAt(u, bs, m, k, 0) == 0
  {
  }

  lemma LastOnes(u: Setup, bs: seq<seq<Pair>>, m: nat, k: nat)
    requires IsSetup(u) && Blocks(bs) && 0 < m <= |bs| && k < 32
    ensures OnesAt(u, bs, m, k, m) == OnesAt(u, bs, m, k, m - 1) + BitsOf(32, BlockCrc(u, bs[m - 1]))[k]
  {
    hide BitsOf, BlockCrc, IsSetup;
  }

  lemma CombineBits(combined: int, crc: int, k: nat)
    requires 0 <= combined < WORD && 0 <= crc < WORD && k < 32
    ensures BitsOf(32, Combine(combined, crc))[k] == (BitsOf(32, combined)[(k + 1) % 32] + BitsOf(32, crc)[k]) % 2
  {
    hide Xor, BitsOf, RotateLeft;
    XorBits(32, RotateLeft(combined), crc, k);
    RotateBits(combined);
  }

  /** A place of the checksum of the stream is the parity of the blocks' ones that the rotations bring there. */
  lemma {:induction false} CombinedBits(u: Setup, bs: seq<seq<Pair>>, m: nat, k: nat)
    requires IsSetup(u) && Blocks(bs) && m <= |bs| && k < 32
    ensures BitsOf(32, CombinedCrc(u, bs[..m]))[k] == OnesAt(u, bs, m, k, m) % 2
  {
    hide BitsOf, BlockCrc, Combine, IsSetup, OnesAt;
    if m == 0 {
      ZeroBits(32, k);
      NoOnes(u, bs, m, k);
    } else {
      assert bs[..m][..m - 1] == bs[..m - 1];
      var before, crc := CombinedCrc(u, bs[..m - 1]), BlockCrc(u, bs[m - 1]);
      CombineBits(before, crc, k);
      CombinedBits(u, bs, m - 1, (k + 1) % 32);
      OnesRotated(u, bs, m, k, m - 1);
      LastOnes(u, bs, m, k);
    }
  }

  lemma {:induction false} ZeroBits(n: nat, k: nat)
    requires k < n
    ensures BitsOf(n, 0)[k] == 0
  {
    if k < n - 1 {
      ZeroBits(n - 1, k);
    }
  }

  // ---------------------------------------------------------------- the first bytes

  lemma FourBytes(a: int, b: int, c: int, d: int)
    ensures BytesBits([a, b, c, d]) == BitsOf(8, a) + BitsOf(8, b) + BitsOf(8, c) + BitsOf(8, d)
  {
    hide BytesBits, BitsOf;
    BytesBitsNone();
    BytesBitsMore([], a);
    BytesBitsMore([a], b);
    BytesBitsMore([a, b], c);
    BytesBitsMore([a, b, c], d);
    assert [] + [a] == [a] && [a] + [b] == [a, b] && [a, b] + [c] == [a, b, c] && [a, b, c] + [d] == [a, b, c, d];
    assert [] + BitsOf(8, a) == BitsOf(8, a);
  }

  /** A word as four bytes, the highest first. */
  ghost function BigEndian(w: int): (bytes: seq<int>)
    ensures Bytes(bytes) && |bytes| == 4
  {
    [w / TOP % 256, w / 0x1_0000 % 256, w / 0x100 % 256, w % 256]
  }

  lemma BigEndianBits(w: int)
    requires 0 <= w < WORD
    ensures BytesBits(BigEndian(w)) == BitsOf(32, w)
  {
    hide BytesBits, BitsOf;
    WordBits(w);
    FourBytes(w / TOP % 256, w / 0x1_0000 % 256, w / 0x100 % 256, w % 256);
  }

  /** Bytes whose bits begin with those of `xs` begin with `xs`. */
  lemma BytesBegin(bytes: seq<int>, xs: seq<int>, rest: seq<int>)
    requires Bytes(bytes) && Bytes(xs) && BytesBits(bytes) == BytesBits(xs) + rest
    ensures |xs| <= |bytes| && bytes[..|xs|] == xs && BytesBits(bytes[|xs|..]) == rest
  {
    hide BytesBits;
    var n := |xs|;
    assert bytes == bytes[..n] + bytes[n..];
    BytesBitsConcat(bytes[..n], bytes[n..]);
    SplitEqual(BytesBits(bytes[..n]), BytesBits(xs), BytesBits(bytes[n..]), rest);
    BytesBitsUnique(bytes[..n], xs);
  }

  lemma HeaderIs(u: Setup)
    requires IsSetup(u)
    ensures Bytes([0x42, 0x5a, 0x68, 0x30 + u.level])
    ensures HeaderBits(u) == BytesBits([0x42, 0x5a, 0x68, 0x30 + u.level])
  {
    hide BytesBits, BitsOf;
    BytesBitsMore(HEADER, 0x30 + u.level);
    assert HEADER + [0x30 + u.level] == [0x42, 0x5a, 0x68, 0x30 + u.level];
  }

  lemma {:induction false} OpeningBegins(u: Setup, bs: seq<seq<Pair>>) returns (rest: seq<int>)
    requires IsSetup(u) && Blocks(bs) && bs != []
    ensures Opening(u, bs) == HeaderBits(u) + BlockBits(u, bs[0]) + rest
  {
    hide BlockBits, HeaderBits, IsSetup;
    if |bs| == 1 {
      rest := [];
      assert bs[..0] == [];
    } else {
      var front := bs[..|bs| - 1];
      var rest' := OpeningBegins(u, front);
      rest := rest' + BlockBits(u, bs[|bs| - 1]);
    }
  }

  /** The stream of no blocks: header, end mark, and a checksum of zero. */
  lemma EmptyStream(u: Setup, bytes: seq<int>)
    requires IsSetup(u) && Blocks([]) && IsStream(u, [], bytes)
    ensures bytes ==
              [0x42, 0x5a, 0x68, 0x30 + u.level, 0x17, 0x72, 0x45, 0x38, 0x50, 0x90, 0, 0, 0, 0]
  {
    hide BytesBits, BitsOf, Zeros, HeaderBits;
    var header := [0x42, 0x5a, 0x68, 0x30 + u.level];
    HeaderIs(u);
    BigEndianBits(0);
    BytesBitsConcat(header, END_MAGIC);
    BytesBitsConcat(header + END_MAGIC, BigEndian(0));
    assert StreamBits(u, []) == BytesBits(header + END_MAGIC + BigEndian(0));
    BytesBegin(bytes, header + END_MAGIC + BigEndian(0), Zeros(8 * |bytes| - |StreamBits(u, [])|));
  }

  /** Every other stream: header, block mark, and the checksum of the first block. */
  lemma StreamBegins(u: Setup, bs: seq<seq<Pair>>, bytes: seq<int>)
    requires IsSetup(u) && Blocks(bs) && IsStream(u, bs, bytes) && bs != []
    ensures |bytes| >= 14
    ensures bytes[..14] ==
              [0x42, 0x5a, 0x68, 0x30 + u.level, 0x31, 0x41, 0x59, 0x26, 0x53, 0x59] + BigEndian(BlockCrc(u, bs[0]))
  {
    hide BytesBits, BitsOf, Zeros, HeaderBits, IsSetup, BlockCrc, Opening, CombinedCrc, BigEndian;
    var header, crc := [0x42, 0x5a, 0x68, 0x30 + u.level], BlockCrc(u, bs[0]);
    HeaderIs(u);
    BigEndianBits(crc);
    BytesBitsConcat(header, BLOCK_MAGIC);
    BytesBitsConcat(header + BLOCK_MAGIC, BigEndian(crc));
    var rest := OpeningBegins(u, bs);
    var bits := BytesBits(bytes);
    assert BytesBits(header + BLOCK_MAGIC + BigEndian(crc)) <= bits;
    BytesBegin(bytes, header + BLOCK_MAGIC + BigEndian(crc), bits[112..]);
  }
}
