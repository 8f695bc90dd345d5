/** A stream with too many selectors. */
module OverlongStream {
  // The decompressor stores as many selectors as the block announces, up to 32767, in arrays of 18002 places.

  import opened Arith
  import opened BitStrings
  import opened BlockCodec
  import opened BlockHeader
  import opened BlockStream
  import opened Sequences
  import opened StreamCodec
  import R = RunLength

  /** Only byte 0 is in use. */
  ghost function OnlyZero(): (x: seq<bool>)
    ensures |x| == 256
  {
    seq(256, i => i == 0)
  }

  /** The selectors are all table 0. */
  ghost function ZeroSelectors(count: nat): (r: seq<int>)
    ensures |r| == count && forall i | 0 <= i < count :: r[i] == 0
  {
    Repeat(0, count)
  }

  /** A header, and a block with two tables and one selector too many. */
  ghost function OverlongBits(level: int): seq<int> {
    BytesBits(HEADER) + (BitsOf(8, 0x30 + level) + (BytesBits(BLOCK_MAGIC) + (BitsOf(32, 0) + (BitsOf(1, 0)
      + (BitsOf(24, 0) + (MapBits(OnlyZero())
      + (BitsOf(3, 2) + (BitsOf(15, MAX_SELECTORS + 1) + Repeat(0, MAX_SELECTORS + 1)))))))))
  }

  lemma FirstInFront(n: nat)
    requires n >= 1
    ensures Place(Start(n), 0) == 0 && ToFront(Start(n), 0) == Start(n)
  {
  }

  lemma {:induction false} ZeroOrder(count: nat, n: nat, k: nat)
    requires k <= count && n >= 1
    ensures Order(ZeroSelectors(count), n, k) == Start(n)
  {
    hide Place, ToFront, Start;
    if k > 0 {
      ZeroOrder(count, n, k - 1);
      FirstInFront(n);
    } else {
      OrderStart(ZeroSelectors(count), n);
    }
  }

  lemma ZeroRank(count: nat, n: nat, k: nat)
    requires k < count && n >= 1
    ensures RankAt(ZeroSelectors(count), n, k) == 0
  {
    hide Order, Place, Start;
    ZeroOrder(count, n, k);
    FirstInFront(n);
  }

  lemma {:induction false} ZeroFlatten(pieces: seq<seq<int>>)
    requires forall i | 0 <= i < |pieces| :: pieces[i] == [0]
    ensures Flatten(pieces) == Repeat(0, |pieces|)
  {
    if pieces != [] {
      ZeroFlatten(pieces[..|pieces| - 1]);
      assert Repeat(0, |pieces|) == Repeat(0, |pieces| - 1) + [0];
    }
  }

  lemma ZeroRanks(bits: seq<int>, pos: int, n: nat, count: nat)
    requires At(bits, pos, Repeat(0, count)) && n >= 1
    ensures RanksAt(bits, pos, n, ZeroSelectors(count))
  {
    hide Order, At, RankAt;
    var pieces := UnaryBits(ZeroSelectors(count), n);
    forall k | 0 <= k < count
      ensures pieces[k] == [0]
    {
      ZeroRank(count, n, k);
      assert Unary(0) == [0];
    }
    ZeroFlatten(pieces);
  }

  lemma OverlongParts(bits: seq<int>, level: int)
    requires At(bits, 0, OverlongBits(level))
    ensures At(bits, 0, BytesBits(HEADER)) && At(bits, 24, BitsOf(8, 0x30 + level))
        && At(bits, 32, BytesBits(BLOCK_MAGIC))
    ensures At(bits, 112, BitsOf(1, 0)) && At(bits, 113, BitsOf(24, 0)) && At(bits, 137, MapBits(OnlyZero()))
    ensures var p := 137 + |MapBits(OnlyZero())|;
            && At(bits, p, BitsOf(3, 2)) && At(bits, p + 3, BitsOf(15, MAX_SELECTORS + 1))
            && At(bits, p + 18, Repeat(0, MAX_SELECTORS + 1))
  {
    hide At, BytesBits, BitsOf, MapBits, Repeat;
    var g := Repeat(0, MAX_SELECTORS + 1);
    var f := BitsOf(15, MAX_SELECTORS + 1) + g;
    var e := BitsOf(3, 2) + f;
    var d := MapBits(OnlyZero()) + e;
    var c := BitsOf(24, 0) + d;
    var b := BitsOf(1, 0) + c;
    var a := BitsOf(32, 0) + b;
    AtSplit(bits, 0, BytesBits(HEADER), BitsOf(8, 0x30 + level) + (BytesBits(BLOCK_MAGIC) + a));
    AtSplit(bits, 24, BitsOf(8, 0x30 + level), BytesBits(BLOCK_MAGIC) + a);
    AtSplit(bits, 32, BytesBits(BLOCK_MAGIC), a);
    AtSplit(bits, 80, BitsOf(32, 0), b);
    AtSplit(bits, 112, BitsOf(1, 0), c);
    AtSplit(bits, 113, BitsOf(24, 0), d);
    AtSplit(bits, 137, MapBits(OnlyZero()), e);
    var p := 137 + |MapBits(OnlyZero())|;
    AtSplit(bits, p, BitsOf(3, 2), f);
    AtSplit(bits, p + 3, BitsOf(15, MAX_SELECTORS + 1), g);
  }

  lemma OverlongOverruns(table: seq<int>, bits: seq<int>, level: int)
    requires R.Table(table) && 1 <= level <= 9 && At(bits, 0, OverlongBits(level))
    ensures HeaderIs(bits, level) && OverrunsAfter(table, bits, level, [], 32)
  {
    hide At, BytesBits, BitsOf, MapBits, Repeat, RanksAt, MapAt, OverlongBits;
    OverlongParts(bits, level);
    var p := 137 + |MapBits(OnlyZero())|;
    ZeroRanks(bits, p + 18, 2, MAX_SELECTORS + 1);
    assert Overlong(bits, p, 2, MAX_SELECTORS + 1, ZeroSelectors(MAX_SELECTORS + 1));
    MapBitsAt(bits, 137, OnlyZero());
    assert MapPrefix(bits, 113, level, 0, RowFlags(OnlyZero()), OnlyZero(), p);
    assert OnlyZero()[0];
    assert BlockOverruns(bits, 113, level);
  }

  lemma {:induction false} AsBytes(bits: seq<int>) returns (bytes: seq<int>)
    requires Bits(bits) && |bits| % 8 == 0
    ensures Bytes(bytes) && BytesBits(bytes) == bits
    decreases |bits|
  {
    hide BitsOf, Value, BytesBits;
    bytes := [];
    BytesBitsNone();
    if bits != [] {
      var n := |bits| - 8;
      var front, last := bits[..n], bits[n..];
      bytes := AsBytes(front);
      WordPowers();
      ValueRange(last);
      BitsOfValue(8, Value(last));
      ValueUnique(BitsOf(8, Value(last)), last);
      BytesBitsMore(bytes, Value(last));
      assert bits == front + last;
      bytes := bytes + [Value(last)];
    }
  }

  /** For every level there is a stream whose first block has one selector too many.  `StreamCodec.Decompress` promises
      to end with `SelectorsOverrun` there. */
  lemma OverlongExists(table: seq<int>, level: int) returns (input: seq<int>)
    requires R.Table(table) && 1 <= level <= 9
    ensures Bytes(input) && HeaderIs(BytesBits(input), level)
    ensures OverrunsAfter(table, BytesBits(input), level, [], 32)
  {
    hide BytesBits, BitsOf, OverlongBits, HeaderIs, OverrunsAfter;
    var bits := OverlongBits(level);
    OverlongIsBits(level);
    var all := bits + Repeat(0, 7 - (|bits| + 7) % 8);
    input := AsBytes(all);
    assert At(all, 0, bits);
    OverlongOverruns(table, all, level);
  }

  lemma OverlongIsBits(level: int)
    ensures Bits(OverlongBits(level))
  {
    hide BitsOf, MapBits, BytesBits;
    MapIsBits(OnlyZero());
  }
}
