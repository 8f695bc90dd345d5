/** Whole streams and back. */
module StreamCodec {
  // The decompressor of a whole stream, and what it makes of everything that the compressors produce.

  import opened Arith
  import opened BitStrings
  import opened BitStream
  import opened BlockHeader
  import opened BlockStream
  import opened RunLength
  import opened Sequences
  import opened StreamCalls
  import K = BlockCodec

  /** Compressing a block of the setup gives a compressed form of that block. */
  ghost predicate Faithful(u: Setup)
    requires IsSetup(u)
  {
    forall x | BlockBytes(u.level, x) :: K.IsEncoding(CodeOf(u, x), x)
  }

  /** The end of the stream; a wrong header; an error; too little input; a block with more selectors than there are
      places; or something this model does not follow: a randomised block, or a run on which the source's arithmetic
      means nothing. */
  datatype DecodeStatus = StreamOver | WrongMagic | DataError | NeedInput | SelectorsOverrun | NotModelled

  // ---------------------------------------------------------------- fixed bytes

  /** Reads some bytes that must be there. */
  method Expect(bits: seq<int>, pos: nat, bytes: seq<int>) returns (r: Parse<int>)
    requires pos <= |bits| && Bits(bits) && Bytes(bytes)
    ensures r.Got? ==> r.next == pos + 8 * |bytes| <= |bits| && At(bits, pos, BytesBits(bytes))
    ensures At(bits, pos, BytesBits(bytes)) ==> r.Got?
    ensures !r.Overrun?
  {
    hide At, BytesBits, BitsOf, Pow2;
    ghost var good := At(bits, pos, BytesBits(bytes));
    WordPowers();
    var p := pos;
    NothingAt(bits, pos);
    assert bytes[..0] == [];
    for i := 0 to |bytes|
      invariant p == pos + 8 * i <= |bits| && At(bits, pos, BytesBits(bytes[..i]))
    {
      if good {
        ByteAt(bits, pos, bytes, i);
      }
      var b := ReadNumber(bits, p, 8, bytes[i]);
      if b.Missing? {
        return Missing;
      }
      if b.value != bytes[i] {
        return Malformed;
      }
      NextByteAt(bits, pos, bytes[..i], bytes[i]);
      assert bytes[..i + 1] == bytes[..i] + [bytes[i]];
      p := b.next;
    }
    assert bytes[..|bytes|] == bytes;
    return Got(0, p);
  }

  lemma NothingAt(bits: seq<int>, pos: int)
    requires 0 <= pos <= |bits|
    ensures At(bits, pos, BytesBits([]))
  {
  }

  lemma NextByteAt(bits: seq<int>, pos: int, bytes: seq<int>, x: int)
    requires At(bits, pos, BytesBits(bytes)) && At(bits, pos + 8 * |bytes|, BitsOf(8, x))
    ensures At(bits, pos, BytesBits(bytes + [x]))
  {
    hide At, BytesBits, BitsOf;
    BytesBitsMore(bytes, x);
    AtSplit(bits, pos, BytesBits(bytes), BitsOf(8, x));
  }

  lemma ByteAt(bits: seq<int>, pos: int, bytes: seq<int>, i: nat)
    requires At(bits, pos, BytesBits(bytes)) && i < |bytes|
    ensures At(bits, pos + 8 * i, BitsOf(8, bytes[i]))
  {
    hide *;
    var a, x, c := Around(bytes, i);
    MiddleAt(bits, pos, a, x, c);
  }

  lemma Around(bytes: seq<int>, i: nat) returns (a: seq<int>, x: int, c: seq<int>)
    requires i < |bytes|
    ensures bytes == a + [x] + c && |a| == i && x == bytes[i]
  {
    a, x, c := bytes[..i], bytes[i], bytes[i + 1..];
  }

  lemma MiddleAt(bits: seq<int>, pos: int, a: seq<int>, x: int, c: seq<int>)
    requires At(bits, pos, BytesBits(a + [x] + c))
    ensures At(bits, pos + 8 * |a|, BitsOf(8, x))
  {
    hide *;
    ByteBetween(a, x, c);
    SecondAt(bits, pos, BytesBits(a), BitsOf(8, x), BytesBits(c));
  }

  lemma SecondAt(bits: seq<int>, pos: int, x: seq<int>, y: seq<int>, z: seq<int>)
    requires At(bits, pos, x + y + z)
    ensures At(bits, pos + |x|, y)
  {
    hide At;
    AtSplit(bits, pos, x + y, z);
    AtSplit(bits, pos, x, y);
  }

  // ---------------------------------------------------------------- one block

  /** Expands a block, in pieces of at most 5000 bytes. */
  method ExpandAll(table: seq<int>, src: seq<int>, nblock: nat) returns (ok: bool, out: seq<int>, crc: int)
    requires Table(table) && Bytes(src) && nblock + 2 <= |src|
    ensures ok <==> Expand(src, 0, nblock).ok
    ensures ok ==> out == Expand(src, 0, nblock).bytes && Bytes(out) && crc == Crc(table, out)
  {
    hide Expand, Crc, Table, Bytes, Repeat;
    var u := new Unpacker(table, src, nblock);
    out := [];
    ghost var all := u.Owed();
    while true
      invariant u.Valid() && fresh(u) && u.src == src && u.saveNblock == nblock && u.table == table
      invariant all == out + u.Owed() && u.delivered == out
          && Expand(src, u.used - 1, nblock).ok == Expand(src, 0, nblock).ok
      decreases |u.Owed()|
    {
      ghost var owed, before := u.Owed(), out;
      var piece, corrupt := u.Unpack(MAX_UNUSED);
      assert owed == piece + u.Owed();
      RunLength.Assoc(before, piece, u.Owed());
      out := out + piece;
      if corrupt {
        return false, out, 0;
      }
      if u.used == u.saveNblock + 1 && u.outLen == 0 {
        NothingOwed(u);
        assert out + [] == out;
        return true, out, u.crc;
      }
    }
  }

  lemma NothingOwed(u: Unpacker)
    requires u.Valid() && u.used == u.saveNblock + 1 && u.outLen == 0
    ensures u.Owed() == [] && Expand(u.src, u.used - 1, u.saveNblock).ok && Bytes(u.delivered)
  {
    ExpandEnds(u.src, u.used - 1, u.saveNblock);
  }

  /** One block: its plain bytes and its checksum, and where the next bits begin; or why there is none. */
  datatype OneBlock = Plain(bytes: seq<int>, crc: int, next: nat) | Stopped(status: DecodeStatus)

  /** The bits at `pos`, behind the block's magic number, are the rest of this block. */
  ghost predicate RestAt(bits: seq<int>, pos: int, u: Setup, ps: seq<Pair>) {
    && IsSetup(u) && Faithful(u) && Pairs(ps) && Separated(ps) && BlockBytes(u.level, CodedAll(ps))
    && At(bits, pos, BitsOf(32, BlockCrc(u, ps)) + BitsOf(1, 0) + CodeOf(u, CodedAll(ps)))
  }

  lemma RestParts(bits: seq<int>, pos: int, u: Setup, ps: seq<Pair>)
    requires RestAt(bits, pos, u, ps)
    ensures IsSetup(u) && Pairs(ps) && Separated(ps)
    ensures At(bits, pos, BitsOf(32, BlockCrc(u, ps))) && At(bits, pos + 32, BitsOf(1, 0))
        && At(bits, pos + 33, CodeOf(u, CodedAll(ps)))
    ensures K.IsEncoding(CodeOf(u, CodedAll(ps)), CodedAll(ps)) && |CodedAll(ps)| <= 100_000 * u.level
  {
    hide At, BitsOf, CodeOf, CodedAll, BlockCrc;
    var a, b, c := BitsOf(32, BlockCrc(u, ps)), BitsOf(1, 0), CodeOf(u, CodedAll(ps));
    AtSplit(bits, pos, a + b, c);
    AtSplit(bits, pos, a, b);
  }

  /** Reads and checks one block behind its magic number. */
  method ReadBlock(table: seq<int>, bits: seq<int>, pos: nat, level: int, ghost u: Setup, ghost ps: seq<Pair>)
    returns (r: OneBlock)
    requires Table(table) && pos <= |bits| && Bits(bits) && 1 <= level <= 9
    ensures r.Plain? ==> Bytes(r.bytes) && pos + 33 <= r.next <= |bits|
    ensures r.Plain? ==> r.crc == Not32(Crc(table, r.bytes)) && At(bits, pos, BitsOf(32, r.crc))
    ensures u.table == table && u.level == level && RestAt(bits, pos, u, ps) ==>
              r == Plain(PlainAll(ps), BlockCrc(u, ps), pos + 33 + |CodeOf(u, CodedAll(ps))|)
    ensures r.Stopped? ==> r.status != StreamOver
    ensures r == Stopped(SelectorsOverrun) <==>
        At(bits, pos + 32, BitsOf(1, 0)) && K.BlockOverruns(bits, pos + 33, level)
  {
    hide K.BlockOverruns, At, BitsOf, CodeOf, CodedAll, PlainAll, Expand, Crc, Table, RestAt, K.IsEncoding, Pow2;
    hide BlockCrc;
    ghost var good := u.table == table && u.level == level && RestAt(bits, pos, u, ps);
    WordPowers();
    OneIsPower();
    if good {
      RestParts(bits, pos, u, ps);
    }
    var stored := ReadNumber(bits, pos, 32, if good then BlockCrc(u, ps) else 0);
    if stored.Missing? {
      NothingBehind(bits, pos + 32, 0);
      return Stopped(NeedInput);
    }
    var randomised := ReadNumber(bits, stored.next, 1, 0);
    if randomised.Missing? {
      NothingBehind(bits, pos + 32, 0);
      return Stopped(NeedInput);
    }
    if randomised.value == 1 {
      return Stopped(NotModelled);
    }
    ghost var code, b := [], [];
    if good {
      code, b := CodeOf(u, CodedAll(ps)), CodedAll(ps);
    }
    var k := K.DecompressEncoding(bits, randomised.next, level, b, code);
    if !k.Unpacked? {
      return Stopped(match k
        case More => NeedInput
        case Overran => SelectorsOverrun
        case Meaningless => NotModelled
        case _ => DataError);
    }
    var ok, out, crc := ExpandAll(table, k.src, k.nblock);
    if good {
      BlockExpands(u, ps, k.src, k.nblock);
    }
    if !ok || Not32(crc) != stored.value {
      return Stopped(DataError);
    }
    r := Plain(out, Not32(crc), k.next);
  }

  lemma NothingBehind(bits: seq<int>, pos: int, bit: int)
    requires pos >= |bits|
    ensures !At(bits, pos, BitsOf(1, bit))
  {
  }

  lemma OneIsPower()
    ensures Pow2(1) == 2
  {
  }

  lemma BlockExpands(u: Setup, ps: seq<Pair>, src: seq<int>, n: nat)
    requires IsSetup(u) && Pairs(ps) && Separated(ps) && n == |CodedAll(ps)| && n + 2 <= |src| && Bytes(src)
        && src[..n] == CodedAll(ps)
    ensures Expand(src, 0, n) == Expansion(PlainAll(ps), true) && BlockCrc(u, ps) == Not32(Crc(u.table, PlainAll(ps)))
  {
    hide CodedAll, PlainAll, Expand, Crc;
    assert src[0..n] == src[..n];
    ExpandCoded(src, 0, n, ps);
  }

  // ---------------------------------------------------------------- a whole stream

  /** The input is this stream of these blocks. */
  ghost predicate StreamIn(input: seq<int>, table: seq<int>, u: Setup, bs: seq<seq<Pair>>) {
    && IsSetup(u) && u.table == table && Faithful(u) && Blocks(bs) && Proper(u.level, bs) && IsStream(u, bs, input)
    && forall i | 0 <= i < |bs| :: Separated(bs[i])
  }

  lemma StreamFacts(input: seq<int>, table: seq<int>, u: Setup, bs: seq<seq<Pair>>)
    requires StreamIn(input, table, u, bs)
    ensures IsSetup(u) && u.table == table && 1 <= u.level <= 9 && Blocks(bs) && StreamBits(u, bs) <= BytesBits(input)
  {
    hide StreamBits, BytesBits, Faithful, Proper;
  }

  lemma PrefixAt(all: seq<int>, a: seq<int>, b: seq<int>)
    requires a + b <= all
    ensures At(all, |a|, b)
  {
    assert (a + b)[|a|..] == b;
    assert all[|a|..][..|b|] == all[|a|..|a| + |b|] == b;
  }

  lemma HeaderAt(input: seq<int>, table: seq<int>, u: Setup, bs: seq<seq<Pair>>)
    requires StreamIn(input, table, u, bs)
    ensures HeaderIs(BytesBits(input), u.level) && IsSetup(u) && |Opening(u, [])| == 32
  {
    hide BytesBits, BitsOf, Opening, StreamIn;
    StreamFacts(input, table, u, bs);
    var all := BytesBits(input);
    OpeningGrows(u, bs, 0);
    assert bs[..0] == [];
    OpeningNone(u);
    OpeningFirst(u, bs);
    PrefixChain(HeaderBits(u), Opening(u, bs), StreamBits(u, bs), all);
    assert [] + HeaderBits(u) == HeaderBits(u);
    PrefixAt(all, [], HeaderBits(u));
    AtSplit(all, 0, BytesBits(HEADER), BitsOf(8, 0x30 + u.level));
  }

  lemma OpeningFirst(u: Setup, bs: seq<seq<Pair>>)
    requires IsSetup(u) && Blocks(bs)
    ensures Opening(u, bs) <= StreamBits(u, bs)
  {
    hide Opening, BytesBits, BitsOf;
  }

  /** Where the next block begins. */
  ghost predicate Reached(input: seq<int>, table: seq<int>, u: Setup, bs: seq<seq<Pair>>, i: nat, pos: int,
      out: seq<int>, combined: int) {
    && StreamIn(input, table, u, bs) && i <= |bs| && Blocks(bs[..i])
    && pos == |Opening(u, bs[..i])| && out == PlainBlocks(bs[..i]) && combined == CombinedCrc(u, bs[..i])
  }

  lemma BlockHere(input: seq<int>, table: seq<int>, u: Setup, bs: seq<seq<Pair>>, i: nat, pos: int, out: seq<int>,
      combined: int)
    requires Reached(input, table, u, bs, i, pos, out, combined) && i < |bs|
    ensures At(BytesBits(input), pos, BytesBits(BLOCK_MAGIC)) && RestAt(BytesBits(input), pos + 48, u, bs[i])
  {
    hide BytesBits, BitsOf, Opening, StreamBits, CodedAll, BlockCrc, CodeOf, Faithful, PlainBlocks, CombinedCrc;
    var all, ps := BytesBits(input), bs[i];
    StreamFacts(input, table, u, bs);
    BlockIsPrefix(u, bs, all, i);
    PrefixAt(all, Opening(u, bs[..i]), BlockBits(u, ps));
    BlockParts(u, ps);
    var crc, f := BlockCrc(u, ps), CodeOf(u, CodedAll(ps));
    HeadStarts(crc, f);
    AtSplit(all, pos, BytesBits(BLOCK_MAGIC), BitsOf(32, crc) + BitsOf(1, 0) + f);
  }

  lemma BlockDone(input: seq<int>, table: seq<int>, u: Setup, bs: seq<seq<Pair>>, i: nat, pos: int, out: seq<int>,
      combined: int)
    requires Reached(input, table, u, bs, i, pos, out, combined) && i < |bs| && 0 <= combined < WORD
    ensures IsSetup(u) && Pairs(bs[i])
    ensures Reached(input, table, u, bs, i + 1, pos + 81 + |CodeOf(u, CodedAll(bs[i]))|, out + PlainAll(bs[i]),
        Combine(combined, BlockCrc(u, bs[i])))
  {
    hide BytesBits, BitsOf, Opening, StreamBits, CodedAll, BlockCrc, CodeOf, Faithful, PlainBlocks, CombinedCrc;
    hide PlainAll, Combine, StreamIn, BlockBits;
    StreamFacts(input, table, u, bs);
    var ps := bs[i];
    OpeningMore(u, bs[..i], ps);
    BlocksMore(bs[..i], ps);
    assert bs[..i + 1] == bs[..i] + [ps];
    BlockParts(u, ps);
  }

  lemma EndHere(input: seq<int>, table: seq<int>, u: Setup, bs: seq<seq<Pair>>, pos: int, out: seq<int>, combined: int)
    requires Reached(input, table, u, bs, |bs|, pos, out, combined)
    ensures At(BytesBits(input), pos, BytesBits(END_MAGIC)) && At(BytesBits(input), pos + 48, BitsOf(32, combined))
        && 0 <= combined < WORD
    ensures Blocks(bs) && out == PlainBlocks(bs)
  {
    hide BytesBits, BitsOf, Opening, Faithful, PlainBlocks, CombinedCrc, StreamIn, StreamBits;
    StreamFacts(input, table, u, bs);
    assert bs[..|bs|] == bs;
    var all := BytesBits(input);
    var m, c := BytesBits(END_MAGIC), BitsOf(32, CombinedCrc(u, bs));
    StreamIs(u, bs);
    PrefixAt(all, Opening(u, bs), m + c);
    AtSplit(all, pos, m, c);
  }

  lemma ReachedStart(input: seq<int>, table: seq<int>, u: Setup, bs: seq<seq<Pair>>)
    requires StreamIn(input, table, u, bs)
    ensures Reached(input, table, u, bs, 0, 32, [], 0)
  {
    hide StreamIn, Opening, BytesBits, BitsOf;
    HeaderAt(input, table, u, bs);
    StreamFacts(input, table, u, bs);
    assert bs[..0] == [];
  }

  /** What begins at `pos`: a block, or the end of the stream; or neither. */
  datatype Next = BlockNext(next: nat) | EndNext(next: nat) | NoNext(status: DecodeStatus)

  method ReadMagic(bits: seq<int>, pos: nat) returns (r: Next)
    requires pos <= |bits| && Bits(bits)
    ensures r.BlockNext? || r.EndNext? ==> r.next == pos + 48 <= |bits|
    ensures r.BlockNext? <==> At(bits, pos, BytesBits(BLOCK_MAGIC))
    ensures r.EndNext? <==> At(bits, pos, BytesBits(END_MAGIC))
    ensures r.NoNext? ==> r.status == NeedInput || r.status == DataError
  {
    hide At, BytesBits, BitsOf, Pow2;
    WordPowers();
    MagicParts(bits, pos, BLOCK_MAGIC);
    MagicParts(bits, pos, END_MAGIC);
    FirstByte(bits, pos, 0x31);
    var first := ReadNumber(bits, pos, 8, if At(bits, pos, BitsOf(8, 0x31)) then 0x31 else 0x17);
    if first.Missing? {
      return NoNext(NeedInput);
    }
    if first.value == 0x17 {
      var e := Expect(bits, first.next, END_MAGIC[1..]);
      return match e
        case Got(_, next) => EndNext(next)
        case Missing => NoNext(NeedInput)
        case _ => NoNext(DataError);
    }
    if first.value != 0x31 {
      return NoNext(DataError);
    }
    var e := Expect(bits, first.next, BLOCK_MAGIC[1..]);
    return match e
      case Got(_, next) => BlockNext(next)
      case Missing => NoNext(NeedInput)
      case _ => NoNext(DataError);
  }

  lemma MagicParts(bits: seq<int>, pos: int, magic: seq<int>)
    requires |magic| == 6
    ensures At(bits, pos, BytesBits(magic)) <==>
        At(bits, pos, BitsOf(8, magic[0])) && At(bits, pos + 8, BytesBits(magic[1..]))
  {
    hide At, BytesBits, BitsOf;
    assert magic == [magic[0]] + magic[1..];
    BytesBitsConcat([magic[0]], magic[1..]);
    OneByte(magic[0]);
    AtSplit(bits, pos, BitsOf(8, magic[0]), BytesBits(magic[1..]));
  }

  /** The bits cannot begin with two different bytes. */
  lemma FirstByte(bits: seq<int>, pos: int, v: int)
    requires 0 <= v < 256
    ensures forall w | 0 <= w < 256 && At(bits, pos, BitsOf(8, v)) && At(bits, pos, BitsOf(8, w)) :: v == w
  {
    hide At, BitsOf, Pow2;
    WordPowers();
    forall w | 0 <= w < 256 && At(bits, pos, BitsOf(8, v)) && At(bits, pos, BitsOf(8, w))
      ensures v == w
    {
      AtSlice(bits, pos, BitsOf(8, v));
      AtSlice(bits, pos, BitsOf(8, w));
      BitsOfValue(8, v);
      BitsOfValue(8, w);
    }
  }

  /** The bits begin with the header of a stream of this level. */
  ghost predicate HeaderIs(bits: seq<int>, level: int) {
    1 <= level <= 9 && At(bits, 0, BytesBits(HEADER)) && At(bits, 24, BitsOf(8, 0x30 + level))
  }

  /** Reads the stream header. */
  method ReadHeader(bits: seq<int>, ghost level: int) returns (r: Parse<int>)
    requires Bits(bits)
    ensures r.Got? ==> r.next == 32 <= |bits| && HeaderIs(bits, r.value)
    ensures HeaderIs(bits, level) ==> r == Got(level, 32)
  {
    hide At, BytesBits, BitsOf, Pow2;
    WordPowers();
    var h := Expect(bits, 0, HEADER);
    if !h.Got? {
      return if h.Missing? then Missing else Malformed;
    }
    var l := ReadNumber(bits, 24, 8, if 1 <= level <= 9 then 0x30 + level else 0);
    if l.Missing? {
      return Missing;
    }
    if l.value < 0x31 || l.value > 0x39 {
      return Malformed;
    }
    return Got(l.value - 0x30, 32);
  }

  /** A block that was accepted: where it begins, its plain bytes, its stored checksum, and where it ends. */
  datatype Checked = Checked(pos: nat, bytes: seq<int>, crc: int, next: nat)

  /** The stored checksum is that of the bytes. */
  ghost predicate IsChecked(table: seq<int>, bits: seq<int>, c: Checked)
    requires Table(table)
  {
    && At(bits, c.pos, BytesBits(BLOCK_MAGIC)) && At(bits, c.pos + 48, BitsOf(32, c.crc))
    && Bytes(c.bytes) && c.crc == Not32(Crc(table, c.bytes)) && c.pos + 81 <= c.next <= |bits|
  }

  /** The blocks follow each other from the header up to `pos`. */
  ghost predicate Chain(table: seq<int>, bits: seq<int>, cs: seq<Checked>, pos: int)
    requires Table(table)
  {
    if cs == [] then pos == 32
    else
      var c := cs[|cs| - 1];
      Chain(table, bits, cs[..|cs| - 1], c.pos) && IsChecked(table, bits, c) && pos == c.next
  }

  ghost function BytesOf(cs: seq<Checked>): seq<int> {
    if cs == [] then [] else BytesOf(cs[..|cs| - 1]) + cs[|cs| - 1].bytes
  }

  /** The checksum of the stream, as it is to be stored in the trailer. */
  ghost function SumOf(cs: seq<Checked>): (r: int)
    requires forall i | 0 <= i < |cs| :: 0 <= cs[i].crc < WORD
    ensures 0 <= r < WORD
  {
    if cs == [] then 0 else Combine(SumOf(cs[..|cs| - 1]), cs[|cs| - 1].crc)
  }

  /** These blocks have been accepted, up to `pos`. */
  ghost predicate Progress(table: seq<int>, bits: seq<int>, cs: seq<Checked>, pos: int, out: seq<int>, combined: int)
    requires Table(table)
  {
    && Chain(table, bits, cs, pos) && out == BytesOf(cs)
    && (forall i | 0 <= i < |cs| :: 0 <= cs[i].crc < WORD) && combined == SumOf(cs)
  }

  lemma ProgressStart(table: seq<int>, bits: seq<int>)
    requires Table(table)
    ensures Progress(table, bits, [], 32, [], 0)
  {
  }

  lemma ProgressMore(table: seq<int>, bits: seq<int>, cs: seq<Checked>, pos: int, out: seq<int>, combined: int,
      c: Checked)
    requires Table(table) && Progress(table, bits, cs, pos, out, combined) && 0 <= combined < WORD
    requires IsChecked(table, bits, c) && c.pos == pos
    ensures 0 <= c.crc < WORD && Progress(table, bits, cs + [c], c.next, out + c.bytes, Combine(combined, c.crc))
  {
    hide At, BitsOf, BytesBits, Crc, Combine, Table;
    var ds := cs + [c];
    assert ds[..|ds| - 1] == cs;
  }

  /** Every block's stored checksum is that of its bytes, and that of the stream is the one in the trailer. */
  ghost predicate Accepted(table: seq<int>, bits: seq<int>, cs: seq<Checked>, out: seq<int>)
    requires Table(table)
  {
    exists pos, combined ::
      && Progress(table, bits, cs, pos, out, combined)
      && At(bits, pos, BytesBits(END_MAGIC)) && At(bits, pos + 48, BitsOf(32, combined))
  }

  /** After these blocks comes one with more selectors than there are places. */
  ghost predicate OverrunsAfter(table: seq<int>, bits: seq<int>, level: int, cs: seq<Checked>, pos: int)
    requires Table(table)
  {
    && Chain(table, bits, cs, pos) && At(bits, pos, BytesBits(BLOCK_MAGIC))
    && At(bits, pos + 80, BitsOf(1, 0)) && K.BlockOverruns(bits, pos + 81, level)
  }

  /** Decompresses a whole stream: for every stream of blocks that a faithful compressor could have written, the plain
      bytes of the blocks; and in any case nothing whose checksums do not match. */
  method Decompress(table: seq<int>, input: seq<int>, ghost u: Setup, ghost bs: seq<seq<Pair>>)
    returns (status: DecodeStatus, out: seq<int>, ghost level: int, ghost cs: seq<Checked>)
    requires Table(table) && Bytes(input)
    ensures StreamIn(input, table, u, bs) ==> Blocks(bs) && status == StreamOver && out == PlainBlocks(bs)
    ensures status == StreamOver ==> HeaderIs(BytesBits(input), level) && Accepted(table, BytesBits(input), cs, out)
    ensures status == SelectorsOverrun ==>
              HeaderIs(BytesBits(input), level) && exists pos :: OverrunsAfter(table, BytesBits(input), level, cs, pos)
    ensures (exists l :: HeaderIs(BytesBits(input), l) && OverrunsAfter(table, BytesBits(input), l, [], 32)) ==>
              status == SelectorsOverrun
  {
    hide At, BytesBits, BitsOf, Opening, StreamIn, Reached, PlainBlocks, CombinedCrc, RestAt, Table, Bits, Accepted;
    hide OverrunsAfter, HeaderIs;
    ghost var good := StreamIn(input, table, u, bs);
    var bits := K.AllBits(input);
    BitsAre(input);
    out, cs, level := [], [], 0;
    ghost var wanted := if good then u.level else 0;
    if l :| HeaderIs(bits, l) {
      wanted := l;
    }
    if good {
      StreamFacts(input, table, u, bs);
      HeaderAt(input, table, u, bs);
      ReachedStart(input, table, u, bs);
    }
    var h := ReadHeader(bits, wanted);
    forall l | HeaderIs(bits, l)
      ensures h.Got? && h.value == l
    {
      HeaderUnique(bits, wanted, l);
    }
    if !h.Got? {
      return if h.Missing? then NeedInput else WrongMagic, out, level, cs;
    }
    level := h.value;
    HeaderLevel(bits, h.value);
    status, out, cs := ReadBlocks(table, input, bits, h.value, u, bs);
  }

  lemma HeaderLevel(bits: seq<int>, level: int)
    requires HeaderIs(bits, level)
    ensures 1 <= level <= 9
  {
  }

  lemma HeaderUnique(bits: seq<int>, level: int, level': int)
    requires HeaderIs(bits, level) && HeaderIs(bits, level')
    ensures level == level'
  {
    hide At, BytesBits, BitsOf, Pow2;
    WordPowers();
    NumberUnique(bits, 24, 8, 0x30 + level, 0x30 + level');
  }

  lemma BitsAre(input: seq<int>)
    ensures Bits(BytesBits(input))
  {
  }

  /** Reads blocks up to the end of the stream. */
  method ReadBlocks(table: seq<int>, ghost input: seq<int>, bits: seq<int>, level: int, ghost u: Setup,
      ghost bs: seq<seq<Pair>>)
    returns (status: DecodeStatus, out: seq<int>, ghost cs: seq<Checked>)
    requires Table(table) && bits == BytesBits(input) && Bits(bits) && 1 <= level <= 9 && 32 <= |bits|
    ensures StreamIn(input, table, u, bs) && u.level == level ==>
        Blocks(bs) && status == StreamOver && out == PlainBlocks(bs)
    ensures status == StreamOver ==> Accepted(table, bits, cs, out)
    ensures status == SelectorsOverrun ==> exists pos :: OverrunsAfter(table, bits, level, cs, pos)
    ensures OverrunsAfter(table, bits, level, [], 32) ==> status == SelectorsOverrun
  {
    hide Accepted, OverrunsAfter, Crc, Not32, Progress, IsChecked, K.BlockOverruns, Chain, At, BytesBits, BitsOf;
    hide Opening, StreamIn, Reached, PlainBlocks, CombinedCrc, RestAt, Table, Bits, Combine;
    hide BlockCrc, CodeOf;
    ghost var good := StreamIn(input, table, u, bs) && u.level == level;
    if good {
      StreamFacts(input, table, u, bs);
      ReachedStart(input, table, u, bs);
    }
    var pos, combined := 32, 0;
    out, cs := [], [];
    ProgressStart(table, bits);
    ghost var i := 0;
    while true
      invariant 0 <= pos <= |bits| && 0 <= combined < WORD && Progress(table, bits, cs, pos, out, combined)
      invariant OverrunsAfter(table, bits, level, [], 32) ==> cs == [] && pos == 32
      invariant good ==> i <= |bs| && Reached(input, table, u, bs, i, pos, out, combined)
      decreases |bits| - pos
    {
      if good {
        if i < |bs| {
          BlockHere(input, table, u, bs, i, pos, out, combined);
          BlockDone(input, table, u, bs, i, pos, out, combined);
        } else {
          EndHere(input, table, u, bs, pos, out, combined);
        }
      }
      var m := ReadMagic(bits, pos);
      ProgressOverruns(table, bits, level, cs, pos, out, combined);
      match m {
        case NoNext(why) =>
          return why, out, cs;
        case EndNext(next) =>
          MagicsApart(bits, pos);
          status := ReadEnd(bits, next, combined);
          NowAccepted(table, bits, cs, pos, out, combined);
          return status, out, cs;
        case BlockNext(next) =>
          MagicsApart(bits, pos);
          var r := ReadBlock(table, bits, next, level, u, if good && i < |bs| then bs[i] else []);
          if r.Stopped? {
            return r.status, out, cs;
          }
          ghost var c := Checked(pos, r.bytes, r.crc, r.next);
          NowChecked(table, bits, c);
          ProgressMore(table, bits, cs, pos, out, combined, c);
          out, combined, pos, cs := out + r.bytes, Combine(combined, r.crc), r.next, cs + [c];
          i := i + 1;
      }
    }
  }

  lemma NowChecked(table: seq<int>, bits: seq<int>, c: Checked)
    requires Table(table) && At(bits, c.pos, BytesBits(BLOCK_MAGIC)) && At(bits, c.pos + 48, BitsOf(32, c.crc))
    requires Bytes(c.bytes) && c.crc == Not32(Crc(table, c.bytes)) && c.pos + 81 <= c.next <= |bits|
    ensures IsChecked(table, bits, c)
  {
  }

  lemma NowAccepted(table: seq<int>, bits: seq<int>, cs: seq<Checked>, pos: int, out: seq<int>, combined: int)
    requires Table(table) && Progress(table, bits, cs, pos, out, combined)
    ensures At(bits, pos, BytesBits(END_MAGIC)) && At(bits, pos + 48, BitsOf(32, combined)) ==>
        Accepted(table, bits, cs, out)
  {
  }

  lemma ProgressOverruns(table: seq<int>, bits: seq<int>, level: int, cs: seq<Checked>, pos: int, out: seq<int>,
      combined: int)
    requires Table(table) && Progress(table, bits, cs, pos, out, combined)
    ensures OverrunsAfter(table, bits, level, cs, pos) <==>
              && At(bits, pos, BytesBits(BLOCK_MAGIC))
              && At(bits, pos + 80, BitsOf(1, 0)) && K.BlockOverruns(bits, pos + 81, level)
  {
  }

  lemma MagicsApart(bits: seq<int>, pos: int)
    ensures !(At(bits, pos, BytesBits(END_MAGIC)) && At(bits, pos, BytesBits(BLOCK_MAGIC)))
  {
    hide BytesBits;
    if At(bits, pos, BytesBits(END_MAGIC)) {
      AtSlice(bits, pos, BytesBits(END_MAGIC));
      if At(bits, pos, BytesBits(BLOCK_MAGIC)) {
        AtSlice(bits, pos, BytesBits(BLOCK_MAGIC));
        BytesBitsUnique(END_MAGIC, BLOCK_MAGIC);
      }
    }
  }

  /** Compares the checksum of the stream. */
  method ReadEnd(bits: seq<int>, pos: nat, combined: int) returns (status: DecodeStatus)
    requires pos <= |bits| && Bits(bits) && 0 <= combined < WORD
    ensures status == StreamOver <==> At(bits, pos, BitsOf(32, combined))
    ensures status == StreamOver || status == NeedInput || status == DataError
  {
    hide At, BitsOf, Pow2;
    WordPowers();
    var c := ReadNumber(bits, pos, 32, combined);
    return if c.Missing? then NeedInput else if c.value != combined then DataError else StreamOver;
  }

  // ---------------------------------------------------------------- round trips

  lemma FinishIn(u: Setup, a: seq<int>, b: seq<int>, z: seq<int>)
    requires IsSetup(u) && Faithful(u) && Bytes(a + b) && Blocks(FinishBlocks(u.level, a, b))
        && IsStream(u, FinishBlocks(u.level, a, b), z)
    ensures StreamIn(z, u.table, u, FinishBlocks(u.level, a, b)) && PlainBlocks(FinishBlocks(u.level, a, b)) == a + b
  {
    hide FinishBlocks, IsStream, Faithful, Proper, Blocks, PlainBlocks;
    FinishKeeps(u.level, a, b);
    FinishProper(u.level, a, b);
  }

  /** Compressing through the file interface, or with a stream for every block, and decompressing gives the input
      back. */
  method RoundTrip(u: Setup, pieces: seq<seq<int>>, chunks: seq<seq<int>>)
    returns (status: DecodeStatus, out: seq<int>, status': DecodeStatus, out': seq<int>)
    requires IsSetup(u) && Faithful(u) && Chunks(chunks) && forall i | 0 <= i < |pieces| :: Bytes(pieces[i])
    ensures status == StreamOver && out == Flatten(pieces)
    ensures status' == StreamOver && out' == Flatten(chunks)
  {
    hide IsStream, Faithful, Blocks, FinishBlocks, Split, Ended, Flatten, StreamIn, PlainBlocks;
    var z := WriteAll(u, pieces);
    status, out := DecompressAfter(u, Flatten(pieces), [], z);
    var y := CompressInStreams(u, chunks);
    status', out' := DecompressAfter(u, Flatten(chunks), [], y);
    assert Flatten(pieces) + [] == Flatten(pieces) && Flatten(chunks) + [] == Flatten(chunks);
  }

  /** So does compressing by any calls that bring the last bytes `b` with the request to finish. */
  method DecompressAfter(u: Setup, ghost a: seq<int>, ghost b: seq<int>, z: seq<int>)
    returns (status: DecodeStatus, out: seq<int>)
    requires IsSetup(u) && Faithful(u) && Bytes(a) && Bytes(b)
    requires b == [] ==> Blocks(Ended(Split(u.level, a))) && IsStream(u, Ended(Split(u.level, a)), z)
    requires b != [] ==> Blocks(FinishBlocks(u.level, a, b)) && IsStream(u, FinishBlocks(u.level, a, b), z)
    ensures status == StreamOver && out == a + b
  {
    hide Faithful, FinishBlocks, Split, Ended, StreamIn, PlainBlocks, StreamBits, Blocks;
    EndedIsFinish(u.level, a);
    FinishIn(u, a, b, z);
    ghost var level, cs;
    status, out, level, cs := Decompress(u.table, z, u, FinishBlocks(u.level, a, b));
  }
}
